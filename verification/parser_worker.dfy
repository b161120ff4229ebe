/**
 * The single-flight parse queue of `parserWorker.ts`: jobs wait in a FIFO
 * queue, at most one is handed to the worker at a time, the worker's answer
 * settles the promise registered for the font, and a queued font can be moved
 * to the front.
 *
 * The worker is an external party: `OnMessage` is the event of its answer to
 * the job in flight. Messages posted to the worker are recorded in
 * `dispatched`, and settled promises in `settled`; a promise is identified by
 * the number `ParseFontInWorker` hands out for it.
 */
module ParserWorker {
  import opened Wrappers
  import opened BrowserFile
  import opened Parser

  type FontId = string
  type PromiseId = nat

  datatype QueueItem = QueueItem(fontId: FontId, file: File)

  /** The worker's answer: the parsed summary on success, the error text on failure. */
  datatype Response = Response(fontId: FontId, parsed: Option<ParsedFont>, error: Option<string>)

  /** How a promise was settled; a resolution may carry `undefined` (`None`). */
  datatype Outcome = Resolved(parsed: Option<ParsedFont>) | Rejected(message: string)

  datatype Settlement = Settlement(promise: PromiseId, outcome: Outcome)

  // ---------------------------------------------------------------------------
  // Settling a promise from a response
  // ---------------------------------------------------------------------------

  /**
   * The choice `onmessage` makes as written: it rejects when `e.data.error`
   * is truthy, so an empty error text counts as success and the promise is
   * resolved with `e.data.parsed`, which a failed parse leaves undefined.
   */
  function OutcomeAsWritten(response: Response): (o: Outcome)
    ensures o.Rejected? <==> response.error.Some? && response.error.value != ""
    ensures o.Rejected? ==> o.message == response.error.value
    ensures o.Resolved? ==> o.parsed == response.parsed
  {
    match response.error
    case Some(message) => if message != "" then Rejected(message) else Resolved(response.parsed)
    case None => Resolved(response.parsed)
  }

  /** A worker failure whose error text is empty resolves the promise with `undefined`. */
  lemma EmptyErrorResolvesWithNothing(fontId: FontId)
    ensures OutcomeAsWritten(Response(fontId, None, Some(""))) == Resolved(None)
  {
  }

  /** The intended choice: a response rejects exactly when it carries an error. */
  function OutcomeOf(response: Response): (o: Outcome)
    ensures o.Rejected? <==> response.error.Some?
    ensures o.Rejected? ==> o.message == response.error.value
    ensures o.Resolved? ==> o.parsed == response.parsed
  {
    match response.error
    case Some(message) => Rejected(message)
    case None => Resolved(response.parsed)
  }

  /** The two agree on every response except one with an empty error text. */
  lemma OutcomesAgreeOnNonEmptyErrors(response: Response)
    ensures OutcomeAsWritten(response) == OutcomeOf(response) <==> response.error != Some("")
  {
  }

  /**
   * The worker itself answers a failure with `{fontId, error}` and a success
   * with `{fontId, parsed}` (src/workers/fontParser.worker.ts); under the
   * intended choice every failure rejects and every success resolves with
   * the summary.
   */
  lemma WorkerAnswersSettleAsIntended(fontId: FontId, parsed: ParsedFont, message: string)
    ensures OutcomeOf(Response(fontId, Some(parsed), None)) == Resolved(Some(parsed))
    ensures OutcomeOf(Response(fontId, None, Some(message))).Rejected?
  {
  }

  // ---------------------------------------------------------------------------
  // findIndex and move-to-front
  // ---------------------------------------------------------------------------

  /** The position of the first job for `fontId`, if any. */
  function FirstIndexOf(queue: seq<QueueItem>, fontId: FontId): (r: Option<nat>)
    ensures r.None? <==> forall j :: 0 <= j < |queue| ==> queue[j].fontId != fontId
    ensures r.Some? ==> r.value < |queue| && queue[r.value].fontId == fontId
    ensures r.Some? ==> forall j :: 0 <= j < r.value ==> queue[j].fontId != fontId
  {
    if queue == [] then None
    else if queue[0].fontId == fontId then Some(0)
    else match FirstIndexOf(queue[1..], fontId)
      case None => None
      case Some(k) => Some(k + 1)
  }

  /** `queue.findIndex((item) => item.fontId === fontId)`: -1 when no job matches. */
  method FindIndex(queue: seq<QueueItem>, fontId: FontId) returns (idx: int)
    ensures FirstIndexOf(queue, fontId).None? ==> idx == -1
    ensures FirstIndexOf(queue, fontId).Some? ==> idx == FirstIndexOf(queue, fontId).value
  {
    idx := 0;
    while idx < |queue|
      invariant 0 <= idx <= |queue|
      invariant forall j :: 0 <= j < idx ==> queue[j].fontId != fontId
    {
      if queue[idx].fontId == fontId {
        return;
      }
      idx := idx + 1;
    }
    idx := -1;
  }

  /** Removing the element at `i` from `queue` (`queue.splice(i, 1)`). */
  function RemoveAt<T>(queue: seq<T>, i: nat): seq<T>
    requires i < |queue|
  {
    queue[..i] + queue[i + 1..]
  }

  /**
   * What `prioritizeFont` leaves in the queue: the first job for `fontId`
   * moved to the front, provided it is queued and not already first.
   */
  function MoveToFront(queue: seq<QueueItem>, fontId: FontId): seq<QueueItem>
  {
    match FirstIndexOf(queue, fontId)
    case Some(i) => if i > 0 then [queue[i]] + RemoveAt(queue, i) else queue
    case None => queue
  }

  /** Moving a job to the front keeps the jobs, each as often as before. */
  lemma MoveToFrontPermutes(queue: seq<QueueItem>, fontId: FontId)
    ensures multiset(MoveToFront(queue, fontId)) == multiset(queue)
  {
    match FirstIndexOf(queue, fontId)
    case Some(i) =>
      if i > 0 {
        assert queue == queue[..i] + [queue[i]] + queue[i + 1..];
      }
    case None =>
  }

  /**
   * When a job for `fontId` is queued, the first such job heads the result
   * and the others follow in their old relative order.
   */
  lemma MoveToFrontShape(queue: seq<QueueItem>, fontId: FontId, i: nat)
    requires FirstIndexOf(queue, fontId) == Some(i)
    ensures MoveToFront(queue, fontId) == [queue[i]] + RemoveAt(queue, i)
    ensures MoveToFront(queue, fontId)[0].fontId == fontId
  {
    if i == 0 {
      assert queue == [queue[0]] + queue[1..];
    }
  }

  /** Nothing moves when no job is queued for `fontId` or its first job is already in front. */
  lemma MoveToFrontNoOp(queue: seq<QueueItem>, fontId: FontId)
    requires (forall j :: 0 <= j < |queue| ==> queue[j].fontId != fontId) ||
             (queue != [] && queue[0].fontId == fontId)
    ensures MoveToFront(queue, fontId) == queue
  {
  }

  /** Prioritising the same font twice is the same as once. */
  lemma MoveToFrontIdempotent(queue: seq<QueueItem>, fontId: FontId)
    ensures MoveToFront(MoveToFront(queue, fontId), fontId) == MoveToFront(queue, fontId)
  {
    var moved := MoveToFront(queue, fontId);
    match FirstIndexOf(queue, fontId)
    case Some(i) =>
      MoveToFrontShape(queue, fontId, i);
      MoveToFrontNoOp(moved, fontId);
    case None =>
  }

  // ---------------------------------------------------------------------------
  // The queue
  // ---------------------------------------------------------------------------

  /** Every registered promise was created before: its number is below `promisesMade`. */
  ghost predicate PromisesCreated(pending: map<FontId, PromiseId>, promisesMade: nat)
  {
    forall id :: id in pending ==> pending[id] < promisesMade
  }

  /** No two fonts share a promise. */
  ghost predicate PromisesDistinct(pending: map<FontId, PromiseId>)
  {
    forall a, b :: a in pending && b in pending && a != b ==> pending[a] != pending[b]
  }

  /**
   * Every settled promise was created before and is no longer awaited, and
   * no promise is settled twice.
   */
  ghost predicate SettledOnce(settled: seq<Settlement>, pending: map<FontId, PromiseId>, promisesMade: nat)
  {
    (forall i :: 0 <= i < |settled| ==> settled[i].promise < promisesMade && settled[i].promise !in pending.Values) &&
    (forall i, j :: 0 <= i < j < |settled| ==> settled[i].promise != settled[j].promise)
  }

  /** Registering the next promise for a font keeps the promise bookkeeping. */
  lemma RegisterKeepsPromises(pending: map<FontId, PromiseId>, promisesMade: nat, settled: seq<Settlement>, fontId: FontId)
    requires PromisesCreated(pending, promisesMade) && PromisesDistinct(pending)
    requires SettledOnce(settled, pending, promisesMade)
    ensures var next := pending[fontId := promisesMade];
      PromisesCreated(next, promisesMade + 1) && PromisesDistinct(next) &&
      SettledOnce(settled, next, promisesMade + 1) &&
      promisesMade !in pending.Values &&
      (fontId in pending ==> pending[fontId] !in next.Values)
  {
    var next := pending[fontId := promisesMade];
    assert forall v :: v in next.Values ==> v in pending.Values || v == promisesMade;
  }

  /** Settling the promise of an awaited font and dropping it keeps the promise bookkeeping. */
  lemma SettleKeepsPromises(pending: map<FontId, PromiseId>, promisesMade: nat, settled: seq<Settlement>,
                            fontId: FontId, outcome: Outcome)
    requires PromisesCreated(pending, promisesMade) && PromisesDistinct(pending)
    requires SettledOnce(settled, pending, promisesMade)
    requires fontId in pending
    ensures var rest := pending - {fontId};
      PromisesCreated(rest, promisesMade) && PromisesDistinct(rest) &&
      SettledOnce(settled + [Settlement(pending[fontId], outcome)], rest, promisesMade) &&
      forall i :: 0 <= i < |settled| ==> settled[i].promise != pending[fontId]
  {
    var promise := pending[fontId];
    var rest := pending - {fontId};
    assert promise in pending.Values;
    assert forall v :: v in rest.Values ==> v in pending.Values && v != promise;
  }

  class ParseQueue {
    /** Jobs waiting for the worker, front first. */
    var queue: seq<QueueItem>
    /** The promise registered for each font whose answer is awaited. */
    var pending: map<FontId, PromiseId>
    /** Whether a job is in flight. */
    var processing: bool
    /** How many promises have been created; the next one gets this number. */
    var promisesMade: nat
    /** Every job handed to the worker, in order. */
    var dispatched: seq<QueueItem>
    /** Every promise settled, in order. */
    var settled: seq<Settlement>

    /** Every job ever enqueued, in order. */
    ghost var enqueued: seq<QueueItem>
    /** How many worker answers have arrived. */
    ghost var answered: nat
    /** Whether `PrioritizeFont` has ever moved a job. */
    ghost var reordered: bool

    /**
     * The bookkeeping every step keeps: at most one job in flight, exactly
     * when `processing` is set; no job lost or duplicated between the queue
     * and the worker; dispatch in enqueue order until a job is moved;
     * each awaited font holding its own, already created, promise; and each
     * promise settled at most once, and never while still awaited.
     */
    ghost predicate Consistent()
      reads this
    {
      |dispatched| == answered + (if processing then 1 else 0) &&
      multiset(dispatched) + multiset(queue) == multiset(enqueued) &&
      (!reordered ==> dispatched + queue == enqueued) &&
      PromisesCreated(pending, promisesMade) &&
      PromisesDistinct(pending) &&
      SettledOnce(settled, pending, promisesMade)
    }

    /** Between events, moreover, the worker is idle only when nothing waits. */
    ghost predicate Valid()
      reads this
    {
      Consistent() && (!processing ==> queue == [])
    }

    constructor()
      ensures Valid()
      ensures queue == [] && pending == map[] && !processing && promisesMade == 0
      ensures dispatched == [] && settled == [] && enqueued == [] && !reordered
    {
      queue := [];
      pending := map[];
      processing := false;
      promisesMade := 0;
      dispatched := [];
      settled := [];
      enqueued := [];
      answered := 0;
      reordered := false;
    }

    /**
     * `processNext`: nothing while a job is in flight or nothing waits;
     * otherwise the front job leaves the queue and goes to the worker.
     */
    method ProcessNext()
      requires Consistent()
      modifies this
      ensures Valid()
      ensures old(processing) || old(queue) == [] ==>
        queue == old(queue) && processing == old(processing) && dispatched == old(dispatched)
      ensures !old(processing) && old(queue) != [] ==>
        processing && queue == old(queue)[1..] && dispatched == old(dispatched) + [old(queue)[0]]
      ensures pending == old(pending) && settled == old(settled) && promisesMade == old(promisesMade)
      ensures enqueued == old(enqueued) && answered == old(answered) && reordered == old(reordered)
    {
      if processing || |queue| == 0 {
        return;
      }
      processing := true;
      var item := queue[0];
      var rest := queue[1..];
      assert queue == [item] + rest;
      assert dispatched + queue == (dispatched + [item]) + rest;
      assert multiset(dispatched) + multiset(queue) == multiset(dispatched + [item]) + multiset(rest);
      queue := rest;
      dispatched := dispatched + [item];
    }

    /**
     * `parseFontInWorker`: a new promise is registered for `fontId`, replacing
     * any earlier one, and the job joins the back of the queue; an idle
     * worker receives it at once.
     */
    method ParseFontInWorker(fontId: FontId, file: File) returns (promise: PromiseId)
      requires Valid()
      modifies this
      ensures Valid()
      ensures promise == old(promisesMade) && promisesMade == old(promisesMade) + 1
      ensures promise !in old(pending).Values
      ensures pending == old(pending)[fontId := promise]
      ensures fontId in old(pending) ==> old(pending)[fontId] !in pending.Values
      ensures enqueued == old(enqueued) + [QueueItem(fontId, file)]
      ensures old(processing) ==>
        queue == old(queue) + [QueueItem(fontId, file)] && dispatched == old(dispatched)
      ensures !old(processing) ==>
        queue == [] && dispatched == old(dispatched) + [QueueItem(fontId, file)]
      ensures processing && settled == old(settled) && reordered == old(reordered)
    {
      RegisterKeepsPromises(pending, promisesMade, settled, fontId);
      promise := promisesMade;
      promisesMade := promisesMade + 1;
      pending := pending[fontId := promise];
      var item := QueueItem(fontId, file);
      queue := queue + [item];
      enqueued := enqueued + [item];
      assert dispatched + queue == (old(dispatched) + old(queue)) + [item];
      ProcessNext();
    }

    /**
     * The worker's answer to the job in flight: the promise registered for
     * the answered font, if any, is removed and then settled once, and the
     * next waiting job, if any, is dispatched.
     */
    method OnMessage(response: Response)
      requires Valid() && processing
      modifies this
      ensures Valid()
      ensures pending == old(pending) - {response.fontId}
      ensures response.fontId in old(pending) ==>
        settled == old(settled) + [Settlement(old(pending)[response.fontId], OutcomeOf(response))]
      ensures response.fontId in old(pending) ==>
        forall i :: 0 <= i < |old(settled)| ==> old(settled)[i].promise != old(pending)[response.fontId]
      ensures response.fontId !in old(pending) ==> settled == old(settled)
      ensures old(queue) == [] ==> !processing && dispatched == old(dispatched)
      ensures old(queue) != [] ==>
        processing && queue == old(queue)[1..] && dispatched == old(dispatched) + [old(queue)[0]]
      ensures answered == old(answered) + 1
      ensures enqueued == old(enqueued) && promisesMade == old(promisesMade) && reordered == old(reordered)
    {
      if response.fontId in pending {
        var promise := pending[response.fontId];
        SettleKeepsPromises(pending, promisesMade, settled, response.fontId, OutcomeOf(response));
        pending := pending - {response.fontId};
        settled := settled + [Settlement(promise, OutcomeOf(response))];
      }
      processing := false;
      answered := answered + 1;
      ProcessNext();
    }

    /**
     * `prioritizeFont`: the first queued job for `fontId` moves to the front;
     * nothing else changes.
     */
    method PrioritizeFont(fontId: FontId)
      requires Valid()
      modifies this
      ensures Valid()
      ensures queue == MoveToFront(old(queue), fontId)
      ensures pending == old(pending) && processing == old(processing) && dispatched == old(dispatched)
      ensures settled == old(settled) && promisesMade == old(promisesMade)
      ensures enqueued == old(enqueued) && answered == old(answered)
    {
      var idx := FindIndex(queue, fontId);
      if idx > 0 {
        var item := queue[idx];
        MoveToFrontShape(queue, fontId, idx);
        MoveToFrontPermutes(queue, fontId);
        queue := RemoveAt(queue, idx);
        queue := [item] + queue;
        reordered := true;
      }
    }
  }

  // ---------------------------------------------------------------------------
  // Scenarios
  // ---------------------------------------------------------------------------

  /**
   * Three fonts enqueued while idle: the first goes to the worker at once;
   * prioritising the third makes it the next one dispatched, ahead of the
   * second.
   */
  method PriorityScenario(a: File, b: File, c: File) returns (order: seq<FontId>)
    ensures order == ["A", "C"]
  {
    var q := EnqueueThree(a, b, c);
    var waiting := [QueueItem("B", b), QueueItem("C", c)];
    q.PrioritizeFont("C");
    assert FirstIndexOf(waiting, "C") == Some(1) by {
      assert waiting[0].fontId != "C";
    }
    MoveToFrontShape(waiting, "C", 1);
    assert q.queue == [QueueItem("C", c), QueueItem("B", b)];
    q.OnMessage(Response("A", None, Some("broken")));
    assert q.dispatched == [QueueItem("A", a), QueueItem("C", c)];
    order := [q.dispatched[0].fontId, q.dispatched[1].fontId];
  }

  /** Three fonts enqueued on an idle queue: the first goes to the worker, the others wait in order. */
  method EnqueueThree(a: File, b: File, c: File) returns (q: ParseQueue)
    ensures fresh(q) && q.Valid() && q.processing
    ensures q.dispatched == [QueueItem("A", a)] && q.queue == [QueueItem("B", b), QueueItem("C", c)]
  {
    q := new ParseQueue();
    var pa := q.ParseFontInWorker("A", a);
    assert q.dispatched == [QueueItem("A", a)] && q.queue == [];
    var pb := q.ParseFontInWorker("B", b);
    var pc := q.ParseFontInWorker("C", c);
  }

  /**
   * Enqueueing a font twice leaves the first promise without callbacks: the
   * two answers settle the second promise once and never the first.
   */
  method DuplicateEnqueueScenario(file: File, summary: ParsedFont) returns (settled: seq<Settlement>, first: PromiseId)
    ensures settled == [Settlement(first + 1, Resolved(Some(summary)))]
  {
    var q := new ParseQueue();
    first := q.ParseFontInWorker("A", file);
    var second := q.ParseFontInWorker("A", file);
    q.OnMessage(Response("A", Some(summary), None));
    q.OnMessage(Response("A", Some(summary), None));
    settled := q.settled;
  }
}
