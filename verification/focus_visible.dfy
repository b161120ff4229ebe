/**
 * Keyboard-modality tracking for focus rings (`glyph/hooks/focusVisible.ts`).
 * A module-wide flag records whether the last relevant key was a control
 * key; an element that gains focus shows its focus ring exactly when the
 * flag is set, and consumes it. The DOM queries (the active element's tag,
 * `document.hasFocus()`) are parameters; the signals are fields.
 */
module FocusVisible {
  import opened Wrappers
  import opened JsString

  const ControlElements: set<string> := {"a", "button", "input", "select", "textarea"}

  /** `controlElements.has(document.activeElement?.tagName?.toLowerCase() ?? '')`. */
  predicate IsControlElement(activeTag: Option<string>) {
    match activeTag
    case None => "" in ControlElements
    case Some(tag) => ToLower(tag) in ControlElements
  }

  /** The flag `handleKeyDown` leaves for a key press. */
  function KeyDownFlag(flag: bool, key: string, activeTag: Option<string>): bool
  {
    match key
    case "Tab" => true
    case "Enter" => IsControlElement(activeTag)
    case " " => IsControlElement(activeTag)
    case "Escape" => flag
    case _ => false
  }

  /** The keys that can set the flag, and when they do. */
  predicate RaisesFlag(key: string, activeTag: Option<string>) {
    key == "Tab" || ((key == "Enter" || key == " ") && IsControlElement(activeTag))
  }

  /**
   * After a key press the flag is set exactly when the key raises it, or it
   * was set and the key was Escape.
   */
  lemma KeyDownFlagMeaning(flag: bool, key: string, activeTag: Option<string>)
    ensures KeyDownFlag(flag, key, activeTag) <==> RaisesFlag(key, activeTag) || (flag && key == "Escape")
  {
  }

  /** HTML reports tag names in upper case; they match after lower-casing. */
  lemma UpperCaseTagsAreControls()
    ensures IsControlElement(Some("BUTTON")) && IsControlElement(Some("A"))
    ensures !IsControlElement(Some("DIV")) && !IsControlElement(None)
  {
    assert ToLower("BUTTON") == "button";
    assert ToLower("A") == "a";
    assert ToLower("DIV") == "div";
  }

  // ---------------------------------------------------------------------------
  // One element and the flag, as values
  // ---------------------------------------------------------------------------

  /** The flag and one element's `focused` and `focusVisible` signals. */
  datatype World = World(flag: bool, focused: bool, focusVisible: bool)

  /** What happens to the page: a key press, a direct write of the flag, a focus or a blur. */
  datatype Event =
    | KeyDown(key: string, activeTag: Option<string>)
    | SetFlag(value: bool)
    | Focus
    | Blur(documentHasFocus: bool)

  /** The flag `onBlur` leaves: it is raised when the whole page loses focus while the ring shows. */
  function BlurFlag(flag: bool, documentHasFocus: bool, focusVisible: bool): bool
  {
    if !documentHasFocus && focusVisible then true else flag
  }

  function Step(w: World, e: Event): World
  {
    match e
    case KeyDown(key, tag) => w.(flag := KeyDownFlag(w.flag, key, tag))
    case SetFlag(value) => w.(flag := value)
    case Focus => World(false, true, w.flag)
    case Blur(hasFocus) => World(BlurFlag(w.flag, hasFocus, w.focusVisible), false, false)
  }

  function Run(w: World, events: seq<Event>): World
    decreases |events|
  {
    if events == [] then w else Run(Step(w, events[0]), events[1..])
  }

  /** The ring shows only on a focused element. */
  predicate RingOnFocused(w: World) {
    w.focusVisible ==> w.focused
  }

  lemma {:induction false} RunKeepsRingOnFocused(w: World, events: seq<Event>)
    requires RingOnFocused(w)
    ensures RingOnFocused(Run(w, events))
    decreases |events|
  {
    if events != [] {
      RunKeepsRingOnFocused(Step(w, events[0]), events[1..]);
    }
  }

  /** A focus shows the ring exactly when the flag was set, and always consumes the flag. */
  lemma FocusConsumesFlag(w: World)
    ensures Step(w, Focus).focused
    ensures Step(w, Focus).focusVisible <==> w.flag
    ensures !Step(w, Focus).flag
  {
  }

  /** The events that can set the flag. */
  predicate Raises(e: Event) {
    (e.KeyDown? && RaisesFlag(e.key, e.activeTag)) || e == SetFlag(true)
  }

  /**
   * Without a raising key (Tab, or Enter or Space on a control) and without a
   * direct `setWasControlKeyPressed(true)`, the ring never shows: pointer
   * focus stays ring-less however the events interleave.
   */
  lemma {:induction false} NoRingWithoutKeyboard(w: World, events: seq<Event>)
    requires !w.flag && !w.focusVisible
    requires forall i :: 0 <= i < |events| ==> !Raises(events[i])
    ensures !Run(w, events).flag && !Run(w, events).focusVisible
    decreases |events|
  {
    if events != [] {
      var e := events[0];
      KeyDownFlagMeaning(w.flag, if e.KeyDown? then e.key else "", if e.KeyDown? then e.activeTag else None);
      RunStep(w, events);
      NoRingWithoutKeyboard(Step(w, e), events[1..]);
    }
  }

  lemma RunStep(w: World, events: seq<Event>)
    requires events != []
    ensures Run(w, events) == Run(Step(w, events[0]), events[1..])
  {
  }

  /**
   * Switching to another window while the ring shows, and coming back to the
   * element, shows the ring again: the blur saves it in the flag.
   */
  lemma TabAwayAndBack(w: World)
    requires w.focused && w.focusVisible
    ensures Run(w, [Blur(false), Focus]).focusVisible
  {
    assert [Blur(false), Focus][1..] == [Focus];
    assert [Focus][1..] == [];
  }

  /** Clicking elsewhere inside the page, then focusing back without keys, shows no ring. */
  lemma ClickAwayAndBack(w: World)
    requires w.focused && !w.flag
    ensures !Run(w, [Blur(true), Focus]).focusVisible
  {
    assert [Blur(true), Focus][1..] == [Focus];
    assert [Focus][1..] == [];
  }

  // ---------------------------------------------------------------------------
  // The module flag and the elements, as objects
  // ---------------------------------------------------------------------------

  /** The module variable `wasControlKeyPressed`, shared by every element. */
  class KeyboardModality {
    var wasControlKeyPressed: bool

    constructor()
      ensures !wasControlKeyPressed
    {
      wasControlKeyPressed := false;
    }

    /** `setWasControlKeyPressed`. */
    method SetWasControlKeyPressed(value: bool)
      modifies this
      ensures wasControlKeyPressed == value
    {
      wasControlKeyPressed := value;
    }

    /** `handleKeyDown`, with the active element's tag name as a parameter. */
    method HandleKeyDown(key: string, activeTag: Option<string>)
      modifies this
      ensures wasControlKeyPressed == KeyDownFlag(old(wasControlKeyPressed), key, activeTag)
    {
      if key == "Tab" {
        wasControlKeyPressed := true;
        return;
      }
      if key == "Enter" || key == " " {
        var tag := if activeTag.Some? then ToLower(activeTag.value) else "";
        wasControlKeyPressed := tag in ControlElements;
        return;
      }
      if key == "Escape" {
        return;
      }
      wasControlKeyPressed := false;
    }
  }

  /** A call of the caller's own handler, with the signal values it sees. */
  datatype HandlerCall =
    | OnBlurCalled(focused: bool, focusVisible: bool)
    | OnFocusCalled(focused: bool, focusVisible: bool)

  /** What `useFocus` keeps for one element: its two signals and its caller's handlers. */
  class FocusTarget {
    const modality: KeyboardModality
    /** `typeof props?.onBlur === 'function'` and the same for `onFocus`. */
    const hasOnBlur: bool
    const hasOnFocus: bool
    var focused: bool
    var focusVisible: bool
    /** The caller's handlers, in the order they ran. */
    var handlerCalls: seq<HandlerCall>

    function State(): World
      reads this, modality
    {
      World(modality.wasControlKeyPressed, focused, focusVisible)
    }

    constructor(modality: KeyboardModality, hasOnBlur: bool, hasOnFocus: bool)
      ensures this.modality == modality && this.hasOnBlur == hasOnBlur && this.hasOnFocus == hasOnFocus
      ensures !focused && !focusVisible && handlerCalls == []
    {
      this.modality := modality;
      this.hasOnBlur := hasOnBlur;
      this.hasOnFocus := hasOnFocus;
      focused := false;
      focusVisible := false;
      handlerCalls := [];
    }

    /** `onFocus`: the signals are set first, then the caller's handler runs if it is a function. */
    method OnFocus()
      modifies this, modality
      ensures State() == Step(old(State()), Focus)
      ensures handlerCalls == old(handlerCalls) + (if hasOnFocus then [OnFocusCalled(true, focusVisible)] else [])
    {
      focused := true;
      focusVisible := modality.wasControlKeyPressed;
      modality.wasControlKeyPressed := false;
      if hasOnFocus {
        handlerCalls := handlerCalls + [OnFocusCalled(focused, focusVisible)];
      }
    }

    /** `onBlur`, with `document.hasFocus()` as a parameter. */
    method OnBlur(documentHasFocus: bool)
      modifies this, modality
      ensures State() == Step(old(State()), Blur(documentHasFocus))
      ensures handlerCalls == old(handlerCalls) + (if hasOnBlur then [OnBlurCalled(false, false)] else [])
    {
      if !documentHasFocus && focusVisible {
        modality.wasControlKeyPressed := true;
      }
      focusVisible := false;
      focused := false;
      if hasOnBlur {
        handlerCalls := handlerCalls + [OnBlurCalled(focused, focusVisible)];
      }
    }
  }

  /** Tab, focus, leave the window, come back: the ring is shown again. */
  method WindowSwitchScenario() returns (visibleAgain: bool, calls: seq<HandlerCall>)
    ensures visibleAgain
    ensures calls == [OnFocusCalled(true, true), OnBlurCalled(false, false), OnFocusCalled(true, true)]
  {
    var modality := new KeyboardModality();
    var button := new FocusTarget(modality, true, true);
    modality.HandleKeyDown("Tab", None);
    button.OnFocus();
    button.OnBlur(false);
    button.OnFocus();
    visibleAgain := button.focusVisible;
    calls := button.handlerCalls;
  }

  /** One Tab shows one ring: a second element focused by pointer afterwards shows none. */
  method SharedFlagScenario() returns (firstVisible: bool, secondVisible: bool)
    ensures firstVisible && !secondVisible
  {
    var modality := new KeyboardModality();
    var first := new FocusTarget(modality, false, false);
    var second := new FocusTarget(modality, false, false);
    modality.HandleKeyDown("Tab", None);
    first.OnFocus();
    firstVisible := first.focusVisible;
    first.OnBlur(true);
    second.OnFocus();
    secondVisible := second.focusVisible;
  }

  /** Enter on a button raises the flag; Enter on a plain element clears it. */
  method EnterScenario() returns (onButton: bool, onDiv: bool)
    ensures onButton && !onDiv
  {
    var modality := new KeyboardModality();
    UpperCaseTagsAreControls();
    modality.HandleKeyDown("Enter", Some("BUTTON"));
    onButton := modality.wasControlKeyPressed;
    modality.HandleKeyDown("Escape", None);
    modality.HandleKeyDown("Enter", Some("DIV"));
    onDiv := modality.wasControlKeyPressed;
  }
}
