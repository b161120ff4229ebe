/**
 * `cn` (`glyph/cn.ts`), the class-name combiner: falsy arguments (`false`,
 * `null`, `undefined` and the empty string) are dropped and the rest joined
 * with single spaces.
 */
module ClassNames {

  /** An argument of `cn`: a string or one of the falsy non-strings it accepts. */
  datatype ClassArg = Str(s: string) | False | Null | Undefined

  /** `Boolean(arg)`: only a non-empty string is truthy. */
  predicate IsTruthy(arg: ClassArg) {
    arg.Str? && arg.s != ""
  }

  /** `args.filter(Boolean)`, as the strings it keeps. */
  function Kept(args: seq<ClassArg>): (r: seq<string>)
    ensures |r| <= |args|
    ensures forall i :: 0 <= i < |r| ==> r[i] != ""
  {
    if args == [] then []
    else (if IsTruthy(args[0]) then [args[0].s] else []) + Kept(args[1..])
  }

  /** `parts.join(" ")`. */
  function Join(parts: seq<string>): string
  {
    if parts == [] then ""
    else if |parts| == 1 then parts[0]
    else parts[0] + " " + Join(parts[1..])
  }

  /** `cn(...args)`. */
  function Cn(args: seq<ClassArg>): string
  {
    Join(Kept(args))
  }

  /** Every kept string is non-empty and came from a truthy argument. */
  lemma {:induction false} KeptMeaning(args: seq<ClassArg>)
    ensures forall s :: s in Kept(args) <==> Str(s) in args && s != ""
    decreases |args|
  {
    if args != [] {
      KeptMeaning(args[1..]);
      assert forall a :: a in args <==> a == args[0] || a in args[1..];
    }
  }

  /** Filtering a concatenation filters each part, so kept strings keep their argument order. */
  lemma {:induction false} KeptAppend(a: seq<ClassArg>, b: seq<ClassArg>)
    ensures Kept(a + b) == Kept(a) + Kept(b)
    decreases |a|
  {
    if a == [] {
      assert a + b == b;
    } else {
      assert (a + b)[0] == a[0] && (a + b)[1..] == a[1..] + b;
      KeptAppend(a[1..], b);
    }
  }

  /** With no arguments, or only falsy ones, the result is "". */
  lemma {:induction false} CnOfFalsy(args: seq<ClassArg>)
    requires forall i :: 0 <= i < |args| ==> !IsTruthy(args[i])
    ensures Cn(args) == ""
    decreases |args|
  {
    if args != [] {
      CnOfFalsy(args[1..]);
      assert Kept(args) == Kept(args[1..]);
    }
  }

  /** A falsy argument anywhere changes nothing. */
  lemma DropFalsy(a: seq<ClassArg>, x: ClassArg, b: seq<ClassArg>)
    requires !IsTruthy(x)
    ensures Cn(a + [x] + b) == Cn(a + b)
  {
    KeptAppend(a + [x], b);
    KeptAppend(a, [x]);
    KeptAppend(a, b);
    assert [x][1..] == [];
    assert Kept([x]) == [] + Kept([x][1..]) == [];
    assert Kept(a + [x]) == Kept(a);
  }

  function TotalLength(parts: seq<string>): nat
  {
    if parts == [] then 0 else |parts[0]| + TotalLength(parts[1..])
  }

  /** The joined text is the parts' lengths plus one separator between each two. */
  lemma {:induction false} JoinLength(parts: seq<string>)
    requires parts != []
    ensures |Join(parts)| == TotalLength(parts) + |parts| - 1
    decreases |parts|
  {
    if |parts| > 1 {
      JoinLength(parts[1..]);
    }
  }

  /** The length of `cn`'s result, when at least one argument is truthy. */
  lemma CnLength(args: seq<ClassArg>)
    requires Kept(args) != []
    ensures |Cn(args)| == TotalLength(Kept(args)) + |Kept(args)| - 1
  {
    JoinLength(Kept(args));
  }

  /** `s.split(" ")`. */
  function Split(s: string): (r: seq<string>)
    ensures |r| >= 1
  {
    if s == [] then [""]
    else if s[0] == ' ' then [""] + Split(s[1..])
    else var rest := Split(s[1..]); [[s[0]] + rest[0]] + rest[1..]
  }

  predicate NoSpace(s: string) {
    forall i :: 0 <= i < |s| ==> s[i] != ' '
  }

  /** A word without spaces in front of any text becomes the start of that text's first piece. */
  lemma {:induction false} SplitWord(w: string, rest: string)
    requires NoSpace(w)
    ensures Split(w + rest) == (var t := Split(rest); [w + t[0]] + t[1..])
    decreases |w|
  {
    var t := Split(rest);
    if w == [] {
      assert w + rest == rest;
      assert w + t[0] == t[0];
      assert t == [t[0]] + t[1..];
    } else {
      assert (w + rest)[0] == w[0] && (w + rest)[1..] == w[1..] + rest;
      assert w[0] != ' ';
      assert NoSpace(w[1..]) by {
        forall i | 0 <= i < |w[1..]| ensures w[1..][i] != ' ' {
          assert w[1..][i] == w[i + 1];
        }
      }
      SplitWord(w[1..], rest);
      var u := Split(w[1..] + rest);
      assert u[0] == w[1..] + t[0] && u[1..] == t[1..];
      assert [w[0]] + (w[1..] + t[0]) == w + t[0];
    }
  }

  /** Splitting at the spaces undoes the join, when no part holds a space. */
  lemma {:induction false} SplitJoin(parts: seq<string>)
    requires parts != []
    requires forall i :: 0 <= i < |parts| ==> NoSpace(parts[i])
    ensures Split(Join(parts)) == parts
    decreases |parts|
  {
    if |parts| == 1 {
      SplitWord(parts[0], "");
      assert parts[0] + "" == parts[0];
    } else {
      var rest := Join(parts[1..]);
      SplitJoin(parts[1..]);
      assert parts[0] + " " + rest == parts[0] + (" " + rest);
      SplitWord(parts[0], " " + rest);
      assert (" " + rest)[0] == ' ' && (" " + rest)[1..] == rest;
      var t := Split(" " + rest);
      assert t == [""] + parts[1..];
      assert parts[0] + t[0] == parts[0];
      assert parts == [parts[0]] + t[1..];
    }
  }

  /**
   * The classes in `cn`'s result, read back at the spaces, are the truthy
   * arguments in their order: each joined by exactly one space.
   */
  lemma CnReadsBack(args: seq<ClassArg>)
    requires Kept(args) != []
    requires forall i :: 0 <= i < |args| ==> args[i].Str? ==> NoSpace(args[i].s)
    ensures Split(Cn(args)) == Kept(args)
  {
    var kept := Kept(args);
    KeptMeaning(args);
    forall i | 0 <= i < |kept| ensures NoSpace(kept[i]) {
      assert kept[i] in kept;
      var j :| 0 <= j < |args| && args[j] == Str(kept[i]);
    }
    SplitJoin(kept);
  }

  lemma CnExamples()
    ensures Cn([Str("btn"), False, Str(""), Null, Str("active"), Undefined]) == "btn active"
    ensures Cn([]) == ""
  {
  }
}
