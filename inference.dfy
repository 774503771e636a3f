/**
 * The inference rules of `getNextAnimation` / `findTransition`,
 * `getAlternateAnimation` and `getPreviousAnimation` (main.go:100-269), as
 * functions of one clip's name and the names of the whole list. Each gives
 * what the corresponding method appends to (or assigns into) its field.
 */
module Inference {
  import opened Wrappers
  import opened Numbers
  import opened ClipName
  import opened Lookup

  /**
   * The parse result the rules work from (main.go:103-111): the shape of the
   * leftmost match, or `None` when the name does not match at all.
   */
  function Parse(name: string): (r: Option<Shape>)
    ensures r.Some? ==> Canonical(r.value)
    ensures r.None? <==> forall j :: 0 <= j <= |name| ==> ShapeAt(name, j).None?
  {
    match Recognise(name)
    case None => None
    case Some(m) =>
      ShapeAtSound(name, m.start, m.shape);
      Some(m.shape)
  }

  /**
   * `A_<action>_<index>`, with `_<char>` inserted after the action when the
   * `char` capture is non-empty (main.go:124-127, 146-149, 227-229, 255-257).
   */
  function Stem(action: string, character: string, index: string): (r: string)
    ensures HasPrefix(r, "A_" + action + "_") && EndsWith(r, "_" + index)
  {
    if character == "" then "A_" + action + "_" + index
    else "A_" + action + "_" + character + "_" + index
  }

  predicate EndsWith(s: string, suffix: string) {
    |suffix| <= |s| && s[|s| - |suffix|..] == suffix
  }

  /** `strings.TrimSuffix`. */
  function TrimSuffix(s: string, suffix: string): (r: string)
    ensures EndsWith(s, suffix) ==> r + suffix == s
    ensures !EndsWith(s, suffix) ==> r == s
  {
    if EndsWith(s, suffix) then
      var r := s[..|s| - |suffix|];
      assert r + suffix == s;
      r
    else s
  }

  /** A clip that may have neighbours: no alternate letter, or the first one, `A`. */
  predicate IsPrimary(t: Tail) {
    t.alternate == "" || t.alternate == "A"
  }

  /** A slice holding the name found, if any: what one `append` adds. */
  function ToSeq(o: Option<string>): (r: seq<string>)
    ensures |r| <= 1 && (o.None? <==> r == [])
    ensures r != [] ==> r == [o.value]
  {
    if o.None? then [] else [o.value]
  }

  /**
   * `findTransition` (main.go:142-167): the next clip of a transition clip is
   * looked up from the transition target alone, as the same action's
   * `nextClip` when no `nextName` was captured, otherwise as the group named
   * by `transitionTo`.
   */
  function TransitionNext(h: Head, t: Target, names: seq<Option<string>>): (r: Option<string>)
    requires TransitionTo(t) != ""
    ensures var target := if t.nextName == "" then Stem(h.action, h.character, t.nextClip) else "A_" + TransitionTo(t);
      && (r.Some? ==> Some(r.value) in names && HasPrefix(r.value, target))
      && (r.None? <==> forall j :: 0 <= j < |names| ==> !Hit(PrimaryForm(target), names[j]))
  {
    if t.nextName == "" then FindName(PrimaryForm(Stem(h.action, h.character, t.nextClip)), names)
    else FindName(PrimaryForm("A_" + TransitionTo(t)), names)
  }

  /** The successor stem `A_<action>[_<char>]_<%02d of clip+1>` (main.go:124-127). */
  function SuccessorStem(h: Head): string
    requires IsTwoDigits(h.clip)
  {
    Stem(h.action, h.character, Format02(Atoi(h.clip) + 1))
  }

  /** The predecessor stem `A_<action>[_<char>]_<%02d of clip-1>` (main.go:227-229). */
  function PredecessorStem(h: Head): string
    requires IsTwoDigits(h.clip)
  {
    Stem(h.action, h.character, Format02(Atoi(h.clip) - 1))
  }

  /** The prefix `^<match[0] without a trailing _A>-` of the clips that transition out of `c`. */
  function TransitionPrefix(c: Shape): string {
    TrimSuffix(Render(c), "_A")
  }

  /** What `getNextAnimation` appends to `NextAnimations` (main.go:102-140). */
  function NextOf(name: string, names: seq<Option<string>>): (r: seq<string>)
    ensures |r| <= 1
    ensures forall y :: y in r ==> Some(y) in names
  {
    match Parse(name)
    case None => []
    case Some(c) => NextOfShape(c, names)
  }

  /** What `getNextAnimation` appends for a name with captures `c` (main.go:113-139). */
  function NextOfShape(c: Shape, names: seq<Option<string>>): (r: seq<string>)
    requires WellFormedHead(c.head)
    ensures |r| <= 1
    ensures forall y :: y in r ==> Some(y) in names
  {
    if !IsPrimary(c.tail) then []
    else if TransitionTo(c.tail.target) != "" then ToSeq(TransitionNext(c.head, c.tail.target, names))
    else
      var viaTransition := FindName(TransitionFrom(TransitionPrefix(c)), names);
      if viaTransition.Some? then [viaTransition.value]
      else ToSeq(FindName(PrimaryForm(SuccessorStem(c.head)), names))
  }

  /** `xs` without the elements equal to `x`, in order (main.go:261-268). */
  function Without(xs: seq<string>, x: string): (r: seq<string>)
    ensures |r| <= |xs|
    ensures forall y :: y in r <==> y in xs && y != x
  {
    if xs == [] then []
    else
      var n := |xs| - 1;
      assert xs == xs[..n] + [xs[n]];
      Without(xs[..n], x) + (if xs[n] == x then [] else [xs[n]])
  }

  /** `Without` on one element more: the loop of `getAlternateAnimation` (main.go:261-269), step by step. */
  lemma WithoutSnoc(xs: seq<string>, k: nat, x: string)
    requires k < |xs|
    ensures Without(xs[..k + 1], x) == Without(xs[..k], x) + (if xs[k] == x then [] else [xs[k]])
  {
    assert xs[..k + 1][..k] == xs[..k];
  }

  lemma WithoutSingle(y: string, x: string)
    ensures Without([y], x) == if y == x then [] else [y]
  {
    assert [y][..0] == [];
  }

  /** `Without` keeps the order of what it keeps: it works on each part of a list separately. */
  lemma {:induction false} WithoutAppend(xs: seq<string>, ys: seq<string>, x: string)
    ensures Without(xs + ys, x) == Without(xs, x) + Without(ys, x)
  {
    if ys == [] {
      assert xs + ys == xs;
    } else {
      var n := |ys| - 1;
      var zs := xs + ys;
      var last := if ys[n] == x then [] else [ys[n]];
      assert zs[..|zs| - 1] == xs + ys[..n] && zs[|zs| - 1] == ys[n];
      assert Without(zs, x) == Without(xs + ys[..n], x) + last;
      assert Without(ys, x) == Without(ys[..n], x) + last;
      WithoutAppend(xs, ys[..n], x);
      assert (Without(xs, x) + Without(ys[..n], x)) + last == Without(xs, x) + (Without(ys[..n], x) + last);
    }
  }

  /** What `getAlternateAnimation` appends to `AlternateAnimations` (main.go:239-269). */
  function AlternatesOf(name: string, names: seq<Option<string>>): (r: seq<string>)
    ensures forall y :: y in r ==> Some(y) in names && y != name
  {
    match Parse(name)
    case None => []
    case Some(c) => AlternatesOfShape(name, c, names)
  }

  /** What `getAlternateAnimation` appends for the name `name` with captures `c` (main.go:250-269). */
  function AlternatesOfShape(name: string, c: Shape, names: seq<Option<string>>): (r: seq<string>)
    ensures forall y :: y in r ==> Some(y) in names && y != name
  {
    if TransitionTo(c.tail.target) != "" then []
    else Without(FilterNames(AlternateForm(Stem(c.head.action, c.head.character, c.head.clip)), names), name)
  }

  /** What `getPreviousAnimation` assigns to `PreviousAnimation`, if anything (main.go:206-237). */
  function PreviousOf(name: string, names: seq<Option<string>>): (r: Option<string>)
    ensures r.Some? ==> Some(r.value) in names
  {
    match Parse(name)
    case None => None
    case Some(c) => PreviousOfShape(c, names)
  }

  /** What `getPreviousAnimation` assigns for a name with captures `c` (main.go:217-236). */
  function PreviousOfShape(c: Shape, names: seq<Option<string>>): (r: Option<string>)
    requires WellFormedHead(c.head)
    ensures r.Some? ==> Some(r.value) in names
  {
    if TransitionTo(c.tail.target) != "" then None
    else if !IsPrimary(c.tail) then None
    else FindName(PrimaryForm(PredecessorStem(c.head)), names)
  }

  // ---------------------------------------------------------------------------
  // What the rules promise.

  /** A well-formed transition group is captured exactly when `transitionTo` is non-empty. */
  lemma TransitionToPresent(t: Target)
    requires WellFormedTarget(t)
    ensures TransitionTo(t) != "" <==> t.Target?
  {
    if t.Target? {
      assert |TransitionTo(t)| >= |t.nextClip| == 2;
    }
  }

  /** A name the pattern rejects gets no next, no alternates and no previous. */
  lemma RejectedNameDerivesNothing(name: string, names: seq<Option<string>>)
    requires forall j :: 0 <= j <= |name| ==> ShapeAt(name, j).None?
    ensures NextOf(name, names) == [] && AlternatesOf(name, names) == []
    ensures PreviousOf(name, names).None?
  {
  }

  /** An alternate other than the first (`A`) gets no next and no previous clip. */
  lemma NonPrimaryHasNoNeighbours(name: string, names: seq<Option<string>>)
    requires Parse(name).Some? && !IsPrimary(Parse(name).value.tail)
    ensures NextOf(name, names) == [] && PreviousOf(name, names).None?
  {
  }

  /**
   * A transition clip gets no alternates and no previous clip, and its next is
   * the first clip named after its target: `A_<action>[_<char>]_<nextClip>`
   * without a `nextName`, `A_<transitionTo>` with one, each optionally followed
   * by `_` and `A`.
   */
  lemma TransitionClipRules(name: string, names: seq<Option<string>>)
    requires Parse(name).Some? && TransitionTo(Parse(name).value.tail.target) != ""
    ensures AlternatesOf(name, names) == [] && PreviousOf(name, names).None?
    ensures var c := Parse(name).value; var t := c.tail.target;
      IsPrimary(c.tail) ==>
        NextOf(name, names) == ToSeq(FindName(PrimaryForm(
          if t.nextName == "" then Stem(c.head.action, c.head.character, t.nextClip)
          else "A_" + TransitionTo(t)), names))
  {
  }

  /** The text contains no `-`. */
  predicate NoHyphen(s: string) {
    forall k :: 0 <= k < |s| ==> s[k] != '-'
  }

  lemma StemNoHyphen(action: string, character: string, index: string)
    requires NoHyphen(action) && NoHyphen(character) && NoHyphen(index)
    ensures NoHyphen(Stem(action, character, index))
  {
    var tail := if character == "" then index else character + "_" + index;
    assert NoHyphen(tail);
    assert Stem(action, character, index) == "A_" + action + "_" + tail;
  }

  lemma FormatNoHyphen(n: int)
    requires n >= 0
    ensures NoHyphen(Format02(n))
  {
  }

  /** No name of the successor's family contains `-`. */
  lemma SuccessorFamilyNoHyphen(h: Head, y: string)
    requires WellFormedHead(h) && Matches(PrimaryForm(SuccessorStem(h)), y)
    ensures NoHyphen(y)
  {
    var stem := SuccessorStem(h);
    FormatNoHyphen(Atoi(h.clip) + 1);
    StemNoHyphen(h.action, h.character, Format02(Atoi(h.clip) + 1));
    var t := y[|stem|..];
    assert NoHyphen(t);
    assert y == stem + t;
  }

  /**
   * For a primary clip that is not a transition, a clip named
   * `match[0]` (without a trailing `_A`) followed by `-` is chosen as next
   * whenever one is listed, and then the incremented successor is not.
   */
  lemma TransitionPriority(name: string, names: seq<Option<string>>)
    requires Parse(name).Some?
    requires var c := Parse(name).value; IsPrimary(c.tail) && TransitionTo(c.tail.target) == ""
    requires exists j :: 0 <= j < |names| && Hit(TransitionFrom(TransitionPrefix(Parse(name).value)), names[j])
    ensures var c := Parse(name).value; var next := NextOf(name, names);
      && |next| == 1 && Some(next[0]) in names
      && HasPrefix(next[0], TransitionPrefix(c) + "-")
      && !Matches(PrimaryForm(SuccessorStem(c.head)), next[0])
  {
    var c := Parse(name).value;
    var pre := TransitionPrefix(c);
    var found := FindName(TransitionFrom(pre), names);
    assert found.Some?;
    var y := found.value;
    assert NextOf(name, names) == [y];
    assert y[|pre|] == (pre + "-")[|pre|] == '-';
    if Matches(PrimaryForm(SuccessorStem(c.head)), y) {
      SuccessorFamilyNoHyphen(c.head, y);
      assert false;
    }
  }

  /** The shape of a plain clip name `A_<x>_<NN>`. */
  function Plain(x: string, index: string): Shape {
    Shape(Head(x, "", false, index), Tail(false, "", false, NoTarget))
  }

  /** A plain name `A_<x>_<d>` is the text of the plain shape, and parses as it. */
  lemma ParsePlain(x: string, d: string)
    requires |x| >= 1 && IsWord(x) && IsTwoDigits(d)
    ensures Canonical(Plain(x, d)) && Render(Plain(x, d)) == "A_" + x + "_" + d
    ensures Parse("A_" + x + "_" + d) == Some(Plain(x, d))
  {
    var c := Plain(x, d);
    assert TailThen(c.tail, "") == "";
    assert d + "" == d;
    assert Render(c) == "A_" + (x + ("_" + d));
    ParseName(c, "", "A_" + x + "_" + d);
  }

  /** A name ending in a digit has no `_A` to trim. */
  lemma TrimDigitEnding(s: string)
    requires |s| >= 1 && IsDigit(s[|s| - 1])
    ensures TrimSuffix(s, "_A") == s
  {
  }

  /** The rules for a parsed name are the rules for its captures. */
  lemma ParsedRules(name: string, names: seq<Option<string>>, c: Shape)
    requires Parse(name) == Some(c)
    ensures WellFormedHead(c.head)
    ensures NextOf(name, names) == NextOfShape(c, names)
    ensures AlternatesOf(name, names) == AlternatesOfShape(name, c, names)
    ensures PreviousOf(name, names) == PreviousOfShape(c, names)
  {
  }

  /** The alternates of a parsed clip that is not a transition. */
  lemma AlternatesOfPlainClip(name: string, names: seq<Option<string>>, c: Shape)
    requires Parse(name) == Some(c) && TransitionTo(c.tail.target) == ""
    ensures AlternatesOf(name, names) ==
      Without(FilterNames(AlternateForm(Stem(c.head.action, c.head.character, c.head.clip)), names), name)
  {
  }

  /** The next of a parsed primary clip that nothing transitions out of. */
  lemma NextWithoutTransition(name: string, names: seq<Option<string>>, c: Shape)
    requires Parse(name) == Some(c) && IsPrimary(c.tail) && TransitionTo(c.tail.target) == ""
    requires FindName(TransitionFrom(TransitionPrefix(c)), names).None?
    ensures NextOf(name, names) == ToSeq(FindName(PrimaryForm(SuccessorStem(c.head)), names))
  {
  }

  /** The previous of a parsed primary clip that is not a transition. */
  lemma PreviousOfPlainClip(name: string, names: seq<Option<string>>, c: Shape)
    requires Parse(name) == Some(c) && IsPrimary(c.tail) && TransitionTo(c.tail.target) == ""
    ensures PreviousOf(name, names) == FindName(PrimaryForm(PredecessorStem(c.head)), names)
  {
  }

  /**
   * Consecutive plain clips `A_x_NN` and `A_x_MM` with MM = NN+1: when no
   * clip starts with `A_x_NN-`, the next of the first is the first clip named
   * `A_x_MM` (optionally followed by `_` and `A`), which is `A_x_MM` itself
   * when that is the only such clip; the previous of the second is the first
   * clip named `A_x_NN` (optionally followed by `_` and `A`).
   */
  lemma ConsecutiveIndices(x: string, n: nat, names: seq<Option<string>>)
    requires |x| >= 1 && IsWord(x) && n < 99
    requires forall j :: 0 <= j < |names| ==>
      !Hit(TransitionFrom("A_" + x + "_" + Format02(n)), names[j])
    ensures var first, second := "A_" + x + "_" + Format02(n), "A_" + x + "_" + Format02(n + 1);
      && NextOf(first, names) == ToSeq(FindName(PrimaryForm(second), names))
      && PreviousOf(second, names) == FindName(PrimaryForm(first), names)
    ensures var first, second := "A_" + x + "_" + Format02(n), "A_" + x + "_" + Format02(n + 1);
      (Some(second) in names && forall j :: 0 <= j < |names| && Hit(PrimaryForm(second), names[j]) ==> names[j] == Some(second))
      ==> NextOf(first, names) == [second]
  {
    var first, second := "A_" + x + "_" + Format02(n), "A_" + x + "_" + Format02(n + 1);
    var c1, c2 := Plain(x, Format02(n)), Plain(x, Format02(n + 1));
    AtoiOfFormat(n);
    AtoiOfFormat(n + 1);
    ParsePlain(x, Format02(n));
    ParsePlain(x, Format02(n + 1));
    PlainStems(x, n);
    NextWithoutTransition(first, names, c1);
    PreviousOfPlainClip(second, names, c2);
    PrimaryFormSelf(second);
  }

  /** The stems the rules build for consecutive plain clips. */
  lemma PlainStems(x: string, n: nat)
    requires n < 99
    ensures TransitionPrefix(Plain(x, Format02(n))) == "A_" + x + "_" + Format02(n)
    ensures IsTwoDigits(Format02(n)) && SuccessorStem(Plain(x, Format02(n)).head) == "A_" + x + "_" + Format02(n + 1)
    ensures IsTwoDigits(Format02(n + 1)) && PredecessorStem(Plain(x, Format02(n + 1)).head) == "A_" + x + "_" + Format02(n)
  {
    AtoiOfFormat(n);
    AtoiOfFormat(n + 1);
    NeighbourStems(Plain(x, Format02(n)).head, Format02(n + 1));
    PlainPrefix(x, Format02(n));
  }

  /**
   * When clip `e` reads as one more than the clip of `h`, the successor stem
   * of `h` names clip `e` and the predecessor stem of the same head with clip
   * `e` names the clip of `h`; the `_<char>` segment is kept in both, so
   * `A_intro_B_01` and `A_intro_B_02` are each other's neighbours.
   */
  lemma NeighbourStems(h: Head, e: string)
    requires IsTwoDigits(h.clip) && IsTwoDigits(e) && Atoi(e) == Atoi(h.clip) + 1
    ensures SuccessorStem(h) == Stem(h.action, h.character, e)
    ensures PredecessorStem(Head(h.action, h.character, h.charUnderscore, e)) == Stem(h.action, h.character, h.clip)
  {
    SuccessorIndex(h, e);
    PredecessorIndex(Head(h.action, h.character, h.charUnderscore, e), h.clip);
  }

  lemma SuccessorIndex(h: Head, e: string)
    requires IsTwoDigits(h.clip) && IsTwoDigits(e) && Atoi(e) == Atoi(h.clip) + 1
    ensures SuccessorStem(h) == Stem(h.action, h.character, e)
  {
    FormatOfAtoi(e);
  }

  lemma PredecessorIndex(h: Head, d: string)
    requires IsTwoDigits(h.clip) && IsTwoDigits(d) && Atoi(h.clip) == Atoi(d) + 1
    ensures PredecessorStem(h) == Stem(h.action, h.character, d)
  {
    FormatOfAtoi(d);
  }

  /** Nothing is trimmed from the text of a plain clip `A_<x>_<d>`. */
  lemma PlainPrefix(x: string, d: string)
    requires IsTwoDigits(d)
    ensures TransitionPrefix(Plain(x, d)) == "A_" + x + "_" + d
  {
    var first := "A_" + x + "_" + d;
    var c := Plain(x, d);
    assert TailThen(c.tail, "") == "" && d + "" == d;
    assert Render(c) == first;
    assert first[|first| - 1] == d[1];
    TrimDigitEnding(first);
  }

  /**
   * The prefix of the clips that transition out of a clip: the first
   * alternate `<head>_A` and the plain `<head>` share it, as `_A` is trimmed; a
   * first alternate written without the `_`, `<head>A`, keeps its `A`.
   */
  lemma FirstAlternatePrefix(h: Head)
    requires WellFormedHead(h)
    ensures TransitionPrefix(Shape(h, Tail(true, "A", false, NoTarget))) == HeadThen(h, "")
    ensures TransitionPrefix(Shape(h, Tail(false, "", false, NoTarget))) == HeadThen(h, "")
    ensures TransitionPrefix(Shape(h, Tail(false, "A", false, NoTarget))) == HeadThen(h, "") + "A"
  {
    var t := HeadThen(h, "");
    HeadDigitEnding(h);
    assert TailThen(Tail(true, "A", false, NoTarget), "") == "_A";
    assert TailThen(Tail(false, "", false, NoTarget), "") == "";
    assert TailThen(Tail(false, "A", false, NoTarget), "") == "A";
    HeadThenAppend(h, "_A");
    HeadThenAppend(h, "");
    HeadThenAppend(h, "A");
    assert t + "" == t;
    TrimDigitEnding(t);
    var s := t + "A";
    assert s[|s| - 2] == t[|t| - 1];
    assert !EndsWith(s, "_A");
  }

  /** The text of a well-formed head ends with its last clip digit. */
  lemma HeadDigitEnding(h: Head)
    requires WellFormedHead(h)
    ensures var t := HeadThen(h, ""); |t| >= 2 && t[|t| - 1] == h.clip[1]
  {
    var u := Opt(h.charUnderscore, "_");
    var front := "A_" + (h.action + ("_" + (h.character + u)));
    assert HeadThen(h, "") == front + h.clip by {
      assert h.clip + "" == h.clip;
    }
  }

  lemma PrimaryFormSelf(x: string)
    ensures Matches(PrimaryForm(x), x)
  {
    assert x[|x|..] == "";
  }

  /**
   * The alternates of a clip that is not a transition are exactly the listed
   * clips named by its stem `A_<action>[_<char>]_<clip>` plus an optional `_`
   * and an optional upper-case letter, other than the clip itself.
   */
  lemma AlternatesAreFamily(name: string, names: seq<Option<string>>)
    requires Parse(name).Some? && TransitionTo(Parse(name).value.tail.target) == ""
    ensures var h := Parse(name).value.head;
      forall y :: y in AlternatesOf(name, names) <==>
        Some(y) in names && Matches(AlternateForm(Stem(h.action, h.character, h.clip)), y) && y != name
  {
  }

  /** Leaving a name out of the accepted names is accepting from the list with that name blanked out. */
  lemma {:induction false} WithoutFilter(p: Pattern, names: seq<Option<string>>, x: string)
    ensures Without(FilterNames(p, names), x) == FilterNames(p, Masked(names, x))
  {
    if names == [] {
      assert FilterNames(p, names) == [] && Masked(names, x) == [];
    } else {
      WithoutFilter(p, names[..|names| - 1], x);
      WithoutFilterStep(p, names, x);
    }
  }

  /** The inductive step of `WithoutFilter`: one element more at the end of the list. */
  lemma WithoutFilterStep(p: Pattern, names: seq<Option<string>>, x: string)
    requires names != []
    requires var pre := names[..|names| - 1];
      Without(FilterNames(p, pre), x) == FilterNames(p, Masked(pre, x))
    ensures Without(FilterNames(p, names), x) == FilterNames(p, Masked(names, x))
  {
    var n := |names| - 1;
    var pre, e, m := names[..n], names[n], Masked(names, x);
    var last := if Hit(p, e) then [e.value] else [];
    FilterNamesSnoc(p, names);
    FilterNamesSnoc(p, m);
    assert m[..n] == Masked(pre, x);
    WithoutAppend(FilterNames(p, pre), last, x);
    if Hit(p, e) {
      WithoutSingle(e.value, x);
      if e.value == x {
        assert m[n] == None;
      } else {
        assert m[n] == e;
      }
    } else {
      assert !Hit(p, m[n]);
    }
  }

  /**
   * The alternates of a clip that is not a transition, in order and with
   * repetitions: one name for each listed clip that its stem's pattern
   * `^<stem>_?[A-Z]?$` accepts and that is not named as the clip itself, in
   * list order.
   */
  lemma AlternatesInListOrder(name: string, names: seq<Option<string>>)
    requires Parse(name).Some? && TransitionTo(Parse(name).value.tail.target) == ""
    ensures var h := Parse(name).value.head;
      var p := AlternateForm(Stem(h.action, h.character, h.clip));
      var ix := MatchingIndices(p, Masked(names, name));
      var r := AlternatesOf(name, names);
      && |r| == |ix|
      && (forall k :: 0 <= k < |ix| ==> names[ix[k]] == Some(r[k]))
      && (forall k, l :: 0 <= k < l < |ix| ==> ix[k] < ix[l])
      && (forall j :: 0 <= j < |names| ==> (j in ix <==> Hit(p, names[j]) && names[j] != Some(name)))
  {
    var c := Parse(name).value;
    var h := c.head;
    var p := AlternateForm(Stem(h.action, h.character, h.clip));
    AlternatesOfPlainClip(name, names, c);
    WithoutFilter(p, names, name);
    MaskedFamily(p, names, name);
  }

  /** The accepted names of the list with `x` blanked out: one per accepted element not named `x`, in list order. */
  lemma MaskedFamily(p: Pattern, names: seq<Option<string>>, x: string)
    ensures var m := Masked(names, x);
      var ix := MatchingIndices(p, m);
      var r := FilterNames(p, m);
      && |r| == |ix|
      && (forall k :: 0 <= k < |ix| ==> names[ix[k]] == Some(r[k]))
      && (forall j :: 0 <= j < |names| ==> (j in ix <==> Hit(p, names[j]) && names[j] != Some(x)))
  {
    var m := Masked(names, x);
    var ix := MatchingIndices(p, m);
    forall j | 0 <= j < |names|
      ensures j in ix <==> Hit(p, names[j]) && names[j] != Some(x)
    {
      assert Hit(p, m[j]) <==> Hit(p, names[j]) && names[j] != Some(x);
    }
  }

  /**
   * The first alternate `_A` of a plain clip is one of its alternates: only
   * the clip's own name is left out of the family.
   */
  lemma FirstAlternateIsAlternate(x: string, d: string, names: seq<Option<string>>)
    requires |x| >= 1 && IsWord(x) && IsTwoDigits(d)
    requires Some("A_" + x + "_" + d + "_A") in names
    ensures "A_" + x + "_" + d + "_A" in AlternatesOf("A_" + x + "_" + d, names)
  {
    var name := "A_" + x + "_" + d;
    var y := name + "_A";
    var c := Plain(x, d);
    ParsePlain(x, d);
    assert Stem(c.head.action, c.head.character, c.head.clip) == name;
    assert Matches(AlternateForm(name), y) by {
      assert y[..|name|] == name && y[|name|..] == "_A";
    }
    assert |y| != |name|;
    AlternatesOfPlainClip(name, names, c);
    assert y in FilterNames(AlternateForm(name), names);
  }

  /**
   * The hyphen before the transition group is optional: a name such as
   * `A_intro_01_relax_01` parses as a transition clip with no hyphen, whose
   * transition target is `relax_01`.
   */
  lemma HyphenIsOptional(x: string, d: string, y: string, e: string)
    requires |x| >= 1 && IsWord(x) && IsTwoDigits(d) && IsWord(y) && IsTwoDigits(e)
    ensures var c := Shape(Head(x, "", false, d), Tail(true, "", false, Target(y, true, e)));
      && Parse("A_" + x + "_" + d + "_" + y + "_" + e) == Some(c)
      && !c.tail.hyphen && TransitionTo(c.tail.target) == y + "_" + e
  {
    var c := Shape(Head(x, "", false, d), Tail(true, "", false, Target(y, true, e)));
    UnhyphenatedText(x, d, y, e);
    ParseName(c, "", "A_" + x + "_" + d + "_" + y + "_" + e);
  }

  lemma UnhyphenatedText(x: string, d: string, y: string, e: string)
    ensures var c := Shape(Head(x, "", false, d), Tail(true, "", false, Target(y, true, e)));
      && RenderThen(c, "") == "A_" + x + "_" + d + "_" + y + "_" + e
      && TransitionTo(c.tail.target) == y + "_" + e
  {
    var c := Shape(Head(x, "", false, d), Tail(true, "", false, Target(y, true, e)));
    assert TransitionTo(c.tail.target) == y + ("_" + e) by {
      assert e + "" == e;
    }
    assert TailThen(c.tail, "") == "_" + (y + ("_" + e));
    assert RenderThen(c, "") == "A_" + (x + ("_" + (d + ("_" + (y + ("_" + e))))));
  }

  /**
   * Text after a transition group is ignored: a name such as
   * `A_intro_01-02 (1)` parses as the transition clip `A_intro_01-02`, and
   * its next is the first clip named `A_intro_02` (optionally followed by `_`
   * and `A`).
   */
  lemma TrailingTextIgnored(x: string, d: string, e: string, rest: string, names: seq<Option<string>>)
    requires |x| >= 1 && IsWord(x) && IsTwoDigits(d) && IsTwoDigits(e)
    ensures var name := "A_" + x + "_" + d + "-" + e + rest;
      && Parse(name) == Some(Shape(Head(x, "", false, d), Tail(false, "", true, Target("", false, e))))
      && NextOf(name, names) == ToSeq(FindName(PrimaryForm("A_" + x + "_" + e), names))
  {
    var name := "A_" + x + "_" + d + "-" + e + rest;
    var c := Shape(Head(x, "", false, d), Tail(false, "", true, Target("", false, e)));
    TrailingText(x, d, e, rest);
    ParseName(c, rest, name);
    TransitionClipRules(name, names);
  }

  lemma TrailingText(x: string, d: string, e: string, rest: string)
    ensures var c := Shape(Head(x, "", false, d), Tail(false, "", true, Target("", false, e)));
      && RenderThen(c, rest) == "A_" + x + "_" + d + "-" + e + rest
      && TransitionTo(c.tail.target) == e && Stem(x, "", e) == "A_" + x + "_" + e
  {
    var c := Shape(Head(x, "", false, d), Tail(false, "", true, Target("", false, e)));
    assert TailThen(c.tail, rest) == "-" + (e + rest);
    assert RenderThen(c, rest) == "A_" + (x + ("_" + (d + ("-" + (e + rest)))));
    assert e + "" == e;
  }

  /**
   * A name that starts with the text of a canonical shape, followed by text
   * that stops the match, has that shape as its captures.
   */
  lemma ParseName(c: Shape, rest: string, name: string)
    requires Canonical(c) && (c.tail.target.NoTarget? ==> StopsMatch(rest)) && name == RenderThen(c, rest)
    ensures Parse(name) == Some(c)
  {
    RecogniseRender(c, rest);
  }

  /** A name that starts with a well-formed head parses, with that head, whatever follows it. */
  lemma ParseHead(h: Head, y: string)
    requires WellFormedHead(h)
    ensures Parse(HeadThen(h, y)).Some? && Parse(HeadThen(h, y)).value.head == h
  {
    RecogniseHead(h, y);
  }

  /**
   * The stem the rules build from a well-formed head's captures is the text
   * of that head, and parses back to those captures.
   */
  lemma StemParses(action: string, character: string, index: string)
    requires WellFormedHead(Head(action, character, character != "", index))
    ensures var c := Shape(Head(action, character, character != "", index), Tail(false, "", false, NoTarget));
      Parse(Stem(action, character, index)) == Some(c)
  {
    var h := Head(action, character, character != "", index);
    var c := Shape(h, Tail(false, "", false, NoTarget));
    StemIsHeadText(h);
    assert RenderThen(c, "") == HeadThen(h, "");
    ParseName(c, "", Stem(action, character, index));
  }

  /** A stem is the text of the head with the same captures. */
  lemma StemIsHeadText(h: Head)
    requires h.charUnderscore == (h.character != "")
    ensures Stem(h.action, h.character, h.clip) == HeadThen(h, "")
  {
    assert h.clip + "" == h.clip;
    if h.character == "" {
      assert HeadThen(h, "") == "A_" + (h.action + ("_" + h.clip));
    } else {
      assert HeadThen(h, "") == "A_" + (h.action + ("_" + (h.character + ("_" + h.clip))));
    }
  }
}
