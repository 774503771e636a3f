/**
 * The recogniser for the clip-name pattern of main.go:63,
 *
 *   A_<action>_<char>?_?<clip>_?<alternate>?-?(<nextName>?_?<nextClip>)?
 *
 * written out as a scan that consumes the name from the front. The pattern is
 * unanchored and Go picks the leftmost start. At a start position the scan
 * takes every optional part whenever it can. Where Go's regexp would retry
 * the other alternative (a shorter letter run, or skipping `[A-Z]?` or `_?`
 * in the head when the clip digits are missing), the retry cannot succeed
 * either. After the clip digits the match can no longer fail: a transition
 * group whose digits are missing is skipped as a whole. The scan therefore
 * yields the captures Go's regexp yields, and the text after the match is
 * ignored.
 */
module ClipName {
  import opened Wrappers
  import opened Numbers

  predicate IsLower(c: char) { 'a' <= c <= 'z' }
  predicate IsUpper(c: char) { 'A' <= c <= 'Z' }

  /** A run of `[a-z]`, possibly empty. */
  predicate IsWord(s: string) {
    forall k :: 0 <= k < |s| ==> IsLower(s[k])
  }

  /** What `[A-Z]?` captures. */
  predicate IsLetterOrEmpty(s: string) {
    s == [] || (|s| == 1 && IsUpper(s[0]))
  }

  /**
   * The mandatory part of a match: `A_`, the `action` capture, `_`, the `char`
   * capture, an optional `_` and the two-digit `clip` capture.
   */
  datatype Head = Head(action: string, character: string, charUnderscore: bool, clip: string)

  /** The optional `transitionTo` group: `nextName`, an optional `_`, then `nextClip`. */
  datatype Target = NoTarget | Target(nextName: string, underscore: bool, nextClip: string)

  /**
   * The optional part after `clip`: an optional `_`, the `alternate` capture,
   * an optional `-` and the transition group.
   */
  datatype Tail = Tail(altUnderscore: bool, alternate: string, hyphen: bool, target: Target)

  /** All captures of one match, with the optional separators that it consumed. */
  datatype Shape = Shape(head: Head, tail: Tail)

  /** A match and the position in the name where it starts. */
  datatype Match = Match(start: nat, shape: Shape)

  /** `s` when `present`, otherwise nothing: an optional literal of the pattern. */
  function Opt(present: bool, s: string): string {
    if present then s else ""
  }

  // The text of each part is written followed by whatever comes after it in
  // the name, so that the text the scan consumes lines up with it piece by piece.

  /** The text of the transition group, followed by `rest`. */
  function TargetThen(t: Target, rest: string): string {
    match t
    case NoTarget => rest
    case Target(n, u, d) => n + (Opt(u, "_") + (d + rest))
  }

  function HeadThen(h: Head, rest: string): string {
    "A_" + (h.action + ("_" + (h.character + (Opt(h.charUnderscore, "_") + (h.clip + rest)))))
  }

  function TailThen(t: Tail, rest: string): string {
    Opt(t.altUnderscore, "_") + (t.alternate + (Opt(t.hyphen, "-") + TargetThen(t.target, rest)))
  }

  function RenderThen(c: Shape, rest: string): string {
    HeadThen(c.head, TailThen(c.tail, rest))
  }

  /** The `transitionTo` capture; empty exactly when the group did not match. */
  function TransitionTo(t: Target): string {
    TargetThen(t, "")
  }

  /** The matched text `match[0]` of a shape. */
  function Render(c: Shape): string {
    RenderThen(c, "")
  }

  /** Every capture of the head has the character class the pattern gives it. */
  predicate WellFormedHead(h: Head) {
    && |h.action| >= 1 && IsWord(h.action)
    && IsLetterOrEmpty(h.character)
    && IsTwoDigits(h.clip)
  }

  predicate WellFormedTarget(t: Target) {
    t.Target? ==> IsWord(t.nextName) && IsTwoDigits(t.nextClip)
  }

  /**
   * A well-formed tail that the greedy scan can produce: a `_` right after the
   * clip digits always goes to the optional `_` before `alternate`, so a
   * group `_NN` cannot directly follow the digits.
   */
  predicate CanonicalTail(t: Tail) {
    && IsLetterOrEmpty(t.alternate)
    && WellFormedTarget(t.target)
    && !(!t.altUnderscore && t.alternate == "" && !t.hyphen
         && t.target.Target? && t.target.nextName == "" && t.target.underscore)
  }

  predicate Canonical(c: Shape) {
    WellFormedHead(c.head) && CanonicalTail(c.tail)
  }

  // ---------------------------------------------------------------------------
  // The scan. Each step returns what it captured and the text left after it;
  // what the consumed text is, is proved by the lemmas that follow.

  /** Length of the maximal `[a-z]` prefix (the greedy `[a-z]+` / `[a-z]*`). */
  function LowerRun(x: string): (n: nat)
    ensures n <= |x|
    ensures forall k :: 0 <= k < n ==> IsLower(x[k])
    ensures n == |x| || !IsLower(x[n])
  {
    if |x| > 0 && IsLower(x[0]) then 1 + LowerRun(x[1..]) else 0
  }

  /** Greedy `c?`: whether `c` was consumed, and the rest. */
  function OptChar(x: string, c: char): (bool, string) {
    if |x| > 0 && x[0] == c then (true, x[1..]) else (false, x)
  }

  /** Greedy `[A-Z]?`: the letter consumed (or ""), and the rest. */
  function OptUpper(x: string): (string, string) {
    if |x| > 0 && IsUpper(x[0]) then (x[..1], x[1..]) else ("", x)
  }

  predicate StartsWithDigits(x: string) {
    |x| >= 2 && IsDigit(x[0]) && IsDigit(x[1])
  }

  /**
   * The rest of the head once `A_`, the action and its `_` are consumed: the
   * optional upper-case `char`, the optional `_` and the two clip digits.
   */
  function ClipOf(action: string, z: string): Option<(Head, string)> {
    var (ch, z1) := OptUpper(z);
    var (u, z2) := OptChar(z1, '_');
    if StartsWithDigits(z2) then Some((Head(action, ch, u, z2[..2]), z2[2..])) else None
  }

  /** The mandatory head at the front of `x`, and the rest, if the head is there. */
  function HeadOf(x: string): Option<(Head, string)> {
    if !(|x| >= 2 && x[0] == 'A' && x[1] == '_') then None
    else
      var y := x[2..];
      var n := LowerRun(y);
      if n == 0 || n == |y| || y[n] != '_' then None
      else ClipOf(y[..n], y[n + 1..])
  }

  /**
   * The optional transition group at the front of `x`: a maximal `[a-z]*` run,
   * greedy `_?`, then two digits; when the digits are missing the group is
   * absent and nothing is consumed.
   */
  function TargetOf(x: string): (Target, string) {
    var n := LowerRun(x);
    var (u, y) := OptChar(x[n..], '_');
    if StartsWithDigits(y) then (Target(x[..n], u, y[..2]), y[2..]) else (NoTarget, x)
  }

  /** The tail at the front of `x`, which always matches (possibly empty), and the rest. */
  function TailOf(x: string): (Tail, string) {
    var (u, y1) := OptChar(x, '_');
    var (a, y2) := OptUpper(y1);
    var (h, y3) := OptChar(y2, '-');
    var (t, y4) := TargetOf(y3);
    (Tail(u, a, h, t), y4)
  }

  /** The whole match at the front of `x`, and the text after it. */
  function ShapeOf(x: string): Option<(Shape, string)> {
    match HeadOf(x)
    case None => None
    case Some((h, y)) =>
      var (t, z) := TailOf(y);
      Some((Shape(h, t), z))
  }

  /** The match starting exactly at position `i`, if there is one (see `ShapeAtSound`). */
  function ShapeAt(s: string, i: nat): Option<Shape> {
    if i > |s| then None
    else
      match ShapeOf(s[i..])
      case None => None
      case Some((c, _)) => Some(c)
  }

  /** The leftmost position at or after `i` where `matchAt` succeeds. */
  function Search(s: string, i: nat, matchAt: (string, nat) -> Option<Shape>): (r: Option<Match>)
    requires i <= |s|
    ensures r.Some? ==> i <= r.value.start <= |s| && matchAt(s, r.value.start) == Some(r.value.shape)
    ensures r.Some? ==> forall j :: i <= j < r.value.start ==> matchAt(s, j).None?
    ensures r.None? ==> forall j :: i <= j <= |s| ==> matchAt(s, j).None?
    decreases |s| - i
  {
    match matchAt(s, i)
    case Some(c) => Some(Match(i, c))
    case None => if i == |s| then None else Search(s, i + 1, matchAt)
  }

  /**
   * `re.FindStringSubmatch(name)`: `None` when the pattern occurs at no
   * position of the name; otherwise the match at the leftmost position where
   * it occurs. By `ShapeAtSound` the shape is canonical and its text is in
   * the name at that position; text before and after it is ignored.
   */
  function Recognise(name: string): (r: Option<Match>)
    ensures r.None? ==> forall j :: 0 <= j <= |name| ==> ShapeAt(name, j).None?
    ensures r.Some? ==> r.value.start <= |name| && ShapeAt(name, r.value.start) == Some(r.value.shape)
    ensures r.Some? ==> forall j :: 0 <= j < r.value.start ==> ShapeAt(name, j).None?
  {
    Search(name, 0, ShapeAt)
  }

  // ---------------------------------------------------------------------------
  // Soundness: what each step consumed is the text of what it captured.

  lemma OptCharSound(x: string, c: char)
    ensures x == Opt(OptChar(x, c).0, [c]) + OptChar(x, c).1
    ensures !OptChar(x, c).0 ==> x == [] || x[0] != c
  {
    if |x| > 0 && x[0] == c {
      assert x == [c] + x[1..];
    }
  }

  lemma OptUpperSound(x: string)
    ensures x == OptUpper(x).0 + OptUpper(x).1 && IsLetterOrEmpty(OptUpper(x).0)
    ensures OptUpper(x).0 == [] ==> x == [] || !IsUpper(x[0])
  {
    if |x| > 0 && IsUpper(x[0]) {
      assert x == x[..1] + x[1..];
    }
  }


  lemma ClipOfSound(action: string, z: string)
    requires ClipOf(action, z).Some?
    ensures var (h, rest) := ClipOf(action, z).value;
      && h.action == action && IsLetterOrEmpty(h.character) && IsTwoDigits(h.clip)
      && z == h.character + (Opt(h.charUnderscore, "_") + (h.clip + rest))
  {
    var (ch, z1) := OptUpper(z);
    OptUpperSound(z);
    OptCharSound(z1, '_');
    var z2 := OptChar(z1, '_').1;
    assert z2 == z2[..2] + z2[2..];
  }

  lemma HeadOfSound(x: string)
    requires HeadOf(x).Some?
    ensures var (h, rest) := HeadOf(x).value;
      WellFormedHead(h) && x == HeadThen(h, rest)
  {
    var y := x[2..];
    var n := LowerRun(y);
    var a, z := y[..n], y[n + 1..];
    assert HeadOf(x) == ClipOf(a, z);
    ClipOfSound(a, z);
    assert IsWord(a);
    SeparatorAt(y, n, '_');
    SplitAt(x, 2);
    assert x[..2] == "A_";
  }

  lemma TargetOfSound(x: string)
    ensures var (t, rest) := TargetOf(x);
      WellFormedTarget(t) && x == TargetThen(t, rest)
    ensures var t := TargetOf(x).0;
      t.Target? && t.nextName == "" && t.underscore ==> x != [] && x[0] == '_'
  {
    var n := LowerRun(x);
    var (u, y) := OptChar(x[n..], '_');
    OptCharSound(x[n..], '_');
    if StartsWithDigits(y) {
      SplitAt(x, n);
      SplitAt(y, 2);
      assert IsWord(x[..n]);
      if n == 0 && u {
        assert x[n..] == x;
      }
    }
  }

  lemma TailOfSound(x: string)
    ensures var (t, rest) := TailOf(x);
      CanonicalTail(t) && x == TailThen(t, rest)
  {
    var (u, y1) := OptChar(x, '_');
    var (a, y2) := OptUpper(y1);
    var (h, y3) := OptChar(y2, '-');
    OptCharSound(x, '_');
    OptUpperSound(y1);
    OptCharSound(y2, '-');
    TargetOfSound(y3);
  }

  lemma ShapeOfSound(x: string)
    requires ShapeOf(x).Some?
    ensures var (c, rest) := ShapeOf(x).value;
      Canonical(c) && x == RenderThen(c, rest)
  {
    HeadOfSound(x);
    TailOfSound(HeadOf(x).value.1);
  }

  /** A match found at `i` is canonical and its text occurs in `s` at `i`. */
  lemma ShapeAtSound(s: string, i: nat, c: Shape)
    requires ShapeAt(s, i) == Some(c)
    ensures Canonical(c) && i + |Render(c)| <= |s| && s[i..i + |Render(c)|] == Render(c)
  {
    var x := s[i..];
    var rest := ShapeOf(x).value.1;
    ShapeOfSound(x);
    RenderThenAppend(c, rest);
    SliceOfPrefix(s, i, Render(c), rest);
  }

  /** `p + (a + rest)`, where `a + rest` is the text of a part followed by `rest`. */
  lemma Prefixed(p: string, x: string, a: string, rest: string)
    requires x == a + rest
    ensures p + x == (p + a) + rest
  {
  }

  lemma TargetThenAppend(t: Target, rest: string)
    ensures TargetThen(t, rest) == TargetThen(t, "") + rest
  {
    if t.Target? {
      var u, d := Opt(t.underscore, "_"), t.nextClip;
      assert d + "" == d;
      Prefixed(u, d + rest, d, rest);
      Prefixed(t.nextName, u + (d + rest), u + d, rest);
    }
  }

  lemma TailThenAppend(t: Tail, rest: string)
    ensures TailThen(t, rest) == TailThen(t, "") + rest
  {
    var g, g0 := TargetThen(t.target, rest), TargetThen(t.target, "");
    TargetThenAppend(t.target, rest);
    var h := Opt(t.hyphen, "-");
    Prefixed(h, g, g0, rest);
    Prefixed(t.alternate, h + g, h + g0, rest);
    Prefixed(Opt(t.altUnderscore, "_"), t.alternate + (h + g), t.alternate + (h + g0), rest);
  }

  lemma HeadThenAppend(h: Head, rest: string)
    ensures HeadThen(h, rest) == HeadThen(h, "") + rest
  {
    var u := Opt(h.charUnderscore, "_");
    assert h.clip + "" == h.clip;
    var e0 := u + h.clip;
    Prefixed(u, h.clip + rest, h.clip, rest);
    var e1 := h.character + e0;
    Prefixed(h.character, u + (h.clip + rest), e0, rest);
    var e2 := "_" + e1;
    Prefixed("_", h.character + (u + (h.clip + rest)), e1, rest);
    var e3 := h.action + e2;
    Prefixed(h.action, "_" + (h.character + (u + (h.clip + rest))), e2, rest);
    Prefixed("A_", h.action + ("_" + (h.character + (u + (h.clip + rest)))), e3, rest);
  }

  /** The text of a shape followed by `rest` is its matched text followed by `rest`. */
  lemma RenderThenAppend(c: Shape, rest: string)
    ensures RenderThen(c, rest) == Render(c) + rest
  {
    var t, t0 := TailThen(c.tail, rest), TailThen(c.tail, "");
    TailThenAppend(c.tail, rest);
    HeadThenAppend(c.head, t);
    HeadThenAppend(c.head, t0);
    Prefixed(HeadThen(c.head, ""), t, t0, rest);
  }

  lemma SplitAt(s: string, k: nat)
    requires k <= |s|
    ensures s == s[..k] + s[k..]
  {
  }

  /** A text split around the separator `c` at position `k`. */
  lemma SeparatorAt(s: string, k: nat, c: char)
    requires k < |s| && s[k] == c
    ensures s == s[..k] + ([c] + s[k + 1..])
  {
    assert s[k..] == [c] + s[k + 1..];
    SplitAt(s, k);
  }

  lemma SliceOfPrefix(s: string, i: nat, w: string, rest: string)
    requires i <= |s| && s[i..] == w + rest
    ensures i + |w| <= |s| && s[i..i + |w|] == w
  {
    assert s[i..i + |w|] == s[i..][..|w|];
  }

  // ---------------------------------------------------------------------------
  // Round trip: the scan recovers every canonical shape from its own text.

  /** The greedy lower-case run stops exactly at the end of a word. */
  lemma {:induction false} LowerRunOfWord(w: string, y: string)
    requires IsWord(w) && (y == [] || !IsLower(y[0]))
    ensures LowerRun(w + y) == |w|
  {
    if w != [] {
      assert (w + y)[1..] == w[1..] + y;
      LowerRunOfWord(w[1..], y);
    } else {
      assert w + y == y;
    }
  }

  /** `OptChar` gives back the separator it is shown, and nothing when the text goes on otherwise. */
  lemma OptCharOf(present: bool, c: char, z: string)
    requires !present ==> z == [] || z[0] != c
    ensures OptChar(Opt(present, [c]) + z, c) == (present, z)
  {
    if present {
      assert ([c] + z)[1..] == z;
    } else {
      assert Opt(present, [c]) + z == z;
    }
  }

  lemma OptUpperOf(letter: string, z: string)
    requires IsLetterOrEmpty(letter)
    requires letter == [] ==> z == [] || !IsUpper(z[0])
    ensures OptUpper(letter + z) == (letter, z)
  {
    if letter == [] {
      assert letter + z == z;
    } else {
      assert (letter + z)[..1] == letter && (letter + z)[1..] == z;
    }
  }

  lemma ClipOfRender(h: Head, rest: string)
    requires WellFormedHead(h)
    ensures ClipOf(h.action, h.character + (Opt(h.charUnderscore, "_") + (h.clip + rest))) == Some((h, rest))
  {
    var z2 := h.clip + rest;
    var z1 := Opt(h.charUnderscore, "_") + z2;
    OptUpperOf(h.character, z1);
    OptCharOf(h.charUnderscore, '_', z2);
    assert z2[..2] == h.clip && z2[2..] == rest;
  }

  lemma HeadOfRender(h: Head, rest: string)
    requires WellFormedHead(h)
    ensures HeadOf(HeadThen(h, rest)) == Some((h, rest))
  {
    var z := h.character + (Opt(h.charUnderscore, "_") + (h.clip + rest));
    var y := h.action + ("_" + z);
    var n := |h.action|;
    assert HeadThen(h, rest)[2..] == y;
    assert LowerRun(y) == n by {
      LowerRunOfWord(h.action, "_" + z);
    }
    assert y[..n] == h.action && y[n] == '_' && y[n + 1..] == z;
    ClipOfRender(h, rest);
  }

  /** A character that some part of the pattern can consume: `[A-Za-z0-9_-]`. */
  predicate IsPatternChar(c: char) {
    IsLower(c) || IsUpper(c) || IsDigit(c) || c == '_' || c == '-'
  }

  /** Text that no optional part of the pattern can start with: the end of the name, or a character outside `[A-Za-z0-9_-]`. */
  predicate StopsMatch(rest: string) {
    rest == [] || !IsPatternChar(rest[0])
  }

  /** The first character of a transition group's text, or of `rest` when the group is absent. */
  lemma TargetTextFirst(t: Target, rest: string)
    requires WellFormedTarget(t) && (t.NoTarget? ==> StopsMatch(rest))
    ensures var g := TargetThen(t, rest);
      g == [] || (g[0] != '-' && !IsUpper(g[0]) && (g[0] == '_' ==> t.Target? && t.nextName == "" && t.underscore))
  {
    if t.Target? {
      var g := TargetThen(t, rest);
      if t.nextName != "" {
        assert g[0] == t.nextName[0];
      } else if t.underscore {
        assert g[0] == '_';
      } else {
        assert g[0] == t.nextClip[0];
      }
    }
  }

  /** The group scan recovers a transition group from its text, whatever follows it; an absent group consumes nothing. */
  lemma TargetOfRender(t: Target, rest: string)
    requires WellFormedTarget(t) && (t.NoTarget? ==> StopsMatch(rest))
    ensures TargetOf(TargetThen(t, rest)) == (t, rest)
  {
    if t.Target? {
      var d := t.nextClip + rest;
      var y := Opt(t.underscore, "_") + d;
      var x := t.nextName + y;
      assert TargetThen(t, rest) == x;
      assert d[0] == t.nextClip[0];
      if !t.underscore {
        assert y == d;
      }
      assert LowerRun(x) == |t.nextName| by {
        LowerRunOfWord(t.nextName, y);
      }
      assert x[..|t.nextName|] == t.nextName && x[|t.nextName|..] == y;
      OptCharOf(t.underscore, '_', d);
      assert d[..2] == t.nextClip && d[2..] == rest;
    } else {
      assert rest[0..] == rest;
    }
  }

  /**
   * The tail scan recovers a canonical tail from its text. When there is no
   * transition group, the text after the tail must stop the match; after a
   * group, anything may follow.
   */
  lemma TailOfRender(t: Tail, rest: string)
    requires CanonicalTail(t) && (t.target.NoTarget? ==> StopsMatch(rest))
    ensures TailOf(TailThen(t, rest)) == (t, rest)
  {
    var g := TargetThen(t.target, rest);
    var y2 := Opt(t.hyphen, "-") + g;
    var y1 := t.alternate + y2;
    assert TailThen(t, rest) == Opt(t.altUnderscore, "_") + y1;
    TargetTextFirst(t.target, rest);
    if t.alternate == "" {
      assert y1 == y2;
    } else {
      assert y1[0] == t.alternate[0];
    }
    if !t.hyphen {
      assert y2 == g;
    } else {
      assert y2[0] == '-';
    }
    OptCharOf(t.altUnderscore, '_', y1);
    OptUpperOf(t.alternate, y2);
    OptCharOf(t.hyphen, '-', g);
    TargetOfRender(t.target, rest);
  }

  /** The scan recovers every canonical shape from its text, and leaves the text that follows it. */
  lemma ShapeOfRender(c: Shape, rest: string)
    requires Canonical(c) && (c.tail.target.NoTarget? ==> StopsMatch(rest))
    ensures ShapeOf(RenderThen(c, rest)) == Some((c, rest))
  {
    HeadOfRender(c.head, TailThen(c.tail, rest));
    TailOfRender(c.tail, rest);
  }

  /** Whatever follows a well-formed head, a match starts there and has that head. */
  lemma ShapeOfHead(h: Head, y: string)
    requires WellFormedHead(h)
    ensures ShapeOf(HeadThen(h, y)).Some? && ShapeOf(HeadThen(h, y)).value.0.head == h
  {
    HeadOfRender(h, y);
  }

  /**
   * A name that starts with the text of a canonical shape, followed by text
   * that stops the match, is recognised at position 0 as that shape.
   */
  lemma RecogniseRender(c: Shape, rest: string)
    requires Canonical(c) && (c.tail.target.NoTarget? ==> StopsMatch(rest))
    ensures Recognise(RenderThen(c, rest)) == Some(Match(0, c))
  {
    var s := RenderThen(c, rest);
    assert s[0..] == s;
    ShapeOfRender(c, rest);
    assert ShapeAt(s, 0) == Some(c);
  }

  /** A name that starts with a well-formed head is recognised at position 0 with that head, whatever follows. */
  lemma RecogniseHead(h: Head, y: string)
    requires WellFormedHead(h)
    ensures var r := Recognise(HeadThen(h, y));
      r.Some? && r.value.start == 0 && r.value.shape.head == h
  {
    var s := HeadThen(h, y);
    assert s[0..] == s;
    ShapeOfHead(h, y);
  }
}
