/**
 * The `Animation` records and the procedures that fill in their derived
 * fields (main.go:13-18, 80-269). A list of animations is a sequence of
 * possibly-nil references; the same object may occur in it more than once.
 * Each procedure is proved against the rule functions of `Inference`: what it
 * appends or assigns is exactly what those functions derive from the names.
 */
module Animations {
  import opened Wrappers
  import opened ClipName
  import opened Lookup
  import opened Inference

  /** One clip of the list (main.go:13-18). Its name is never changed by the rules. */
  class Animation {
    const name: string
    var nextAnimations: seq<string>
    var alternateAnimations: seq<string>
    var previousAnimation: string

    /** `&Animation{Name: filename}` (main.go:38): a clip with nothing derived yet. */
    constructor (name: string)
      ensures this.name == name
      ensures nextAnimations == [] && alternateAnimations == [] && previousAnimation == ""
    {
      this.name := name;
      nextAnimations := [];
      alternateAnimations := [];
      previousAnimation := "";
    }

    /** `getNextAnimation` (main.go:102-140): appends the next clip, if there is one. */
    method GetNextAnimation(all: seq<Animation?>)
      modifies this`nextAnimations
      ensures nextAnimations == old(nextAnimations) + NextOf(name, Names(all))
    {
      ghost var names := Names(all);
      var parsed := Parse(name);
      if parsed.None? {
        RejectedNameDerivesNothing(name, names);
        return;
      }
      var c := parsed.value;
      ParsedRules(name, names, c);
      if c.tail.alternate != "" && c.tail.alternate != "A" {
        return;
      }
      if TransitionTo(c.tail.target) != "" {
        FindTransition(all, c);
        return;
      }
      FindSuccessor(all, c);
    }

    /**
     * The rest of `getNextAnimation` for a plain primary clip (main.go:124-139):
     * appends a clip that transitions out of this one, or else the next index.
     */
    method FindSuccessor(all: seq<Animation?>, c: Shape)
      requires WellFormedHead(c.head) && IsPrimary(c.tail) && TransitionTo(c.tail.target) == ""
      modifies this`nextAnimations
      ensures nextAnimations == old(nextAnimations) + NextOfShape(c, Names(all))
    {
      ghost var names := Names(all);
      var nextClipName := SuccessorStem(c.head);
      var nextClip := FindAnimationByName(TransitionFrom(TrimSuffix(Render(c), "_A")), all);
      if nextClip == null {
        assert FindName(TransitionFrom(TransitionPrefix(c)), names).None?;
        nextClip := FindAnimationByName(PrimaryForm(nextClipName), all);
        assert NextOfShape(c, names) == ToSeq(FindName(PrimaryForm(nextClipName), names));
      } else {
        assert NextOfShape(c, names) == [nextClip.name];
      }
      if nextClip != null {
        nextAnimations := nextAnimations + [nextClip.name];
      }
    }

    /** `findTransition` (main.go:142-167): appends the clip the transition leads to, if listed. */
    method FindTransition(all: seq<Animation?>, c: Shape)
      requires TransitionTo(c.tail.target) != ""
      modifies this`nextAnimations
      ensures nextAnimations == old(nextAnimations) + ToSeq(TransitionNext(c.head, c.tail.target, Names(all)))
    {
      var nextClipName;
      if c.tail.target.nextName == "" {
        nextClipName := Stem(c.head.action, c.head.character, c.tail.target.nextClip);
      } else {
        nextClipName := "A_" + TransitionTo(c.tail.target);
      }
      var nextClip := FindAnimationByName(PrimaryForm(nextClipName), all);
      if nextClip != null {
        nextAnimations := nextAnimations + [nextClip.name];
      }
    }

    /** `getAlternateAnimation` (main.go:239-269): appends the other clips of the same family. */
    method GetAlternateAnimation(all: seq<Animation?>)
      modifies this`alternateAnimations
      ensures alternateAnimations == old(alternateAnimations) + AlternatesOf(name, Names(all))
    {
      ghost var names := Names(all);
      var parsed := Parse(name);
      if parsed.None? {
        RejectedNameDerivesNothing(name, names);
        return;
      }
      var c := parsed.value;
      ParsedRules(name, names, c);
      if TransitionTo(c.tail.target) != "" {
        return;
      }
      var toFind := Stem(c.head.action, c.head.character, c.head.clip);
      var alternates := FilterAnimations(AlternateForm(toFind), all);
      AppendOthers(alternates, FilterNames(AlternateForm(toFind), names));
    }

    /** The loop of `getAlternateAnimation` (main.go:265-269): appends every found name but its own. */
    method AppendOthers(alternates: seq<Animation>, ghost family: seq<string>)
      requires |family| == |alternates|
      requires forall k :: 0 <= k < |alternates| ==> alternates[k].name == family[k]
      modifies this`alternateAnimations
      ensures alternateAnimations == old(alternateAnimations) + Without(family, name)
    {
      for k := 0 to |alternates|
        invariant alternateAnimations == old(alternateAnimations) + Without(family[..k], name)
      {
        WithoutSnoc(family, k, name);
        if alternates[k].name != name {
          alternateAnimations := alternateAnimations + [alternates[k].name];
        }
      }
      assert family[..|alternates|] == family;
    }

    /** `getPreviousAnimation` (main.go:206-237): sets the previous clip, if there is one. */
    method GetPreviousAnimation(all: seq<Animation?>)
      modifies this`previousAnimation
      ensures previousAnimation == Assigned(PreviousOf(name, Names(all)), old(previousAnimation))
    {
      ghost var names := Names(all);
      var parsed := Parse(name);
      if parsed.None? {
        RejectedNameDerivesNothing(name, names);
        return;
      }
      var c := parsed.value;
      ParsedRules(name, names, c);
      if TransitionTo(c.tail.target) != "" {
        return;
      }
      if c.tail.alternate != "" && c.tail.alternate != "A" {
        return;
      }
      var previousClipName := PredecessorStem(c.head);
      var previousClip := FindAnimationByName(PrimaryForm(previousClipName), all);
      if previousClip != null {
        previousAnimation := previousClip.name;
      }
    }
  }

  /** The names of a list, `None` for a nil element. */
  function Names(all: seq<Animation?>): (r: seq<Option<string>>)
    ensures |r| == |all|
    ensures forall i :: 0 <= i < |all| ==> (r[i].None? <==> all[i] == null)
    ensures forall i :: 0 <= i < |all| && all[i] != null ==> r[i] == Some(all[i].name)
  {
    seq(|all|, i requires 0 <= i < |all| => if all[i] == null then None else Some(all[i].name))
  }

  /**
   * `findAnimationByName` (main.go:170-181): the first non-nil element whose
   * name the pattern accepts, or nil when there is none.
   */
  method FindAnimationByName(p: Pattern, all: seq<Animation?>) returns (r: Animation?)
    ensures r == null <==> FirstMatch(p, Names(all)).None?
    ensures r != null ==> r == all[FirstMatch(p, Names(all)).value]
    ensures r != null ==> FindName(p, Names(all)) == Some(r.name)
  {
    for i := 0 to |all|
      invariant forall j :: 0 <= j < i ==> !Hit(p, Names(all)[j])
    {
      if all[i] != null && Matches(p, all[i].name) {
        assert Hit(p, Names(all)[i]);
        return all[i];
      }
    }
    return null;
  }

  /**
   * `filterAnimations` (main.go:183-195): the non-nil elements whose names the
   * pattern accepts, in list order.
   */
  method FilterAnimations(p: Pattern, all: seq<Animation?>) returns (r: seq<Animation>)
    ensures |r| == |MatchingIndices(p, Names(all))|
    ensures forall k :: 0 <= k < |r| ==> r[k] == all[MatchingIndices(p, Names(all))[k]]
    ensures forall k :: 0 <= k < |r| ==> r[k].name == FilterNames(p, Names(all))[k]
  {
    r := [];
    for i := 0 to |all|
      invariant r == Accepted(p, all[..i])
    {
      assert all[..i + 1][..i] == all[..i];
      if all[i] != null && Matches(p, all[i].name) {
        r := r + [all[i]];
      }
    }
    assert all[..|all|] == all;
    AcceptedAtMatchingIndices(p, all);
    FilteredNames(p, all, r);
  }

  /** The non-nil elements whose names the pattern accepts, in list order. */
  function Accepted(p: Pattern, xs: seq<Animation?>): seq<Animation> {
    if xs == [] then []
    else
      var n := |xs| - 1;
      Accepted(p, xs[..n]) + (if xs[n] != null && Matches(p, xs[n].name) then [xs[n]] else [])
  }

  /** `Accepted` picks exactly the elements at the positions `MatchingIndices` gives. */
  lemma {:induction false} AcceptedAtMatchingIndices(p: Pattern, xs: seq<Animation?>)
    ensures |Accepted(p, xs)| == |MatchingIndices(p, Names(xs))|
    ensures forall k :: 0 <= k < |Accepted(p, xs)| ==> Accepted(p, xs)[k] == xs[MatchingIndices(p, Names(xs))[k]]
  {
    if xs != [] {
      var n := |xs| - 1;
      AcceptedAtMatchingIndices(p, xs[..n]);
      assert Names(xs[..n]) == Names(xs)[..n];
    }
  }

  /** The elements at the accepted positions carry the names `FilterNames` gives. */
  lemma FilteredNames(p: Pattern, all: seq<Animation?>, r: seq<Animation>)
    requires |r| == |MatchingIndices(p, Names(all))|
    requires forall k :: 0 <= k < |r| ==> r[k] == all[MatchingIndices(p, Names(all))[k]]
    ensures forall k :: 0 <= k < |r| ==> r[k].name == FilterNames(p, Names(all))[k]
  {
  }

  /** A string field after `if found != nil { field = found.Name }`. */
  function Assigned(found: Option<string>, current: string): string {
    if found.Some? then found.value else current
  }

  /** `s` appended `n` times: what `n` calls on the same object append. */
  function Repeat(s: seq<string>, n: nat): (r: seq<string>)
    ensures |r| == n * |s|
    ensures forall y :: y in r ==> y in s
  {
    if n == 0 then [] else Repeat(s, n - 1) + s
  }

  /** One more call appends one more copy. */
  lemma RepeatOnceMore(prefix: seq<string>, s: seq<string>, n: nat)
    ensures prefix + Repeat(s, n) + s == prefix + Repeat(s, n + 1)
  {
    assert Repeat(s, n + 1) == Repeat(s, n) + s;
  }

  /** How many times `a` occurs in the list. */
  function Occurrences(xs: seq<Animation?>, a: Animation): nat {
    if xs == [] then 0
    else Occurrences(xs[..|xs| - 1], a) + (if xs[|xs| - 1] == a then 1 else 0)
  }

  /** The occurrences among the first `i + 1` elements. */
  lemma OccurrencesSnoc(xs: seq<Animation?>, i: nat, a: Animation)
    requires i < |xs|
    ensures Occurrences(xs[..i + 1], a) == Occurrences(xs[..i], a) + (if xs[i] == a then 1 else 0)
  {
    assert xs[..i + 1][..i] == xs[..i];
  }

  /**
   * A field that had `s` appended once per occurrence of `a` among the first
   * `i` elements, after the element at `i` appended `s` if it is `a`.
   */
  lemma AppendCount(xs: seq<Animation?>, i: nat, a: Animation, s: seq<string>,
                    start: seq<string>, before: seq<string>, after: seq<string>)
    requires i < |xs|
    requires before == start + Repeat(s, Occurrences(xs[..i], a))
    requires after == if a == xs[i] then before + s else before
    ensures after == start + Repeat(s, Occurrences(xs[..i + 1], a))
  {
    OccurrencesSnoc(xs, i, a);
    if a == xs[i] {
      RepeatOnceMore(start, s, Occurrences(xs[..i], a));
    }
  }

  /**
   * `fetchAnimations` (main.go:80-98): one pass appending next and alternate
   * clips to every non-nil element, then one pass setting previous clips. It
   * returns the list it was given. An object listed `k` times gets its
   * derived lists appended `k` times.
   */
  method FetchAnimations(animations: seq<Animation?>) returns (r: seq<Animation?>)
    modifies set a | a in animations && a != null
    ensures r == animations
    ensures forall a :: a in animations && a != null ==>
      && a.nextAnimations == old(a.nextAnimations) + Repeat(NextOf(a.name, Names(animations)), Occurrences(animations, a))
      && a.alternateAnimations == old(a.alternateAnimations) + Repeat(AlternatesOf(a.name, Names(animations)), Occurrences(animations, a))
    ensures forall a :: a in animations && a != null ==>
      a.previousAnimation == Assigned(PreviousOf(a.name, Names(animations)), old(a.previousAnimation))
  {
    FetchNextAndAlternates(animations);
    FetchPrevious(animations);
    r := animations;
  }

  /** The first loop of `fetchAnimations` (main.go:81-91). */
  method FetchNextAndAlternates(animations: seq<Animation?>)
    modifies set a | a in animations && a != null
    ensures forall a :: a in animations && a != null ==>
      && a.nextAnimations == old(a.nextAnimations) + Repeat(NextOf(a.name, Names(animations)), Occurrences(animations, a))
      && a.alternateAnimations == old(a.alternateAnimations) + Repeat(AlternatesOf(a.name, Names(animations)), Occurrences(animations, a))
      && a.previousAnimation == old(a.previousAnimation)
  {
    var names := Names(animations);
    for i := 0 to |animations|
      invariant forall a :: a in animations && a != null ==>
        && a.nextAnimations == old(a.nextAnimations) + Repeat(NextOf(a.name, names), Occurrences(animations[..i], a))
        && a.alternateAnimations == old(a.alternateAnimations) + Repeat(AlternatesOf(a.name, names), Occurrences(animations[..i], a))
        && a.previousAnimation == old(a.previousAnimation)
    {
      label before:
      var animation := animations[i];
      if animation != null {
        animation.GetNextAnimation(animations);
        animation.GetAlternateAnimation(animations);
      }
      forall a | a in animations && a != null
        ensures a.nextAnimations == old(a.nextAnimations) + Repeat(NextOf(a.name, names), Occurrences(animations[..i + 1], a))
        ensures a.alternateAnimations == old(a.alternateAnimations) + Repeat(AlternatesOf(a.name, names), Occurrences(animations[..i + 1], a))
        ensures a.previousAnimation == old(a.previousAnimation)
      {
        assert a.previousAnimation == old@before(a.previousAnimation);
        AppendCount(animations, i, a, NextOf(a.name, names), old(a.nextAnimations),
          old@before(a.nextAnimations), a.nextAnimations);
        AppendCount(animations, i, a, AlternatesOf(a.name, names), old(a.alternateAnimations),
          old@before(a.alternateAnimations), a.alternateAnimations);
      }
    }
    assert animations[..|animations|] == animations;
  }

  /**
   * A field that was assigned from `v` if `a` occurs among the first `i`
   * elements, after the element at `i` assigned it if it is `a`: assigning
   * twice from the same `v` is the same as assigning once.
   */
  lemma AssignStep(xs: seq<Animation?>, i: nat, a: Animation, v: Option<string>,
                   start: string, before: string, after: string)
    requires i < |xs|
    requires before == if a in xs[..i] then Assigned(v, start) else start
    requires after == if a == xs[i] then Assigned(v, before) else before
    ensures after == if a in xs[..i + 1] then Assigned(v, start) else start
  {
    assert xs[..i + 1] == xs[..i] + [xs[i]];
  }

  /** The second loop of `fetchAnimations` (main.go:92-96). */
  method FetchPrevious(animations: seq<Animation?>)
    modifies set a | a in animations && a != null
    ensures forall a :: a in animations && a != null ==>
      && a.nextAnimations == old(a.nextAnimations)
      && a.alternateAnimations == old(a.alternateAnimations)
      && a.previousAnimation == Assigned(PreviousOf(a.name, Names(animations)), old(a.previousAnimation))
  {
    var names := Names(animations);
    for i := 0 to |animations|
      invariant forall a :: a in animations && a != null ==>
        && a.nextAnimations == old(a.nextAnimations)
        && a.alternateAnimations == old(a.alternateAnimations)
        && a.previousAnimation == if a in animations[..i] then Assigned(PreviousOf(a.name, names), old(a.previousAnimation)) else old(a.previousAnimation)
    {
      label before:
      var animation := animations[i];
      if animation != null {
        animation.GetPreviousAnimation(animations);
      }
      forall a | a in animations && a != null
        ensures a.nextAnimations == old(a.nextAnimations)
        ensures a.alternateAnimations == old(a.alternateAnimations)
        ensures a.previousAnimation == if a in animations[..i + 1] then Assigned(PreviousOf(a.name, names), old(a.previousAnimation)) else old(a.previousAnimation)
      {
        assert a.nextAnimations == old@before(a.nextAnimations);
        assert a.alternateAnimations == old@before(a.alternateAnimations);
        AssignStep(animations, i, a, PreviousOf(a.name, names), old(a.previousAnimation),
          old@before(a.previousAnimation), a.previousAnimation);
      }
    }
    assert animations[..|animations|] == animations;
  }
}
