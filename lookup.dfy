/**
 * The lookups `findAnimationByName` and `filterAnimations` (main.go:170-195).
 * Every expression the inference rules hand them is one of three literal
 * shapes built from a stem of letters, digits, `_` and `-`, so instead of a
 * regular-expression engine each shape is a predicate on the name.
 * A list of animations is seen here through its names: `None` stands for a
 * nil element, which both lookups skip.
 */
module Lookup {
  import opened Wrappers
  import ClipName

  datatype Pattern =
    | TransitionFrom(stem: string)  // `^stem-`
    | PrimaryForm(stem: string)     // `^stem_?A?$`
    | AlternateForm(stem: string)   // `^stem_?[A-Z]?$`

  predicate HasPrefix(name: string, x: string) {
    |x| <= |name| && name[..|x|] == x
  }

  /** What `_?A?$` accepts. */
  predicate IsPrimarySuffix(t: string) {
    t == "" || t == "_" || t == "A" || t == "_A"
  }

  /** What `_?[A-Z]?$` accepts. */
  predicate IsAlternateSuffix(t: string) {
    || t == "" || t == "_"
    || (|t| == 1 && ClipName.IsUpper(t[0]))
    || (|t| == 2 && t[0] == '_' && ClipName.IsUpper(t[1]))
  }

  /** `regexp.MatchString` for the three pattern shapes. */
  predicate Matches(p: Pattern, name: string) {
    match p
    case TransitionFrom(x) => HasPrefix(name, x + "-")
    case PrimaryForm(x) => HasPrefix(name, x) && IsPrimarySuffix(name[|x|..])
    case AlternateForm(x) => HasPrefix(name, x) && IsAlternateSuffix(name[|x|..])
  }

  /** A list element the lookups would accept: not nil, and its name matches. */
  predicate Hit(p: Pattern, e: Option<string>) {
    e.Some? && Matches(p, e.value)
  }

  /** The positions of the accepted elements, in list order. */
  function MatchingIndices(p: Pattern, names: seq<Option<string>>): (r: seq<nat>)
    ensures forall k :: 0 <= k < |r| ==> r[k] < |names| && Hit(p, names[r[k]])
    ensures forall k, l :: 0 <= k < l < |r| ==> r[k] < r[l]
    ensures forall j :: 0 <= j < |names| && Hit(p, names[j]) ==> j in r
  {
    if names == [] then []
    else
      var n := |names| - 1;
      var ix := MatchingIndices(p, names[..n]);
      if Hit(p, names[n]) then ix + [n] else ix
  }

  /** The position `findAnimationByName` stops at: the first accepted element. */
  function FirstMatch(p: Pattern, names: seq<Option<string>>): (r: Option<nat>)
    ensures r.Some? ==> r.value < |names| && Hit(p, names[r.value])
    ensures r.Some? ==> forall j :: 0 <= j < r.value ==> !Hit(p, names[j])
    ensures r.None? ==> forall j :: 0 <= j < |names| ==> !Hit(p, names[j])
  {
    var ix := MatchingIndices(p, names);
    if ix == [] then None
    else
      assert forall j :: 0 <= j < ix[0] ==> j !in ix;
      Some(ix[0])
  }

  /** The name of the element `findAnimationByName` returns, or `None` for nil. */
  function FindName(p: Pattern, names: seq<Option<string>>): (r: Option<string>)
    ensures r.Some? ==> Some(r.value) in names && Matches(p, r.value)
    ensures r.None? <==> forall j :: 0 <= j < |names| ==> !Hit(p, names[j])
  {
    match FirstMatch(p, names)
    case None => None
    case Some(i) => names[i]
  }

  /**
   * The names of the elements `filterAnimations` returns: exactly the accepted
   * ones, in list order.
   */
  function FilterNames(p: Pattern, names: seq<Option<string>>): (r: seq<string>)
    ensures |r| == |MatchingIndices(p, names)|
    ensures forall k :: 0 <= k < |r| ==> names[MatchingIndices(p, names)[k]] == Some(r[k])
    ensures forall y :: y in r <==> Some(y) in names && Matches(p, y)
  {
    var ix := MatchingIndices(p, names);
    var r := seq(|ix|, k requires 0 <= k < |ix| => names[ix[k]].value);
    assert forall y :: Some(y) in names && Matches(p, y) ==> y in r by {
      forall y | Some(y) in names && Matches(p, y)
        ensures y in r
      {
        var j :| 0 <= j < |names| && names[j] == Some(y);
        var k :| 0 <= k < |ix| && ix[k] == j;
        assert r[k] == y;
      }
    }
    r
  }

  /** The list seen with every element named `x` blanked out, as the lookups would see a nil element. */
  function Masked(names: seq<Option<string>>, x: string): (r: seq<Option<string>>)
    ensures |r| == |names|
    ensures forall j :: 0 <= j < |names| ==> r[j] == if names[j] == Some(x) then None else names[j]
  {
    if names == [] then []
    else
      var n := |names| - 1;
      Masked(names[..n], x) + [if names[n] == Some(x) then None else names[n]]
  }

  /** `filterAnimations` on one element more: the accepted ones so far, then that element's name if it is accepted. */
  lemma FilterNamesSnoc(p: Pattern, names: seq<Option<string>>)
    requires names != []
    ensures var n := |names| - 1;
      FilterNames(p, names) == FilterNames(p, names[..n]) + (if Hit(p, names[n]) then [names[n].value] else [])
  {
    var n := |names| - 1;
    var pre := names[..n];
    var ix, ix0 := MatchingIndices(p, names), MatchingIndices(p, pre);
    assert ix == ix0 + (if Hit(p, names[n]) then [n] else []);
    var a, b := FilterNames(p, names), FilterNames(p, pre) + (if Hit(p, names[n]) then [names[n].value] else []);
    assert |a| == |b|;
    forall k | 0 <= k < |a|
      ensures a[k] == b[k]
    {
      if k < |ix0| {
        assert ix[k] == ix0[k] && pre[ix0[k]] == names[ix0[k]];
      } else {
        assert ix[k] == n;
      }
    }
  }

  // ---------------------------------------------------------------------------
  // The three shapes, spelled out as the names they accept.

  lemma PrimaryFormNames(x: string, name: string)
    ensures Matches(PrimaryForm(x), name) <==> name in [x, x + "_", x + "A", x + "_A"]
  {
    if name in [x, x + "_", x + "A", x + "_A"] {
      var t := name[|x|..];
      assert name == x + t;
    }
    if Matches(PrimaryForm(x), name) {
      var t := name[|x|..];
      assert name == x + t;
      assert t == "" ==> name == x;
    }
  }

  lemma AlternateFormNames(x: string, name: string)
    ensures Matches(AlternateForm(x), name) <==>
      || name == x || name == x + "_"
      || exists c :: ClipName.IsUpper(c) && (name == x + [c] || name == x + ['_', c])
  {
    if Matches(AlternateForm(x), name) {
      var t := name[|x|..];
      assert name == x + t;
      if |t| == 1 {
        assert t == [t[0]];
      } else if |t| == 2 && t[0] == '_' {
        assert t == ['_', t[1]];
      }
    }
    if exists c :: ClipName.IsUpper(c) && (name == x + [c] || name == x + ['_', c]) {
      var c :| ClipName.IsUpper(c) && (name == x + [c] || name == x + ['_', c]);
      assert name[..|x|] == x;
    }
  }

  lemma TransitionFromNames(x: string, name: string)
    ensures Matches(TransitionFrom(x), name) <==> exists rest :: name == x + "-" + rest
  {
    if Matches(TransitionFrom(x), name) {
      var rest := name[|x| + 1..];
      assert name == name[..|x| + 1] + rest;
    }
  }

  /** Every name `^X_?A?$` accepts is also accepted by `^X_?[A-Z]?$`. */
  lemma PrimaryIsAlternate(x: string, name: string)
    requires Matches(PrimaryForm(x), name)
    ensures Matches(AlternateForm(x), name)
  {
  }
}
