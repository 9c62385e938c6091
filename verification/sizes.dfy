/**
 * Breakpoint selection (`strip_sizes` in src/img.rs): which candidate widths
 * an image of a given width gets, and which of them is the legacy width.
 */
module Sizes {
  import opened Optional

  predicate Ascending(s: seq<nat>) {
    forall i, j :: 0 <= i < j < |s| ==> s[i] <= s[j]
  }

  /** The elements of `s` that are at most `w`, in their original order. */
  function FilterLe(s: seq<nat>, w: nat): (r: seq<nat>)
    ensures |r| <= |s|
    ensures forall x :: x in r ==> x in s && x <= w
    ensures forall x :: x in s && x <= w ==> x in r
  {
    if s == [] then []
    else
      var init := s[..|s| - 1];
      assert s == init + [s[|s| - 1]];
      FilterLe(init, w) + (if s[|s| - 1] <= w then [s[|s| - 1]] else [])
  }

  /** Filtering one more element of a list's prefix. */
  lemma FilterLePrefixStep(s: seq<nat>, k: nat, w: nat)
    requires 0 < k <= |s|
    ensures FilterLe(s[..k], w) == FilterLe(s[..k - 1], w) + (if s[k - 1] <= w then [s[k - 1]] else [])
  {
    assert s[..k][..k - 1] == s[..k - 1];
  }

  /** Filtering commutes with concatenation, so the relative order of the kept elements is their order in the input. */
  lemma {:induction false} FilterLeConcat(a: seq<nat>, b: seq<nat>, w: nat)
    ensures FilterLe(a + b, w) == FilterLe(a, w) + FilterLe(b, w)
    decreases |b|
  {
    if b == [] {
      assert a + b == a;
    } else {
      var b' := b[..|b| - 1];
      assert (a + b)[..|a + b| - 1] == a + b';
      FilterLeConcat(a, b', w);
    }
  }

  /** On an ascending list the kept elements are exactly a prefix, and everything after it is too wide. */
  lemma {:induction false} AscendingFilterIsPrefix(s: seq<nat>, w: nat)
    requires Ascending(s)
    ensures |FilterLe(s, w)| <= |s|
    ensures FilterLe(s, w) == s[..|FilterLe(s, w)|]
    ensures forall j :: |FilterLe(s, w)| <= j < |s| ==> s[j] > w
    decreases |s|
  {
    if s != [] {
      var init := s[..|s| - 1];
      AscendingFilterIsPrefix(init, w);
      var k := |FilterLe(init, w)|;
      if s[|s| - 1] <= w {
        assert forall j :: 0 <= j < |init| ==> init[j] <= w;
        assert k == |init|;
        assert FilterLe(init, w) == init;
        assert init + [s[|s| - 1]] == s;
      }
    }
  }

  /** Two thresholds that agree on every element of the list keep the same elements. */
  lemma {:induction false} FilterLeAgree(s: seq<nat>, a: nat, b: nat)
    requires forall i :: 0 <= i < |s| ==> (s[i] <= a <==> s[i] <= b)
    ensures FilterLe(s, a) == FilterLe(s, b)
    decreases |s|
  {
    if s != [] {
      FilterLeAgree(s[..|s| - 1], a, b);
    }
  }

  /** The selected widths, or `None` when no candidate fits the image. */
  function Selection(width: nat, sizes: seq<nat>): Option<seq<nat>> {
    var v := FilterLe(sizes, width);
    if v == [] then None else Some(v)
  }

  /** `strip_sizes`: one pass over the candidates, keeping those no wider than `max`. */
  method StripSizes(max: nat, sizes: seq<nat>) returns (r: Option<seq<nat>>)
    ensures r.None? <==> forall i :: 0 <= i < |sizes| ==> sizes[i] > max
    ensures r.Some? ==> |r.value| > 0 && r.value == FilterLe(sizes, max)
    ensures r == Selection(max, sizes)
  {
    var vec: seq<nat> := [];
    for x := 0 to |sizes|
      invariant vec == FilterLe(sizes[..x], max)
    {
      assert sizes[..x + 1][..x] == sizes[..x];
      if max >= sizes[x] {
        vec := vec + [sizes[x]];
      }
    }
    assert sizes[..|sizes|] == sizes;
    assert forall i :: 0 <= i < |sizes| ==> sizes[i] in sizes;
    if |vec| == 0 {
      r := None;
    } else {
      assert vec[0] in FilterLe(sizes, max);
      r := Some(vec);
    }
  }

  /**
   * The legacy width (the last selected one) never exceeds the image, is
   * itself a candidate and, for an ascending list, is the largest candidate
   * that fits; the selected widths are then the candidates up to it.
   */
  lemma LegacyIsLargestFit(width: nat, sizes: seq<nat>)
    requires Selection(width, sizes).Some?
    ensures var v := Selection(width, sizes).value;
      && v[|v| - 1] in sizes
      && v[|v| - 1] <= width
      && (Ascending(sizes) ==> forall i :: 0 <= i < |sizes| && sizes[i] <= width ==> sizes[i] <= v[|v| - 1])
      && (Ascending(sizes) ==> FilterLe(sizes, v[|v| - 1]) == v)
  {
    var v := Selection(width, sizes).value;
    var max := v[|v| - 1];
    assert max in v;
    if Ascending(sizes) {
      AscendingFilterIsPrefix(sizes, width);
      forall i | 0 <= i < |sizes| && sizes[i] <= width
        ensures sizes[i] <= max
      {
        assert i < |v|;
      }
      FilterLeAgree(sizes, max, width);
    }
  }
}
