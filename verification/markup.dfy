/**
 * The `<img>` markup (`create_tag` in src/img.rs): the `srcset` list built in
 * one pass over the candidate widths, and the `sizes` hint picked from a
 * table of viewport thresholds by the legacy width.
 */
module Markup {
  import opened Text
  import opened Sizes

  /** One `srcset` entry: `{f}/{w}w.{ext} {w}w`. */
  function Entry(f: string, ext: string, w: nat): string {
    f + "/" + NatToString(w) + "w." + ext + " " + NatToString(w) + "w"
  }

  function Entries(f: string, ext: string, ws: seq<nat>): (r: seq<string>)
    ensures |r| == |ws|
    ensures forall i :: 0 <= i < |ws| ==> r[i] == Entry(f, ext, ws[i])
  {
    seq(|ws|, i requires 0 <= i < |ws| => Entry(f, ext, ws[i]))
  }

  /** Items joined by "," with no separator before the first or after the last. */
  function JoinComma(items: seq<string>): string {
    if items == [] then ""
    else if |items| == 1 then items[0]
    else JoinComma(items[..|items| - 1]) + "," + items[|items| - 1]
  }

  /**
   * The `srcset` text after the first `k` rounds of the loop in `create_tag`:
   * a fitting candidate is appended, preceded by "," unless it sits at
   * index 0 of the candidate list.
   */
  function SrcsetUpTo(f: string, ext: string, sizes: seq<nat>, max: nat, k: nat): string
    requires k <= |sizes|
  {
    if k == 0 then ""
    else
      SrcsetUpTo(f, ext, sizes, max, k - 1)
      + (if max >= sizes[k - 1] then (if k - 1 == 0 then "" else ",") + Entry(f, ext, sizes[k - 1]) else "")
  }

  lemma JoinCommaSnoc(items: seq<string>, e: string)
    ensures JoinComma(items + [e]) == if items == [] then e else JoinComma(items) + "," + e
  {
    assert (items + [e])[..|items|] == items;
  }

  lemma EntriesSnoc(f: string, ext: string, ws: seq<nat>, x: nat)
    ensures Entries(f, ext, ws + [x]) == Entries(f, ext, ws) + [Entry(f, ext, x)]
  {
  }

  /** The claim of `SrcsetShape` after `k` rounds. */
  predicate SrcsetShapeAt(f: string, ext: string, sizes: seq<nat>, max: nat, k: nat)
    requires k <= |sizes|
  {
    var kept := FilterLe(sizes[..k], max);
    SrcsetUpTo(f, ext, sizes, max, k)
    == (if kept != [] && sizes[0] > max then "," else "") + JoinComma(Entries(f, ext, kept))
  }

  /** One round of the loop on the first fitting candidate. */
  lemma SrcsetStepFirst(f: string, ext: string, sizes: seq<nat>, max: nat, k: nat)
    requires 0 < k <= |sizes| && max >= sizes[k - 1]
    requires FilterLe(sizes[..k - 1], max) == []
    requires SrcsetShapeAt(f, ext, sizes, max, k - 1)
    ensures SrcsetShapeAt(f, ext, sizes, max, k)
  {
    var x := sizes[k - 1];
    var e := Entry(f, ext, x);
    var kept := FilterLe(sizes[..k], max);
    FilterLePrefixStep(sizes, k, max);
    assert Entries(f, ext, kept) == [e];
    assert JoinComma(Entries(f, ext, kept)) == e;
    if k == 1 {
      assert SrcsetUpTo(f, ext, sizes, max, k) == "" + e;
    } else {
      assert sizes[0] in sizes[..k - 1];
      assert SrcsetUpTo(f, ext, sizes, max, k) == "" + ("," + e);
    }
  }

  /** One round of the loop on a later fitting candidate. */
  lemma SrcsetStepNext(f: string, ext: string, sizes: seq<nat>, max: nat, k: nat, lead: string)
    requires 1 < k <= |sizes| && max >= sizes[k - 1]
    requires SrcsetUpTo(f, ext, sizes, max, k - 1) == lead + JoinComma(Entries(f, ext, FilterLe(sizes[..k - 1], max)))
    requires FilterLe(sizes[..k - 1], max) != []
    ensures SrcsetUpTo(f, ext, sizes, max, k) == lead + JoinComma(Entries(f, ext, FilterLe(sizes[..k], max)))
  {
    var x := sizes[k - 1];
    var e := Entry(f, ext, x);
    var before := FilterLe(sizes[..k - 1], max);
    FilterLePrefixStep(sizes, k, max);
    EntriesSnoc(f, ext, before, x);
    JoinCommaSnoc(Entries(f, ext, before), e);
  }

  /**
   * The loop's text is the comma-join of the entries of every candidate no
   * wider than `max`, in list order; the only extra character ever produced
   * is one leading "," when the first candidate is too wide but a later one fits.
   */
  lemma {:induction false} SrcsetShape(f: string, ext: string, sizes: seq<nat>, max: nat, k: nat)
    requires k <= |sizes|
    ensures var kept := FilterLe(sizes[..k], max);
      SrcsetUpTo(f, ext, sizes, max, k)
      == (if kept != [] && sizes[0] > max then "," else "") + JoinComma(Entries(f, ext, kept))
  {
    if k > 0 {
      SrcsetShape(f, ext, sizes, max, k - 1);
      assert SrcsetShapeAt(f, ext, sizes, max, k - 1);
      if max >= sizes[k - 1] {
        if FilterLe(sizes[..k - 1], max) == [] {
          SrcsetStepFirst(f, ext, sizes, max, k);
        } else {
          assert k > 1;
          SrcsetStepNext(f, ext, sizes, max, k, if sizes[0] > max then "," else "");
          FilterLePrefixStep(sizes, k, max);
          assert FilterLe(sizes[..k], max) != [];
          assert SrcsetShapeAt(f, ext, sizes, max, k);
        }
      } else {
        FilterLePrefixStep(sizes, k, max);
        assert SrcsetUpTo(f, ext, sizes, max, k) == SrcsetUpTo(f, ext, sizes, max, k - 1);
        var kept := FilterLe(sizes[..k], max);
        assert kept == FilterLe(sizes[..k - 1], max) + [];
        assert kept == FilterLe(sizes[..k - 1], max);
        var lead := if kept != [] && sizes[0] > max then "," else "";
        assert SrcsetUpTo(f, ext, sizes, max, k - 1) == lead + JoinComma(Entries(f, ext, kept));
        assert SrcsetShapeAt(f, ext, sizes, max, k);
      }
    }
  }

  /** The full `srcset` text of `create_tag`. */
  function Srcset(f: string, ext: string, sizes: seq<nat>, max: nat): string {
    SrcsetUpTo(f, ext, sizes, max, |sizes|)
  }

  /**
   * For an ascending candidate list and the legacy width chosen by
   * `strip_sizes`, the `srcset` is exactly the comma-join of the entries of
   * the selected widths: no leading comma, no trailing comma.
   */
  lemma SrcsetOfSelection(f: string, ext: string, width: nat, sizes: seq<nat>)
    requires Ascending(sizes)
    requires Selection(width, sizes).Some?
    ensures var v := Selection(width, sizes).value;
      Srcset(f, ext, sizes, v[|v| - 1]) == JoinComma(Entries(f, ext, v))
  {
    var v := Selection(width, sizes).value;
    var max := v[|v| - 1];
    LegacyIsLargestFit(width, sizes);
    SrcsetShape(f, ext, sizes, max, |sizes|);
    assert sizes[..|sizes|] == sizes;
    assert sizes[0] <= max by {
      assert max in sizes;
    }
  }

  /** The viewport thresholds of the `sizes` table, in the order they are tried. */
  const Thresholds: seq<nat> := [480, 640, 768, 960, 1024, 1366, 1660]

  /** The `sizes` value of each tier; the last is the catch-all. */
  const TierHints: seq<string> := [
    "(max-width:480px) 100vw, min-width:481px) 25vw",
    "(max-width:640px) 100vw, min-width:641px) 33vw",
    "(max-width:320px) 50vw, (max-width:768px) 100vw, min-width:769px) 50vw",
    "(max-width:320px) 50vw, (max-width:960px) 75vw, min-width:961px) 95vw",
    "(max-width:320px) 50vw, (max-width:960px) 75vw, min-width:961px) 95vw",
    "(max-width:320px) 50vw, (max-width:960px) 75vw, (min-width:961px) 95vw",
    "(max-width:320px) 25vw, (min-width: 960px) 75vw, 100vw",
    "(min-width: 1024px) 50vw, 100vw"
  ]

  /** The tier of a legacy width: how many thresholds it has reached. */
  function Tier(max: nat): nat {
    |FilterLe(Thresholds, max)|
  }

  /** The tier is `k` when the width has reached the first `k` thresholds and no further one. */
  lemma TierIs(max: nat, k: nat)
    requires k <= |Thresholds|
    requires k > 0 ==> Thresholds[k - 1] <= max
    requires k < |Thresholds| ==> max < Thresholds[k]
    ensures Tier(max) == k
  {
    AscendingFilterIsPrefix(Thresholds, max);
    var t := Tier(max);
    assert FilterLe(Thresholds, max) == Thresholds[..t];
    assert forall i :: 0 <= i < t ==> Thresholds[i] in Thresholds[..t];
  }

  /**
   * The guard chain of `create_tag`, one arm per threshold: the hint picked
   * is the one at the tier the legacy width has reached.
   */
  function SizesHint(max: nat): (r: string)
    ensures Tier(max) < |TierHints| && r == TierHints[Tier(max)]
  {
    assert Thresholds[0] == 480 && Thresholds[1] == 640 && Thresholds[2] == 768 && Thresholds[3] == 960;
    assert Thresholds[4] == 1024 && Thresholds[5] == 1366 && Thresholds[6] == 1660;
    if max < 480 then TierIs(max, 0); TierHints[0]
    else if max < 640 then TierIs(max, 1); TierHints[1]
    else if max < 768 then TierIs(max, 2); TierHints[2]
    else if max < 960 then TierIs(max, 3); TierHints[3]
    else if max < 1024 then TierIs(max, 4); TierHints[4]
    else if max < 1366 then TierIs(max, 5); TierHints[5]
    else if max < 1660 then TierIs(max, 6); TierHints[6]
    else TierIs(max, 7); TierHints[7]
  }

  /** The tier counts the thresholds reached, which are the first ones. */
  lemma TierBounds(max: nat)
    ensures Tier(max) <= |Thresholds|
    ensures forall i :: 0 <= i < Tier(max) ==> Thresholds[i] <= max
    ensures Tier(max) < |Thresholds| ==> max < Thresholds[Tier(max)]
  {
    AscendingFilterIsPrefix(Thresholds, max);
    var t := Tier(max);
    assert FilterLe(Thresholds, max) == Thresholds[..t];
    assert forall i :: 0 <= i < t ==> Thresholds[i] in Thresholds[..t];
  }

  /**
   * Exactly one tier applies: the first threshold the legacy width is
   * strictly below, or the catch-all when it reaches them all. The tiers
   * below 960 and below 1024 emit the same text.
   */
  lemma SizesHintTier(max: nat)
    ensures forall i :: 0 <= i < Tier(max) ==> Thresholds[i] <= max
    ensures Tier(max) < |Thresholds| ==> max < Thresholds[Tier(max)]
    ensures TierHints[3] == TierHints[4]
    ensures 768 <= max < 1024 ==> SizesHint(max) == TierHints[3]
  {
    TierBounds(max);
    assert Thresholds[2] == 768 && Thresholds[3] == 960 && Thresholds[4] == 1024;
  }

  /** The shape of the tag: `<img src=".." srcset=".." sizes=".." alt="..">`. */
  function ImgTag(src: string, srcset: string, sizes: string, alt: string): string {
    "<img src=\"" + src + "\" srcset=\"" + srcset + "\" sizes=\"" + sizes + "\" alt=\"" + alt + "\">"
  }

  /** `create_tag(max, f, ext, n, sizes)`. */
  function CreateTag(max: nat, f: string, ext: string, n: string, sizes: seq<nat>): string {
    ImgTag(f + "/legacy." + ext, Srcset(f, ext, sizes, max), SizesHint(max), "A file named " + n)
  }

  /**
   * The tag for an image whose widths were selected from an ascending list:
   * `src` is the legacy file, `srcset` lists the selected widths and nothing
   * else, `sizes` is the tier of the legacy width, `alt` names the file.
   */
  lemma TagOfSelection(f: string, ext: string, n: string, width: nat, sizes: seq<nat>)
    requires Ascending(sizes)
    requires Selection(width, sizes).Some?
    ensures var v := Selection(width, sizes).value;
      var max := v[|v| - 1];
      CreateTag(max, f, ext, n, sizes)
      == ImgTag(f + "/legacy." + ext, JoinComma(Entries(f, ext, v)), TierHints[Tier(max)], "A file named " + n)
  {
    var v := Selection(width, sizes).value;
    SrcsetOfSelection(f, ext, width, sizes);
    SizesHintTier(v[|v| - 1]);
  }
}
