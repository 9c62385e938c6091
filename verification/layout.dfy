/**
 * Properties of the output layout and of dry runs, stated over the plan of
 * src/img.rs: all outputs of one image share one directory, the markup
 * prefix mirrors that directory under another root, the file names of one
 * image never collide, the tag names exactly the files written, and a dry
 * run counts exactly what a successful run counts.
 */
module Layout {
  import opened Optional
  import opened Text
  import opened Paths
  import opened Opts
  import opened Sizes
  import opened Markup
  import opened Img

  /** The part of the layout below the root: `[rel-parent..., stem]`, or `[stem]` when flat. */
  function LayoutTail(s: Settings, src: Source): seq<string> {
    (if s.isNested then Components(src.relParent) else []) + [src.stem]
  }

  /** Neither extension the image may use contains a separator. */
  predicate ExtIsPlain(s: Settings, src: Source) {
    Sep !in s.extension && (src.ownExt.Some? ==> Sep !in src.ownExt.value)
  }

  lemma WidthNameIsName(w: nat, ext: string)
    requires Sep !in ext
    ensures IsName(WidthName(w, ext))
  {
    var d := NatToString(w);
    assert forall i :: 0 <= i < |d| ==> d[i] != Sep;
    assert WidthName(w, ext) == d + "w." + ext;
  }

  lemma RootedView(root: string, s: Settings, src: Source)
    requires IsName(src.stem) && !IsAbsolute(src.relParent)
    ensures View(PathFromArray(Rooted(root, s, src))) == PathView(IsAbsolute(root), Components(root) + LayoutTail(s, src))
  {
    ComponentsOfName(src.stem);
    if s.isNested {
      NestedView(root, src.relParent, src.stem);
    } else {
      FlatView(root, src.stem);
    }
  }

  lemma PathOfOne(root: string)
    ensures PathFromArray([root]) == root
  {
    assert [root][..0] == [];
  }

  lemma NestedView(root: string, rel: string, stem: string)
    requires IsName(stem) && !IsAbsolute(rel)
    ensures View(PathFromArray([root, rel, stem])) == PathView(IsAbsolute(root), Components(root) + Components(rel) + [stem])
  {
    var a := [root, rel, stem];
    PathOfOne(root);
    ComponentsOfName(stem);
    assert a[..2] == [root, rel] && a[..2][..1] == [root];
    PushView(root, rel);
    PushView(Push(root, rel), stem);
    assert PathFromArray(a) == Push(Push(root, rel), stem);
  }

  lemma FlatView(root: string, stem: string)
    requires IsName(stem)
    ensures View(PathFromArray([root, stem])) == PathView(IsAbsolute(root), Components(root) + [stem])
  {
    var a := [root, stem];
    PathOfOne(root);
    ComponentsOfName(stem);
    assert a[..1] == [root];
    PushView(root, stem);
    assert PathFromArray(a) == Push(root, stem);
  }

  /**
   * The output directory and the markup prefix are built from the same
   * relative tail, in nested and in flat mode alike; only their roots differ.
   */
  lemma LayoutParallel(s: Settings, src: Source)
    requires IsName(src.stem) && !IsAbsolute(src.relParent)
    ensures View(PathFromArray(OutDirs(s, src))) == PathView(IsAbsolute(s.outpath), Components(s.outpath) + LayoutTail(s, src))
    ensures View(PathFromArray(MarkupDirs(s, src))) == PathView(IsAbsolute(s.prefix), Components(s.prefix) + LayoutTail(s, src))
  {
    RootedView(s.outpath, s, src);
    RootedView(s.prefix, s, src);
  }

  /**
   * The legacy file, every scaled file and srcset.txt sit in the one
   * directory `[outpath, (rel-parent), stem]`, named `legacy.{ext}`,
   * `{w}w.{ext}` and `srcset.txt`, with the same `{ext}` throughout.
   */
  lemma PlanLayout(s: Settings, src: Source, width: nat)
    requires HasExt(s, src) && ExtIsPlain(s, src)
    requires PlanImage(s, src, width).Some?
    ensures var p := PlanImage(s, src, width).value;
      var dir := View(PathFromArray(OutDirs(s, src)));
      && p.ext == UseFileExt(src.ownExt, s.extension)
      && Parent(p.legacy) == Some(dir) && FileName(p.legacy) == Some(LegacyName(p.ext))
      && Parent(p.sidecar) == Some(dir) && FileName(p.sidecar) == Some(SidecarName)
      && (forall i :: 0 <= i < |p.variants| ==>
            Parent(p.variants[i]) == Some(dir) && FileName(p.variants[i]) == Some(WidthName(p.widths[i], p.ext)))
      && p.markupPrefix == PathFromArray(MarkupDirs(s, src))
  {
    var p := PlanImage(s, src, width).value;
    var o := OutDirs(s, src);
    assert Sep !in p.ext;
    assert IsName(LegacyName(p.ext)) by {
      assert LegacyName(p.ext)[0] == 'l';
      assert forall i :: 0 <= i < |LegacyName(p.ext)| ==> LegacyName(p.ext)[i] != Sep;
    }
    PathFromArraySnoc(o, LegacyName(p.ext));
    assert IsName(SidecarName);
    PathFromArraySnoc(o, SidecarName);
    forall i | 0 <= i < |p.variants|
      ensures Parent(p.variants[i]) == Some(View(PathFromArray(o)))
      ensures FileName(p.variants[i]) == Some(WidthName(p.widths[i], p.ext))
    {
      WidthNameIsName(p.widths[i], p.ext);
      PathFromArraySnoc(o, WidthName(p.widths[i], p.ext));
    }
  }

  /** Distinct widths give distinct names, none of which is `legacy.{ext}` or `srcset.txt`. */
  lemma OutputNamesDistinct(ext: string, w1: nat, w2: nat)
    ensures WidthName(w1, ext) == WidthName(w2, ext) ==> w1 == w2
    ensures WidthName(w1, ext) != LegacyName(ext)
    ensures WidthName(w1, ext) != SidecarName
    ensures LegacyName(ext) != SidecarName
  {
    var d1 := NatToString(w1);
    var d2 := NatToString(w2);
    assert WidthName(w1, ext)[0] == d1[0];
    assert LegacyName(ext)[0] == 'l';
    assert SidecarName[0] == 's';
    if WidthName(w1, ext) == WidthName(w2, ext) {
      assert |d1| == |d2|;
      assert d1 == WidthName(w1, ext)[..|d1|];
      assert d2 == WidthName(w2, ext)[..|d2|];
      NatToStringInjective(w1, w2);
    }
  }

  predicate Distinct(s: seq<nat>) {
    forall i, j :: 0 <= i < j < |s| ==> s[i] != s[j]
  }

  lemma {:induction false} FilterLeDistinct(s: seq<nat>, w: nat)
    requires Distinct(s)
    ensures Distinct(FilterLe(s, w))
    decreases |s|
  {
    if s != [] {
      var init := s[..|s| - 1];
      assert Distinct(init);
      FilterLeDistinct(init, w);
      assert s[|s| - 1] !in init;
    }
  }

  /**
   * With distinct candidate widths, the outputs of one image are pairwise
   * distinct files: no two scaled files coincide, and none is the legacy
   * file or srcset.txt.
   */
  lemma PlanOutputsDistinct(s: Settings, src: Source, width: nat)
    requires HasExt(s, src) && ExtIsPlain(s, src) && Distinct(s.sizes)
    requires PlanImage(s, src, width).Some?
    ensures var p := PlanImage(s, src, width).value;
      && p.legacy != p.sidecar
      && (forall i :: 0 <= i < |p.variants| ==> p.variants[i] != p.legacy && p.variants[i] != p.sidecar)
      && (forall i, j :: 0 <= i < j < |p.variants| ==> p.variants[i] != p.variants[j])
  {
    var p := PlanImage(s, src, width).value;
    PlanLayout(s, src, width);
    FilterLeDistinct(s.sizes, width);
    OutputNamesDistinct(p.ext, 0, 0);
    forall i | 0 <= i < |p.variants|
      ensures p.variants[i] != p.legacy && p.variants[i] != p.sidecar
    {
      OutputNamesDistinct(p.ext, p.widths[i], p.widths[i]);
    }
    forall i, j | 0 <= i < j < |p.variants|
      ensures p.variants[i] != p.variants[j]
    {
      OutputNamesDistinct(p.ext, p.widths[i], p.widths[j]);
    }
  }

  /**
   * The markup agrees with the files: for an ascending candidate list the
   * tag's `src` is the legacy file and its `srcset` lists, in order, one
   * entry per scaled file, `{prefix}/{file name} {w}w`, under the markup
   * prefix that mirrors the output directory.
   */
  lemma TagOfPlan(s: Settings, src: Source, width: nat)
    requires HasExt(s, src) && Ascending(s.sizes)
    requires PlanImage(s, src, width).Some?
    ensures var p := PlanImage(s, src, width).value;
      && PlanTag(s, src, p)
         == ImgTag(p.markupPrefix + "/" + LegacyName(p.ext), JoinComma(Entries(p.markupPrefix, p.ext, p.widths)),
                   TierHints[Tier(p.max)], "A file named " + src.stem)
      && (forall i :: 0 <= i < |p.widths| ==>
            Entries(p.markupPrefix, p.ext, p.widths)[i]
            == p.markupPrefix + "/" + WidthName(p.widths[i], p.ext) + " " + NatToString(p.widths[i]) + "w")
  {
    var p := PlanImage(s, src, width).value;
    assert Selection(width, s.sizes) == Some(p.widths);
    TagNamesFiles(p.markupPrefix, p.ext, src.stem, width, s.sizes);
  }

  /** `TagOfPlan` for any prefix and extension. */
  lemma TagNamesFiles(f: string, ext: string, n: string, width: nat, sizes: seq<nat>)
    requires Ascending(sizes) && Selection(width, sizes).Some?
    ensures var v := Selection(width, sizes).value;
      && CreateTag(v[|v| - 1], f, ext, n, sizes)
         == ImgTag(f + "/" + LegacyName(ext), JoinComma(Entries(f, ext, v)), TierHints[Tier(v[|v| - 1])], "A file named " + n)
      && (forall i :: 0 <= i < |v| ==> Entries(f, ext, v)[i] == f + "/" + WidthName(v[i], ext) + " " + NatToString(v[i]) + "w")
  {
    var v := Selection(width, sizes).value;
    TagOfSelection(f, ext, n, width, sizes);
    LegacySrc(f, ext);
    forall i | 0 <= i < |v|
      ensures Entries(f, ext, v)[i] == f + "/" + WidthName(v[i], ext) + " " + NatToString(v[i]) + "w"
    {
      EntryNamesFile(f, ext, v[i]);
    }
  }

  lemma LegacySrc(f: string, ext: string)
    ensures f + "/legacy." + ext == f + "/" + LegacyName(ext)
  {
    assert "/legacy." + ext == "/" + LegacyName(ext);
  }

  lemma EntryNamesFile(f: string, ext: string, w: nat)
    ensures Entry(f, ext, w) == f + "/" + WidthName(w, ext) + " " + NatToString(w) + "w"
  {
  }

  /** The plan never looks at the dry-run flag. */
  lemma PlanIgnoresDryRun(s: Settings, src: Source, width: nat)
    requires HasExt(s, src)
    ensures PlanImage(s.(isTest := true), src, width) == PlanImage(s.(isTest := false), src, width)
  {
    var dryS := s.(isTest := true);
    var fullS := s.(isTest := false);
    var ws := FilterLe(s.sizes, width);
    if ws != [] {
      var p1 := PlanFor(dryS, src, ws);
      var p2 := PlanFor(fullS, src, ws);
      assert OutDirs(dryS, src) == OutDirs(fullS, src);
      assert MarkupDirs(dryS, src) == MarkupDirs(fullS, src);
      assert p1.variants == p2.variants by {
        forall i | 0 <= i < |ws|
          ensures p1.variants[i] == p2.variants[i]
        {
          assert ScaledPath(dryS, src, ws[i]) == ScaledPath(fullS, src, ws[i]);
        }
      }
      assert p1 == p2;
    }
  }

  /**
   * A dry run plans the same files and the same tag and counts exactly what
   * a run whose every save succeeds counts, while writing nothing.
   */
  lemma DryRunMatchesSuccess(s: Settings, src: Source, width: nat, fs: string -> bool, m: Metrics)
    requires HasExt(s, src)
    requires PlanImage(s, src, width).Some?
    ensures var dry := ProcessImage(s.(isTest := true), src, Some(width), fs, m);
      var full := ProcessImage(s.(isTest := false), src, Some(width), (q: string) => true, m);
      && dry.ok && full.ok
      && dry.metrics == full.metrics
      && dry.written == []
      && PlanTag(s.(isTest := true), src, PlanImage(s.(isTest := true), src, width).value)
         == PlanTag(s.(isTest := false), src, PlanImage(s.(isTest := false), src, width).value)
  {
    PlanIgnoresDryRun(s, src, width);
    var dryS := s.(isTest := true);
    var fullS := s.(isTest := false);
    assert PlanImage(dryS, src, width).Some? && PlanImage(fullS, src, width).Some?;
    var p := PlanImage(fullS, src, width).value;
    assert ProcessImage(dryS, src, Some(width), fs, m) == RunPlan(dryS, p, fs, m);
    assert ProcessImage(fullS, src, Some(width), (q: string) => true, m) == RunPlan(fullS, p, (q: string) => true, m);
  }
}
