/**
 * The per-image pipeline (`process_image` and `scale_and_save` in
 * src/img.rs) as a pure plan plus an outcome.
 *
 * `PlanImage` decides everything that does not touch pixels: the widths,
 * the legacy width, the extension, every output path and the markup prefix;
 * `PlanTag` is the markup text. `ProcessImage` runs the plan against an abstract store: decoding
 * is `image` (the decoded width, or `None` when the codec cannot open the
 * file) and every save or write to a path `p` succeeds exactly when
 * `fs(p)` holds.
 */
module Img {
  import opened Optional
  import opened Text
  import opened Paths
  import opened Opts
  import opened Sizes
  import opened Markup

  /** `use_fileext` needs an extension from somewhere. */
  predicate HasExt(s: Settings, src: Source) {
    s.extension != "" || src.ownExt.Some?
  }

  /**
   * `[root, rel-parent, stem]` in nested mode, `[root, stem]` in flat mode:
   * the one nested/flat decision shared by the output files and the markup.
   */
  function Rooted(root: string, s: Settings, src: Source): seq<string> {
    if s.isNested then [root, src.relParent, src.stem] else [root, src.stem]
  }

  /** The directories above every output. */
  function OutDirs(s: Settings, src: Source): seq<string> {
    Rooted(s.outpath, s, src)
  }

  /** The markup prefix `f` as an array. */
  function MarkupDirs(s: Settings, src: Source): seq<string> {
    Rooted(s.prefix, s, src)
  }

  function LegacyName(ext: string): string {
    "legacy." + ext
  }

  function WidthName(w: nat, ext: string): string {
    NatToString(w) + "w." + ext
  }

  const SidecarName: string := "srcset.txt"

  /** The path `scale_and_save` computes for one width; it resolves the extension itself. */
  function ScaledPath(s: Settings, src: Source, w: nat): string
    requires HasExt(s, src)
  {
    PathFromArray(OutDirs(s, src) + [WidthName(w, UseFileExt(src.ownExt, s.extension))])
  }

  datatype ImagePlan = ImagePlan(
    widths: seq<nat>,       // the selected widths, one scaled file each
    max: nat,               // the legacy width
    ext: string,            // the extension of every output
    legacy: string,         // path of the legacy file
    variants: seq<string>,  // path of the file for widths[i]
    sidecar: string,        // path of srcset.txt
    markupPrefix: string)   // the `f` of the tag

  /** The plan for the selected widths `ws` (the non-empty result of `strip_sizes`). */
  function PlanFor(s: Settings, src: Source, ws: seq<nat>): (p: ImagePlan)
    requires HasExt(s, src) && |ws| > 0
    ensures p.widths == ws && p.max == ws[|ws| - 1] && |p.variants| == |ws|
  {
    var max := ws[|ws| - 1];
    var ext := UseFileExt(src.ownExt, s.extension);
    ImagePlan(
      ws, max, ext,
      PathFromArray(OutDirs(s, src) + [LegacyName(ext)]),
      seq(|ws|, i requires 0 <= i < |ws| => ScaledPath(s, src, ws[i])),
      PathFromArray(OutDirs(s, src) + [SidecarName]),
      PathFromArray(MarkupDirs(s, src)))
  }

  /** The markup text written to srcset.txt: `create_tag(max, f, ext, stem, sizes)`. */
  function PlanTag(s: Settings, src: Source, p: ImagePlan): string {
    CreateTag(p.max, p.markupPrefix, p.ext, src.stem, s.sizes)
  }

  /**
   * Everything `process_image` decides for an image of the given width:
   * nothing when no candidate fits, otherwise widths that never exceed the
   * image, the last of which is the legacy width.
   */
  function PlanImage(s: Settings, src: Source, width: nat): (r: Option<ImagePlan>)
    requires HasExt(s, src)
    ensures r.None? <==> forall i :: 0 <= i < |s.sizes| ==> s.sizes[i] > width
    ensures r.Some? ==>
      && r.value.widths == FilterLe(s.sizes, width)
      && |r.value.widths| > 0
      && r.value.max == r.value.widths[|r.value.widths| - 1]
      && r.value.max in s.sizes
      && r.value.max <= width
      && (forall i :: 0 <= i < |r.value.widths| ==> r.value.widths[i] <= width)
      && |r.value.variants| == |r.value.widths|
  {
    var ws := FilterLe(s.sizes, width);
    if ws == [] then
      assert forall i :: 0 <= i < |s.sizes| ==> s.sizes[i] in s.sizes;
      None
    else
      assert ws[|ws| - 1] in ws;
      assert forall i :: 0 <= i < |ws| ==> ws[i] in ws;
      Some(PlanFor(s, src, ws))
  }

  /**
   * The sequential loop: save each path in turn and stop at the first
   * failure (the `?` in the loop). Returns whether all succeeded and the
   * paths written.
   */
  function SaveInOrder(paths: seq<string>, fs: string -> bool): (r: (bool, seq<string>))
    ensures r.0 <==> forall i :: 0 <= i < |paths| ==> fs(paths[i])
    ensures |r.1| <= |paths| && r.1 == paths[..|r.1|]
    ensures r.0 ==> r.1 == paths
    ensures !r.0 ==> |r.1| < |paths| && !fs(paths[|r.1|])
    ensures forall i :: 0 <= i < |r.1| ==> fs(paths[i])
  {
    if paths == [] then (true, [])
    else if !fs(paths[0]) then (false, [])
    else
      var t := SaveInOrder(paths[1..], fs);
      assert forall i :: 1 <= i < |paths| ==> paths[i] == paths[1..][i - 1];
      (t.0, [paths[0]] + t.1)
  }

  /** The parallel branch: every path is attempted and the errors are dropped. */
  function SaveAll(paths: seq<string>, fs: string -> bool): (r: seq<string>)
    ensures forall p :: p in r <==> p in paths && fs(p)
  {
    if paths == [] then []
    else (if fs(paths[0]) then [paths[0]] else []) + SaveAll(paths[1..], fs)
  }

  datatype Outcome = Outcome(ok: bool, metrics: Metrics, written: seq<string>)

  /**
   * Carrying out a plan: save the legacy file, then the scaled files, then
   * write the markup, counting the legacy resize as soon as it is saved and
   * the image and its scaled files only once everything succeeded.
   */
  function RunPlan(s: Settings, p: ImagePlan, fs: string -> bool, m: Metrics): (r: Outcome)
    requires |p.variants| == |p.widths|
    ensures r.metrics.traversed == m.traversed && r.metrics.skipped == m.skipped
    ensures r.ok ==> r.metrics.count == m.count + 1 && r.metrics.resized == m.resized + 1 + |p.widths|
    ensures !r.ok ==> r.metrics.count == m.count && m.resized <= r.metrics.resized <= m.resized + 1
    ensures !r.ok && !s.isTest ==> r.metrics.resized == m.resized + (if fs(p.legacy) then 1 else 0)
    ensures s.isTest ==> r.ok && r.written == []
    ensures !s.isTest ==>
      (r.ok <==> fs(p.legacy) && fs(p.sidecar) && (s.isJobs || forall i :: 0 <= i < |p.variants| ==> fs(p.variants[i])))
    ensures forall q :: q in r.written ==> q == p.legacy || q in p.variants || q == p.sidecar
    ensures r.ok && !s.isTest && !s.isJobs ==> r.written == [p.legacy] + p.variants + [p.sidecar]
    ensures !s.isTest ==> forall q :: q in r.written ==> fs(q)
    ensures !s.isTest && !fs(p.legacy) ==> r.written == []
    ensures !s.isTest && s.isJobs && fs(p.legacy) ==>
      r.written == [p.legacy] + SaveAll(p.variants, fs) + (if fs(p.sidecar) then [p.sidecar] else [])
    ensures !s.isTest && !s.isJobs && fs(p.legacy) ==>
      r.written == [p.legacy] + SaveInOrder(p.variants, fs).1
                   + (if SaveInOrder(p.variants, fs).0 && fs(p.sidecar) then [p.sidecar] else [])
  {
    if !s.isTest && !fs(p.legacy) then Outcome(false, m, [])
    else
      var m1 := m.(resized := m.resized + 1);
      var legacyOut := if s.isTest then [] else [p.legacy];
      var saved :=
        if s.isTest then (true, [])
        else if s.isJobs then (true, SaveAll(p.variants, fs))
        else SaveInOrder(p.variants, fs);
      assert forall q :: q in saved.1 ==> q in p.variants;
      if !saved.0 then Outcome(false, m1, legacyOut + saved.1)
      else if !s.isTest && !fs(p.sidecar) then Outcome(false, m1, legacyOut + saved.1)
      else
        Outcome(true, m1.(count := m1.count + 1, resized := m1.resized + |p.widths|),
                legacyOut + saved.1 + (if s.isTest then [] else [p.sidecar]))
  }

  /**
   * `process_image`, run against the store `fs`: an image the codec cannot
   * open is an error that changes nothing; an image no candidate fits is a
   * success that changes nothing; otherwise the plan is carried out.
   */
  function ProcessImage(s: Settings, src: Source, image: Option<nat>, fs: string -> bool, m: Metrics): (r: Outcome)
    requires HasExt(s, src)
    ensures r.metrics.traversed == m.traversed && r.metrics.skipped == m.skipped
    ensures r.metrics.count >= m.count && r.metrics.resized >= m.resized
    ensures image.None? ==> !r.ok && r.metrics == m && r.written == []
    ensures image.Some? && PlanImage(s, src, image.value).None? ==> r.ok && r.metrics == m && r.written == []
    ensures image.Some? && PlanImage(s, src, image.value).Some? ==> r == RunPlan(s, PlanImage(s, src, image.value).value, fs, m)
  {
    match image
    case None => Outcome(false, m, [])
    case Some(width) =>
      match PlanImage(s, src, width)
      case None => Outcome(true, m, [])
      case Some(p) => RunPlan(s, p, fs, m)
  }
}
