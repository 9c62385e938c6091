/**
 * Traversal and eligibility (src/walk.rs): which directory entries are
 * images to process, and how walking a tree moves the counters.
 *
 * The file system is a tree of entries. A directory that cannot be listed
 * has `readable == false`; an entry the listing reports as an error is
 * `Broken`. A file carries its byte size and what the codec makes of it:
 * the decoded width, or `None` when it cannot be opened.
 */
module Walk {
  import opened Optional
  import opened Text
  import opened Paths
  import opened Opts
  import opened Img

  /** The extensions each format's arm of `check_extension` accepts. */
  function Extensions(f: Format): set<string> {
    match f
    case Bmp => {"bmp"}
    case Gif => {"gif"}
    case Hdr => {"hdr"}
    case Ico => {"ico"}
    case Jpeg => {"jpg", "jpeg"}
    case Png => {"png"}
    case Pnm => {"pnm", "pgm", "ppm"}
    case Tga => {"tga"}
    case Dds => {"dds"}
    case Tiff => {"tif", "tiff"}
    case Webp => {"webp"}
    case Farbfeld => {"ff"}
    case Avif => {"avif"}
  }

  /** Every extension the match enumerates, whatever formats are compiled in. */
  const AllExtensions: set<string> :=
    {"bmp", "gif", "hdr", "ico", "jpg", "jpeg", "png", "pnm", "pgm", "ppm", "tga", "dds", "tif", "tiff", "webp", "ff", "avif"}

  /** The format whose arm of the match names the lower-cased extension `l`, if any. */
  function FormatOf(l: string): Option<Format> {
    if l == "bmp" then Some(Bmp)
    else if l == "gif" then Some(Gif)
    else if l == "hdr" then Some(Hdr)
    else if l == "ico" then Some(Ico)
    else if l == "jpg" || l == "jpeg" then Some(Jpeg)
    else if l == "png" then Some(Png)
    else if l == "pnm" || l == "pgm" || l == "ppm" then Some(Pnm)
    else if l == "tga" then Some(Tga)
    else if l == "dds" then Some(Dds)
    else if l == "tif" || l == "tiff" then Some(Tiff)
    else if l == "webp" then Some(Webp)
    else if l == "ff" then Some(Farbfeld)
    else if l == "avif" then Some(Avif)
    else None
  }

  /** The arms name disjoint extensions: each extension belongs to at most one format. */
  lemma FormatOfExtensions(l: string, f: Format)
    ensures l in Extensions(f) <==> FormatOf(l) == Some(f)
  {
    match f
    case Bmp =>
    case Gif =>
    case Hdr =>
    case Ico =>
    case Jpeg =>
    case Png =>
    case Pnm =>
    case Tga =>
    case Dds =>
    case Tiff =>
    case Webp =>
    case Farbfeld =>
    case Avif =>
  }

  /**
   * `check_extension`: the arms of the match on the lower-cased extension,
   * each present only when its format is compiled in (`formats`).
   */
  function CheckExtension(formats: set<Format>, ext: string): (r: bool)
    ensures r <==> FormatOf(ToLower(ext)).Some? && FormatOf(ToLower(ext)).value in formats
  {
    var l := ToLower(ext);
    || (Bmp in formats && l == "bmp")
    || (Gif in formats && l == "gif")
    || (Hdr in formats && l == "hdr")
    || (Ico in formats && l == "ico")
    || (Jpeg in formats && (l == "jpg" || l == "jpeg"))
    || (Png in formats && l == "png")
    || (Pnm in formats && (l == "pnm" || l == "pgm" || l == "ppm"))
    || (Tga in formats && l == "tga")
    || (Dds in formats && l == "dds")
    || (Tiff in formats && (l == "tif" || l == "tiff"))
    || (Webp in formats && l == "webp")
    || (Farbfeld in formats && l == "ff")
    || (Avif in formats && l == "avif")
  }

  /** An extension is accepted exactly when some compiled-in format lists it. */
  lemma CheckExtensionAccepts(formats: set<Format>, ext: string)
    ensures CheckExtension(formats, ext) <==> exists f :: f in formats && ToLower(ext) in Extensions(f)
  {
    var l := ToLower(ext);
    if CheckExtension(formats, ext) {
      FormatOfExtensions(l, FormatOf(l).value);
    } else {
      forall f | f in formats
        ensures l !in Extensions(f)
      {
        FormatOfExtensions(l, f);
      }
    }
  }

  /** The check depends only on the lower-cased extension. */
  lemma CheckExtensionIgnoresCase(formats: set<Format>, ext: string)
    ensures CheckExtension(formats, ToLower(ext)) == CheckExtension(formats, ext)
  {
    ToLowerIdempotent(ext);
  }

  /** An extension outside the enumerated list is rejected whatever formats are compiled in. */
  lemma UnknownExtensionRejected(formats: set<Format>, ext: string)
    requires ToLower(ext) !in AllExtensions
    ensures !CheckExtension(formats, ext)
  {
    assert FormatOf(ToLower(ext)).None?;
  }

  /** The stem pattern `^\d{3}w$|^\d{4}w$|^legacy$`, with ASCII digits. */
  predicate IsGenerated(stem: string) {
    || stem == "legacy"
    || ((|stem| == 4 || |stem| == 5) && stem[|stem| - 1] == 'w' && AllDigits(stem[..|stem| - 1]))
  }

  /**
   * The label `{w}w` the pipeline gives a scaled file matches the pattern
   * exactly when `w` has three or four digits.
   */
  lemma WidthLabelIsGenerated(w: nat)
    ensures IsGenerated(NatToString(w) + "w") <==> 100 <= w < 10000
  {
    var d := NatToString(w);
    var named := d + "w";
    NatToStringLength(w, 2);
    NatToStringLength(w, 4);
    assert Pow10(2) == 100 && Pow10(4) == 10000;
    assert named[..|named| - 1] == d;
    assert named != "legacy" by {
      assert IsDigit(named[0]);
    }
  }

  /** Why `digest_path` does or does not hand a path to the pipeline, in the order it checks. */
  datatype Verdict =
    | NoExtension
    | Unrecognised
    | TooSmall
    | AlreadyGenerated
    | Dispatch(stem: string, ext: string)

  /** The checks of `digest_path`: extension, then size, then the name pattern. */
  function Classify(s: Settings, name: string, size: nat): (v: Verdict)
    ensures v.Dispatch? ==>
      && SplitName(name) == StemExt(v.stem, Some(v.ext))
      && CheckExtension(s.formats, v.ext)
      && size > s.minSize
      && !IsGenerated(v.stem)
    ensures v == NoExtension <==> SplitName(name).ext.None?
    ensures v == Unrecognised <==>
      SplitName(name).ext.Some? && !CheckExtension(s.formats, SplitName(name).ext.value)
    ensures v == TooSmall <==>
      SplitName(name).ext.Some? && CheckExtension(s.formats, SplitName(name).ext.value) && size <= s.minSize
    ensures v == AlreadyGenerated <==>
      && SplitName(name).ext.Some? && CheckExtension(s.formats, SplitName(name).ext.value)
      && size > s.minSize && IsGenerated(SplitName(name).stem)
    ensures
      && SplitName(name).ext.Some? && CheckExtension(s.formats, SplitName(name).ext.value)
      && size > s.minSize && !IsGenerated(SplitName(name).stem)
      ==> v == Dispatch(SplitName(name).stem, SplitName(name).ext.value)
  {
    var se := SplitName(name);
    if se.ext.None? then NoExtension
    else if !CheckExtension(s.formats, se.ext.value) then Unrecognised
    else if size <= s.minSize then TooSmall
    else if IsGenerated(se.stem) then AlreadyGenerated
    else Dispatch(se.stem, se.ext.value)
  }

  /**
   * The files the pipeline writes are never dispatched again: `legacy.{ext}`
   * and `{w}w.{ext}` for a width of three or four digits are skipped as
   * too small or as already generated.
   */
  lemma GeneratedNamesNotDispatched(s: Settings, w: nat, ext: string, size: nat)
    requires 100 <= w < 10000 && '.' !in ext
    ensures !Classify(s, WidthName(w, ext), size).Dispatch?
    ensures !Classify(s, LegacyName(ext), size).Dispatch?
  {
    var d := NatToString(w);
    assert d + "w" != "." by {
      assert IsDigit((d + "w")[0]);
    }
    assert WidthName(w, ext) == (d + "w") + "." + ext;
    SplitNameJoin(d + "w", ext);
    WidthLabelIsGenerated(w);
    assert LegacyName(ext) == "legacy" + "." + ext;
    SplitNameJoin("legacy", ext);
  }

  datatype Entry =
    | File(name: string, size: nat, image: Option<nat>)
    | Dir(name: string, size: nat, readable: bool, entries: seq<Entry>)
    | Broken

  /** What `digest_path` hands the pipeline as the decoded image: a directory never opens. */
  function Decoded(e: Entry): Option<nat> {
    if e.File? then e.image else None
  }

  /**
   * `digest_path` on an entry of the directory at relative path `rel`.
   * Errors from the pipeline are swallowed: only its counters survive.
   */
  function DigestPath(s: Settings, fs: string -> bool, e: Entry, rel: string, m: Metrics): (r: Metrics)
    requires !e.Broken?
    ensures r.traversed == m.traversed
    ensures r.count >= m.count && r.resized >= m.resized && r.skipped >= m.skipped
    ensures Classify(s, e.name, e.size) in {NoExtension, Unrecognised, AlreadyGenerated} ==> r == m
    ensures Classify(s, e.name, e.size) == TooSmall ==> r == m.(skipped := m.skipped + 1)
    ensures Classify(s, e.name, e.size).Dispatch? ==> r.skipped == m.skipped && r.count <= m.count + 1
    ensures Classify(s, e.name, e.size).Dispatch? ==>
      r == ProcessImage(s, Source(Classify(s, e.name, e.size).stem, Some(Classify(s, e.name, e.size).ext), rel),
                        Decoded(e), fs, m).metrics
  {
    match Classify(s, e.name, e.size)
    case TooSmall => m.(skipped := m.skipped + 1)
    case Dispatch(stem, ext) => ProcessImage(s, Source(stem, Some(ext), rel), Decoded(e), fs, m).metrics
    case _ => m
  }

  /**
   * A file whose extension is recognised, whose size is above the threshold
   * and whose stem is not a generated name is handed to `process_image`,
   * and the walk keeps whatever counters that leaves.
   */
  lemma EligibleFileProcessed(s: Settings, fs: string -> bool, name: string, size: nat,
                              image: Option<nat>, rel: string, m: Metrics)
    requires SplitName(name).ext.Some? && CheckExtension(s.formats, SplitName(name).ext.value)
    requires size > s.minSize && !IsGenerated(SplitName(name).stem)
    ensures DigestPath(s, fs, File(name, size, image), rel, m)
            == ProcessImage(s, Source(SplitName(name).stem, SplitName(name).ext, rel), image, fs, m).metrics
  {
  }

  /** Every file the pipeline generated is left alone by a later walk. */
  lemma DigestSkipsGenerated(s: Settings, fs: string -> bool, w: nat, ext: string, size: nat,
                             image: Option<nat>, rel: string, m: Metrics)
    requires 100 <= w < 10000 && '.' !in ext
    ensures var r := DigestPath(s, fs, File(WidthName(w, ext), size, image), rel, m);
      r.count == m.count && r.resized == m.resized && r.traversed == m.traversed
    ensures var r := DigestPath(s, fs, File(LegacyName(ext), size, image), rel, m);
      r.count == m.count && r.resized == m.resized && r.traversed == m.traversed
  {
    GeneratedNamesNotDispatched(s, w, ext, size);
  }

  /** How many entries a walk of `es` enumerates: every entry, plus the contents of listable sub-directories when recursing. */
  function Reach(recurse: bool, es: seq<Entry>): nat
    decreases es
  {
    if es == [] then 0
    else
      1 + (if recurse && es[0].Dir? && es[0].readable then Reach(recurse, es[0].entries) else 0)
      + Reach(recurse, es[1..])
  }

  /** Without recursion only the direct children are enumerated. */
  lemma {:induction false} ReachFlat(es: seq<Entry>)
    ensures Reach(false, es) == |es|
  {
    if es != [] {
      ReachFlat(es[1..]);
    }
  }

  /**
   * How many entries a walk of `es` counts as skipped: the entries it
   * digests whose extension is recognised and whose size is at most the
   * threshold, sub-directories included when it does not recurse into them.
   */
  function SmallCount(s: Settings, es: seq<Entry>): nat
    decreases es
  {
    if es == [] then 0
    else
      var e := es[0];
      (if e.Broken? then 0
       else if s.isRecurse && e.Dir? then (if e.readable then SmallCount(s, e.entries) else 0)
       else if Classify(s, e.name, e.size) == TooSmall then 1
       else 0)
      + SmallCount(s, es[1..])
  }

  /**
   * `walk_path` on the entry at relative path `rel`: a directory is listed
   * and each of its entries visited; anything else, or a directory that
   * cannot be listed, changes nothing.
   */
  function WalkPath(s: Settings, fs: string -> bool, e: Entry, rel: string, m: Metrics): (r: Metrics)
    ensures r.count >= m.count && r.resized >= m.resized
    ensures !e.Dir? || !e.readable ==> r == m
    ensures r.traversed == m.traversed + (if e.Dir? && e.readable then Reach(s.isRecurse, e.entries) else 0)
    ensures r.skipped == m.skipped + (if e.Dir? && e.readable then SmallCount(s, e.entries) else 0)
    decreases e
  {
    if e.Dir? && e.readable then WalkEntries(s, fs, e.entries, rel, m) else m
  }

  /**
   * The loop of `walk_path` over the entries of the directory at `rel`:
   * each entry counts as traversed, a broken one is passed over, a
   * sub-directory is walked when recursing, and anything else is digested.
   */
  function WalkEntries(s: Settings, fs: string -> bool, es: seq<Entry>, rel: string, m: Metrics): (r: Metrics)
    ensures r.count >= m.count && r.resized >= m.resized
    ensures r.traversed == m.traversed + Reach(s.isRecurse, es)
    ensures r.skipped == m.skipped + SmallCount(s, es)
    decreases es
  {
    if es == [] then m
    else
      var e := es[0];
      var m1 := m.(traversed := m.traversed + 1);
      var m2 :=
        if e.Broken? then m1
        else if s.isRecurse && e.Dir? then WalkPath(s, fs, e, Push(rel, e.name), m1)
        else DigestPath(s, fs, e, rel, m1);
      WalkEntries(s, fs, es[1..], rel, m2)
  }

  /**
   * A walk of a listable directory enumerates exactly its direct children
   * when not recursing, and every entry of its listable subtree when
   * recursing; errors met on the way never cut it short.
   */
  lemma WalkTraversed(s: Settings, fs: string -> bool, es: seq<Entry>, size: nat, name: string, rel: string, m: Metrics)
    ensures var r := WalkPath(s, fs, Dir(name, size, true, es), rel, m);
      && (!s.isRecurse ==> r.traversed == m.traversed + |es|)
      && (s.isRecurse ==> r.traversed == m.traversed + Reach(true, es))
  {
    if !s.isRecurse {
      ReachFlat(es);
    }
  }
}
