/**
 * The records the program threads through its calls (src/opts.rs).
 *
 * `Metrics` is the run's counters. `Settings` gathers the values of `Opts`
 * that src/img.rs and src/walk.rs read, with the candidate widths as a list
 * of numbers; verbosity, quiet mode and the quality/sharpening knobs only
 * affect console output or pixels and are not part of it.
 */
module Opts {
  import Optional

  datatype Metrics = Metrics(count: nat, resized: nat, traversed: nat, skipped: nat)

  /** The image formats whose `cfg(feature = ...)` gates an extension in `check_extension`. */
  datatype Format = Bmp | Gif | Hdr | Ico | Jpeg | Png | Pnm | Tga | Dds | Tiff | Webp | Farbfeld | Avif

  datatype Settings = Settings(
    outpath: string,         // root of the generated files
    prefix: string,          // root of the paths written into the markup
    extension: string,       // output type override; "" keeps each file's own
    sizes: seq<nat>,         // candidate breakpoint widths
    minSize: nat,            // files of at most this many bytes are skipped
    formats: set<Format>,    // formats compiled in
    isRecurse: bool,
    isTest: bool,            // dry run: plan and count, but save and write nothing
    isJobs: bool,            // per-width work in parallel, its errors dropped
    isNested: bool)          // keep the input's sub-directories in the output layout

  /** What the image pipeline knows of one input file besides its pixels. */
  datatype Source = Source(
    stem: string,            // `file_stem` of the input
    ownExt: Optional.Option<string>,  // `extension` of the input
    relParent: string)       // parent of the input's path relative to the input root
}
