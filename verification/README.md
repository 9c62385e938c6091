# srcset in Dafny

A model of the decision logic of `srcset`, a command-line tool. It walks a
directory of images and writes a set of resized copies of each one at
standard breakpoint widths. It also writes a `legacy` copy at the last
candidate width that fits (the largest one when the candidate list is
ascending), and a `srcset.txt` file holding the `<img srcset=… sizes=…>`
markup that refers to those copies. The model covers:

- **Breakpoint selection** (`Sizes`): `strip_sizes` keeps the candidate widths
  no wider than the image. The last width kept is the legacy width.
- **Markup** (`Markup`): `create_tag` builds the `srcset` list in one pass over
  the candidates. It picks the `sizes` hint from a table of eight tiers keyed
  on the legacy width.
- **Paths** (`Paths`, `Text`): `path_from_array` pushes components the way
  `PathBuf::push` does, and `use_fileext` picks the output extension.
  `file_stem`/`extension` split a name at its last dot, and a width becomes its
  decimal label.
- **Per-image pipeline** (`Img`, `Layout`): `process_image` and
  `scale_and_save` become a pure plan plus an outcome. The plan holds the
  widths, the legacy width, the extension, every output path and the markup
  prefix. The outcome holds the success flag, the new counters and the files
  saved successfully.
- **Traversal** (`Walk`): `walk_path` and `digest_path` run over a finite tree
  of entries. `check_extension` is the extension whitelist, and the
  generated-name filter is written as a plain predicate.

The outside world enters as parameters:

- The codec is the `image: Option<nat>` of a file entry. It is the decoded
  width, or `None` when the file cannot be opened.
- Every save or write to path `p` succeeds exactly when `fs(p)` holds.
- The compiled-in codec features are a `set<Format>`.
- The relative parent directory of a file is a string. The walk builds it by
  pushing directory names onto `""`, which mirrors
  `strip_prefix(inpath).parent()`.

Behaviours of the program a reader may not expect, all modelled as written:

- `srcset` entries are joined by `","` with no space.
- The legacy resize is counted (`resized + 1`) as soon as the legacy file is
  saved, even when a later scaled file or the `srcset.txt` write fails. So
  some credit is kept for a failed image.
- In parallel mode (`-j`), failures of the scaled files are dropped, and the
  image still counts as processed.
- An output-type override containing `.` (`-t x.jpg`) gives files such as
  `legacy.x.jpg`. Their stem `legacy.x` does not match the generated-name
  pattern, so a later run over the output processes them again. An override
  containing `/` moves the outputs out of the shared directory: `-t a/jpg`
  writes below a sub-directory `legacy.a/`, and `..` pieces leave it.
- The `srcset` loop puts a comma before every fitting candidate except the
  one at index 0 of the candidate list. A list whose first candidate is too
  wide for `max` therefore yields a leading comma (`SrcsetShape`).
- For a candidate list that is not ascending, the legacy width is the last
  fitting candidate rather than the largest, and the `srcset` omits every
  fitting candidate wider than it, although its scaled file is written. With
  candidates `[480, 320]` and a 1000-pixel image, both `480w` and `320w` are
  saved, the legacy width is 320, and the `srcset` is `,{f}/320w.{ext} 320w`.
- A candidate width listed twice is processed twice. With `[320, 320]` and a
  wide enough image, `320w.{ext}` is saved twice, `resized` gains 1 + 2, and the
  `srcset` lists the `320w` entry twice. Distinct output paths need distinct
  candidates (`Layout.PlanOutputsDistinct`).
- In non-recursive mode a sub-directory is digested like a file. A directory
  named `x.jpg` can bump `skipped`. If it is larger than the threshold, it is
  dispatched, fails to open, and the error is swallowed.
- Tiers 0–4 of the `sizes` table contain unbalanced parentheses
  (`min-width:481px)`). They are reproduced verbatim.

## Model

| member | source | states |
|---|---|---|
| Text.NatToString | src/img.rs:164 | the decimal label of a width is a non-empty string of ASCII digits |
| Text.ParseNatToString | src/img.rs:164 | the decimal label of a width reads back as that width |
| Text.NatToStringInjective | src/img.rs:164 | distinct widths get distinct decimal labels |
| Text.NatToStringLength | src/walk.rs:49 | a width's label has at most `k` digits exactly when the width is below 10^k |
| Text.ToLowerIdempotent | src/walk.rs:90 | lower-casing twice is lower-casing once |
| Paths.Push | src/utils.rs:12 | pushing an absolute component replaces the path; pushing a relative one keeps the old path as a prefix |
| Paths.PathFromArray | src/utils.rs:9-15 | pushes each element in turn onto an empty buffer (stated by `Paths.PathFromArrayView` and `Paths.PathFromArraySnoc`) |
| Paths.PushView | src/utils.rs:12 | pushing a relative component appends its components and keeps the path absolute or relative as it was |
| Paths.PathFromArrayView | src/utils.rs:9-15 | `path_from_array` is the in-order concatenation of its elements' components, absolute iff its first element is; the empty array gives the empty path |
| Paths.PathFromArraySnoc | src/utils.rs:11-13 | appending a single name gives a path whose file name is that name and whose parent is the path of the shorter array |
| Paths.PathFromArrayEmptyElement | src/utils.rs:11-13 | an empty element (a top-level file's relative parent in nested mode) adds no component |
| Paths.SplitName | src/walk.rs:53-63 | when a name has an extension it is stem + "." + extension, with no dot in the extension and a non-empty stem; without one the stem is the whole name |
| Paths.SplitNameJoin | src/walk.rs:53-63 | a non-empty stem followed by "." and a dot-free extension splits back into exactly that stem and extension, except the name ".." itself (so `..jpg` splits into "." and "jpg") |
| Paths.UseFileExt | src/utils.rs:28-34 | the override extension verbatim when non-empty, otherwise the file's own extension, which the caller must supply |
| Sizes.FilterLe | src/img.rs:190-195 | the kept widths are exactly the candidates no wider than the limit, and no more of them than candidates |
| Sizes.FilterLeConcat | src/img.rs:190-195 | filtering distributes over concatenation, so kept widths stay in list order |
| Sizes.AscendingFilterIsPrefix | src/img.rs:190-195 | on an ascending list the kept widths are a prefix and every later candidate is too wide |
| Sizes.StripSizes | src/img.rs:188-201 | `None` exactly when every candidate exceeds the width; otherwise a non-empty list of exactly the fitting candidates in order |
| Sizes.LegacyIsLargestFit | src/img.rs:37-43 | the legacy width is a candidate no wider than the image; on an ascending list it is the widest fitting candidate and re-filtering by it gives the same widths |
| Markup.SrcsetUpTo | src/img.rs:207-217 | the loop's text after `k` rounds, a comma before each fitting candidate not at index 0 (stated by `Markup.SrcsetShape`) |
| Markup.SrcsetShape | src/img.rs:207-217 | the `srcset` text is the comma-join of the entries of the candidates no wider than `max`, in list order, plus one leading comma exactly when the first candidate is too wide but some later one fits |
| Markup.SrcsetOfSelection | src/img.rs:207-217 | on an ascending list with the legacy width as `max`, the `srcset` is the comma-join of the selected widths' entries, with no leading or trailing comma |
| Markup.SizesHint | src/img.rs:219-229 | the guard chain's hint is the table entry at the legacy width's tier, the number of thresholds it has reached |
| Markup.SizesHintTier | src/img.rs:219-229 | exactly one `sizes` tier applies: the first threshold the legacy width is strictly below, or the catch-all; the <960 and <1024 tiers emit the same text |
| Markup.CreateTag | src/img.rs:204-232 | the tag `<img src="{f}/legacy.{ext}" srcset=".." sizes=".." alt="A file named {n}">` (stated by `Markup.TagOfSelection`) |
| Markup.TagOfSelection | src/img.rs:204-232 | the tag's `src` is the legacy file, its `srcset` lists exactly the selected widths, its `sizes` is the width's tier, and its `alt` names the file |
| Img.PlanImage | src/img.rs:37-62 | no plan exactly when no candidate fits; otherwise a non-empty list of the fitting widths, all within the image (no upscaling), whose last is the legacy width, with one scaled path per width |
| Img.LegacyName | src/img.rs:56 | the legacy file's name `legacy.{ext}` (distinct from every scaled name by `Layout.OutputNamesDistinct`) |
| Img.WidthName | src/img.rs:164 | a scaled file's name `{w}w.{ext}` (a single path component by `Layout.WidthNameIsName`, re-filtered by `Walk.GeneratedNamesNotDispatched`) |
| Img.ScaledPath | src/img.rs:152-169 | the path `scale_and_save` builds for one width, resolving the extension itself (stated by `Layout.PlanLayout`) |
| Img.PlanFor | src/img.rs:43-62 | the plan for the selected widths: they are its widths, one scaled path each, and the last is the legacy width |
| Img.PlanTag | src/img.rs:101-111 | the tag text for a plan: `create_tag` of the legacy width, the markup prefix, the extension, the stem and the candidates (stated by `Layout.TagOfPlan`) |
| Img.SaveInOrder | src/img.rs:91-95 | the sequential loop succeeds iff every save succeeds; its `written` is a prefix of the paths, every one of them saved successfully, and stops at the first failing one |
| Img.SaveAll | src/img.rs:85-89 | the paths the parallel branch saves successfully: every path whose save succeeds and no other (an upper bound; see "Left out") |
| Img.RunPlan | src/img.rs:65-139 | success adds 1 to `count` and 1 + the number of widths to `resized`; failure leaves `count` alone and adds 1 to `resized` exactly when the legacy file was saved; a dry run succeeds and writes nothing; success is the legacy save, the `srcset.txt` write and, unless parallel, every scaled save; `written` lists only the successful saves: nothing when the legacy save fails, otherwise the legacy file, the scaled files the loop (or, in parallel, every attempt) saved, and `srcset.txt` when it is reached and succeeds; `traversed`/`skipped` are untouched |
| Img.ProcessImage | src/img.rs:21-43 | an image that cannot be opened is a failure with no change; an image no candidate fits is a success with no change and no output; otherwise the plan is carried out |
| Layout.RootedView | src/img.rs:51-62 | the array `[root, rel-parent, stem]` (nested) or `[root, stem]` (flat) is the path whose components are the root's followed by the relative parent's and the stem, absolute iff the root is |
| Layout.LayoutParallel | src/img.rs:101-109 | the output directory and the markup prefix are the same relative tail (`[rel-parent], stem` in nested mode, `stem` in flat mode) under different roots |
| Layout.PlanLayout | src/img.rs:51-62 | the legacy file, `srcset.txt` and every scaled file share the parent `[outpath, (rel-parent), stem]`, named `legacy.{ext}`, `srcset.txt` and `{w}w.{ext}` with the one extension `use_fileext` gives |
| Layout.OutputNamesDistinct | src/img.rs:164 | distinct widths give distinct scaled names, none equal to `legacy.{ext}` or `srcset.txt` |
| Layout.PlanOutputsDistinct | src/img.rs:158-169 | with distinct candidates, the outputs of one image are pairwise distinct paths |
| Layout.TagOfPlan | src/img.rs:101-111 | the tag names the plan's files: `src` is `{prefix}/legacy.{ext}` and the i-th `srcset` entry is `{prefix}/` + the i-th scaled file's name + ` {w}w` |
| Layout.PlanIgnoresDryRun | src/img.rs:51-127 | the planned widths, paths and markup prefix do not depend on the dry-run flag |
| Layout.DryRunMatchesSuccess | src/img.rs:65-139 | a dry run succeeds, writes nothing, produces the same tag, and changes the counters exactly as a run whose every save succeeds |
| Walk.CheckExtension | src/walk.rs:88-119 | an extension is accepted iff its lower-cased form names a format that is compiled in |
| Walk.CheckExtensionAccepts | src/walk.rs:90-117 | accepted iff some compiled-in format lists the lower-cased extension |
| Walk.CheckExtensionIgnoresCase | src/walk.rs:90 | the verdict depends only on the lower-cased extension |
| Walk.UnknownExtensionRejected | src/walk.rs:117 | an extension outside the enumerated list is rejected whatever formats are compiled in |
| Walk.IsGenerated | src/walk.rs:47-49 | the generated-name pattern as a predicate: exactly `legacy`, or three or four ASCII digits followed by `w` (stated by `Walk.WidthLabelIsGenerated`) |
| Walk.WidthLabelIsGenerated | src/walk.rs:49 | a width label `{w}w` matches the generated-name pattern iff the width has three or four digits |
| Walk.Classify | src/walk.rs:53-66 | each verdict holds exactly when its check is the first to decide, in the order extension present, extension recognised, size above the threshold, stem outside the pattern; a name that passes all four is dispatched with its stem and extension |
| Walk.GeneratedNamesNotDispatched | src/walk.rs:63-66 | `legacy.{ext}` and `{w}w.{ext}` for widths 100–9999 are never dispatched on a re-run |
| Walk.DigestPath | src/walk.rs:45-85 | no extension, an unrecognised one or a generated name change nothing; a small file adds exactly 1 to `skipped`; a dispatched file gets the counters `process_image` leaves, whether it succeeds or fails, and never touches `skipped` or `traversed` |
| Walk.EligibleFileProcessed | src/walk.rs:58-71 | a file with a recognised extension, a size above the threshold and a stem outside the pattern is passed to `process_image` under its stem, extension and relative parent |
| Walk.DigestSkipsGenerated | src/walk.rs:66 | digesting a generated file leaves `count` and `resized` unchanged |
| Walk.ReachFlat | src/walk.rs:31 | without recursion, the entries enumerated are the direct children |
| Walk.WalkPath | src/walk.rs:13-39 | a non-directory or an unreadable directory changes nothing; otherwise `traversed` grows by the entries enumerated and `skipped` by the small files digested |
| Walk.WalkEntries | src/walk.rs:22-36 | every enumerated entry, broken ones included, adds 1 to `traversed`; `skipped` grows by exactly the small files digested; `count`/`resized` never decrease |
| Walk.WalkTraversed | src/walk.rs:15-35 | a walk of a directory adds the number of direct children to `traversed` without recursion, and the size of its readable subtree with recursion |

## Left out

- Pixel work is left out: decoding, `resize_to_fill`, `unsharpen` (its result is discarded anyway), encoding and quality. The codec is the `image` width of a file entry.
- The aspect ratio and target heights are floating-point values that never reach a path or a counter, so they are left out.
- Filesystem side effects are reduced to the `fs` predicate, namely `mk_dir` (its errors are swallowed), `save`, `save_with_quality` and `fs::write`. `metadata()` is the entry's `size`, and its `unwrap` panic is not modelled.
- Symbolic links are not modelled. `path.is_dir()` follows them, and the tree of entries has none.
- Rayon parallelism is modelled as attempting every scaled save and dropping the errors. Ordering and concurrency are not modelled.
- Img.SaveAll: in `-j` mode the model's `written` is an upper bound of what the program writes. Collecting into `Result<Vec<_>, _>` stops handing out work after the first error, so some later successful saves may never be attempted.
- Walk.GeneratedNamesNotDispatched: holds for an extension without `.`. With an override such as `-t x.jpg` the generated files are dispatched again on a re-run, as described above.
- Layout.PlanLayout: holds for extensions without `/`. An override containing `/` moves the outputs out of the shared directory.
- Console output is left out: progress lines, warnings, the quiet and verbose flags, colour, and `print_image_details`.
- src/main.rs, src/opts.rs and src/img_ext.rs are not part of this model. That covers the command line, option defaults, the KB-to-bytes conversion of the size threshold, single-file mode (`is_file`), the run summary and the per-format encoder dispatch. Settings are passed as a plain record.
- `Path` normalisation of `.` components is not modelled, and neither are non-UTF-8 names.
- Walk.CheckExtension: `to_lowercase` is modelled on ASCII letters only. Full Unicode case mapping is not modelled.
- Walk.WidthLabelIsGenerated: `\d` is modelled as the ASCII digits. The regex crate also accepts other Unicode decimal digits.
- Img.RunPlan: counters are unbounded naturals. The source's `u32` counters and the `u32` width arithmetic could overflow, which is not modelled.
- Img.RunPlan: `written` lists only the saves that succeed. A failed save can still leave an empty or partial file at its path, because `save_buffer_with_quality` creates the file before it looks up the format and runs the encoder (src/img_ext.rs:83, 99); for example, every `{w}w.webp` of a WebP input. Such leftovers are not in `written`, and on a later run each can add 1 to `skipped`.
- Walk.WalkEntries: only states that `count` and `resized` never decrease over a walk. Their exact values are a sum of `process_image` outcomes, stated per file by `Walk.DigestPath` and per image by `Img.RunPlan`.
- Paths.PushView: relative components only. The source would let an absolute `rel-parent` or stem replace the output directory, and the layout lemmas exclude that case.
