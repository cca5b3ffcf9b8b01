# JPEG batch tools — a Dafny model of their bookkeeping

The repository holds several small JPEG tools:

- a Rust compressor (`rust/jpeg_compressor`). It walks an input directory, re-encodes every JPEG with mozjpeg or the `image` crate on a thread pool, mirrors the directory tree under an output directory, and reports statistics;
- a Rust converter (`rust/jpeg_converter`), which does the same job through ImageMagick;
- a small driver (`rust_jpeg_processor`), which resolves directories and pre-counts files;
- a Python script (`python/scripts/jpeg_counter`), which counts JPEG files and reports repeated file names.

This project models the part of these tools that is not pixels, threads or terminal output:

- which files are picked up;
- where each output file goes;
- how the counters change per file;
- the per-directory report;
- the command-line validators and defaults;
- the thread-count rule;
- byte-size units;
- the progress-bar switch;
- the log-level filter;
- the y/n prompts;
- the duplicate-name report.

It then proves properties about that model.

One module per source file, plus shared helpers:

| file | module | models |
|---|---|---|
| `wrappers.dfy` | `Wrappers` | `Option` and `Result` |
| `text.dfy` | `Text` | ASCII lower-casing, decimal rendering and `str::parse` for unsigned types, `{:0w}` padding, `str::trim` |
| `paths.dfy` | `Paths` | paths as components; `join`, `strip_prefix`, `parent`, `file_name`, `extension`, Python `suffix`/`stem`; walk entries |
| `counting.dfy` | `Counting` | tallies (`HashMap` counters, `Counter`), listings of a tally, the stable sort by descending count |
| `threads.dfy` | `Threads` | `max(1, cpus / 2)` |
| `cli.dfy` | `Cli` | `rust/jpeg_compressor/src/cli.rs` |
| `logger.dfy` | `Logger` | `rust/jpeg_compressor/src/logger.rs` |
| `compressor.dfy` | `Compressor` | `rust/jpeg_compressor/src/compressor.rs` |
| `compressor_main.dfy` | `CompressorMain` | `rust/jpeg_compressor/src/main.rs` |
| `converter.dfy` | `Converter` | `rust/jpeg_converter/src/processor.rs` |
| `processor_main.dfy` | `ProcessorMain` | `rust_jpeg_processor/src/main.rs` |
| `jpeg_counter.dfy` | `JpegCounter` | `python/scripts/jpeg_counter/main.py` |

Anything the programs get from outside becomes a parameter:

- the directory walk is a sequence of entries. Each entry carries its path, what it resolves to, whether it is itself a symbolic link, and its depth;
- the encoder, the converter and `create_dir_all` become a per-file oracle;
- `exists`, `canonicalize`, `current_dir`, the clock, stdin, the CPU count and the logger's initialisation become plain inputs.

The thread-pool `for_each` loops become sequential loops. This loses nothing for the totals: `Compressor.TallyPermutation` proves that any order in which the files finish gives the same counters.

`CompressionStats` and `ProgressManager` are classes, because the source updates their fields in place. The loops that push into vectors, bump counters or fill maps are methods with loop invariants. Each such method is proved equal to a function on the inputs, and the lemmas are stated about those functions.

Two details of the code that are easy to miss:

- Discovery in the compressor keeps every entry that is not a directory (`!path.is_dir()`), not only regular files, so a broken link or a socket named `x.jpg` is kept.
- The directory report sorts the pairs of a `HashMap` with a stable sort, so directories with equal counts come out in the map's unspecified iteration order, not in discovery order. `Compressor.ListDirectories` picks that order nondeterministically, and `Compressor.DirectoryReportSpec` holds for every order.

## Model

| member | source | states |
|---|---|---|
| `Text.ParseUnsigned` | rust/jpeg_compressor/src/cli.rs:93 | `str::parse` for an unsigned type: a text that is a non-empty digit string, possibly after one '+', parses to that string's value exactly when the value is at most the type's maximum; every other text (the empty text, a lone '+', a sign '-', spaces, other characters) is refused |
| `Text.ParseRendered` | rust/jpeg_compressor/src/cli.rs:106 | every in-range value parses back from its decimal rendering |
| `Text.ParseRefusesOverflow` | rust/jpeg_compressor/src/cli.rs:106 | a value beyond the type's maximum is refused |
| `Text.NatToStringRoundTrip` | rust/jpeg_compressor/src/main.rs:143 | `{}` of a natural reads back as the same natural |
| `Text.PadValue` | rust/jpeg_compressor/src/compressor.rs:84-88 | `{:02}` only adds leading zeros: the padded text has the same value |
| `Text.PadWidth` | rust/jpeg_compressor/src/compressor.rs:84-88 | a value below 10^w fills exactly w characters when padded to w |
| `Text.Trim` | rust/jpeg_compressor/src/main.rs:50 | `trim` leaves no whitespace at either end, never lengthens, and is empty exactly for all-whitespace input |
| `Text.TrimIsSlice` | rust/jpeg_compressor/src/main.rs:50 | `trim` is a slice of the input with only whitespace before and after it; with `Text.Trim`'s contract, it is the input with exactly its leading and trailing whitespace removed |
| `Paths.StripJoin` | rust/jpeg_compressor/src/compressor.rs:246-247 | stripping the base from `base.join(rel)` gives `rel` back |
| `Paths.JoinStrip` | rust/jpeg_compressor/src/compressor.rs:246-247 | joining a stripped path back onto its base gives the original path |
| `Paths.Parent` | rust/jpeg_compressor/src/compressor.rs:155 | `parent()` is `None` exactly for a path without components; otherwise the path minus its last component |
| `Paths.RustExtension` | rust/jpeg_compressor/src/compressor.rs:131 | `extension()` is absent exactly when the name has no '.' or its only '.' is the first character; otherwise it is the text after the last '.', which contains no '.' |
| `Paths.PySuffix` | python/scripts/jpeg_counter/main.py:48 | `suffix` is non-empty exactly when the name's last '.' is neither its first nor its last character, and then it is the name from that '.' on |
| `Paths.StemSuffix` | python/scripts/jpeg_counter/main.py:48-52 | a name is its `stem` followed by its `suffix` |
| `Counting.CountMapCounts` | rust/jpeg_compressor/src/compressor.rs:152-159 | the tally's keys are exactly the values seen, each mapped to its number of occurrences |
| `Counting.CountMapSnoc` | rust/jpeg_compressor/src/compressor.rs:157 | one more occurrence adds one to that key's count and leaves all other counts unchanged |
| `Counting.ListingSum` | rust/jpeg_compressor/src/compressor.rs:152-159 | however a tally is listed, its counts add up to the number of values tallied |
| `Counting.ListingLength` | rust/jpeg_compressor/src/compressor.rs:162 | a listing has one pair per key |
| `Counting.ListingPermutation` | rust/jpeg_compressor/src/compressor.rs:163 | reordering a listing keeps it a listing of the same tally |
| `Counting.SortDesc` | rust/jpeg_compressor/src/compressor.rs:163 | the sort by descending count yields non-increasing counts and a permutation of its input |
| `Counting.InsertDesc` | rust/jpeg_compressor/src/compressor.rs:163 | inserting into a descending list keeps it descending and adds exactly the new pair |
| `Threads.HalfCores` | rust/jpeg_converter/src/processor.rs:47 | `max(1, cpus / 2)`: at least one, and either one or half the CPUs |
| `Threads.HalfCoresIsMax` | rust/jpeg_compressor/src/main.rs:76 | the result is the larger of 1 and cpus/2; it is 1 exactly when there are fewer than four CPUs |
| `Cli.LevelRank` | rust/jpeg_compressor/src/cli.rs:52-59 | the derived order ranks the five levels by declaration |
| `Cli.LevelOrderTotal` | rust/jpeg_compressor/src/cli.rs:52-59 | the derived order is a total order with error < warn < info < debug < trace |
| `Cli.ParseEncoder` | rust/jpeg_compressor/src/cli.rs:61-68 | an accepted encoder name is that encoder's display name |
| `Cli.ParseLevel` | rust/jpeg_compressor/src/cli.rs:51-59 | an accepted level name is that level's display name |
| `Cli.NamesRoundTrip` | rust/jpeg_compressor/src/cli.rs:70-89 | each displayed name ("mozjpeg", "image", "error" … "trace") is parsed back to its own variant |
| `Cli.NamesInjective` | rust/jpeg_compressor/src/cli.rs:70-89 | no two variants display the same name |
| `Cli.QualityValidator` | rust/jpeg_compressor/src/cli.rs:92-102 | Ok exactly when the text parses as a u8 in 1..=100, with that value; not-a-number exactly when it does not parse; otherwise the range error |
| `Cli.QualityOfNumber` | rust/jpeg_compressor/src/cli.rs:92-102 | 1..=100 accepted; 0 and 101..=255 get the range error; above 255 is not a u8, so it gets the not-a-number error |
| `Cli.ThreadsValidator` | rust/jpeg_compressor/src/cli.rs:105-115 | Ok exactly when the text parses as a usize ≤ 256, with that value; not-a-number exactly when it does not parse |
| `Cli.ThreadsOfNumber` | rust/jpeg_compressor/src/cli.rs:105-115 | 0..=256 accepted (0 is automatic), 257..=usize::MAX range error, beyond that not a number; `usize` is taken as 64 bits wide (usize::MAX = 2^64 − 1) |
| `Cli.DefaultCli` | rust/jpeg_compressor/src/cli.rs:9-48 | the default texts pass their validators: quality 90, threads 0, yes false, level info, encoder mozjpeg, no output dir |
| `Logger.ProgressManager.constructor` | rust/jpeg_compressor/src/logger.rs:20-29 | a new manager is disabled |
| `Logger.ProgressManager.IsEnabled` | rust/jpeg_compressor/src/logger.rs:32-34 | returns the flag and changes nothing |
| `Logger.ProgressManager.Enable` | rust/jpeg_compressor/src/logger.rs:37-39 | the flag is on afterwards |
| `Logger.ProgressManager.Disable` | rust/jpeg_compressor/src/logger.rs:42-44 | the flag is off afterwards |
| `Logger.SwitchTwice` | rust/jpeg_compressor/src/logger.rs:36-44 | enabling twice, or disabling twice, is the same as doing it once |
| `Logger.ToLevelFilter` | rust/jpeg_compressor/src/logger.rs:50-56 | each level maps to the filter of the same name, never `Off`, one rank above in the filter order |
| `Logger.ToLevelFilterMonotone` | rust/jpeg_compressor/src/logger.rs:50-56 | the mapping is one-to-one and keeps the order of levels in both directions |
| `Logger.PassesExactly` | rust/jpeg_compressor/src/logger.rs:147 | under the chosen level's filter, exactly the records at that level or less verbose are written |
| `Logger.SplitSep` | rust/jpeg_compressor/src/logger.rs:95 | `split("::")` yields at least one piece and no piece contains "::" |
| `Logger.SplitJoin` | rust/jpeg_compressor/src/logger.rs:95-100 | joining the pieces with "::" gives back the target |
| `Logger.RenderTarget` | rust/jpeg_compressor/src/logger.rs:94-104 | with colour codes left out, both branches print "[" + target + "]" |
| `Compressor.CompressionStats.constructor` | rust/jpeg_compressor/src/compressor.rs:31-48 | a new record has every counter and both sizes at zero |
| `Compressor.ElapsedParts` | rust/jpeg_compressor/src/compressor.rs:83-89 | minutes and seconds below 60, and h·3600 + m·60 + s equals the elapsed seconds |
| `Compressor.ElapsedPartsUnique` | rust/jpeg_compressor/src/compressor.rs:83-89 | that split is the only one with minutes and seconds below 60 |
| `Compressor.FormatElapsedDecodes` | rust/jpeg_compressor/src/compressor.rs:83-89 | the `h:mm:ss` text has two-digit minute and second fields, and reading the three fields back gives the elapsed seconds |
| `Compressor.Discovered` | rust/jpeg_compressor/src/compressor.rs:123-140 | discovery never yields more files than the walk has entries |
| `Compressor.DiscoveredMembers` | rust/jpeg_compressor/src/compressor.rs:123-140 | a path is discovered exactly when a walk entry with that path is not a directory and its lower-cased extension is "jpg" or "jpeg" |
| `Compressor.DiscoverJpegFiles` | rust/jpeg_compressor/src/compressor.rs:123-140 | the push loop returns exactly the discovered files, in walk order |
| `Compressor.CountDirectories` | rust/jpeg_compressor/src/compressor.rs:152-159 | the `dir_counts` loop builds the tally of the files' parent directories, relative to the input directory where possible |
| `Compressor.DirCountsSum` | rust/jpeg_compressor/src/compressor.rs:152-159 | the directory counts sum to the number of files with a parent; when every file has a parent, to the number of files |
| `Compressor.DiscoveredDirCountsSum` | rust/jpeg_compressor/src/compressor.rs:152-159 | every discovered file has a parent, so the directory counts of the report sum to the number of discovered files |
| `Compressor.ListDirectories` | rust/jpeg_compressor/src/compressor.rs:162 | collecting the map gives each directory once with its count, in some order |
| `Compressor.TopFive` | rust/jpeg_compressor/src/compressor.rs:166-168 | a directory left out of a sorted top five has no larger count than any listed one |
| `Compressor.SortedReport` | rust/jpeg_compressor/src/compressor.rs:162-170 | the report of a sorted listing meets every requirement on the directory report |
| `Compressor.DirectoryReportSpec` | rust/jpeg_compressor/src/compressor.rs:162-170 | the report lists min(5, directories) distinct directories with their counts, in non-increasing order; no omitted directory has a larger count than a listed one; "others" is the number of directories minus 5, shown only when there are more than five |
| `Compressor.DirKeys` | rust/jpeg_compressor/src/compressor.rs:154-158 | there is at most one tally key per file |
| `Compressor.DirKeysLength` | rust/jpeg_compressor/src/compressor.rs:154-158 | when every file has a parent, there is exactly one key per file |
| `Compressor.OutputMirrorsInput` | rust/jpeg_compressor/src/compressor.rs:246-247 | a file at `rel` below the input directory is written at `rel` below the output directory |
| `Compressor.OutputFallback` | rust/jpeg_compressor/src/compressor.rs:246-247 | when stripping fails the whole path is joined, so an absolute input path becomes its own output path |
| `Compressor.TaskResult` | rust/jpeg_compressor/src/compressor.rs:249-314 | a task compresses exactly when encoding succeeds and the parent exists, can be created, or is not needed; otherwise it is an error; the sizes are the encoder's |
| `Compressor.Record` | rust/jpeg_compressor/src/compressor.rs:303-316 | a success adds one processed file and its two sizes; a failure adds only one error; skipped is never touched |
| `Compressor.RunTask` | rust/jpeg_compressor/src/compressor.rs:249-316 | one task changes the shared statistics exactly by the `Record` update of its outcome |
| `Compressor.RunTasks` | rust/jpeg_compressor/src/compressor.rs:245-318 | the per-file loop leaves the statistics equal to the tally of the per-file outcomes |
| `Compressor.TallyConservation` | rust/jpeg_compressor/src/compressor.rs:245-318 | after all tasks, processed + errors is the number of files and skipped stays 0 |
| `Compressor.TallyMonotone` | rust/jpeg_compressor/src/compressor.rs:303-315 | counters and sizes only grow as more files finish |
| `Compressor.TallyInsert` | rust/jpeg_compressor/src/compressor.rs:245 | a file finishing at any position contributes the same update |
| `Compressor.TallyPermutation` | rust/jpeg_compressor/src/compressor.rs:245 | the totals are the same for every order in which the workers finish |
| `Compressor.CompressJpegDirectory` | rust/jpeg_compressor/src/compressor.rs:106-345 | the output directory is created first, and its failure is an error; no JPEG gives zero statistics, no report and no manager change; otherwise the top-five report, the manager switched on, then either a pool error with the manager still on, or the tallied totals with the manager switched off again |
| `CompressorMain.ResolveThreads` | rust/jpeg_compressor/src/main.rs:74-79 | a non-zero request is kept; 0 gives max(1, cpus/2); the result is at least 1 |
| `CompressorMain.UnitFor` | rust/jpeg_compressor/src/main.rs:131-145 | a unit other than bytes is never larger than the size |
| `CompressorMain.UnitForRange` | rust/jpeg_compressor/src/main.rs:136-144 | the unit chosen is the one whose interval [KB, MB), [MB, GB), [GB, …) or [0, KB) holds the size; the intervals are disjoint and cover all sizes |
| `CompressorMain.FormatBytes` | rust/jpeg_compressor/src/main.rs:131-145 | exact "N bytes" text exactly below 1024, otherwise a scaled value in the chosen unit |
| `CompressorMain.FormatBytesExact` | rust/jpeg_compressor/src/main.rs:143 | the exact text ends in " bytes" and its number parses back as the size |
| `CompressorMain.SavedBytes` | rust/jpeg_compressor/src/main.rs:176-180 | never above the original size; the difference when the output is smaller, else 0 |
| `CompressorMain.StampDecodes` | rust/jpeg_compressor/src/main.rs:30 | `%Y%m%d_%H%M%S` of a valid time has 15 characters with '_' at index 8, and every field reads back from its fixed place |
| `CompressorMain.OutputDir` | rust/jpeg_compressor/src/main.rs:26-37 | a given `--output-dir` is used as written; without it, the output is the relative path output/compressed/<stamp>_<input name>_<quality> |
| `CompressorMain.OutputDirNameDecodes` | rust/jpeg_compressor/src/main.rs:33-36 | the default name starts with the time stamp and ends with '_' and the quality, which reads back |
| `CompressorMain.ConfirmedExactly` | rust/jpeg_compressor/src/main.rs:50 | an answer confirms exactly when, trimmed, it is "y" or "Y" |
| `CompressorMain.AskConfirmations` | rust/jpeg_compressor/src/main.rs:43-67 | `--yes` asks nothing; otherwise the overwrite question comes first (only if the output exists), then the start question; the run goes ahead only if every asked question is confirmed |
| `CompressorMain.ResultsSummary` | rust/jpeg_compressor/src/main.rs:147-185 | the three counters as they are; size details exactly when at least one file was processed: the original and compressed totals, the saved bytes, each in its byte unit, and the output directory |
| `CompressorMain.RunMain` | rust/jpeg_compressor/src/main.rs:13-107 | the run ends as a logger failure exactly when the logger fails to start, and as a missing input directory exactly when the logger started and the input cannot be canonicalised, in both cases before any prompt; a refused prompt cancels the run; it ends with the compressor's error exactly when it goes ahead and either the output directory is not created or files are found and the pool is not built; a run that goes ahead uses the resolved thread count; it completes exactly when the output directory is created and either no JPEG is found or the pool is built, and its summary is that of the tallied per-file outcomes with the resolved output directory (skipped 0, processed + errors = discovered files) |
| `Converter.CollectJpegFiles` | rust/jpeg_converter/src/processor.rs:118-131 | never more files than walk entries |
| `Converter.CollectedMembers` | rust/jpeg_converter/src/processor.rs:118-131 | a path is collected exactly when a walk entry with that path is a regular file (links not followed) whose extension is "jpg", "jpeg", "JPG" or "JPEG" |
| `Converter.CollectedIsDiscovered` | rust/jpeg_converter/src/processor.rs:122-128 | every file the converter keeps, the compressor's discovery keeps too |
| `Converter.CollectedAtMostDiscovered` | rust/jpeg_converter/src/processor.rs:118-131 | on the same walk, the converter never collects more files than the compressor discovers |
| `Converter.MixedCaseDiffers` | rust/jpeg_converter/src/processor.rs:125-128 | a regular file "a.Jpg" is discovered by the compressor but rejected by the converter |
| `Converter.WorkerCount` | rust/jpeg_converter/src/processor.rs:47 | half the CPUs, but at least one worker |
| `Converter.FileResult` | rust/jpeg_converter/src/processor.rs:58-103 | a file is skipped without counting exactly when its relative path cannot be computed or its output directory cannot be created; otherwise it counts as converted exactly when the conversion succeeds, and as failed exactly when it does not |
| `Converter.Occurrences` | rust/jpeg_converter/src/processor.rs:90-96 | a count of outcomes never exceeds the number of files |
| `Converter.OccurrencesPartition` | rust/jpeg_converter/src/processor.rs:57-106 | skipped, converted and failed files add up to all files |
| `Converter.MilestonesExactly` | rust/jpeg_converter/src/processor.rs:90-93 | a success count is logged exactly when it is a positive multiple of 10, giving one line per ten successes |
| `Converter.RunFiles` | rust/jpeg_converter/src/processor.rs:57-106 | the progress bar ends at the file total; success and error counts equal the converted and failed outcomes; success + errors + skipped = total; logged counts are the milestones |
| `Converter.CheckExternalTools` | rust/jpeg_converter/src/processor.rs:134-152 | only a `convert -version` failure other than "not found" is an error; a missing ImageMagick is not, and the result says whether ImageMagick answered |
| `Converter.ProcessImages` | rust/jpeg_converter/src/processor.rs:15-115 | a failed tool check (not a missing ImageMagick), then a missing input directory, are errors before the output directory is attempted; a failed output directory is an error; otherwise the batch report of the collected files |
| `Converter.NoneSkipped` | rust/jpeg_converter/src/processor.rs:58-76 | when every file is below the input directory and every output directory can be made, success + errors = total |
| `ProcessorMain.ResolvePath` | rust_jpeg_processor/src/main.rs:51-57 | an absolute path is unchanged; a relative one is the working directory's components followed by its own |
| `ProcessorMain.ResolvePathIdempotent` | rust_jpeg_processor/src/main.rs:51-57 | against an absolute working directory, the result is absolute and resolving it again changes nothing |
| `ProcessorMain.ResolveThenStrip` | rust_jpeg_processor/src/main.rs:51-57 | a relative path is recovered by stripping the working directory from its resolution |
| `ProcessorMain.CountedEntries` | rust_jpeg_processor/src/main.rs:67-83 | never more than the number of entries |
| `ProcessorMain.EstimateFileCount` | rust_jpeg_processor/src/main.rs:60-86 | 0 for a missing directory; otherwise the number of entries at depth ≤ 10 that are regular files with a lower-cased "jpg"/"jpeg" extension; never above the entry count |
| `ProcessorMain.CountedMonotone` | rust_jpeg_processor/src/main.rs:67-83 | walking further entries never lowers the count |
| `ProcessorMain.EstimateMatchesDiscovery` | rust_jpeg_processor/src/main.rs:67-83 | for a walk of plain files and directories within depth 10, the estimate equals the number of files the compressor discovers |
| `ProcessorMain.Run` | rust_jpeg_processor/src/main.rs:17-48 | a missing working directory fails first; both directories are resolved and the estimate taken before logging is set up; the run finishes exactly when logging and processing succeed |
| `JpegCounter.JpegFiles` | python/scripts/jpeg_counter/main.py:46-49 | every listed file has a JPEG suffix; never more files than walk entries |
| `JpegCounter.JpegFilesMembers` | python/scripts/jpeg_counter/main.py:46-49 | a path is listed exactly when a walk entry with that path is a file (links followed) whose lower-cased suffix is ".jpg" or ".jpeg" |
| `JpegCounter.FirstOccurrences` | python/scripts/jpeg_counter/main.py:52 | the counter's keys: each stem once, and only stems that occur |
| `JpegCounter.CounterItemsListing` | python/scripts/jpeg_counter/main.py:52 | the counter's items list every stem once with its number of occurrences |
| `JpegCounter.CounterTotals` | python/scripts/jpeg_counter/main.py:52-69 | the stem counts add up to the number of JPEG files; there is one item per distinct stem, the unique-name count |
| `JpegCounter.GroupSize` | python/scripts/jpeg_counter/main.py:55-60 | a stem's group is as long as the stem's count, and it is non-empty exactly for stems that occur |
| `JpegCounter.FilenamePaths` | python/scripts/jpeg_counter/main.py:55-60 | the map's keys are exactly the stems; each maps to the files with that stem, in discovery order |
| `JpegCounter.Repeated` | python/scripts/jpeg_counter/main.py:76-78 | only pairs with a count above one are kept |
| `JpegCounter.RepeatedListing` | python/scripts/jpeg_counter/main.py:76-78 | filtering a listing of the tally lists exactly the stems counted more than once |
| `JpegCounter.RepeatedSorted` | python/scripts/jpeg_counter/main.py:76-78 | filtering keeps the descending order of `most_common()` |
| `JpegCounter.CountRepeatedIsLength` | python/scripts/jpeg_counter/main.py:70-72 | the duplicate-name count is the number of pairs with a count above one |
| `JpegCounter.DuplicatesSpec` | python/scripts/jpeg_counter/main.py:70-78 | the duplicates list holds exactly the stems counted more than once, each once with its count, in non-increasing count order; its length is the reported duplicate-name count |
| `JpegCounter.CountJpegs` | python/scripts/jpeg_counter/main.py:24-108 | nothing is counted for a missing directory; otherwise the total, the unique count, the duplicate count, the duplicates list and the stem groups as above |

## Left out

- Pixel decoding and encoding (mozjpeg, the `image` crate, ImageMagick `convert`, PIL) are out of scope. Each becomes a per-file outcome given as input.
- How `convert -version` is run is out of scope. Its result (ran, not found, other failure) is a parameter of `Converter.ProcessImages`.
- Concurrency is not modelled: the rayon pools, `par_iter`, the mutex around the statistics, the atomic counters, and the sampling thread that updates the progress message. The per-file updates run as a sequential loop.
- Floating-point figures are out of scope:
  - the size and compression ratios, the processing speed and the progress percentage;
  - the "notable file" test;
  - the remaining-time estimate;
  - the two-decimal values that `format_bytes` prints for KB, MB and GB. The model keeps only the unit chosen for these.
- Wall-clock readings are parameters: the elapsed seconds and the local time.
- Progress bars, colours, the regular-expression highlighting of log messages, the log-file sink, and the wording of every message are out of scope.
- `rust_jpeg_converter/src/logger.rs` and the converter's global progress bar are out of scope. They are output only.
- Filesystem effects are parameters: directory walks, `create_dir_all`, `exists`, `canonicalize`, `current_dir`, reading stdin. Walk errors are dropped by every program (`filter_map(ok)`), so a walk is the sequence of entries that were read successfully. A stdin read error is not modelled; end of input reads as an empty answer.
- Argument parsing by clap and typer is out of scope. The validators, the value names and the defaults are modelled.
- The Python copies of the converter and the compressor (`python/py_jpeg_converter`, `python/scripts/jpeg_converter`, `python/scripts/jpeg_compressor`) are out of scope. They are sequential PIL loops.
- `rust_jpeg_processor`'s own processor is not part of this model. `ProcessorMain.Run` takes its result as a parameter.
- The three `lib.rs` files are out of scope. They only re-export modules.
- Compressor.CompressionStats: sizes are unbounded naturals, so the `u64` overflow of `original_size` and `compressed_size` is not modelled. The same holds for `usize` counters.
- Cli.ThreadsOfNumber: takes `usize` as 64 bits wide. On a 32-bit target, values from 2^32 to 2^64 − 1 would be refused as not a number rather than as out of range; the model does not cover that target.
- Text.Lower: lower-cases ASCII letters only. Rust's `to_lowercase` and Python's `lower` use Unicode case mapping. For the comparisons the programs make (against "jpg", "jpeg", ".jpg", ".jpeg" and "y"), both give the same answer, because no non-ASCII character lower-cases to one of 'j', 'p', 'e', 'g', 'y' or '.'.
- Paths.RustExtension: names are strings. Non-UTF-8 file names (for which `to_str` fails and `to_string_lossy` substitutes characters) are not modelled.
- Paths.PySuffix: follows CPython up to 3.13, where a name ending in '.' has no suffix.
- CompressorMain.PathFromString: splits a given output path on '/' and drops empty and "." components. Rust keeps a leading "." as a component, which does not change where files are written. A ".." component is kept as an ordinary name and not resolved. Where it is the last component, the model's `Paths.FileName` and `Paths.RustExtension` would treat it as a name, while Rust's `file_name()` gives none. The programs never ask for the file name or extension of a given output directory.
- CompressorMain.Stamp: pads the year to four digits. chrono would also prefix years beyond 9999 with '+'. `CompressorMain.StampDecodes` assumes a valid time of year ≤ 9999.
- Counting.SortDesc: is stable by construction, which is what `sort_by_key` and `most_common()` do. Its contract states order and permutation only, not the order of ties.
