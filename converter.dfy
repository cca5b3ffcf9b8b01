/**
 * The JPEG converter's batch (`process_images`): the exact-case JPEG filter
 * of `collect_jpeg_files`, the checks made before any file is touched, and
 * the per-file bookkeeping of the success and error counters, the progress
 * position and the "every tenth success" log line.
 *
 * The result of running `convert -version`, `exists`, `create_dir_all` and
 * the conversion are parameters; the parallel `for_each` is a sequential loop over the files.
 */
module Converter {
  import opened Wrappers
  import opened Paths
  import Text
  import Threads
  import Compressor

  /** `Some("jpg" | "jpeg" | "JPG" | "JPEG")`: case matters, so "Jpg" is not accepted. */
  predicate IsExactCaseJpeg(ext: string) {
    ext == "jpg" || ext == "jpeg" || ext == "JPG" || ext == "JPEG"
  }

  /** A walk entry the converter keeps: a regular file itself (links not followed) with one of those extensions. */
  predicate IsCollected(e: Entry) {
    FileTypeIsFile(e) && Extension(e.path).Some? && IsExactCaseJpeg(Extension(e.path).value)
  }

  /** `collect_jpeg_files`: the paths of the kept entries, in walk order. */
  function CollectJpegFiles(walk: seq<Entry>): (files: seq<Path>)
    ensures |files| <= |walk|
  {
    if walk == [] then []
    else
      var last := walk[|walk| - 1];
      CollectJpegFiles(walk[..|walk| - 1]) + (if IsCollected(last) then [last.path] else [])
  }

  /** A path is collected exactly when some kept entry of the walk has it. */
  lemma {:induction false} CollectedMembers(walk: seq<Entry>, p: Path)
    ensures p in CollectJpegFiles(walk) <==> exists e :: e in walk && e.path == p && IsCollected(e)
  {
    if walk != [] {
      var init := walk[..|walk| - 1];
      CollectedMembers(init, p);
      assert walk == init + [walk[|walk| - 1]];
    }
  }

  /** Every entry the converter keeps, the compressor's discovery keeps too. */
  lemma CollectedIsDiscovered(e: Entry)
    requires IsCollected(e)
    ensures Compressor.IsDiscovered(e)
  {
  }

  /** The converter's list is a sub-list of the compressor's: it never keeps more files. */
  lemma {:induction false} CollectedAtMostDiscovered(walk: seq<Entry>)
    ensures |CollectJpegFiles(walk)| <= |Compressor.Discovered(walk)|
  {
    if walk != [] {
      var init := walk[..|walk| - 1];
      CollectedAtMostDiscovered(init);
      if IsCollected(walk[|walk| - 1]) {
        CollectedIsDiscovered(walk[|walk| - 1]);
      }
    }
  }

  /** The two filters differ: a regular file named "a.Jpg" is compressed but never converted. */
  lemma MixedCaseDiffers()
    ensures var e := Entry(Path(false, ["a.Jpg"]), RegularFile, false, 1);
      Compressor.IsDiscovered(e) && !IsCollected(e)
  {
    var e := Entry(Path(false, ["a.Jpg"]), RegularFile, false, 1);
    assert LastDot("a.") == Some(1);
    assert "a.J"[..2] == "a." && "a.Jp"[..3] == "a.J" && "a.Jpg"[..4] == "a.Jp";
    assert LastDot("a.Jpg") == Some(1);
    assert Extension(e.path) == Some("Jpg");
    var low := Text.Lower("Jpg");
    assert Text.LowerChar('J') == 'j' && Text.LowerChar('p') == 'p' && Text.LowerChar('g') == 'g';
    assert low[0] == 'j' && low[1] == 'p' && low[2] == 'g';
    assert low == "jpg";
  }

  /** The converter's worker count: half the CPUs, at least one. */
  function WorkerCount(cpus: nat): (n: nat)
    ensures n == if cpus / 2 > 1 then cpus / 2 else 1
    ensures n >= 1 && n >= cpus / 2
  {
    Threads.HalfCores(cpus)
  }

  // ------------------------------------------------------------ the batch

  /** What the filesystem and the conversion do for one file. */
  datatype FileEnv = FileEnv(createDirOk: bool, convertOk: bool)

  /** How one file ends: skipped before conversion, converted, or failed to convert. */
  datatype FileOutcome = Skipped | Converted | ConvertFailed

  /**
   * One task: a path outside the input directory, or an output directory
   * that cannot be created, skips the file and counts nothing.
   */
  function FileResult(inputDir: Path, outputDir: Path, file: Path, env: FileEnv): (o: FileOutcome)
    ensures o == Skipped <==>
      StripPrefix(file, inputDir).None?
      || (Parent(Join(outputDir, StripPrefix(file, inputDir).value)).Some? && !env.createDirOk)
    ensures o == Converted <==> o != Skipped && env.convertOk
    ensures o == ConvertFailed <==> o != Skipped && !env.convertOk
  {
    match StripPrefix(file, inputDir)
    case None => Skipped
    case Some(relative) =>
      if Parent(Join(outputDir, relative)).Some? && !env.createDirOk then Skipped
      else if env.convertOk then Converted
      else ConvertFailed
  }

  /** The outcomes of the files, in order. */
  function FileResults(inputDir: Path, outputDir: Path, files: seq<Path>, env: Path -> FileEnv): (os: seq<FileOutcome>)
    ensures |os| == |files|
  {
    seq(|files|, i requires 0 <= i < |files| => FileResult(inputDir, outputDir, files[i], env(files[i])))
  }

  /** How many outcomes are `o`. */
  function Occurrences(os: seq<FileOutcome>, o: FileOutcome): (n: nat)
    ensures n <= |os|
  {
    if os == [] then 0 else Occurrences(os[..|os| - 1], o) + (if os[|os| - 1] == o then 1 else 0)
  }

  /** Every outcome is one of the three, so the counts add up to the number of files. */
  lemma {:induction false} OccurrencesPartition(os: seq<FileOutcome>)
    ensures Occurrences(os, Skipped) + Occurrences(os, Converted) + Occurrences(os, ConvertFailed) == |os|
  {
    if os != [] {
      OccurrencesPartition(os[..|os| - 1]);
    }
  }

  /** The success counts at which a progress line is logged: 10, 20, ... up to `n`. */
  function Milestones(n: nat): seq<nat> {
    if n == 0 then [] else Milestones(n - 1) + (if n % 10 == 0 then [n] else [])
  }

  /** A count is logged exactly when it is a positive multiple of ten reached so far; one line per ten successes. */
  lemma {:induction false} MilestonesExactly(n: nat)
    ensures forall x :: x in Milestones(n) <==> 1 <= x <= n && x % 10 == 0
    ensures |Milestones(n)| == n / 10
  {
    if n > 0 {
      MilestonesExactly(n - 1);
    }
  }

  /** What the batch reports: the counters, where the progress bar ends, and the success counts that were logged. */
  datatype BatchReport = BatchReport(total: nat, success: nat, errors: nat, position: nat, logged: seq<nat>)

  datatype ConvertError = ToolCheckFailed | InputDirMissing | OutputDirCreateFailed

  /** How running `convert -version` went: it ran, the program was not found, or spawning it failed otherwise. */
  datatype ToolProbe = ProbeRan | ProbeNotFound | ProbeFailed

  /**
   * `check_external_tools`: only a failure other than "not found" is an
   * error; without ImageMagick the batch goes on. The value says whether
   * ImageMagick answered.
   */
  function CheckExternalTools(probe: ToolProbe): (r: Result<bool, ConvertError>)
    ensures r.Failure? <==> probe == ProbeFailed
    ensures r.Failure? ==> r.error == ToolCheckFailed
    ensures r.Success? ==> (r.value <==> probe == ProbeRan)
  {
    match probe
    case ProbeRan => Success(true)
    case ProbeNotFound => Success(false)
    case ProbeFailed => Failure(ToolCheckFailed)
  }

  /**
   * `process_images`. The tool check comes first, then the input directory
   * (before the output directory is created), then the output directory is
   * created; a failed thread-pool build is only a warning. Every file moves
   * the progress bar by one; only files that reach the conversion change a
   * counter.
   */
  method ProcessImages(
    inputDir: Path, outputDir: Path, probe: ToolProbe, inputExists: bool, outputDirCreated: bool,
    walk: seq<Entry>, env: Path -> FileEnv)
    returns (r: Result<BatchReport, ConvertError>, outputDirAttempted: bool)
    ensures probe == ProbeFailed ==> r == Failure(ToolCheckFailed) && !outputDirAttempted
    ensures probe != ProbeFailed && !inputExists ==> r == Failure(InputDirMissing) && !outputDirAttempted
    ensures probe != ProbeFailed && inputExists ==> outputDirAttempted
    ensures probe != ProbeFailed && inputExists && !outputDirCreated ==> r == Failure(OutputDirCreateFailed)
    ensures r.Success? <==> probe != ProbeFailed && inputExists && outputDirCreated
    ensures r.Success? ==>
      var files := CollectJpegFiles(walk);
      var os := FileResults(inputDir, outputDir, files, env);
      && r.value.total == |files|
      && r.value.position == |files|
      && r.value.success == Occurrences(os, Converted)
      && r.value.errors == Occurrences(os, ConvertFailed)
      && r.value.success + r.value.errors + Occurrences(os, Skipped) == |files|
      && r.value.logged == Milestones(r.value.success)
  {
    outputDirAttempted := false;
    var tools := CheckExternalTools(probe);
    if tools.Failure? {
      return Failure(tools.error), outputDirAttempted;
    }
    if !inputExists {
      return Failure(InputDirMissing), outputDirAttempted;
    }
    outputDirAttempted := true;
    if !outputDirCreated {
      return Failure(OutputDirCreateFailed), outputDirAttempted;
    }

    var files := CollectJpegFiles(walk);
    var report := RunFiles(inputDir, outputDir, files, env);
    r := Success(report);
  }

  /** The `for_each` over the collected files. */
  method RunFiles(inputDir: Path, outputDir: Path, files: seq<Path>, env: Path -> FileEnv) returns (report: BatchReport)
    ensures var os := FileResults(inputDir, outputDir, files, env);
      && report.total == |files|
      && report.position == |files|
      && report.success == Occurrences(os, Converted)
      && report.errors == Occurrences(os, ConvertFailed)
      && report.success + report.errors + Occurrences(os, Skipped) == |files|
      && report.logged == Milestones(report.success)
  {
    ghost var os := FileResults(inputDir, outputDir, files, env);
    var success, errors, position := 0, 0, 0;
    var logged: seq<nat> := [];
    var i := 0;
    while i < |files|
      invariant 0 <= i <= |files|
      invariant position == i
      invariant success == Occurrences(os[..i], Converted)
      invariant errors == Occurrences(os[..i], ConvertFailed)
      invariant logged == Milestones(success)
    {
      assert os[..i + 1][..i] == os[..i];
      var file := files[i];
      var task := env(file);
      match StripPrefix(file, inputDir) {
        case None =>
          position := position + 1;
        case Some(relative) =>
          var outputFile := Join(outputDir, relative);
          if Parent(outputFile).Some? && !task.createDirOk {
            position := position + 1;
          } else {
            if task.convertOk {
              success := success + 1;
              if success % 10 == 0 {
                logged := logged + [success];
              }
            } else {
              errors := errors + 1;
            }
            position := position + 1;
          }
      }
      i := i + 1;
    }
    assert os[..i] == os;
    OccurrencesPartition(os);
    report := BatchReport(|files|, success, errors, position, logged);
  }

  /** When every file lies below the input directory and every output directory can be made, no file is skipped. */
  lemma {:induction false} NoneSkipped(inputDir: Path, outputDir: Path, files: seq<Path>, env: Path -> FileEnv)
    requires forall i :: 0 <= i < |files| ==> StripPrefix(files[i], inputDir).Some? && env(files[i]).createDirOk
    ensures var os := FileResults(inputDir, outputDir, files, env);
      Occurrences(os, Converted) + Occurrences(os, ConvertFailed) == |files|
  {
    var os := FileResults(inputDir, outputDir, files, env);
    NoSkippedOutcome(os);
    OccurrencesPartition(os);
  }

  lemma {:induction false} NoSkippedOutcome(os: seq<FileOutcome>)
    requires forall i :: 0 <= i < |os| ==> os[i] != Skipped
    ensures Occurrences(os, Skipped) == 0
  {
    if os != [] {
      NoSkippedOutcome(os[..|os| - 1]);
    }
  }
}
