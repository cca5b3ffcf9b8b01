/**
 * The driver of the JPEG processor: resolving the two directories against
 * the working directory, and the quick pre-count of JPEG files that sizes
 * the progress bar before logging is set up.
 *
 * The working directory, `exists`, the walk, the logging setup and the
 * processing step are parameters.
 */
module ProcessorMain {
  import opened Wrappers
  import opened Paths
  import Compressor

  /** `resolve_path`: an absolute path as it is, a relative one below the working directory. */
  function ResolvePath(path: Path, currentDir: Path): (r: Path)
    ensures path.absolute ==> r == path
    ensures !path.absolute ==> r.absolute == currentDir.absolute && r.parts == currentDir.parts + path.parts
  {
    if path.absolute then path else Join(currentDir, path)
  }

  /** Resolving against an absolute working directory gives an absolute path, and resolving again changes nothing. */
  lemma ResolvePathIdempotent(path: Path, currentDir: Path)
    requires currentDir.absolute
    ensures ResolvePath(path, currentDir).absolute
    ensures ResolvePath(ResolvePath(path, currentDir), currentDir) == ResolvePath(path, currentDir)
  {
  }

  /** A relative path is recovered from its resolution by stripping the working directory. */
  lemma ResolveThenStrip(path: Path, currentDir: Path)
    requires !path.absolute
    ensures StripPrefix(ResolvePath(path, currentDir), currentDir) == Some(path)
  {
    StripJoin(currentDir, path);
  }

  /** The walk stops at depth 10. */
  const MaxDepth: nat := 10

  /** An entry the estimate counts: within depth 10, a regular file itself, with a JPEG extension in any case. */
  predicate IsCounted(e: Entry) {
    e.depth <= MaxDepth && FileTypeIsFile(e)
    && Extension(e.path).Some? && Compressor.IsJpegExtension(Extension(e.path).value)
  }

  /** How many entries of the walk are counted. */
  function CountedEntries(walk: seq<Entry>): (n: nat)
    ensures n <= |walk|
  {
    if walk == [] then 0
    else CountedEntries(walk[..|walk| - 1]) + (if IsCounted(walk[|walk| - 1]) then 1 else 0)
  }

  /** `estimate_file_count`: 0 for a missing directory, otherwise one per counted entry. */
  method EstimateFileCount(dirExists: bool, walk: seq<Entry>) returns (count: nat)
    ensures !dirExists ==> count == 0
    ensures dirExists ==> count == CountedEntries(walk)
    ensures count <= |walk|
  {
    if !dirExists {
      return 0;
    }
    count := 0;
    var i := 0;
    while i < |walk|
      invariant 0 <= i <= |walk|
      invariant count == CountedEntries(walk[..i])
      invariant count <= i
    {
      assert walk[..i + 1][..i] == walk[..i];
      var entry := walk[i];
      if entry.depth <= MaxDepth && FileTypeIsFile(entry) {
        match Extension(entry.path) {
          case Some(ext) =>
            if Compressor.IsJpegExtension(ext) {
              count := count + 1;
            }
          case None =>
        }
      }
      i := i + 1;
    }
    assert walk[..i] == walk;
  }

  /** Counting more entries never lowers the estimate. */
  lemma {:induction false} CountedMonotone(walk: seq<Entry>, more: seq<Entry>)
    ensures CountedEntries(walk) <= CountedEntries(walk + more)
    decreases |more|
  {
    if more == [] {
      assert walk + more == walk;
    } else {
      CountedMonotone(walk, more[..|more| - 1]);
      assert (walk + more)[..|walk + more| - 1] == walk + more[..|more| - 1];
    }
  }

  /**
   * For a shallow walk of plain files and directories (no links, nothing
   * else), the estimate is exactly the number of files the compressor
   * discovers.
   */
  lemma {:induction false} EstimateMatchesDiscovery(walk: seq<Entry>)
    requires forall i :: 0 <= i < |walk| ==>
      walk[i].depth <= MaxDepth && !walk[i].isSymlink && walk[i].target != Other
    ensures CountedEntries(walk) == |Compressor.Discovered(walk)|
  {
    if walk != [] {
      EstimateMatchesDiscovery(walk[..|walk| - 1]);
    }
  }

  /** How a run of the processor ends. */
  datatype RunOutcome = CurrentDirFailed | LoggingSetupFailed | ProcessingFailed | Finished

  /**
   * `run`: read the working directory, resolve both directories, estimate
   * the file count, set up logging with it, then process.
   */
  method Run(
    inputArg: Path, outputArg: Path, currentDir: Option<Path>,
    inputExists: bool, walk: seq<Entry>, loggingOk: bool, processingOk: bool)
    returns (outcome: RunOutcome, inputDir: Path, outputDir: Path, estimate: nat)
    ensures currentDir.None? <==> outcome == CurrentDirFailed
    ensures currentDir.Some? ==>
      inputDir == ResolvePath(inputArg, currentDir.value) && outputDir == ResolvePath(outputArg, currentDir.value)
      && estimate == (if inputExists then CountedEntries(walk) else 0)
    ensures outcome == LoggingSetupFailed <==> currentDir.Some? && !loggingOk
    ensures outcome == Finished <==> currentDir.Some? && loggingOk && processingOk
  {
    inputDir, outputDir, estimate := inputArg, outputArg, 0;
    match currentDir {
      case None =>
        return CurrentDirFailed, inputDir, outputDir, estimate;
      case Some(cwd) =>
        inputDir := ResolvePath(inputArg, cwd);
        outputDir := ResolvePath(outputArg, cwd);
    }
    estimate := EstimateFileCount(inputExists, walk);
    if !loggingOk {
      return LoggingSetupFailed, inputDir, outputDir, estimate;
    }
    outcome := if processingOk then Finished else ProcessingFailed;
  }
}
