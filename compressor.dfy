/**
 * The bookkeeping of `compress_jpeg_directory`: the statistics record, JPEG
 * discovery over a directory walk, the per-directory tally and its top-five
 * report, the output path of each file, the per-file update of the
 * statistics, and the switching of the progress manager around the batch.
 *
 * The encoder and the filesystem are an oracle `env` that tells, for each
 * input file, whether its output directory exists or can be created and
 * what encoding it yields. The parallel `for_each` is a sequential loop:
 * every per-file update adds to the counters, so the order of the files does
 * not change the totals (`TallyPermutation`).
 */
module Compressor {
  import opened Wrappers
  import opened Text
  import opened Paths
  import opened Counting
  import Cli
  import Logger

  /** The values of the counters of `CompressionStats`; `start_time` is a clock reading and is left out. */
  datatype Counters = Counters(processed: nat, skipped: nat, errors: nat, originalSize: nat, compressedSize: nat)

  /** `CompressionStats`, whose counters the batch updates in place, once per file. */
  class CompressionStats {
    var processedFiles: nat
    var skippedFiles: nat
    var errorFiles: nat
    var originalSize: nat
    var compressedSize: nat

    /** `CompressionStats::new()` and `default()`: every counter starts at zero. */
    constructor ()
      ensures Snapshot() == Counters(0, 0, 0, 0, 0)
    {
      processedFiles, skippedFiles, errorFiles := 0, 0, 0;
      originalSize, compressedSize := 0, 0;
    }

    function Snapshot(): Counters
      reads this
    {
      Counters(processedFiles, skippedFiles, errorFiles, originalSize, compressedSize)
    }
  }

  /** The `h:mm:ss` split of an elapsed number of seconds in `get_summary`. */
  function ElapsedParts(secs: nat): (r: (nat, nat, nat))
    ensures r.1 < 60 && r.2 < 60
    ensures r.0 * 3600 + r.1 * 60 + r.2 == secs
  {
    (secs / 3600, (secs % 3600) / 60, secs % 60)
  }

  /** The split is the only one with minutes and seconds below 60. */
  lemma ElapsedPartsUnique(secs: nat, h: nat, m: nat, s: nat)
    requires m < 60 && s < 60 && h * 3600 + m * 60 + s == secs
    ensures ElapsedParts(secs) == (h, m, s)
  {
    var below := m * 60 + s;
    DivideBy(secs, 3600, h, below);
    DivideBy(below, 60, m, s);
    DivideBy(secs, 60, h * 60 + m, s);
  }

  /** Quotient and remainder are the only pair with the remainder below the divisor. */
  lemma DivideBy(x: nat, d: nat, q: nat, r: nat)
    requires d == 60 || d == 3600
    requires r < d && x == q * d + r
    ensures x / d == q && x % d == r
  {
  }

  /** `format!("{}:{:02}:{:02}", ...)` of the split. */
  function FormatElapsed(secs: nat): string {
    var (h, m, s) := ElapsedParts(secs);
    NatToString(h) + ":" + Pad(m, 2) + ":" + Pad(s, 2)
  }

  /** Reading the three fields of the rendering back gives the elapsed seconds. */
  lemma FormatElapsedDecodes(secs: nat)
    ensures var r := FormatElapsed(secs);
      && |r| >= 7 && r[|r| - 6] == ':' && r[|r| - 3] == ':'
      && AllDigits(r[..|r| - 6]) && AllDigits(r[|r| - 5..|r| - 3]) && AllDigits(r[|r| - 2..])
      && DigitsValue(r[..|r| - 6]) * 3600 + DigitsValue(r[|r| - 5..|r| - 3]) * 60 + DigitsValue(r[|r| - 2..]) == secs
  {
    var (h, m, s) := ElapsedParts(secs);
    var r := FormatElapsed(secs);
    assert Pow10(2) == 100;
    PadWidth(m, 2);
    PadWidth(s, 2);
    NatToStringRoundTrip(h);
    PadValue(m, 2);
    PadValue(s, 2);
    var hs := NatToString(h);
    assert r == hs + ":" + Pad(m, 2) + ":" + Pad(s, 2);
    assert r[..|r| - 6] == hs;
    assert r[|r| - 5..|r| - 3] == Pad(m, 2);
    assert r[|r| - 2..] == Pad(s, 2);
  }

  // ---------------------------------------------------------------- discovery

  /** The extension test of discovery: "jpg" or "jpeg" once lower-cased. */
  predicate IsJpegExtension(ext: string) {
    Lower(ext) == "jpg" || Lower(ext) == "jpeg"
  }

  /** A walk entry that discovery keeps: not a directory (links followed) and with a JPEG extension. */
  predicate IsDiscovered(e: Entry) {
    !IsDir(e) && Extension(e.path).Some? && IsJpegExtension(Extension(e.path).value)
  }

  /** The paths of the kept entries, in walk order. */
  function Discovered(walk: seq<Entry>): (files: seq<Path>)
    ensures |files| <= |walk|
  {
    if walk == [] then []
    else
      var last := walk[|walk| - 1];
      Discovered(walk[..|walk| - 1]) + (if IsDiscovered(last) then [last.path] else [])
  }

  /** A path is discovered exactly when some kept entry of the walk has it. */
  lemma {:induction false} DiscoveredMembers(walk: seq<Entry>, p: Path)
    ensures p in Discovered(walk) <==> exists e :: e in walk && e.path == p && IsDiscovered(e)
  {
    if walk != [] {
      var init := walk[..|walk| - 1];
      DiscoveredMembers(init, p);
      assert walk == init + [walk[|walk| - 1]];
    }
  }

  /** The collecting loop: each kept entry's path is pushed onto `files`. */
  method DiscoverJpegFiles(walk: seq<Entry>) returns (files: seq<Path>)
    ensures files == Discovered(walk)
  {
    files := [];
    var i := 0;
    while i < |walk|
      invariant 0 <= i <= |walk|
      invariant files == Discovered(walk[..i])
    {
      var entry := walk[i];
      assert walk[..i + 1][..i] == walk[..i];
      if !IsDir(entry) {
        match Extension(entry.path) {
          case Some(ext) =>
            if IsJpegExtension(ext) {
              files := files + [entry.path];
            }
          case None =>
        }
      }
      i := i + 1;
    }
    assert walk[..i] == walk;
  }

  // ------------------------------------------------------- directory report

  /** The tally key of a file: its parent, relative to the input directory when it lies below it. */
  function DirKey(file: Path, inputDir: Path): Option<Path> {
    match Parent(file)
    case None => None
    case Some(parent) => Some(StripPrefix(parent, inputDir).GetOr(parent))
  }

  /** The keys of the files that have a parent, in order. */
  function DirKeys(files: seq<Path>, inputDir: Path): (keys: seq<Path>)
    ensures |keys| <= |files|
  {
    if files == [] then []
    else
      var k := DirKey(files[|files| - 1], inputDir);
      DirKeys(files[..|files| - 1], inputDir) + (if k.Some? then [k.value] else [])
  }

  /** The `dir_counts` loop: one `entry(key).or_insert(0) += 1` per file with a parent. */
  method CountDirectories(files: seq<Path>, inputDir: Path) returns (dirCounts: map<Path, nat>)
    ensures dirCounts == CountMap(DirKeys(files, inputDir))
  {
    dirCounts := map[];
    var i := 0;
    while i < |files|
      invariant 0 <= i <= |files|
      invariant dirCounts == CountMap(DirKeys(files[..i], inputDir))
    {
      ghost var keys := DirKeys(files[..i], inputDir);
      assert files[..i + 1][..i] == files[..i];
      match DirKey(files[i], inputDir) {
        case Some(relative) =>
          assert DirKeys(files[..i + 1], inputDir) == keys + [relative];
          CountMapSnoc(keys, relative);
          dirCounts := dirCounts[relative := (if relative in dirCounts then dirCounts[relative] else 0) + 1];
        case None =>
          assert DirKeys(files[..i + 1], inputDir) == keys;
      }
      i := i + 1;
    }
    assert files[..i] == files;
  }

  /** `dir_counts.iter().collect()`: the pairs in the map's own, unspecified, iteration order. */
  method ListDirectories(dirCounts: map<Path, nat>) returns (dirs: seq<(Path, nat)>)
    ensures Listing(dirs, dirCounts)
  {
    dirs := [];
    var remaining := dirCounts.Keys;
    while remaining != {}
      invariant remaining <= dirCounts.Keys
      invariant forall i :: 0 <= i < |dirs| ==> dirs[i].0 in dirCounts && dirs[i].1 == dirCounts[dirs[i].0]
      invariant forall i :: 0 <= i < |dirs| ==> dirs[i].0 !in remaining
      invariant forall i, j :: 0 <= i < j < |dirs| ==> dirs[i].0 != dirs[j].0
      invariant forall k :: k in dirCounts ==> k in remaining || k in Keys(dirs)
      decreases remaining
    {
      var k :| k in remaining;
      assert Keys(dirs + [(k, dirCounts[k])]) == Keys(dirs) + [k];
      dirs := dirs + [(k, dirCounts[k])];
      remaining := remaining - {k};
    }
    forall k | k in dirCounts ensures exists i :: 0 <= i < |dirs| && dirs[i].0 == k {
      var i :| 0 <= i < |dirs| && Keys(dirs)[i] == k;
    }
  }

  /** The lines of the directory report: at most five directories, then the number of the others. */
  datatype DirReport = DirReport(listed: seq<(Path, nat)>, others: Option<nat>)

  /** `take(5)` of the sorted pairs, and "others" when more than five directories were found. */
  function DirectoryReport(sorted: seq<(Path, nat)>): DirReport {
    var n := if |sorted| < 5 then |sorted| else 5;
    DirReport(sorted[..n], if |sorted| > 5 then Some(|sorted| - 5) else None)
  }

  /** What the report promises about the tally `m` it describes. */
  ghost predicate ReportsTally(r: DirReport, m: map<Path, nat>) {
    && |r.listed| == (if |m| < 5 then |m| else 5)
    && (forall i :: 0 <= i < |r.listed| ==> r.listed[i].0 in m && r.listed[i].1 == m[r.listed[i].0])
    && (forall i, j :: 0 <= i < j < |r.listed| ==> r.listed[i].0 != r.listed[j].0)
    && SortedDesc(r.listed)
    && (forall k, i :: k in m && 0 <= i < |r.listed| && k !in Keys(r.listed) ==> r.listed[i].1 >= m[k])
    && r.others == (if |m| > 5 then Some(|m| - 5) else None)
  }

  /** Five of a sorted listing leave out no directory with a larger count than a listed one. */
  lemma TopFive(sorted: seq<(Path, nat)>, m: map<Path, nat>, k: Path, i: nat)
    requires Listing(sorted, m) && SortedDesc(sorted)
    requires k in m && i < |DirectoryReport(sorted).listed| && k !in Keys(DirectoryReport(sorted).listed)
    ensures DirectoryReport(sorted).listed[i].1 >= m[k]
  {
    var j :| 0 <= j < |sorted| && sorted[j].0 == k;
  }

  /** The report of a sorted listing of the whole tally. */
  lemma SortedReport(sorted: seq<(Path, nat)>, m: map<Path, nat>)
    requires Listing(sorted, m) && SortedDesc(sorted) && |sorted| == |m|
    ensures ReportsTally(DirectoryReport(sorted), m)
  {
    var r := DirectoryReport(sorted);
    assert forall i :: 0 <= i < |r.listed| ==> r.listed[i] == sorted[i];
    forall k, i | k in m && 0 <= i < |r.listed| && k !in Keys(r.listed) ensures r.listed[i].1 >= m[k] {
      TopFive(sorted, m, k, i);
    }
  }

  /**
   * Sorting any listing of the tally by descending count and taking five
   * gives the largest directories: none left out has a larger count than
   * one listed.
   */
  lemma DirectoryReportSpec(dirs: seq<(Path, nat)>, m: map<Path, nat>)
    requires Listing(dirs, m)
    ensures ReportsTally(DirectoryReport(SortDesc(dirs)), m)
  {
    var sorted := SortDesc(dirs);
    ListingPermutation(dirs, sorted, m);
    ListingLength(sorted, m);
    SortedReport(sorted, m);
  }

  /** Every file with a parent gives one key. */
  lemma {:induction false} DirKeysLength(files: seq<Path>, inputDir: Path)
    requires forall i :: 0 <= i < |files| ==> files[i].parts != []
    ensures |DirKeys(files, inputDir)| == |files|
  {
    if files != [] {
      DirKeysLength(files[..|files| - 1], inputDir);
    }
  }

  /** The directory counts add up to the number of files that have a parent. */
  lemma DirCountsSum(files: seq<Path>, inputDir: Path, dirs: seq<(Path, nat)>)
    requires Listing(dirs, CountMap(DirKeys(files, inputDir)))
    ensures SumCounts(dirs) == |DirKeys(files, inputDir)|
    ensures (forall i :: 0 <= i < |files| ==> files[i].parts != []) ==> SumCounts(dirs) == |files|
  {
    ListingSum(DirKeys(files, inputDir), dirs);
    if forall i :: 0 <= i < |files| ==> files[i].parts != [] {
      DirKeysLength(files, inputDir);
    }
  }

  /** Every discovered file has a name, so the directory counts add up to the number of discovered files. */
  lemma DiscoveredDirCountsSum(walk: seq<Entry>, inputDir: Path, dirs: seq<(Path, nat)>)
    requires Listing(dirs, CountMap(DirKeys(Discovered(walk), inputDir)))
    ensures SumCounts(dirs) == |Discovered(walk)|
  {
    var files := Discovered(walk);
    forall i | 0 <= i < |files|
      ensures files[i].parts != []
    {
      DiscoveredMembers(walk, files[i]);
    }
    DirCountsSum(files, inputDir, dirs);
  }

  // ----------------------------------------------------------- per-file task

  /** What the encoder reports for one file: both sizes, or a failure. */
  datatype EncodeResult = Encoded(originalSize: nat, compressedSize: nat) | EncodeFailed(reason: string)

  /** What the filesystem and the encoder do for one file. */
  datatype TaskEnv = TaskEnv(parentExists: bool, createDirOk: bool, encode: EncodeResult)

  datatype TaskOutcome = Compressed(original: nat, compressed: nat) | Failed

  /** `output_dir.join(file.strip_prefix(input_dir).unwrap_or(file))`. */
  function OutputFile(inputDir: Path, outputDir: Path, file: Path): Path {
    Join(outputDir, StripPrefix(file, inputDir).GetOr(file))
  }

  /** A file below the input directory goes to the same relative place below the output directory. */
  lemma OutputMirrorsInput(inputDir: Path, outputDir: Path, rel: Path)
    requires !rel.absolute
    ensures OutputFile(inputDir, outputDir, Join(inputDir, rel)) == Join(outputDir, rel)
    ensures StripPrefix(OutputFile(inputDir, outputDir, Join(inputDir, rel)), outputDir) == Some(rel)
  {
    StripJoin(inputDir, rel);
    StripJoin(outputDir, rel);
  }

  /**
   * When stripping fails the whole path is joined; an absolute path then
   * replaces the output directory, so the output would be the input itself.
   */
  lemma OutputFallback(inputDir: Path, outputDir: Path, file: Path)
    requires StripPrefix(file, inputDir).None?
    ensures OutputFile(inputDir, outputDir, file) == Join(outputDir, file)
    ensures file.absolute ==> OutputFile(inputDir, outputDir, file) == file
  {
  }

  /** The per-file outcome: a failed directory creation or a failed encoding is an error. */
  function TaskResult(outputFile: Path, env: TaskEnv): (o: TaskOutcome)
    ensures o.Compressed? <==> env.encode.Encoded? && (Parent(outputFile).None? || env.parentExists || env.createDirOk)
    ensures o.Compressed? ==> o == Compressed(env.encode.originalSize, env.encode.compressedSize)
  {
    if Parent(outputFile).Some? && !env.parentExists && !env.createDirOk then Failed
    else
      match env.encode
      case Encoded(original, compressed) => Compressed(original, compressed)
      case EncodeFailed(_) => Failed
  }

  function Outcomes(inputDir: Path, outputDir: Path, files: seq<Path>, env: Path -> TaskEnv): (os: seq<TaskOutcome>)
    ensures |os| == |files|
  {
    seq(|files|, i requires 0 <= i < |files| => TaskResult(OutputFile(inputDir, outputDir, files[i]), env(files[i])))
  }

  /** The update one finished file makes to the counters. */
  function Record(c: Counters, o: TaskOutcome): (r: Counters)
    ensures r.skipped == c.skipped
    ensures r.processed + r.errors == c.processed + c.errors + 1
    ensures r.originalSize >= c.originalSize && r.compressedSize >= c.compressedSize
    ensures o.Failed? ==> r == c.(errors := c.errors + 1)
    ensures o.Compressed? ==> r.processed == c.processed + 1 && r.errors == c.errors
    ensures o.Compressed? ==> r.originalSize == c.originalSize + o.original && r.compressedSize == c.compressedSize + o.compressed
  {
    match o
    case Failed => c.(errors := c.errors + 1)
    case Compressed(original, compressed) =>
      c.(processed := c.processed + 1,
         originalSize := c.originalSize + original,
         compressedSize := c.compressedSize + compressed)
  }

  /** The counters after the outcomes, starting from fresh statistics. */
  function Tally(os: seq<TaskOutcome>): Counters {
    if os == [] then Counters(0, 0, 0, 0, 0) else Record(Tally(os[..|os| - 1]), os[|os| - 1])
  }

  /** Every file ends as processed or as an error, never as skipped. */
  lemma {:induction false} TallyConservation(os: seq<TaskOutcome>)
    ensures Tally(os).processed + Tally(os).errors == |os|
    ensures Tally(os).skipped == 0
  {
    if os != [] {
      TallyConservation(os[..|os| - 1]);
    }
  }

  /** Counters and sizes only grow as further files finish. */
  lemma {:induction false} TallyMonotone(os: seq<TaskOutcome>, more: seq<TaskOutcome>)
    ensures var a, b := Tally(os), Tally(os + more);
      a.processed <= b.processed && a.errors <= b.errors
      && a.originalSize <= b.originalSize && a.compressedSize <= b.compressedSize
    decreases |more|
  {
    if more != [] {
      var init := more[..|more| - 1];
      TallyMonotone(os, init);
      assert (os + more)[..|os + more| - 1] == os + init;
    } else {
      assert os + more == os;
    }
  }

  lemma {:induction false} TallyInsert(a: seq<TaskOutcome>, x: TaskOutcome, b: seq<TaskOutcome>)
    ensures Tally(a + [x] + b) == Record(Tally(a + b), x)
    decreases |b|
  {
    if b == [] {
      assert a + [x] + b == a + [x];
      assert (a + [x])[..|a|] == a;
      assert a + b == a;
    } else {
      var init := b[..|b| - 1];
      var y := b[|b| - 1];
      TallyInsert(a, x, init);
      assert (a + [x] + b)[..|a + [x] + b| - 1] == a + [x] + init;
      assert (a + b)[..|a + b| - 1] == a + init;
    }
  }

  /**
   * The totals do not depend on the order in which files finish: any
   * reordering of the outcomes gives the same counters. This is why the
   * sequential loop stands for the parallel workers.
   */
  lemma {:induction false} TallyPermutation(s: seq<TaskOutcome>, t: seq<TaskOutcome>)
    requires multiset(s) == multiset(t)
    ensures Tally(s) == Tally(t)
    decreases |s|
  {
    if s != [] {
      var init := s[..|s| - 1];
      var x := s[|s| - 1];
      assert s == init + [x];
      assert x in multiset(t);
      var i :| 0 <= i < |t| && t[i] == x;
      assert t == t[..i] + [x] + t[i + 1..];
      var rest := t[..i] + t[i + 1..];
      assert multiset(t) == multiset(t[..i]) + multiset{x} + multiset(t[i + 1..]);
      assert multiset(s) == multiset(init) + multiset{x};
      assert multiset(rest) == multiset(t[..i]) + multiset(t[i + 1..]);
      assert multiset(init) == multiset(s) - multiset{x};
      assert multiset(rest) == multiset(t) - multiset{x};
      TallyPermutation(init, rest);
      TallyInsert(t[..i], x, t[i + 1..]);
    } else {
      assert t == [];
    }
  }

  /**
   * The `for_each` over the files: every task updates the shared statistics,
   * which start fresh.
   */
  method RunTasks(inputDir: Path, outputDir: Path, files: seq<Path>, env: Path -> TaskEnv) returns (totals: Counters)
    ensures totals == Tally(Outcomes(inputDir, outputDir, files, env))
  {
    var stats := new CompressionStats();
    ghost var outcomes := Outcomes(inputDir, outputDir, files, env);
    var i := 0;
    while i < |files|
      invariant 0 <= i <= |files|
      invariant stats.Snapshot() == Tally(outcomes[..i])
    {
      assert outcomes[..i + 1][..i] == outcomes[..i];
      var outputFile := OutputFile(inputDir, outputDir, files[i]);
      RunTask(stats, outputFile, env(files[i]));
      i := i + 1;
    }
    assert outcomes[..i] == outcomes;
    totals := stats.Snapshot();
  }

  /**
   * The rest of one task once its output path is known: create the parent
   * directory when it is missing, encode, and record the result in the
   * shared statistics.
   */
  method RunTask(stats: CompressionStats, outputFile: Path, task: TaskEnv)
    modifies stats
    ensures stats.Snapshot() == Record(old(stats.Snapshot()), TaskResult(outputFile, task))
  {
    if Parent(outputFile).Some? && !task.parentExists && !task.createDirOk {
      stats.errorFiles := stats.errorFiles + 1;
      return;
    }
    match task.encode {
      case Encoded(original, compressed) =>
        stats.processedFiles := stats.processedFiles + 1;
        stats.originalSize := stats.originalSize + original;
        stats.compressedSize := stats.compressedSize + compressed;
      case EncodeFailed(_) =>
        stats.errorFiles := stats.errorFiles + 1;
    }
  }

  datatype CompressError = OutputDirCreateFailed | ThreadPoolBuildFailed

  /**
   * `compress_jpeg_directory`. The output directory is created first; then
   * the walk is filtered; an empty result returns fresh statistics without
   * running anything; otherwise the directory report is produced, the
   * progress manager switched on, the thread pool built, every file
   * processed, and the manager switched off again.
   */
  method CompressJpegDirectory(
    inputDir: Path, outputDir: Path, quality: nat, threadCount: nat, encoder: Cli.EncoderType,
    outputDirCreated: bool, walk: seq<Entry>, poolBuilt: bool, env: Path -> TaskEnv,
    manager: Logger.ProgressManager)
    returns (r: Result<Counters, CompressError>, report: Option<DirReport>)
    modifies manager
    ensures !outputDirCreated ==>
      r == Failure(OutputDirCreateFailed) && report.None? && manager.enabled == old(manager.enabled)
    ensures outputDirCreated && Discovered(walk) == [] ==>
      r == Success(Counters(0, 0, 0, 0, 0)) && report.None? && manager.enabled == old(manager.enabled)
    ensures outputDirCreated && Discovered(walk) != [] ==>
      report.Some? && ReportsTally(report.value, CountMap(DirKeys(Discovered(walk), inputDir)))
    ensures outputDirCreated && Discovered(walk) != [] && !poolBuilt ==>
      r == Failure(ThreadPoolBuildFailed) && manager.enabled
    ensures outputDirCreated && Discovered(walk) != [] && poolBuilt ==>
      r == Success(Tally(Outcomes(inputDir, outputDir, Discovered(walk), env))) && !manager.enabled
    ensures r.Success? ==>
      r.value.processed + r.value.errors == |Discovered(walk)| && r.value.skipped == 0
  {
    report := None;
    if !outputDirCreated {
      return Failure(OutputDirCreateFailed), report;
    }

    var files := DiscoverJpegFiles(walk);
    if files == [] {
      var empty := new CompressionStats();
      return Success(empty.Snapshot()), report;
    }

    var dirCounts := CountDirectories(files, inputDir);
    var dirs := ListDirectories(dirCounts);
    var sorted := SortDesc(dirs);
    report := Some(DirectoryReport(sorted));
    DirectoryReportSpec(dirs, dirCounts);

    manager.Enable();

    if !poolBuilt {
      return Failure(ThreadPoolBuildFailed), report;
    }

    var totals := RunTasks(inputDir, outputDir, files, env);
    TallyConservation(Outcomes(inputDir, outputDir, files, env));

    manager.Disable();
    r := Success(totals);
  }
}
