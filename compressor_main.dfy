/**
 * The driver of the JPEG compressor: the thread count, the default output
 * directory name, the y/n confirmation, the byte-size units of the report,
 * the saved-bytes figure, and the order of the steps of `main`, each of which
 * can end the run early.
 *
 * The clock, stdin, `canonicalize`, `exists`, `num_cpus::get` and the
 * logger's initialisation are parameters; the compression itself is the
 * model in `Compressor`.
 */
module CompressorMain {
  import opened Wrappers
  import opened Text
  import opened Paths
  import Cli
  import Logger
  import Threads
  import Compressor

  /** `threads`: the requested count, or half the CPUs (at least one) for 0. */
  function ResolveThreads(requested: nat, cpus: nat): (n: nat)
    ensures n >= 1
    ensures requested != 0 ==> n == requested
    ensures requested == 0 ==> n >= 1 && n >= cpus / 2 && (n == 1 || n == cpus / 2)
  {
    if requested == 0 then Threads.HalfCores(cpus) else requested
  }

  // ------------------------------------------------------------ byte sizes

  datatype ByteUnit = Bytes | KB | MB | GB

  /** The number of bytes in one unit. */
  function UnitSize(u: ByteUnit): nat {
    match u
    case Bytes => 1
    case KB => 1024
    case MB => 1024 * 1024
    case GB => 1024 * 1024 * 1024
  }

  /** The unit `format_bytes` writes a size in: the largest one the size reaches. */
  function UnitFor(b: nat): (u: ByteUnit)
    ensures u != Bytes ==> UnitSize(u) <= b
  {
    if b >= UnitSize(GB) then GB
    else if b >= UnitSize(MB) then MB
    else if b >= UnitSize(KB) then KB
    else Bytes
  }

  /** The sizes each unit covers, as intervals: [0, KB), [KB, MB), [MB, GB), [GB, ...). */
  predicate InUnitRange(b: nat, u: ByteUnit) {
    match u
    case Bytes => b < UnitSize(KB)
    case KB => UnitSize(KB) <= b < UnitSize(MB)
    case MB => UnitSize(MB) <= b < UnitSize(GB)
    case GB => UnitSize(GB) <= b
  }

  /** The ranges are disjoint and cover every size, and the chosen unit is the one whose range holds it. */
  lemma UnitForRange(b: nat, u: ByteUnit)
    ensures UnitFor(b) == u <==> InUnitRange(b, u)
  {
  }

  /** What `format_bytes` prints: the exact count below one KB, otherwise a two-decimal value in a unit. */
  datatype ByteText = Exact(text: string) | Scaled(unit: ByteUnit)

  function FormatBytes(b: nat): (r: ByteText)
    ensures r.Exact? <==> b < 1024
    ensures r.Scaled? ==> r.unit == UnitFor(b) && r.unit != Bytes
  {
    var u := UnitFor(b);
    if u == Bytes then Exact(NatToString(b) + " bytes") else Scaled(u)
  }

  /** The exact rendering ends in " bytes" and its number reads back as the size. */
  lemma FormatBytesExact(b: nat)
    requires b < 1024
    ensures var t := FormatBytes(b).text;
      |t| > 6 && t[|t| - 6..] == " bytes" && ParseUnsigned(t[..|t| - 6], Cli.UsizeMax) == Some(b)
  {
    var t := FormatBytes(b).text;
    assert t[..|t| - 6] == NatToString(b);
    ParseRendered(b, Cli.UsizeMax);
  }

  /** `saved_bytes`: the difference when the output is smaller, else 0 (never below zero). */
  function SavedBytes(original: nat, compressed: nat): (r: nat)
    ensures r <= original
    ensures original > compressed ==> r + compressed == original
    ensures original <= compressed ==> r == 0
  {
    if original > compressed then original - compressed else 0
  }

  // ------------------------------------------------------------- output dir

  /** A reading of the local clock. */
  datatype LocalTime = LocalTime(year: nat, month: nat, day: nat, hour: nat, minute: nat, second: nat)

  predicate ValidTime(t: LocalTime) {
    t.year <= 9999 && 1 <= t.month <= 12 && 1 <= t.day <= 31 && t.hour < 24 && t.minute < 60 && t.second <= 60
  }

  /** `format("%Y%m%d_%H%M%S")`. */
  function Stamp(t: LocalTime): string {
    Fields(t.year, 4, t.month, t.day) + "_" + Fields(t.hour, 2, t.minute, t.second)
  }

  /** Three fields written back to back: `a` padded to `w` digits, then `b` and `c` to two. */
  function Fields(a: nat, w: nat, b: nat, c: nat): string {
    Pad(a, w) + Pad(b, 2) + Pad(c, 2)
  }

  /** The `w` characters of `s` from position `i` on are decimal digits with value `v`. */
  predicate DigitsAt(s: string, i: nat, w: nat, v: nat) {
    i + w <= |s| && AllDigits(s[i..i + w]) && DigitsValue(s[i..i + w]) == v
  }

  /** The stamp has fifteen characters, '_' in the middle, and every field reads back from its fixed place. */
  lemma StampDecodes(t: LocalTime)
    requires ValidTime(t)
    ensures var s := Stamp(t);
      && |s| == 15 && s[8] == '_'
      && DigitsAt(s, 0, 4, t.year) && DigitsAt(s, 4, 2, t.month) && DigitsAt(s, 6, 2, t.day)
      && DigitsAt(s, 9, 2, t.hour) && DigitsAt(s, 11, 2, t.minute) && DigitsAt(s, 13, 2, t.second)
  {
    assert Pow10(2) == 100 && Pow10(4) == 10000;
    var date := Fields(t.year, 4, t.month, t.day);
    var time := Fields(t.hour, 2, t.minute, t.second);
    PadFields(t.year, 4, t.month, t.day);
    PadFields(t.hour, 2, t.minute, t.second);
    var head := date + "_";
    DigitsBefore(date, "_", 0, 4, t.year);
    DigitsBefore(date, "_", 4, 2, t.month);
    DigitsBefore(date, "_", 6, 2, t.day);
    DigitsBefore(head, time, 0, 4, t.year);
    DigitsBefore(head, time, 4, 2, t.month);
    DigitsBefore(head, time, 6, 2, t.day);
    DigitsAfter(head, time, 0, 2, t.hour);
    DigitsAfter(head, time, 2, 2, t.minute);
    DigitsAfter(head, time, 4, 2, t.second);
  }

  /** Three padded fields, `a` of width `w` and two of width 2, each read back from its place. */
  lemma PadFields(a: nat, w: nat, b: nat, c: nat)
    requires 1 <= w && a < Pow10(w) && b < 100 && c < 100
    ensures var s := Fields(a, w, b, c);
      |s| == w + 4 && DigitsAt(s, 0, w, a) && DigitsAt(s, w, 2, b) && DigitsAt(s, w + 2, 2, c)
  {
    assert Pow10(2) == 100;
    PadWidth(a, w);
    PadWidth(b, 2);
    PadWidth(c, 2);
    PadValue(a, w);
    PadValue(b, 2);
    PadValue(c, 2);
    var s := Pad(a, w) + Pad(b, 2) + Pad(c, 2);
    assert s[0..w] == Pad(a, w);
    assert s[w..w + 2] == Pad(b, 2);
    assert s[w + 2..w + 4] == Pad(c, 2);
  }

  /** A field keeps its place when text is appended. */
  lemma DigitsBefore(a: string, b: string, i: nat, w: nat, v: nat)
    requires DigitsAt(a, i, w, v)
    ensures DigitsAt(a + b, i, w, v)
  {
    assert (a + b)[i..i + w] == a[i..i + w];
  }

  /** A field moves along by the length of text put in front of it. */
  lemma DigitsAfter(a: string, b: string, i: nat, w: nat, v: nat)
    requires DigitsAt(b, i, w, v)
    ensures DigitsAt(a + b, |a| + i, w, v)
  {
    assert (a + b)[|a| + i..|a| + i + w] == b[i..i + w];
  }

  /** The name of the default output directory's last component: stamp, input name, quality. */
  function OutputDirName(now: LocalTime, inputDir: Path, quality: nat): string {
    Stamp(now) + "_" + FileName(inputDir).GetOr("") + "_" + NatToString(quality)
  }

  /** `output/compressed/{datetime}_{input_dirname}_{quality}`, or the directory given on the command line. */
  function OutputDir(given: Option<string>, now: LocalTime, inputDir: Path, quality: nat): (p: Path)
    ensures given.None? ==> p == Path(false, ["output", "compressed", OutputDirName(now, inputDir, quality)])
    ensures given.Some? ==> p == PathFromString(given.value)
  {
    match given
    case Some(text) => PathFromString(text)
    case None => Path(false, ["output", "compressed", OutputDirName(now, inputDir, quality)])
  }

  /** The default name starts with the stamp and ends with the quality, which reads back from it. */
  lemma OutputDirNameDecodes(now: LocalTime, inputDir: Path, quality: nat)
    ensures var name := OutputDirName(now, inputDir, quality);
      var q := NatToString(quality);
      && name[..|Stamp(now)|] == Stamp(now)
      && |name| > |q| && name[|name| - |q| - 1] == '_'
      && AllDigits(name[|name| - |q|..]) && DigitsValue(name[|name| - |q|..]) == quality
  {
    var name := OutputDirName(now, inputDir, quality);
    var q := NatToString(quality);
    NatToStringRoundTrip(quality);
    assert name[|name| - |q|..] == q;
    assert name[|name| - |q| - 1] == '_';
  }

  /** A path given as text: separators split it into components, empty and "." components vanish. */
  function PathFromString(text: string): Path {
    Path(|text| > 0 && text[0] == '/', Components(text, []))
  }

  /** The non-empty, non-"." pieces between '/' separators, `current` being the piece read so far. */
  function Components(text: string, current: string): seq<string>
    decreases |text|
  {
    if text == [] then Keep(current)
    else if text[0] == '/' then Keep(current) + Components(text[1..], [])
    else Components(text[1..], current + [text[0]])
  }

  function Keep(piece: string): seq<string> {
    if piece == [] || piece == "." then [] else [piece]
  }

  // ----------------------------------------------------------- confirmation

  /** `input.trim().to_lowercase() == "y"`. */
  predicate Confirmed(answer: string) {
    Lower(Trim(answer)) == "y"
  }

  /** Only a lone "y" or "Y", with any surrounding whitespace, confirms. */
  lemma ConfirmedExactly(answer: string)
    ensures Confirmed(answer) <==> Trim(answer) == "y" || Trim(answer) == "Y"
  {
    var t := Trim(answer);
    if Lower(t) == "y" {
      assert LowerChar(t[0]) == 'y';
    }
  }

  // ---------------------------------------------------------------- report

  /** The figures shown when at least one file was processed. */
  datatype SizeDetails = SizeDetails(original: ByteText, compressed: ByteText, saved: ByteText, outputDir: Path)

  /** The counters `display_compression_results` prints, and the size details it adds only for processed files. */
  datatype Summary = Summary(processed: nat, skipped: nat, errors: nat, sizes: Option<SizeDetails>)

  function ResultsSummary(stats: Compressor.Counters, outputDir: Path): (r: Summary)
    ensures r.processed == stats.processed && r.skipped == stats.skipped && r.errors == stats.errors
    ensures r.sizes.Some? <==> stats.processed > 0
    ensures r.sizes.Some? ==> r.sizes.value.saved == FormatBytes(SavedBytes(stats.originalSize, stats.compressedSize))
    ensures r.sizes.Some? ==>
      && r.sizes.value.original == FormatBytes(stats.originalSize)
      && r.sizes.value.compressed == FormatBytes(stats.compressedSize)
      && r.sizes.value.outputDir == outputDir
  {
    Summary(stats.processed, stats.skipped, stats.errors,
      if stats.processed > 0 then
        Some(SizeDetails(FormatBytes(stats.originalSize), FormatBytes(stats.compressedSize),
          FormatBytes(SavedBytes(stats.originalSize, stats.compressedSize)), outputDir))
      else None)
  }

  // ------------------------------------------------------------------ main

  /** How a run of the compressor ends. */
  datatype RunOutcome =
    | LoggerInitFailed
    | InputDirMissing
    | Cancelled
    | CompressFailed(error: Compressor.CompressError)
    | Completed(summary: Summary)

  /** The line stdin yields for the `i`th prompt; at end of input `read_line` leaves the answer empty. */
  function AnswerAt(answers: seq<string>, i: nat): string {
    if i < |answers| then answers[i] else ""
  }

  /** Whether the prompts the run asks are all answered with "y". */
  predicate GoesAhead(yes: bool, outputExists: bool, answers: seq<string>) {
    yes || (if outputExists then Confirmed(AnswerAt(answers, 0)) && Confirmed(AnswerAt(answers, 1))
            else Confirmed(AnswerAt(answers, 0)))
  }

  /** The two prompts: overwrite an existing output directory, then start; `--yes` skips both. */
  method AskConfirmations(yes: bool, outputExists: bool, answers: seq<string>) returns (goAhead: bool, prompts: nat)
    ensures goAhead == GoesAhead(yes, outputExists, answers)
    ensures prompts == if yes then 0 else if outputExists && Confirmed(AnswerAt(answers, 0)) then 2 else 1
  {
    prompts := 0;
    if outputExists && !yes {
      var confirmed := Confirmed(AnswerAt(answers, prompts));
      prompts := prompts + 1;
      if !confirmed {
        return false, prompts;
      }
    }
    if !yes {
      var confirmed := Confirmed(AnswerAt(answers, prompts));
      prompts := prompts + 1;
      if !confirmed {
        return false, prompts;
      }
    }
    goAhead := true;
  }

  /**
   * `main` after argument parsing: initialise the logger, canonicalise the
   * input directory, settle the output directory, ask whether to overwrite
   * an existing output directory and whether to start (unless `--yes`),
   * resolve the thread count, compress, and summarise.
   */
  method RunMain(
    cli: Cli.Cli, loggerInitOk: bool, canonicalInput: Option<Path>, now: LocalTime,
    outputExists: bool, answers: seq<string>, cpus: nat,
    outputDirCreated: bool, walk: seq<Entry>, poolBuilt: bool, env: Path -> Compressor.TaskEnv,
    manager: Logger.ProgressManager)
    returns (outcome: RunOutcome, prompts: nat, threads: nat)
    modifies manager
    ensures !loggerInitOk ==> prompts == 0
    ensures outcome == LoggerInitFailed <==> !loggerInitOk
    ensures loggerInitOk && canonicalInput.None? ==> prompts == 0
    ensures outcome == InputDirMissing <==> loggerInitOk && canonicalInput.None?
    ensures loggerInitOk && canonicalInput.Some? ==>
      prompts == if cli.yes then 0
                 else if outputExists && Confirmed(AnswerAt(answers, 0)) then 2
                 else 1
    ensures outcome == Cancelled <==>
      loggerInitOk && canonicalInput.Some? && !GoesAhead(cli.yes, outputExists, answers)
    ensures outcome.CompressFailed? || outcome.Completed? ==>
      loggerInitOk && canonicalInput.Some? && GoesAhead(cli.yes, outputExists, answers)
      && threads == ResolveThreads(cli.threads, cpus)
    ensures outcome.Completed? ==>
      outcome.summary.skipped == 0 && outcome.summary.processed + outcome.summary.errors == |Compressor.Discovered(walk)|
    ensures outcome.Completed? <==>
      loggerInitOk && canonicalInput.Some? && GoesAhead(cli.yes, outputExists, answers)
      && outputDirCreated && (Compressor.Discovered(walk) == [] || poolBuilt)
    ensures outcome.CompressFailed? <==>
      loggerInitOk && canonicalInput.Some? && GoesAhead(cli.yes, outputExists, answers)
      && !(outputDirCreated && (Compressor.Discovered(walk) == [] || poolBuilt))
    ensures outcome.CompressFailed? ==> (outcome.error == Compressor.OutputDirCreateFailed <==> !outputDirCreated)
    ensures outcome.Completed? ==>
      var outputDir := OutputDir(cli.outputDir, now, canonicalInput.value, cli.quality);
      var outcomes := Compressor.Outcomes(canonicalInput.value, outputDir, Compressor.Discovered(walk), env);
      outcome.summary == ResultsSummary(Compressor.Tally(outcomes), outputDir)
  {
    prompts, threads := 0, 0;
    if !loggerInitOk {
      return LoggerInitFailed, prompts, threads;
    }
    if canonicalInput.None? {
      return InputDirMissing, prompts, threads;
    }
    var inputDir := canonicalInput.value;
    var outputDir := OutputDir(cli.outputDir, now, inputDir, cli.quality);

    var goAhead;
    goAhead, prompts := AskConfirmations(cli.yes, outputExists, answers);
    if !goAhead {
      return Cancelled, prompts, threads;
    }

    threads := ResolveThreads(cli.threads, cpus);
    var result, _ := Compressor.CompressJpegDirectory(
      inputDir, outputDir, cli.quality, threads, cli.encoder,
      outputDirCreated, walk, poolBuilt, env, manager);
    match result {
      case Failure(e) => outcome := CompressFailed(e);
      case Success(stats) =>
        assert Compressor.Discovered(walk) == [] ==>
          Compressor.Outcomes(inputDir, outputDir, Compressor.Discovered(walk), env) == [];
        outcome := Completed(ResultsSummary(stats, outputDir));
    }
  }
}
