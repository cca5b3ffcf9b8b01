/**
 * The command-line surface of the compressor: the log-level and encoder
 * enumerations with their display names, the ordering derived for log
 * levels, the two argument validators and the argument defaults.
 */
module Cli {
  import opened Wrappers
  import opened Text

  datatype LogLevel = Error | Warn | Info | Debug | Trace

  datatype EncoderType = Mozjpeg | Image

  /** Declaration position; the derived `PartialOrd`/`Ord` compare variants by it. */
  function LevelRank(l: LogLevel): (r: nat)
    ensures r < 5
  {
    match l
    case Error => 0
    case Warn => 1
    case Info => 2
    case Debug => 3
    case Trace => 4
  }

  predicate LevelLe(a: LogLevel, b: LogLevel) {
    LevelRank(a) <= LevelRank(b)
  }

  /** The derived order is a total order with Error < Warn < Info < Debug < Trace. */
  lemma LevelOrderTotal(a: LogLevel, b: LogLevel, c: LogLevel)
    ensures LevelLe(a, a)
    ensures LevelLe(a, b) && LevelLe(b, a) ==> a == b
    ensures LevelLe(a, b) && LevelLe(b, c) ==> LevelLe(a, c)
    ensures LevelLe(a, b) || LevelLe(b, a)
    ensures LevelRank(Error) < LevelRank(Warn) < LevelRank(Info) < LevelRank(Debug) < LevelRank(Trace)
  {
  }

  /** `Display` for `EncoderType`. */
  function EncoderName(e: EncoderType): string {
    match e
    case Mozjpeg => "mozjpeg"
    case Image => "image"
  }

  /** `Display` for `LogLevel`. */
  function LevelName(l: LogLevel): string {
    match l
    case Error => "error"
    case Warn => "warn"
    case Info => "info"
    case Debug => "debug"
    case Trace => "trace"
  }

  /** The command-line value names `ValueEnum` derives (variant names in kebab case, case-sensitive). */
  function ParseEncoder(s: string): (r: Option<EncoderType>)
    ensures r.Some? ==> EncoderName(r.value) == s
  {
    if s == "mozjpeg" then Some(Mozjpeg)
    else if s == "image" then Some(Image)
    else None
  }

  function ParseLevel(s: string): (r: Option<LogLevel>)
    ensures r.Some? ==> LevelName(r.value) == s
  {
    if s == "error" then Some(Error)
    else if s == "warn" then Some(Warn)
    else if s == "info" then Some(Info)
    else if s == "debug" then Some(Debug)
    else if s == "trace" then Some(Trace)
    else None
  }

  /** The displayed names are the names the argument parser accepts, so rendering is one-to-one. */
  lemma NamesRoundTrip(e: EncoderType, l: LogLevel)
    ensures ParseEncoder(EncoderName(e)) == Some(e)
    ensures ParseLevel(LevelName(l)) == Some(l)
  {
  }

  lemma NamesInjective(e1: EncoderType, e2: EncoderType, l1: LogLevel, l2: LogLevel)
    ensures EncoderName(e1) == EncoderName(e2) ==> e1 == e2
    ensures LevelName(l1) == LevelName(l2) ==> l1 == l2
  {
    NamesRoundTrip(e1, l1);
    NamesRoundTrip(e2, l2);
  }

  const U8Max: nat := 0xFF
  /** `usize` on a 64-bit target. */
  const UsizeMax: nat := 0xFFFF_FFFF_FFFF_FFFF

  datatype ArgError = NotANumber(input: string) | QualityOutOfRange | ThreadsOutOfRange

  /** `quality_validator`: a `u8` between 1 and 100. */
  function QualityValidator(s: string): (r: Result<nat, ArgError>)
    ensures r.Success? <==> ParseUnsigned(s, U8Max).Some? && 1 <= ParseUnsigned(s, U8Max).value <= 100
    ensures r.Success? ==> Some(r.value) == ParseUnsigned(s, U8Max)
    ensures r == Failure(NotANumber(s)) <==> ParseUnsigned(s, U8Max).None?
    ensures r.Failure? ==> r.error == NotANumber(s) || r.error == QualityOutOfRange
  {
    match ParseUnsigned(s, U8Max)
    case None => Failure(NotANumber(s))
    case Some(q) => if 1 <= q <= 100 then Success(q) else Failure(QualityOutOfRange)
  }

  /** `threads_validator`: a `usize` no larger than 256; 0 means automatic. */
  function ThreadsValidator(s: string): (r: Result<nat, ArgError>)
    ensures r.Success? <==> ParseUnsigned(s, UsizeMax).Some? && ParseUnsigned(s, UsizeMax).value <= 256
    ensures r.Success? ==> Some(r.value) == ParseUnsigned(s, UsizeMax)
    ensures r == Failure(NotANumber(s)) <==> ParseUnsigned(s, UsizeMax).None?
    ensures r.Failure? ==> r.error == NotANumber(s) || r.error == ThreadsOutOfRange
  {
    match ParseUnsigned(s, UsizeMax)
    case None => Failure(NotANumber(s))
    case Some(t) => if t <= 256 then Success(t) else Failure(ThreadsOutOfRange)
  }

  /** How the quality validator answers each number written in decimal. */
  lemma QualityOfNumber(q: nat)
    ensures 1 <= q <= 100 ==> QualityValidator(NatToString(q)) == Success(q)
    ensures (q == 0 || 101 <= q <= 255) ==> QualityValidator(NatToString(q)) == Failure(QualityOutOfRange)
    ensures q > 255 ==> QualityValidator(NatToString(q)) == Failure(NotANumber(NatToString(q)))
  {
    NatToStringRoundTrip(q);
  }

  /** How the threads validator answers each number written in decimal. */
  lemma ThreadsOfNumber(t: nat)
    ensures t <= 256 ==> ThreadsValidator(NatToString(t)) == Success(t)
    ensures 256 < t <= UsizeMax ==> ThreadsValidator(NatToString(t)) == Failure(ThreadsOutOfRange)
    ensures t > UsizeMax ==> ThreadsValidator(NatToString(t)) == Failure(NotANumber(NatToString(t)))
  {
    NatToStringRoundTrip(t);
  }

  /** The parsed arguments. */
  datatype Cli = Cli(
    inputDir: string,
    outputDir: Option<string>,
    quality: nat,
    yes: bool,
    threads: nat,
    logLevel: LogLevel,
    encoder: EncoderType)

  const DefaultInputDir: string := "./data/input_images"
  /** Default values are text that the argument parser runs through the validators. */
  const DefaultQualityText: string := "90"
  const DefaultThreadsText: string := "0"
  const DefaultYes: bool := false
  const DefaultLogLevel: LogLevel := Info
  const DefaultEncoder: EncoderType := Mozjpeg

  /** The default texts are the renderings of 90 and 0, so they parse as those values. */
  lemma DefaultsParse()
    ensures ParseUnsigned(DefaultQualityText, U8Max) == Some(90)
    ensures ParseUnsigned(DefaultThreadsText, UsizeMax) == Some(0)
  {
    assert NatToString(9) == "9";
    assert NatToString(90) == DefaultQualityText;
    assert NatToString(0) == DefaultThreadsText;
    ParseRendered(90, U8Max);
    ParseRendered(0, UsizeMax);
  }

  /** The arguments when none is given: every default passes its own validator. */
  function DefaultCli(): (r: Result<Cli, ArgError>)
    ensures r.Success?
    ensures r.value.quality == 90 && r.value.threads == 0 && !r.value.yes
    ensures r.value.logLevel == Info && r.value.encoder == Mozjpeg && r.value.outputDir.None?
  {
    DefaultsParse();
    match QualityValidator(DefaultQualityText)
    case Failure(e) => Failure(e)
    case Success(q) =>
      match ThreadsValidator(DefaultThreadsText)
      case Failure(e) => Failure(e)
      case Success(t) =>
        Success(Cli(DefaultInputDir, None, q, DefaultYes, t, DefaultLogLevel, DefaultEncoder))
  }
}
