/**
 * The compressor's logger: the progress-bar switch the log formatter
 * consults, the mapping from the command-line log level to the `log` crate's
 * level filter, and how a record's module target is rendered.
 */
module Logger {
  import Cli

  /**
   * The switch behind the process-wide `PROGRESS_MANAGER`: while it is on,
   * the formatter clears the progress-bar line before printing a record.
   */
  class ProgressManager {
    var enabled: bool

    /** `ProgressManager::new()`, which `Default` also uses: starts switched off. */
    constructor ()
      ensures !enabled
    {
      enabled := false;
    }

    method IsEnabled() returns (b: bool)
      ensures b == enabled
    {
      b := enabled;
    }

    method Enable()
      modifies this
      ensures enabled
    {
      enabled := true;
    }

    method Disable()
      modifies this
      ensures !enabled
    {
      enabled := false;
    }
  }

  /** Switching on twice, or off twice, is the same as switching once. */
  method SwitchTwice(m: ProgressManager, on: bool)
    modifies m
    ensures m.enabled == on
  {
    if on {
      m.Enable();
      m.Enable();
    } else {
      m.Disable();
      m.Disable();
    }
  }

  /** The `log` crate's `LevelFilter`, in its own order: Off < Error < ... < Trace. */
  datatype LevelFilter = Off | Error | Warn | Info | Debug | Trace

  function FilterRank(f: LevelFilter): nat {
    match f
    case Off => 0
    case Error => 1
    case Warn => 2
    case Info => 3
    case Debug => 4
    case Trace => 5
  }

  /** The filter `init_logger` installs for a command-line log level. */
  function ToLevelFilter(l: Cli.LogLevel): (f: LevelFilter)
    ensures f != Off
    ensures FilterRank(f) == Cli.LevelRank(l) + 1
  {
    match l
    case Error => Error
    case Warn => Warn
    case Info => Info
    case Debug => Debug
    case Trace => Trace
  }

  /** The mapping is one-to-one and keeps the order of levels. */
  lemma ToLevelFilterMonotone(a: Cli.LogLevel, b: Cli.LogLevel)
    ensures Cli.LevelLe(a, b) <==> FilterRank(ToLevelFilter(a)) <= FilterRank(ToLevelFilter(b))
    ensures ToLevelFilter(a) == ToLevelFilter(b) ==> a == b
  {
  }

  /** A record at level `level` is written under `filter` when its level is at most the filter's. */
  predicate Passes(filter: LevelFilter, level: Cli.LogLevel) {
    Cli.LevelRank(level) + 1 <= FilterRank(filter)
  }

  /** Under the filter for `chosen`, exactly the records no more verbose than `chosen` are written. */
  lemma PassesExactly(chosen: Cli.LogLevel, level: Cli.LogLevel)
    ensures Passes(ToLevelFilter(chosen), level) <==> Cli.LevelLe(level, chosen)
  {
  }

  /** Whether "::" starts at position `k` of `s`. */
  predicate SepAt(s: string, k: int) {
    0 <= k && k + 1 < |s| && s[k] == ':' && s[k + 1] == ':'
  }

  predicate HasSep(s: string) {
    exists k :: 0 <= k < |s| && SepAt(s, k)
  }

  /** `s.split("::")`: the pieces between non-overlapping separators, found from the left. */
  function SplitSep(s: string): (r: seq<string>)
    ensures |r| >= 1 && r[0] <= s
    ensures forall i :: 0 <= i < |r| ==> !HasSep(r[i])
    decreases |s|
  {
    if |s| >= 2 && s[0] == ':' && s[1] == ':' then
      [""] + SplitSep(s[2..])
    else if s == [] then
      [""]
    else
      var rest := SplitSep(s[1..]);
      var first := [s[0]] + rest[0];
      assert !HasSep(first) by {
        forall k | 1 <= k < |first| ensures !SepAt(first, k) {
          assert !SepAt(rest[0], k - 1);
        }
      }
      [first] + rest[1..]
  }

  /** `parts.join("::")`. */
  function JoinSep(parts: seq<string>): string {
    if parts == [] then ""
    else if |parts| == 1 then parts[0]
    else parts[0] + "::" + JoinSep(parts[1..])
  }

  /** Joining the pieces with the separator gives back the split string. */
  lemma {:induction false} SplitJoin(s: string)
    ensures JoinSep(SplitSep(s)) == s
    decreases |s|
  {
    if |s| >= 2 && s[0] == ':' && s[1] == ':' {
      SplitJoin(s[2..]);
      assert s == "::" + s[2..];
    } else if s != [] {
      var rest := SplitSep(s[1..]);
      SplitJoin(s[1..]);
      var r := SplitSep(s);
      assert r == [[s[0]] + rest[0]] + rest[1..];
      if |rest| == 1 {
        assert s == [s[0]] + s[1..];
      } else {
        assert r[1..] == rest[1..];
        assert s == [s[0]] + (rest[0] + "::" + JoinSep(rest[1..]));
      }
    }
  }

  /**
   * The bracketed target in a console log line, colour codes left out: a
   * target with several "::" pieces is printed as first piece, "::", the
   * rest re-joined; a single piece as it is. Either way the original
   * module path is reproduced.
   */
  function RenderTarget(target: string): (r: string)
    ensures r == "[" + target + "]"
  {
    var parts := SplitSep(target);
    SplitJoin(target);
    if |parts| > 1 then "[" + parts[0] + "::" + JoinSep(parts[1..]) + "]"
    else "[" + target + "]"
  }
}
