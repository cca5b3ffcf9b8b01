/**
 * Character and string helpers shared by the programs: ASCII lower-casing,
 * decimal rendering and parsing of naturals, zero padding and whitespace
 * trimming.
 */
module Text {
  import opened Wrappers

  /** Lower-cases an ASCII capital; every other character is left alone. */
  function LowerChar(c: char): (r: char)
    ensures 'A' <= c <= 'Z' ==> r as int == c as int + 32
    ensures !('A' <= c <= 'Z') ==> r == c
  {
    if 'A' <= c <= 'Z' then (c as int + 32) as char else c
  }

  function Lower(s: string): (r: string)
    ensures |r| == |s|
    ensures forall i :: 0 <= i < |s| ==> r[i] == LowerChar(s[i])
  {
    seq(|s|, i requires 0 <= i < |s| => LowerChar(s[i]))
  }

  predicate IsDigit(c: char) {
    '0' <= c <= '9'
  }

  predicate AllDigits(s: string) {
    forall i :: 0 <= i < |s| ==> IsDigit(s[i])
  }

  function DigitChar(d: nat): (c: char)
    requires d < 10
    ensures IsDigit(c) && c as int - '0' as int == d
  {
    ('0' as int + d) as char
  }

  /** The value of a string of decimal digits, most significant first. */
  function DigitsValue(s: string): nat
    requires AllDigits(s)
  {
    if s == [] then 0
    else DigitsValue(s[..|s| - 1]) * 10 + (s[|s| - 1] as int - '0' as int)
  }

  /** Decimal rendering of a natural without leading zeros, as `{}` prints it. */
  function NatToString(n: nat): (s: string)
    ensures |s| >= 1 && AllDigits(s)
    ensures n >= 10 ==> s[0] != '0'
  {
    if n < 10 then [DigitChar(n)] else NatToString(n / 10) + [DigitChar(n % 10)]
  }

  lemma {:induction false} NatToStringRoundTrip(n: nat)
    ensures DigitsValue(NatToString(n)) == n
  {
    var s := NatToString(n);
    if n >= 10 {
      NatToStringRoundTrip(n / 10);
      assert s[..|s| - 1] == NatToString(n / 10);
    }
  }

  /**
   * Rust's `str::parse` for an unsigned integer type whose largest value is
   * `max`: an optional leading '+' (not on its own), then one or more ASCII
   * digits, and a value that fits. No whitespace is accepted.
   */
  function ParseUnsigned(s: string, max: nat): (r: Option<nat>)
    ensures r.Some? ==> r.value <= max
    ensures s == [] ==> r.None?
    ensures r.Some? ==> exists d :: UnsignedForm(s, d) && r.value == DigitsValue(d)
    ensures forall d :: UnsignedForm(s, d) ==>
      r == if DigitsValue(d) <= max then Some(DigitsValue(d)) else None
  {
    var digits := if |s| > 1 && s[0] == '+' then s[1..] else s;
    if digits == [] || !AllDigits(digits) then None
    else
      assert UnsignedForm(s, digits) by {
        if |s| > 1 && s[0] == '+' {
          assert s == "+" + digits;
        }
      }
      UnsignedFormUnique(s, digits);
      if DigitsValue(digits) > max then None
      else Some(DigitsValue(digits))
  }

  /** `s` is the non-empty digit string `d`, possibly after a single '+'. */
  predicate UnsignedForm(s: string, d: string) {
    (s == d || s == "+" + d) && d != [] && AllDigits(d)
  }

  /** A text has at most one such digit string. */
  lemma UnsignedFormUnique(s: string, d: string)
    requires UnsignedForm(s, d)
    ensures forall e :: UnsignedForm(s, e) ==> e == d
  {
    forall e | UnsignedForm(s, e) ensures e == d {
      if s == "+" + e {
        assert !IsDigit(s[0]);
        assert s != d && s[1..] == e && s[1..] == d;
      } else {
        assert s == e;
      }
    }
  }

  /** Every value in range is parsed back from its own rendering. */
  lemma ParseRendered(n: nat, max: nat)
    requires n <= max
    ensures ParseUnsigned(NatToString(n), max) == Some(n)
  {
    NatToStringRoundTrip(n);
  }

  /** A value too large for the type is refused however it is written. */
  lemma ParseRefusesOverflow(n: nat, max: nat)
    requires n > max
    ensures ParseUnsigned(NatToString(n), max) == None
  {
    NatToStringRoundTrip(n);
  }

  function Zeros(k: nat): (s: string)
    ensures |s| == k && forall i :: 0 <= i < k ==> s[i] == '0'
  {
    seq(k, i => '0')
  }

  /** `{:0w}`: the decimal rendering, left-padded with zeros to `width` characters. */
  function Pad(n: nat, width: nat): (s: string)
    ensures AllDigits(s)
    ensures |s| == if |NatToString(n)| < width then width else |NatToString(n)|
  {
    var d := NatToString(n);
    if |d| < width then Zeros(width - |d|) + d else d
  }

  function Pow10(k: nat): (p: nat)
    ensures p >= 1
  {
    if k == 0 then 1 else 10 * Pow10(k - 1)
  }

  /** A value below 10^k needs at most k digits. */
  lemma {:induction false} NatToStringLength(n: nat, k: nat)
    requires 1 <= k && n < Pow10(k)
    ensures |NatToString(n)| <= k
  {
    if n >= 10 {
      NatToStringLength(n / 10, k - 1);
    }
  }

  /** A value below 10^width fills exactly `width` characters once padded. */
  lemma PadWidth(n: nat, width: nat)
    requires 1 <= width && n < Pow10(width)
    ensures |Pad(n, width)| == width
  {
    NatToStringLength(n, width);
  }

  /** Padding only adds leading zeros, so the value is unchanged. */
  lemma {:induction false} PadValue(n: nat, width: nat)
    ensures DigitsValue(Pad(n, width)) == n
  {
    var d := NatToString(n);
    NatToStringRoundTrip(n);
    if |d| < width {
      LeadingZeros(width - |d|, d);
      assert Pad(n, width) == Zeros(width - |d|) + d;
    } else {
      assert Pad(n, width) == d;
    }
  }

  lemma {:induction false} LeadingZeros(k: nat, d: string)
    requires AllDigits(d)
    ensures AllDigits(Zeros(k) + d) && DigitsValue(Zeros(k) + d) == DigitsValue(d)
    decreases |d|
  {
    var s := Zeros(k) + d;
    if d == [] {
      assert s == Zeros(k);
      ZerosValue(k);
    } else {
      assert s[..|s| - 1] == Zeros(k) + d[..|d| - 1];
      LeadingZeros(k, d[..|d| - 1]);
    }
  }

  lemma {:induction false} ZerosValue(k: nat)
    ensures DigitsValue(Zeros(k)) == 0
  {
    if k > 0 {
      assert Zeros(k)[..k - 1] == Zeros(k - 1);
      ZerosValue(k - 1);
    }
  }

  /** Rust's `char::is_whitespace`: the Unicode White_Space property. */
  predicate IsWhitespace(c: char) {
    || ('\t' <= c <= '\r')
    || c == ' '
    || c == '\U{85}'
    || c == '\U{A0}'
    || c == '\U{1680}'
    || ('\U{2000}' <= c <= '\U{200A}')
    || c == '\U{2028}'
    || c == '\U{2029}'
    || c == '\U{202F}'
    || c == '\U{205F}'
    || c == '\U{3000}'
  }

  function TrimStart(s: string): (r: string)
    ensures |r| <= |s| && r == s[|s| - |r|..]
    ensures r != [] ==> !IsWhitespace(r[0])
    ensures forall i :: 0 <= i < |s| - |r| ==> IsWhitespace(s[i])
  {
    if s != [] && IsWhitespace(s[0]) then TrimStart(s[1..]) else s
  }

  function TrimEnd(s: string): (r: string)
    ensures |r| <= |s| && r == s[..|r|]
    ensures r != [] ==> !IsWhitespace(r[|r| - 1])
    ensures forall i :: |r| <= i < |s| ==> IsWhitespace(s[i])
  {
    if s != [] && IsWhitespace(s[|s| - 1]) then TrimEnd(s[..|s| - 1]) else s
  }

  /** Rust's `str::trim`: drops leading and trailing whitespace. */
  function Trim(s: string): (r: string)
    ensures r != [] ==> !IsWhitespace(r[0]) && !IsWhitespace(r[|r| - 1])
    ensures |r| <= |s|
    ensures r == [] <==> forall i :: 0 <= i < |s| ==> IsWhitespace(s[i])
  {
    var t := TrimStart(s);
    assert forall i :: |s| - |t| <= i < |s| ==> s[i] == t[i - (|s| - |t|)];
    TrimEnd(t)
  }

  /** The trimmed text is the input with exactly its leading and trailing whitespace cut off. */
  lemma TrimIsSlice(s: string)
    ensures exists a :: TrimmedAt(s, a, Trim(s))
  {
    var t := TrimStart(s);
    assert Trim(s) == TrimEnd(t);
    TrimSlice(s, t, TrimEnd(t));
    assert TrimmedAt(s, |s| - |t|, Trim(s));
  }

  /**
   * Cutting leading whitespace off `s` to get `t`, then trailing whitespace
   * off `t` to get `r`, leaves a slice of `s` with only whitespace around it.
   */
  lemma TrimSlice(s: string, t: string, r: string)
    requires |t| <= |s| && t == s[|s| - |t|..]
    requires forall i :: 0 <= i < |s| - |t| ==> IsWhitespace(s[i])
    requires |r| <= |t| && r == t[..|r|]
    requires forall i :: |r| <= i < |t| ==> IsWhitespace(t[i])
    ensures TrimmedAt(s, |s| - |t|, r)
  {
    var a := |s| - |t|;
    assert s[a..a + |r|] == t[..|r|];
    forall i | a + |r| <= i < |s| ensures IsWhitespace(s[i]) {
      var j := i - a;
      assert |r| <= j < |t| && s[i] == t[j];
    }
  }

  /** `r` is the slice of `s` from `a` on, and only whitespace of `s` lies before and after it. */
  predicate TrimmedAt(s: string, a: nat, r: string) {
    && a + |r| <= |s|
    && r == s[a..a + |r|]
    && (forall i :: 0 <= i < a ==> IsWhitespace(s[i]))
    && (forall i :: a + |r| <= i < |s| ==> IsWhitespace(s[i]))
  }
}
