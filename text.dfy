/**
 * Character classes and the string conversions of the Rust and Kotlin standard
 * libraries that the model needs: Unicode decimal digits (the regex class \d),
 * Unicode White_Space (\s and str::trim), decimal printing, and the acceptance
 * rules of u64 and f64 parsing.
 */
module Text {
  import opened Wrappers

  /**
   * The first code point of every run of ten decimal digits (general category Nd,
   * Unicode 15.0) other than the ASCII run '0'..'9'.  Every Nd character lies in
   * exactly one such run or in the ASCII one, so Rust's Unicode-aware regex class
   * \d matches exactly the characters of these runs.
   */
  const OtherDecimalZeros: seq<int> := [
    0x660, 0x6F0, 0x7C0, 0x966, 0x9E6, 0xA66, 0xAE6,
    0xB66, 0xBE6, 0xC66, 0xCE6, 0xD66, 0xDE6, 0xE50, 0xED0,
    0xF20, 0x1040, 0x1090, 0x17E0, 0x1810, 0x1946, 0x19D0, 0x1A80,
    0x1A90, 0x1B50, 0x1BB0, 0x1C40, 0x1C50, 0xA620, 0xA8D0, 0xA900,
    0xA9D0, 0xA9F0, 0xAA50, 0xABF0, 0xFF10, 0x104A0, 0x10D30, 0x11066,
    0x110F0, 0x11136, 0x111D0, 0x112F0, 0x11450, 0x114D0, 0x11650, 0x116C0,
    0x11730, 0x118E0, 0x11950, 0x11C50, 0x11D50, 0x11DA0, 0x11F50, 0x16A60,
    0x16AC0, 0x16B50, 0x1D7CE, 0x1D7D8, 0x1D7E2, 0x1D7EC, 0x1D7F6, 0x1E140,
    0x1E2F0, 0x1E4F0, 0x1E950, 0x1FBF0
  ]

  predicate IsDecimalDigit(c: char) {
    || IsAsciiDigit(c)
    || exists i :: 0 <= i < |OtherDecimalZeros| && OtherDecimalZeros[i] <= c as int < OtherDecimalZeros[i] + 10
  }

  predicate IsAsciiDigit(c: char) {
    '0' <= c <= '9'
  }

  /** The Unicode White_Space property, used by char::is_whitespace, str::trim and regex \s. */
  predicate IsWhitespace(c: char) {
    || ('\t' <= c <= '\r')
    || c == ' '
    || c == '\U{0085}'
    || c == '\U{00A0}'
    || c == '\U{1680}'
    || ('\U{2000}' <= c <= '\U{200A}')
    || c == '\U{2028}'
    || c == '\U{2029}'
    || c == '\U{202F}'
    || c == '\U{205F}'
    || c == '\U{3000}'
  }

  /** str::trim_start: the suffix left after dropping leading White_Space. */
  function TrimStart(s: string): (r: string)
    ensures |r| <= |s| && r == s[|s| - |r|..]
    ensures forall i :: 0 <= i < |s| - |r| ==> IsWhitespace(s[i])
    ensures r == [] || !IsWhitespace(r[0])
  {
    if s != [] && IsWhitespace(s[0]) then TrimStart(s[1..]) else s
  }

  /** str::trim_end: the prefix left after dropping trailing White_Space. */
  function TrimEnd(s: string): (r: string)
    ensures |r| <= |s| && r == s[..|r|]
    ensures forall i :: |r| <= i < |s| ==> IsWhitespace(s[i])
    ensures r == [] || !IsWhitespace(r[|r| - 1])
  {
    if s != [] && IsWhitespace(s[|s| - 1]) then TrimEnd(s[..|s| - 1]) else s
  }

  /** str::trim: White_Space removed from both ends. */
  function Trim(s: string): string {
    TrimEnd(TrimStart(s))
  }

  /** How many leading characters Trim drops. */
  function TrimOffset(s: string): nat {
    |s| - |TrimStart(s)|
  }

  /**
   * Trim keeps a contiguous piece of its input, drops only whitespace around it,
   * and leaves no whitespace at either end.
   */
  lemma TrimSpec(s: string)
    ensures TrimOffset(s) + |Trim(s)| <= |s|
    ensures Trim(s) == s[TrimOffset(s)..TrimOffset(s) + |Trim(s)|]
    ensures forall i :: 0 <= i < TrimOffset(s) ==> IsWhitespace(s[i])
    ensures forall i :: TrimOffset(s) + |Trim(s)| <= i < |s| ==> IsWhitespace(s[i])
    ensures Trim(s) == [] || (!IsWhitespace(Trim(s)[0]) && !IsWhitespace(Trim(s)[|Trim(s)| - 1]))
  {
    var u := TrimStart(s);
    var k := |s| - |u|;
    var t := TrimEnd(u);
    assert Trim(s) == t && TrimOffset(s) == k;
    assert u == s[k..];
    TrimEndOfSuffix(s, k);
    assert t == [] || !IsWhitespace(t[0]) by {
      if t != [] {
        assert t[0] == u[0];
      }
    }
  }

  lemma TrimEndOfSuffix(s: string, k: nat)
    requires k <= |s|
    ensures var t := TrimEnd(s[k..]);
      && t == s[k..k + |t|]
      && forall i :: k + |t| <= i < |s| ==> IsWhitespace(s[i])
  {
    var u := s[k..];
    var t := TrimEnd(u);
    assert t == u[..|t|];
    forall i | k + |t| <= i < |s| ensures IsWhitespace(s[i]) {
      assert s[i] == u[i - k];
    }
  }

  lemma TrimIdempotent(s: string)
    ensures Trim(Trim(s)) == Trim(s)
  {
    var t := Trim(s);
    TrimSpec(s);
    if t != [] {
      assert TrimStart(t) == t;
      assert TrimEnd(t) == t;
    }
  }

  predicate AllAsciiDigits(s: string) {
    forall i :: 0 <= i < |s| ==> IsAsciiDigit(s[i])
  }

  function DigitChar(d: nat): (c: char)
    requires d < 10
    ensures IsAsciiDigit(c)
  {
    ('0' as int + d) as char
  }

  function DigitValue(c: char): (d: nat)
    requires IsAsciiDigit(c)
    ensures d < 10
  {
    c as int - '0' as int
  }

  /** The value of a string of ASCII digits read in base ten. */
  function DecimalValue(s: string): nat
    requires AllAsciiDigits(s)
  {
    if s == [] then 0 else DecimalValue(s[..|s| - 1]) * 10 + DigitValue(s[|s| - 1])
  }

  /** Base-ten rendering of a non-negative integer, without leading zeros. */
  function NatToDecimal(n: nat): (r: string)
    ensures |r| > 0 && AllAsciiDigits(r)
    ensures r[0] == '0' ==> n == 0
  {
    if n < 10 then [DigitChar(n)] else NatToDecimal(n / 10) + [DigitChar(n % 10)]
  }

  /** Kotlin's Long.toString and Rust's Display for integers: a '-' sign, then the digits. */
  function IntToDecimal(n: int): string {
    if n < 0 then "-" + NatToDecimal(-n) else NatToDecimal(n)
  }

  /** Reads back a decimal integer with an optional leading '-'. */
  function ParseDecimal(s: string): Option<int> {
    if |s| > 1 && s[0] == '-' && AllAsciiDigits(s[1..]) then Some(0 - DecimalValue(s[1..]))
    else if |s| > 0 && AllAsciiDigits(s) then Some(DecimalValue(s))
    else None
  }

  lemma {:induction false} DecimalRoundTrip(n: nat)
    ensures DecimalValue(NatToDecimal(n)) == n
  {
    if n >= 10 {
      var r := NatToDecimal(n);
      assert r[..|r| - 1] == NatToDecimal(n / 10);
      DecimalRoundTrip(n / 10);
    }
  }

  /** Printing an integer in decimal loses nothing: the text reads back as the same number. */
  lemma IntDecimalRoundTrip(n: int)
    ensures ParseDecimal(IntToDecimal(n)) == Some(n)
  {
    if n < 0 {
      var r := IntToDecimal(n);
      assert r[1..] == NatToDecimal(-n);
      DecimalRoundTrip(-n);
    } else {
      var r := NatToDecimal(n);
      assert r[0] != '-';
      DecimalRoundTrip(n);
    }
  }

  lemma IntToDecimalInjective(m: int, n: int)
    requires IntToDecimal(m) == IntToDecimal(n)
    ensures m == n
  {
    IntDecimalRoundTrip(m);
    IntDecimalRoundTrip(n);
  }

  const U64Bound: int := 0x1_0000_0000_0000_0000

  /**
   * Rust's u64::from_str: an optional '+', then one or more ASCII digits whose value
   * is below 2^64; anything else (a '-', a lone '+', other characters, overflow) fails.
   */
  function ParseU64(s: string): (r: Option<nat>)
    ensures r.Some? ==> r.value < U64Bound
  {
    var digits := if |s| > 0 && s[0] == '+' then s[1..] else s;
    if digits != [] && AllAsciiDigits(digits) && DecimalValue(digits) < U64Bound
    then Some(DecimalValue(digits))
    else None
  }

  lemma U64RoundTrip(n: nat)
    requires n < U64Bound
    ensures ParseU64(NatToDecimal(n)) == Some(n)
  {
    DecimalRoundTrip(n);
  }

  /**
   * Whether Rust's f64::from_str accepts a string made only of decimal digits and
   * dots: every digit must be ASCII, there must be at least one, and at most one dot.
   */
  predicate F64AcceptsRun(run: string) {
    && (forall i :: 0 <= i < |run| ==> run[i] == '.' || IsAsciiDigit(run[i]))
    && (exists i :: 0 <= i < |run| && IsAsciiDigit(run[i]))
    && multiset(run)['.'] <= 1
  }
}
