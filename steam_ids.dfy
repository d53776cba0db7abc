/**
 * Steam ids (CSteamID.m_SteamID) are unsigned 64-bit integers. The source
 * turns them into text with ulong.ToString() and back with ulong.Parse /
 * ulong.TryParse; here both are modelled on plain decimal digit strings.
 */
module SteamIds {
  import opened Wrappers

  /** 2^64: one more than the largest ulong. */
  const U64Bound: nat := 0x1_0000_0000_0000_0000

  type SteamId = x: nat | x < U64Bound

  /** The nil id that CSteamID.Clear() leaves in a cleared id. */
  const NilSteamId: SteamId := 0

  predicate IsDigit(c: char) {
    '0' <= c <= '9'
  }

  predicate AllDigits(s: string) {
    forall i :: 0 <= i < |s| ==> IsDigit(s[i])
  }

  function DigitValue(c: char): (d: nat)
    requires IsDigit(c)
    ensures d < 10
  {
    (c as int) - ('0' as int)
  }

  function DigitChar(d: nat): (c: char)
    requires d < 10
    ensures IsDigit(c) && DigitValue(c) == d
  {
    (('0' as int) + d) as char
  }

  /** The number a digit string denotes, most significant digit first. */
  function DecimalValue(s: string): nat
    requires AllDigits(s)
  {
    if s == [] then 0 else DecimalValue(s[..|s| - 1]) * 10 + DigitValue(s[|s| - 1])
  }

  /** True when the digits of s denote a value below 2^64: exactly the strings ulong.TryParse accepts. */
  predicate IsUInt64Text(s: string) {
    s != [] && AllDigits(s) && DecimalValue(s) < U64Bound
  }

  /**
   * The digit loop of ulong.TryParse: from position i on, fold each digit
   * into the value read so far, failing on a non-digit or as soon as the
   * value no longer fits in 64 bits.
   */
  function ParseDigitsFrom(s: string, i: nat, acc: SteamId): Option<SteamId>
    requires i <= |s|
    decreases |s| - i
  {
    if i == |s| then Some(acc)
    else if !IsDigit(s[i]) then None
    else
      var next := acc * 10 + DigitValue(s[i]);
      if next >= U64Bound then None else ParseDigitsFrom(s, i + 1, next)
  }

  /** A longer digit string never denotes a smaller value than its prefix. */
  lemma {:induction false} DecimalValuePrefix(s: string, i: nat)
    requires AllDigits(s) && i <= |s|
    ensures AllDigits(s[..i]) && DecimalValue(s[..i]) <= DecimalValue(s)
  {
    if i < |s| {
      var p := s[..|s| - 1];
      assert p[..i] == s[..i];
      DecimalValuePrefix(p, i);
    } else {
      assert s[..i] == s;
    }
  }

  /**
   * Started on a digit prefix with its value, the digit loop succeeds
   * exactly on 64-bit digit strings, with their value.
   */
  lemma {:induction false} ParseDigitsFromValue(s: string, i: nat, acc: SteamId)
    requires i <= |s| && AllDigits(s[..i]) && acc == DecimalValue(s[..i])
    ensures ParseDigitsFrom(s, i, acc) ==
      if AllDigits(s) && DecimalValue(s) < U64Bound then Some(DecimalValue(s)) else None
    decreases |s| - i
  {
    if i == |s| {
      assert s[..i] == s;
    } else if IsDigit(s[i]) {
      var q := s[..i + 1];
      assert q[..i] == s[..i];
      assert AllDigits(q);
      var next := acc * 10 + DigitValue(s[i]);
      assert next == DecimalValue(q);
      if next >= U64Bound {
        if AllDigits(s) {
          DecimalValuePrefix(s, i + 1);
        }
      } else {
        ParseDigitsFromValue(s, i + 1, next);
      }
    }
  }

  /**
   * ulong.TryParse: succeeds, with the value of the digits, exactly on a
   * non-empty string of decimal digits whose value fits in 64 bits.
   */
  function ParseUInt64(s: string): (r: Option<SteamId>)
    ensures r.Some? <==> IsUInt64Text(s)
    ensures r.Some? ==> r.value == DecimalValue(s)
  {
    if s == [] then None
    else
      assert s[..0] == [];
      ParseDigitsFromValue(s, 0, 0);
      ParseDigitsFrom(s, 0, 0)
  }

  /** Leading zeros are accepted; empty and non-digit text is rejected. */
  lemma ParseUInt64Samples()
    ensures ParseUInt64("007") == Some(7)
    ensures ParseUInt64("12a") == None
    ensures ParseUInt64("") == None && ParseUInt64("-5") == None
  {
    assert DecimalValue("00") == 0 by { assert "00"[..1] == "0"; }
    assert "007"[..2] == "00";
  }

  /** ulong.ToString(): decimal digits, no leading zero except for zero itself. */
  function FormatDecimal(n: nat): (s: string)
    ensures s != [] && AllDigits(s)
    ensures s[0] == '0' <==> n == 0
  {
    if n < 10 then [DigitChar(n)] else FormatDecimal(n / 10) + [DigitChar(n % 10)]
  }

  lemma {:induction false} FormatDecimalValue(n: nat)
    ensures DecimalValue(FormatDecimal(n)) == n
  {
    if n >= 10 {
      var t := FormatDecimal(n / 10);
      var s := FormatDecimal(n);
      FormatDecimalValue(n / 10);
      assert s == t + [DigitChar(n % 10)];
      assert s[..|s| - 1] == t;
    }
  }

  /** The text a Steam id is sent as parses back to the same id. */
  lemma ParseFormatRoundTrip(id: SteamId)
    ensures ParseUInt64(FormatDecimal(id)) == Some(id)
  {
    FormatDecimalValue(id);
  }

  lemma {:induction false} LeadingDigitPositive(s: string)
    requires s != [] && AllDigits(s) && s[0] != '0'
    ensures DecimalValue(s) > 0
  {
    if |s| > 1 {
      LeadingDigitPositive(s[..|s| - 1]);
    }
  }

  lemma {:induction false} FormatDecimalOfCanonical(s: string)
    requires s != [] && AllDigits(s)
    requires s[0] == '0' ==> |s| == 1
    ensures FormatDecimal(DecimalValue(s)) == s
  {
    var p := s[..|s| - 1];
    var d := DigitValue(s[|s| - 1]);
    if |s| == 1 {
      assert p == [];
      assert DigitChar(d) == s[0];
    } else {
      assert p[0] == s[0];
      FormatDecimalOfCanonical(p);
      LeadingDigitPositive(p);
      var v := DecimalValue(s);
      assert v == DecimalValue(p) * 10 + d;
      assert v / 10 == DecimalValue(p) && v % 10 == d;
      assert DigitChar(d) == s[|s| - 1];
      assert s == p + [s[|s| - 1]];
    }
  }

  /**
   * Parsing then formatting gives back every string without a superfluous
   * leading zero: on such strings the two are inverse.
   */
  lemma FormatInvertsParse(s: string)
    requires ParseUInt64(s).Some?
    requires s[0] == '0' ==> |s| == 1
    ensures FormatDecimal(ParseUInt64(s).value) == s
  {
    FormatDecimalOfCanonical(s);
  }
}
