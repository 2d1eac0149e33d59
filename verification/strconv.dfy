/**
 * The pieces of Go's `strconv` package the runner relies on: decimal
 * parsing of a 16-bit unsigned port (`ParseUint(s, 10, 16)`), decimal
 * rendering of integers (`Itoa`) and of booleans (`FormatBool`).
 */
module Strconv {
  import opened Wrappers

  const MaxUint16: int := 65535

  type uint16 = x: int | 0 <= x <= MaxUint16

  predicate IsDigit(c: char)
  {
    '0' <= c <= '9'
  }

  predicate AllDigits(s: string)
  {
    forall k :: 0 <= k < |s| ==> IsDigit(s[k])
  }

  /** A digit string holds no character that is not a digit. */
  lemma {:induction false} DigitsExclude(s: string, c: char)
    requires AllDigits(s) && !IsDigit(c)
    ensures c !in s
  {
    assert forall k :: 0 <= k < |s| ==> s[k] != c;
  }

  function DigitValue(c: char): (d: nat)
    requires IsDigit(c)
    ensures d < 10
  {
    c as int - '0' as int
  }

  function DigitChar(d: nat): (c: char)
    requires d < 10
    ensures IsDigit(c) && DigitValue(c) == d
  {
    ('0' as int + d) as char
  }

  /**
   * The number a digit string denotes, read as "ten times the number
   * before the last digit, plus the last digit". This is the reference
   * reading that the left-to-right parser below is proved against.
   */
  function DecimalValue(s: string): nat
    requires AllDigits(s)
  {
    if s == [] then 0 else DecimalValue(s[..|s| - 1]) * 10 + DigitValue(s[|s| - 1])
  }

  /**
   * strconv.ParseUint(s, 10, 16): empty input is a syntax error; digits
   * are read left to right; a non-digit is a syntax error and a prefix
   * whose value passes 65535 is a range error. Both errors are `None`
   * here. Leading zeros are allowed and "0" is accepted.
   */
  function ParseUint16(s: string): (r: Option<uint16>)
    ensures r.Some? <==> s != "" && AllDigits(s) && DecimalValue(s) <= MaxUint16
    ensures r.Some? ==> r.value == DecimalValue(s)
  {
    if s == "" then None
    else
      assert s[..0] == [];
      AccumulateSpec(s, 0, 0);
      Accumulate(s, 0, 0)
  }

  /** The digit loop of ParseUint: `n` is the value of the first `i` characters. */
  function Accumulate(s: string, i: nat, n: uint16): Option<uint16>
    requires i <= |s|
    decreases |s| - i
  {
    if i == |s| then Some(n)
    else if !IsDigit(s[i]) then None
    else
      var n1 := n * 10 + DigitValue(s[i]);
      if n1 > MaxUint16 then None else Accumulate(s, i + 1, n1)
  }

  /** A prefix of a digit string never denotes more than the whole string. */
  lemma {:induction false} DecimalPrefixAtMost(s: string, j: nat)
    requires AllDigits(s) && j <= |s|
    ensures DecimalValue(s[..j]) <= DecimalValue(s)
    decreases |s|
  {
    if j < |s| {
      var init := s[..|s| - 1];
      DecimalPrefixAtMost(init, j);
      assert init[..j] == s[..j];
    } else {
      assert s[..j] == s;
    }
  }

  /** Appending a digit multiplies by ten and adds the digit. */
  lemma {:induction false} DecimalAppend(s: string, c: char)
    requires AllDigits(s) && IsDigit(c)
    ensures AllDigits(s + [c])
    ensures DecimalValue(s + [c]) == DecimalValue(s) * 10 + DigitValue(c)
  {
    assert (s + [c])[..|s|] == s;
  }

  lemma {:induction false} AccumulateSpec(s: string, i: nat, n: uint16)
    requires i <= |s| && AllDigits(s[..i]) && n == DecimalValue(s[..i])
    ensures Accumulate(s, i, n).Some? <==> AllDigits(s) && DecimalValue(s) <= MaxUint16
    ensures Accumulate(s, i, n).Some? ==> Accumulate(s, i, n).value == DecimalValue(s)
    decreases |s| - i
  {
    if i == |s| {
      assert s[..i] == s;
    } else if IsDigit(s[i]) {
      assert s[..i + 1] == s[..i] + [s[i]];
      DecimalAppend(s[..i], s[i]);
      var n1 := n * 10 + DigitValue(s[i]);
      if n1 > MaxUint16 {
        if AllDigits(s) {
          DecimalPrefixAtMost(s, i + 1);
        }
      } else {
        AccumulateSpec(s, i + 1, n1);
      }
    }
  }

  /** The decimal digits of a natural number, without leading zeros. */
  function NatDigits(n: nat): (s: string)
    ensures s != "" && AllDigits(s) && DecimalValue(s) == n
    ensures |s| > 1 ==> s[0] != '0'
  {
    if n < 10 then
      var s := [DigitChar(n)];
      assert s[..0] == [];
      s
    else
      var init := NatDigits(n / 10);
      DecimalAppend(init, DigitChar(n % 10));
      init + [DigitChar(n % 10)]
  }

  /** strconv.Itoa: a minus sign for negative numbers, then the digits. */
  function Itoa(i: int): string
  {
    if i < 0 then "-" + NatDigits(-i) else NatDigits(i)
  }

  /** strconv.FormatBool. */
  function FormatBool(b: bool): string
  {
    if b then "true" else "false"
  }

  /** Every port renders to a digit string that ParseUint16 reads back. */
  lemma {:induction false} PortRoundTrip(p: uint16)
    ensures AllDigits(Itoa(p)) && ParseUint16(Itoa(p)) == Some(p)
  {
  }

  /** Reading side of `Itoa`: an optional minus sign, then a non-empty digit string. */
  function ReadInt(s: string): (r: Option<int>)
  {
    if |s| > 0 && s[0] == '-' then
      (if |s| > 1 && AllDigits(s[1..]) then Some(-(DecimalValue(s[1..]) as int)) else None)
    else if s != "" && AllDigits(s) then Some(DecimalValue(s))
    else None
  }

  /** Reading side of `FormatBool`. */
  function ReadBool(s: string): Option<bool>
  {
    if s == "true" then Some(true) else if s == "false" then Some(false) else None
  }

  /** Itoa and FormatBool render every value so that it can be read back exactly. */
  lemma {:induction false} FormatRoundTrip(i: int, b: bool)
    ensures ReadInt(Itoa(i)) == Some(i)
    ensures ReadBool(FormatBool(b)) == Some(b)
  {
    if i < 0 {
      assert ("-" + NatDigits(-i))[1..] == NatDigits(-i);
    }
  }
}
