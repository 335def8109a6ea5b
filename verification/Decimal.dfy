/** Decimal text: std::to_string on unsigned numbers, its inverse, the padded
    request ids and the numeric query parameters. */
module Decimal {

  /** std::size_t and std::uint64_t arithmetic is taken modulo this number. */
  const U64: nat := 0x1_0000_0000_0000_0000

  predicate IsDigit(c: char) {
    '0' <= c <= '9'
  }

  predicate AllDigits(s: string) {
    forall i | 0 <= i < |s| :: IsDigit(s[i])
  }

  function DigitValue(c: char): (d: nat)
    requires IsDigit(c)
    ensures d < 10
  {
    c as int - '0' as int
  }

  function DigitChar(d: nat): (c: char)
    requires d < 10
    ensures IsDigit(c) && DigitValue(c) == d
  {
    '0' + d as char
  }

  /** std::to_string(n). */
  function ToDecimal(n: nat): (s: string)
    ensures s != "" && AllDigits(s)
  {
    if n < 10 then [DigitChar(n)] else ToDecimal(n / 10) + [DigitChar(n % 10)]
  }

  /** The number a string of digits denotes, leading zeros allowed. */
  function DigitsValue(s: string): nat
    requires AllDigits(s)
  {
    if s == "" then 0
    else 10 * DigitsValue(s[..|s| - 1]) + DigitValue(s[|s| - 1])
  }

  lemma {:induction false} DecimalRoundTrip(n: nat)
    ensures DigitsValue(ToDecimal(n)) == n
  {
    if n >= 10 {
      DecimalRoundTrip(n / 10);
      var s := ToDecimal(n);
      assert s[..|s| - 1] == ToDecimal(n / 10);
    }
  }

  lemma {:induction false} DecimalInjective(a: nat, b: nat)
    ensures ToDecimal(a) == ToDecimal(b) <==> a == b
  {
    DecimalRoundTrip(a);
    DecimalRoundTrip(b);
  }

  /** No leading zero, except in "0" itself. */
  predicate Canonical(s: string) {
    s != "" && AllDigits(s) && (|s| > 1 ==> s[0] != '0')
  }

  lemma {:induction false} DecimalIsCanonical(n: nat)
    ensures Canonical(ToDecimal(n))
    ensures n > 0 ==> ToDecimal(n)[0] != '0'
  {
    if n >= 10 {
      DecimalIsCanonical(n / 10);
    }
  }

  lemma {:induction false} PositiveValue(s: string)
    requires s != "" && AllDigits(s) && s[0] != '0'
    ensures DigitsValue(s) > 0
  {
    if |s| > 1 {
      PositiveValue(s[..|s| - 1]);
    }
  }

  /** Printing undoes reading exactly on the canonical strings. */
  lemma {:induction false} CanonicalRoundTrip(s: string)
    requires Canonical(s)
    ensures ToDecimal(DigitsValue(s)) == s
  {
    var front := s[..|s| - 1];
    if |s| == 1 {
      assert front == "";
    } else {
      CanonicalRoundTrip(front);
      PositiveValue(front);
      assert s == front + [s[|s| - 1]];
    }
  }

  function ZeroPad(s: string, width: nat): string
    decreases width - |s|
  {
    if |s| >= width then s else ZeroPad("0" + s, width)
  }

  lemma {:induction false} LeadingZero(s: string)
    requires AllDigits(s)
    ensures AllDigits("0" + s) && DigitsValue("0" + s) == DigitsValue(s)
  {
    var z := "0" + s;
    if s == "" {
      assert z[..0] == "";
    } else {
      LeadingZero(s[..|s| - 1]);
      assert z[..|z| - 1] == "0" + s[..|s| - 1];
    }
  }

  lemma {:induction false} PaddingKeepsValue(s: string, width: nat)
    requires AllDigits(s)
    ensures AllDigits(ZeroPad(s, width)) && DigitsValue(ZeroPad(s, width)) == DigitsValue(s)
    ensures |ZeroPad(s, width)| == if |s| < width then width else |s|
    decreases width - |s|
  {
    if |s| < width {
      LeadingZero(s);
      PaddingKeepsValue("0" + s, width);
    }
  }

  /** snprintf with the format "req-%06llu". */
  function FormatRequestId(sequence: nat): string {
    "req-" + ZeroPad(ToDecimal(sequence), 6)
  }

  /** The sequence number can be read back, so distinct numbers never share an id. */
  lemma {:induction false} RequestIdRoundTrip(sequence: nat)
    ensures var id := FormatRequestId(sequence);
            && |id| >= 10 && id[..4] == "req-"
            && AllDigits(id[4..]) && DigitsValue(id[4..]) == sequence
  {
    DecimalRoundTrip(sequence);
    PaddingKeepsValue(ToDecimal(sequence), 6);
    assert FormatRequestId(sequence)[4..] == ZeroPad(ToDecimal(sequence), 6);
  }

  lemma {:induction false} RequestIdInjective(a: nat, b: nat)
    ensures FormatRequestId(a) == FormatRequestId(b) <==> a == b
  {
    RequestIdRoundTrip(a);
    RequestIdRoundTrip(b);
  }

  datatype Option<+T> = None | Some(value: T)

  /** What a request's numeric parameter means: an absent one is 0, a malformed one None. */
  function NumericParam(raw: Option<string>): (r: Option<nat>)
  {
    match raw
    case None => Some(0)
    case Some(s) => if s != "" && AllDigits(s) then Some(DigitsValue(s) % U64) else None
  }

  lemma {:induction false} DigitStepWraps(a: nat, d: nat)
    ensures (10 * (a % U64) + d) % U64 == (10 * a + d) % U64
  {
  }

  method ParseNumericParam(raw: Option<string>) returns (ok: bool, value: nat)
    ensures ok <==> NumericParam(raw).Some?
    ensures ok ==> value == NumericParam(raw).value
  {
    value := 0;
    if raw.None? {
      return true, value;
    }
    var s := raw.value;
    if s == "" {
      return false, value;
    }
    for i := 0 to |s|
      invariant AllDigits(s[..i])
      invariant value == DigitsValue(s[..i]) % U64
    {
      if s[i] < '0' || s[i] > '9' {
        assert !IsDigit(s[i]);
        return false, value;
      }
      assert s[..i + 1][..i] == s[..i];
      DigitStepWraps(DigitsValue(s[..i]), DigitValue(s[i]));
      value := (value * 10 + (s[i] as int - '0' as int)) % U64;
    }
    assert s[..|s|] == s;
    return true, value;
  }

  /** A printed 64-bit number is read back, with any number of leading zeros. */
  lemma {:induction false} NumericParamRoundTrip(n: nat, width: nat)
    requires n < U64
    ensures NumericParam(Some(ZeroPad(ToDecimal(n), width))) == Some(n)
  {
    DecimalRoundTrip(n);
    PaddingKeepsValue(ToDecimal(n), width);
  }
}
