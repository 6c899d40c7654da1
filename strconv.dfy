/** The two parsers of Go's strconv package that the field binder relies on:
    `ParseInt(s, 10, 64)` and `ParseBool(s)`, with their formatting inverses. */
module StrConv {
  import opened Wrappers

  const MinInt64: int := -0x8000_0000_0000_0000
  const MaxInt64: int := 0x7FFF_FFFF_FFFF_FFFF

  predicate IsDigit(c: char)
  {
    '0' <= c <= '9'
  }

  predicate AllDigits(s: string)
  {
    forall k :: 0 <= k < |s| ==> IsDigit(s[k])
  }

  function DigitValue(c: char): nat
    requires IsDigit(c)
  {
    c as int - '0' as int
  }

  /** The value of a string of decimal digits, most significant first. */
  function DecimalValue(ds: string): nat
    requires AllDigits(ds)
    decreases |ds|
  {
    if ds == "" then 0 else DecimalValue(ds[..|ds| - 1]) * 10 + DigitValue(ds[|ds| - 1])
  }

  predicate HasSign(s: string)
  {
    s != "" && (s[0] == '+' || s[0] == '-')
  }

  /** The digits that follow an optional leading sign. */
  function Unsigned(s: string): string
  {
    if HasSign(s) then s[1..] else s
  }

  /** -1 after a leading `-`, 1 otherwise. */
  function SignOf(s: string): int
  {
    if HasSign(s) && s[0] == '-' then -1 else 1
  }

  /** strconv.ParseInt(s, 10, 64): an optional `+` or `-`, then at least one
      decimal digit, and the value must fit in a signed 64-bit integer. Every
      failure (syntax or range) is `None`. */
  function ParseInt(s: string): (r: Option<int>)
    ensures r.Some? ==> MinInt64 <= r.value <= MaxInt64
    ensures r.Some? ==> Unsigned(s) != "" && AllDigits(Unsigned(s))
    ensures r.Some? ==> r.value == SignOf(s) * DecimalValue(Unsigned(s))
    ensures Unsigned(s) != "" && AllDigits(Unsigned(s)) && MinInt64 <= SignOf(s) * DecimalValue(Unsigned(s)) <= MaxInt64
            ==> r.Some?
    ensures s == "" ==> r.None?
  {
    var digits := Unsigned(s);
    if digits == "" || !AllDigits(digits) then None
    else
      var n: int := if HasSign(s) && s[0] == '-' then -(DecimalValue(digits) as int) else DecimalValue(digits);
      if MinInt64 <= n <= MaxInt64 then Some(n) else None
  }

  function DigitChar(d: nat): (c: char)
    requires d < 10
    ensures IsDigit(c) && DigitValue(c) == d
  {
    ('0' as int + d) as char
  }

  /** Shortest decimal spelling of a natural number. */
  function FormatNat(n: nat): (s: string)
    ensures s != "" && AllDigits(s)
    decreases n
  {
    if n < 10 then [DigitChar(n)] else FormatNat(n / 10) + [DigitChar(n % 10)]
  }

  /** strconv.FormatInt(n, 10). */
  function FormatInt(n: int): string
  {
    if n < 0 then "-" + FormatNat(-n) else FormatNat(n)
  }

  lemma {:induction false} DecimalValueFormatNat(n: nat)
    ensures DecimalValue(FormatNat(n)) == n
  {
    var s := FormatNat(n);
    if n >= 10 {
      DecimalValueFormatNat(n / 10);
      assert s[..|s| - 1] == FormatNat(n / 10);
    }
  }

  /** Every 64-bit integer survives formatting and parsing. */
  lemma ParseIntFormatInt(n: int)
    requires MinInt64 <= n <= MaxInt64
    ensures ParseInt(FormatInt(n)) == Some(n)
  {
    var s := FormatInt(n);
    if n < 0 {
      DecimalValueFormatNat(-n);
      assert Unsigned(s) == FormatNat(-n);
    } else {
      DecimalValueFormatNat(n);
      assert IsDigit(s[0]);
      assert Unsigned(s) == s;
    }
  }

  /** An explicit `+` changes nothing. */
  lemma ParseIntPlusSign(ds: string)
    requires !HasSign(ds)
    ensures ParseInt("+" + ds) == ParseInt(ds)
  {
    assert Unsigned("+" + ds) == ds;
  }

  /** A leading zero digit does not change the value of a digit string. */
  lemma {:induction false} DecimalValueLeadingZero(ds: string)
    requires AllDigits(ds)
    ensures AllDigits("0" + ds) && DecimalValue("0" + ds) == DecimalValue(ds)
    decreases |ds|
  {
    assert AllDigits("0" + ds) by {
      forall k | 0 <= k < |"0" + ds| ensures IsDigit(("0" + ds)[k]) {
        if k > 0 { assert ("0" + ds)[k] == ds[k - 1]; }
      }
    }
    if ds != "" {
      var init := ds[..|ds| - 1];
      assert AllDigits(init) by {
        forall k | 0 <= k < |init| ensures IsDigit(init[k]) {
          assert init[k] == ds[k];
        }
      }
      DecimalValueLeadingZero(init);
      assert ("0" + ds)[..|"0" + ds| - 1] == "0" + init;
    }
  }

  /** Leading zeros are ignored. */
  lemma ParseIntLeadingZero(ds: string)
    requires ds != "" && !HasSign(ds)
    ensures ParseInt("0" + ds) == ParseInt(ds)
  {
    if AllDigits(ds) {
      DecimalValueLeadingZero(ds);
    } else {
      var k :| 0 <= k < |ds| && !IsDigit(ds[k]);
      assert ("0" + ds)[k + 1] == ds[k];
    }
  }

  const TrueTokens: set<string> := {"1", "t", "T", "TRUE", "true", "True"}
  const FalseTokens: set<string> := {"0", "f", "F", "FALSE", "false", "False"}

  /** strconv.ParseBool: exactly twelve spellings are accepted. */
  function ParseBool(s: string): (r: Option<bool>)
    ensures r == Some(true) <==> s in TrueTokens
    ensures r == Some(false) <==> s in FalseTokens
  {
    if s in TrueTokens then Some(true) else if s in FalseTokens then Some(false) else None
  }

  /** strconv.FormatBool. */
  function FormatBool(b: bool): string
  {
    if b then "true" else "false"
  }

  lemma ParseBoolFormatBool(b: bool)
    ensures ParseBool(FormatBool(b)) == Some(b)
  {
  }
}
