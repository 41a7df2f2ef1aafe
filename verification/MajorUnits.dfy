/** Major-unit decimal strings such as "10.25": packages/money/src/index.ts. */
module MajorUnits {
  import opened Common
  import opened Decimal
  import opened Ieee754
  import opened Money

  /** The groups of `^(-?)(\d+)(?:\.(\d+))?$`; an absent fraction is empty. */
  datatype Decimals = Decimals(negative: bool, whole: string, fraction: string)

  function LeadingDigits(s: string): (k: nat)
    ensures k <= |s| && AllDigits(s[..k]) && (k < |s| ==> !IsDigit(s[k]))
  {
    if s == "" || !IsDigit(s[0]) then 0 else 1 + LeadingDigits(s[1..])
  }

  predicate WellFormed(d: Decimals) {
    d.whole != "" && AllDigits(d.whole) && AllDigits(d.fraction)
  }

  /** The part after the sign. */
  function Magnitude(d: Decimals): string {
    d.whole + if d.fraction == "" then "" else "." + d.fraction
  }

  function Written(d: Decimals): string {
    if d.negative then "-" + Magnitude(d) else Magnitude(d)
  }

  function MatchMajor(value: string): Option<Decimals> {
    var unsigned := Unsigned(value);
    var k := LeadingDigits(unsigned);
    var whole, rest := unsigned[..k], unsigned[k..];
    if whole == "" then None
    else if rest == "" then Some(Decimals(HasMinus(value), whole, ""))
    else if rest[0] == '.' && rest[1..] != "" && AllDigits(rest[1..]) then
      Some(Decimals(HasMinus(value), whole, rest[1..]))
    else None
  }

  lemma {:induction false} LeadingDigitsStop(digits: string, rest: string)
    requires AllDigits(digits) && (rest != "" ==> !IsDigit(rest[0]))
    ensures LeadingDigits(digits + rest) == |digits|
  {
    if digits == "" {
      assert digits + rest == rest;
    } else {
      LeadingDigitsStop(digits[1..], rest);
      assert (digits + rest)[1..] == digits[1..] + rest;
    }
  }

  lemma MatchIsWellFormed(value: string)
    requires MatchMajor(value).Some?
    ensures WellFormed(MatchMajor(value).value) && Written(MatchMajor(value).value) == value
  {
    var unsigned := Unsigned(value);
    var k := LeadingDigits(unsigned);
    hide LeadingDigits;
    assert unsigned == unsigned[..k] + unsigned[k..];
    if unsigned[k..] != "" {
      assert unsigned[k..] == "." + unsigned[k..][1..];
    }
  }

  lemma WrittenFormMatches(d: Decimals)
    requires WellFormed(d)
    ensures MatchMajor(Written(d)) == Some(d)
  {
    var rest := if d.fraction == "" then "" else "." + d.fraction;
    assert Magnitude(d) == d.whole + rest;
    LeadingDigitsStop(d.whole, rest);
    hide LeadingDigits;
    assert !HasMinus(Magnitude(d));
    assert Unsigned(Written(d)) == Magnitude(d);
    assert Magnitude(d)[..|d.whole|] == d.whole && Magnitude(d)[|d.whole|..] == rest;
  }

  /** The pattern matches exactly the written forms, with these groups. */
  lemma MatchesExactlyWrittenForms(value: string, d: Decimals)
    ensures MatchMajor(value) == Some(d) <==> WellFormed(d) && value == Written(d)
  {
    hide MatchMajor, WellFormed, Written;
    if WellFormed(d) {
      WrittenFormMatches(d);
    }
    if MatchMajor(value).Some? {
      MatchIsWellFormed(value);
    }
  }

  /** `fraction.padEnd(width, '0')`. */
  function PadEnd(fraction: string, width: nat): (r: string)
    ensures AllDigits(fraction) ==> AllDigits(r)
  {
    if |fraction| >= width then fraction else fraction + Zeros(width - |fraction|)
  }

  /** `BigInt(whole) * scale + BigInt(paddedFraction || '0')`, with the sign. */
  function ScaledMinor(d: Decimals, exponent: nat): int
    requires WellFormed(d)
  {
    Signed(d.negative, Value(d.whole) * Pow10(exponent) + Value(PadEnd(d.fraction, exponent)))
  }

  function MajorStringToMinorUnits(value: string, code: string): Result<int, MoneyError> {
    var exponent := Exponent(code);
    if exponent.None? then Err(UnknownCurrency)
    else
      var groups := MatchMajor(value);
      if groups.None? then Err(InvalidMajorAmount)
      else if |groups.value.fraction| > exponent.value then Err(TooManyDecimals)
      else
        MatchIsWellFormed(value);
        var minor := ScaledMinor(groups.value, exponent.value);
        if minor > MAX_SAFE_INTEGER || minor < -MAX_SAFE_INTEGER then Err(UnsafeRange) else Ok(minor)
  }

  /** The minor units of a decimal with no more places than the currency: |value| times 10^exponent. */
  function ExactMinor(d: Decimals, exponent: nat): nat
    requires WellFormed(d) && |d.fraction| <= exponent
  {
    Value(d.whole + d.fraction) * Pow10(exponent - |d.fraction|)
  }

  lemma PaddedIsExact(d: Decimals, exponent: nat)
    requires WellFormed(d) && |d.fraction| <= exponent
    ensures ScaledMinor(d, exponent) == Signed(d.negative, ExactMinor(d, exponent))
  {
    var zeros := Zeros(exponent - |d.fraction|);
    var padded := d.fraction + zeros;
    assert PadEnd(d.fraction, exponent) == padded;
    ValueAppend(d.whole, padded);
    ValueAppend(d.whole + d.fraction, zeros);
    ZerosDenoteZero(|zeros|);
    assert d.whole + padded == (d.whole + d.fraction) + zeros;
  }

  /** A well-formed decimal is converted without rounding, and accepted exactly when it has no more
      places than the currency and its minor units are safe. */
  lemma MajorStringIsExact(d: Decimals, code: string)
    requires WellFormed(d)
    ensures var r := MajorStringToMinorUnits(Written(d), code);
            r.Ok? <==> Exponent(code).Some? && |d.fraction| <= Exponent(code).value
                       && IsSafe(ExactMinor(d, Exponent(code).value))
    ensures var r := MajorStringToMinorUnits(Written(d), code);
            r.Ok? ==> r.value == Signed(d.negative, ExactMinor(d, Exponent(code).value))
  {
    hide Exponent, MatchMajor, ExactMinor, Written, ScaledMinor;
    MatchesExactlyWrittenForms(Written(d), d);
    if Exponent(code).Some? && |d.fraction| <= Exponent(code).value {
      PaddedIsExact(d, Exponent(code).value);
    }
  }

  /** Nothing but a well-formed decimal is accepted. */
  lemma MajorStringRejectsOtherText(value: string, code: string)
    requires MajorStringToMinorUnits(value, code).Ok?
    ensures MatchMajor(value).Some? && WellFormed(MatchMajor(value).value) && Written(MatchMajor(value).value) == value
  {
    MatchIsWellFormed(value);
  }
}