/** Exact minor-unit amounts: packages/money/src/index.ts. */
module Money {
  import opened Common
  import opened Sequences
  import opened Decimal
  import opened Ieee754

  datatype MoneyError =
    | UnknownCurrency
    | NotAnInteger
    | InvalidMajorAmount
    | TooManyDecimals
    | UnsafeRange

  /** The decimal places of each registered currency; the source's currency registry. */
  function Exponent(code: string): Option<nat> {
    if code in {"BDT", "SAR", "USD", "EUR", "GBP", "INR", "AED", "MYR"} then Some(2)
    else if code == "JPY" then Some(0)
    else if code == "KWD" then Some(3)
    else None
  }

  /** The yen has no minor unit, the Kuwaiti dinar three places, eight other currencies two; no other code is
      known. */
  lemma CurrenciesAreDecided(code: string)
    ensures Exponent(code) == Some(0) <==> code == "JPY"
    ensures Exponent(code) == Some(3) <==> code == "KWD"
    ensures Exponent(code) == Some(2)
       <==> code == "BDT" || code == "SAR" || code == "USD" || code == "EUR" || code == "GBP" || code == "INR"
            || code == "AED" || code == "MYR"
    ensures Exponent(code).Some? ==> Exponent(code).value in {0, 2, 3}
  {
  }

  // ------------------------------------------------------------------ integer strings

  /** `^-?\d+$` */
  predicate IsIntegerString(s: string) {
    var digits := Unsigned(s);
    digits != "" && AllDigits(digits)
  }

  predicate HasMinus(s: string) {
    s != "" && s[0] == '-'
  }

  function Unsigned(s: string): string {
    if HasMinus(s) then s[1..] else s
  }

  /** The integer an integer string denotes. */
  function IntegerValue(s: string): int
    requires IsIntegerString(s)
  {
    Signed(HasMinus(s), Value(Unsigned(s)))
  }

  function Signed(negative: bool, magnitude: nat): int {
    if negative then 0 - magnitude else magnitude
  }

  function ParseMinorUnits(s: string): Result<int, MoneyError> {
    if !IsIntegerString(s) then Err(NotAnInteger)
    else
      var parsed := Round(IntegerValue(s));
      if parsed.Infinite? then Err(NotAnInteger)
      else if Abs(parsed.value) > MAX_SAFE_INTEGER then Err(UnsafeRange)
      else Ok(parsed.value)
  }

  function SerializeMinorUnits(amount: real): Result<string, MoneyError> {
    if amount.Floor as real != amount then Err(NotAnInteger) else Ok(IntText(amount.Floor))
  }

  /** An integer string is accepted exactly when its true value is safe, and gives that value. */
  lemma ParseAcceptsExactlySafeIntegers(s: string)
    ensures ParseMinorUnits(s).Ok? <==> IsIntegerString(s) && IsSafe(IntegerValue(s))
    ensures ParseMinorUnits(s).Ok? ==> ParseMinorUnits(s).value == IntegerValue(s)
  {
    if IsIntegerString(s) {
      GuardDecidesExactly(IntegerValue(s));
    }
  }

  /** The text String() gives an integer. */
  predicate IsCanonical(s: string)
    requires IsIntegerString(s)
  {
    (Unsigned(s)[0] == '0' ==> s == "0")
  }

  lemma {:induction false} TextOfValue(s: string)
    requires AllDigits(s) && s != "" && (s[0] == '0' ==> |s| == 1)
    ensures Text(Value(s)) == s
    ensures Value(s) == 0 ==> s == "0"
  {
    var front := s[..|s| - 1];
    if front == "" {
      assert Value(s) == DigitValue(s[0]);
    } else {
      TextOfValue(front);
      assert front[0] == s[0];
      assert Value(s) / 10 == Value(front) && Value(s) % 10 == DigitValue(s[|s| - 1]);
      assert Value(s) >= 10;
    }
  }

  lemma IntTextDenotes(n: int)
    ensures IsIntegerString(IntText(n)) && IntegerValue(IntText(n)) == n && IsCanonical(IntText(n))
  {
    TextDenotes(Abs(n));
    if n < 0 {
      assert IntText(n)[1..] == Text(-n);
      assert Text(-n)[0] != '0' by {
        if |Text(-n)| == 1 {
          assert Value(Text(-n)) == DigitValue(Text(-n)[0]);
        }
      }
    } else {
      assert !HasMinus(Text(n));
    }
  }

  /** Parsing a serialised safe amount gives it back. */
  lemma SerializeThenParse(n: int)
    requires IsSafe(n)
    ensures SerializeMinorUnits(n as real).Ok?
    ensures ParseMinorUnits(SerializeMinorUnits(n as real).value) == Ok(n)
  {
    IntTextDenotes(n);
    ParseAcceptsExactlySafeIntegers(IntText(n));
  }

  /** Serialising a parsed amount gives its text back exactly when that text was canonical. */
  lemma ParseThenSerialize(s: string)
    requires ParseMinorUnits(s).Ok?
    ensures SerializeMinorUnits(ParseMinorUnits(s).value as real) == Ok(s) <==> IsCanonical(s)
  {
    ParseAcceptsExactlySafeIntegers(s);
    var n := IntegerValue(s);
    IntTextDenotes(n);
    if IsCanonical(s) {
      TextOfValue(Unsigned(s));
      assert HasMinus(s) ==> s == "-" + Unsigned(s);
    }
  }

  // ------------------------------------------------------------------ sums

  /** Every partial sum, the total included, is a safe integer. */
  predicate PrefixSumsSafe(amounts: seq<int>) {
    forall k :: 0 <= k <= |amounts| ==> IsSafe(Sum(amounts[..k]))
  }

  lemma SumSnoc(s: seq<int>, last: int)
    ensures Sum(s + [last]) == Sum(s) + last
  {
    SumAppend(s, [last]);
    assert [last][1..] == [];
  }

  /** The exact sum whenever every partial sum is safe, and an error otherwise. */
  method AddMinorUnits(amounts: seq<int>) returns (r: Result<int, MoneyError>)
    ensures r.Ok? <==> PrefixSumsSafe(amounts)
    ensures r.Ok? ==> r.value == Sum(amounts)
  {
    var total := 0;
    for i := 0 to |amounts|
      invariant total == Sum(amounts[..i]) && IsSafe(total)
      invariant forall k :: 0 <= k <= i ==> IsSafe(Sum(amounts[..k]))
    {
      assert amounts[..i + 1] == amounts[..i] + [amounts[i]];
      SumSnoc(amounts[..i], amounts[i]);
      GuardDecidesExactly(total + amounts[i]);
      var rounded := Round(total + amounts[i]);
      if rounded.Infinite? || Abs(rounded.value) > MAX_SAFE_INTEGER {
        assert !IsSafe(Sum(amounts[..i + 1]));
        return Err(UnsafeRange);
      }
      total := rounded.value;
    }
    assert amounts[..|amounts|] == amounts;
    return Ok(total);
  }

  method SubtractMinorUnits(a: int, b: int) returns (r: Result<int, MoneyError>)
    ensures r.Ok? <==> IsSafe(a - b)
    ensures r.Ok? ==> r.value == a - b
  {
    GuardDecidesExactly(a - b);
    var rounded := Round(a - b);
    if rounded.Infinite? || Abs(rounded.value) > MAX_SAFE_INTEGER {
      return Err(UnsafeRange);
    }
    return Ok(rounded.value);
  }

  /** The guard looks at partial sums: the order of the amounts decides about acceptance. */
  lemma AcceptanceDependsOnOrder()
    ensures PrefixSumsSafe([1, -1, MAX_SAFE_INTEGER])
    ensures !PrefixSumsSafe([MAX_SAFE_INTEGER, 1, -1])
  {
    var fine, late := [1, -1, MAX_SAFE_INTEGER], [MAX_SAFE_INTEGER, 1, -1];
    assert fine[..0] == [] && fine[..1] == [1] && fine[..2] == [1, -1] && fine[..3] == fine;
    SumSnoc([], 1);
    SumSnoc([1], -1);
    SumSnoc([1, -1], MAX_SAFE_INTEGER);
    assert [1] + [-1] == [1, -1] && [1, -1] + [MAX_SAFE_INTEGER] == fine && [] + [1] == [1];
    assert late[..2] == [MAX_SAFE_INTEGER] + [1] && [] + [MAX_SAFE_INTEGER] == [MAX_SAFE_INTEGER];
    SumSnoc([], MAX_SAFE_INTEGER);
    SumSnoc([MAX_SAFE_INTEGER], 1);
  }
}
