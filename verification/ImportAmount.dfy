/** Statement amounts: the amount part of `normalized`, and `decimalToMinor`, in
    apps/api/src/imports/imports.service.ts. */
module ImportAmount {
  import opened Common
  import opened Decimal
  import opened Ieee754
  import opened Money
  import opened MajorUnits

  datatype AmountError = InvalidAmount | NoSuchCurrency | ExcessDecimals | AmountTooLarge

  /** `\s` of an ECMAScript regular expression. */
  predicate IsSpace(c: char) {
    c in {' ', '\t', '\n', '\r', '\U{000B}', '\U{000C}', '\U{00A0}', '\U{1680}', '\U{2028}', '\U{2029}', '\U{202F}',
          '\U{205F}', '\U{3000}', '\U{FEFF}'}
    || '\U{2000}' <= c <= '\U{200A}'
  }

  /** `replace(/[,\s]/g, '')` */
  function Cleaned(s: string): string {
    if s == "" then "" else (if s[0] == ',' || IsSpace(s[0]) then "" else [s[0]]) + Cleaned(s[1..])
  }

  function StripSign(s: string): string {
    if s != "" && (s[0] == '+' || s[0] == '-') then s[1..] else s
  }

  /** `split('.')`: the part before the first dot, and the part after it. */
  function WholePart(s: string): string {
    if s == "" || s[0] == '.' then "" else [s[0]] + WholePart(s[1..])
  }

  function FractionPart(s: string): string {
    if s == "" then "" else if s[0] == '.' then s[1..] else FractionPart(s[1..])
  }

  /** `^[+-]?(?:\d+(?:\.\d*)?|\.\d+)$` */
  predicate IsStatementAmount(s: string) {
    var whole, fraction := WholePart(StripSign(s)), FractionPart(StripSign(s));
    AllDigits(whole) && AllDigits(fraction) && (whole != "" || fraction != "")
  }

  /** `/[1-9]/.test(s)` */
  predicate HasSignificantDigit(s: string) {
    exists i :: 0 <= i < |s| && '1' <= s[i] <= '9'
  }

  /** The normalised decimal of a statement amount. */
  function Normalised(cleaned: string): Decimals {
    var whole := WholePart(StripSign(cleaned));
    Decimals(HasMinus(cleaned), if whole == "" then "0" else whole, FractionPart(StripSign(cleaned)))
  }

  function NormalizedAmount(amountValue: string): Result<string, AmountError> {
    var cleaned := Cleaned(amountValue);
    if !IsStatementAmount(cleaned) then Err(InvalidAmount)
    else
      var unsigned := StripSign(cleaned);
      if !HasSignificantDigit(WholePart(unsigned) + FractionPart(unsigned)) then Err(InvalidAmount)
      else Ok(Written(Normalised(cleaned)))
  }

  /** The amount in minor units, from the two sides of the dot. */
  function MinorOfParts(whole: string, fraction: string, exponent: nat): Result<int, AmountError>
    requires AllDigits(whole) && AllDigits(fraction)
  {
    var excess := if exponent <= |fraction| then fraction[exponent..] else "";
    if HasSignificantDigit(excess) then Err(ExcessDecimals)
    else
      var kept := fraction[..Min(exponent, |fraction|)];
      var absolute := Value(whole) * Pow10(exponent) + Value(PadEnd(kept, exponent));
      if absolute > MAX_SAFE_INTEGER then Err(AmountTooLarge) else Ok(absolute)
  }

  /** The amount is always a normalised one: the service stores nothing else. */
  function DecimalToMinor(amount: string, code: string): Result<int, AmountError>
    requires MatchMajor(amount).Some?
  {
    if Exponent(code).None? then Err(NoSuchCurrency)
    else
      SplitOfMajor(amount);
      MinorOfParts(WholePart(StripSign(amount)), FractionPart(StripSign(amount)), Exponent(code).value)
  }

  lemma {:induction false} SplitAtDot(whole: string, fraction: string)
    requires AllDigits(whole)
    ensures WholePart(whole) == whole && FractionPart(whole) == ""
    ensures WholePart(whole + ("." + fraction)) == whole && FractionPart(whole + ("." + fraction)) == fraction
  {
    if whole == "" {
      assert whole + ("." + fraction) == "." + fraction;
    } else {
      SplitAtDot(whole[1..], fraction);
      assert (whole + ("." + fraction))[1..] == whole[1..] + ("." + fraction);
    }
  }

  /** Splitting a major-unit string at its dot gives the groups of the pattern. */
  lemma SplitOfMajor(amount: string)
    requires MatchMajor(amount).Some?
    ensures var d := MatchMajor(amount).value;
            WellFormed(d) && Written(d) == amount
            && WholePart(StripSign(amount)) == d.whole && FractionPart(StripSign(amount)) == d.fraction
  {
    MatchIsWellFormed(amount);
    var d := MatchMajor(amount).value;
    hide MatchMajor, WholePart, FractionPart;
    assert StripSign(amount) == Magnitude(d);
    SplitAtDot(d.whole, d.fraction);
    if d.fraction == "" {
      assert d.whole + "" == d.whole;
    }
  }

  // ------------------------------------------------------------------ exactness

  lemma SignificantExactlyWhenNonZero(s: string)
    requires AllDigits(s)
    ensures HasSignificantDigit(s) <==> Value(s) != 0
  {
  }

  lemma Cancel(a: int, b: int, c: int)
    requires c > 0
    ensures a * c == b * c <==> a == b
  {
  }

  lemma AtLeastOne(a: int, unit: int)
    requires a >= 1 && unit > 0
    ensures a * unit >= unit
  {
  }

  lemma RemainderDecides(r: int, k: int, e: int, unit: int)
    requires 0 <= e < unit
    ensures r * unit == k * unit + e <==> r == k && e == 0
  {
    if r > k {
      AtLeastOne(r - k, unit);
      assert r * unit == k * unit + (r - k) * unit;
    } else if r < k {
      AtLeastOne(k - r, unit);
      assert k * unit == r * unit + (k - r) * unit;
    }
  }

  lemma ScaledRemainderDecides(r: int, k: int, e: int, unit: int, scale: int)
    requires 0 <= e < unit && scale > 0
    ensures r * (unit * scale) == (k * unit + e) * scale <==> r == k && e == 0
  {
    MulAssociative(r, unit, scale);
    Cancel(r * unit, k * unit + e, scale);
    RemainderDecides(r, k, e, unit);
  }

  /** `r` minor units are exactly the decimal: r / 10^exponent == digits / 10^places. */
  predicate IsExactly(r: int, d: Decimals, exponent: nat)
    requires WellFormed(d)
  {
    r * Pow10(|d.fraction|) == Value(d.whole + d.fraction) * Pow10(exponent)
  }

  /** With no more places than the currency, the exact minor units are the scaled digits. */
  lemma FewPlaces(r: int, d: Decimals, exponent: nat)
    requires WellFormed(d) && |d.fraction| <= exponent
    ensures IsExactly(r, d, exponent) <==> r == ExactMinor(d, exponent)
  {
    var places := |d.fraction|;
    Pow10Sum(exponent - places, places);
    var digits := Value(d.whole + d.fraction);
    hide Pow10, Value;
    MulAssociative(digits, Pow10(exponent - places), Pow10(places));
    Cancel(r, ExactMinor(d, exponent), Pow10(places));
  }

  /** With more places, the digits beyond the currency's must be zeros. */
  lemma ManyPlaces(r: int, d: Decimals, exponent: nat)
    requires WellFormed(d) && |d.fraction| > exponent
    ensures var kept, excess := d.fraction[..exponent], d.fraction[exponent..];
            IsExactly(r, d, exponent) <==> r == Value(d.whole + kept) && Value(excess) == 0
  {
    var kept, excess := d.fraction[..exponent], d.fraction[exponent..];
    assert d.fraction == kept + excess;
    assert d.whole + d.fraction == (d.whole + kept) + excess;
    ValueAppend(d.whole + kept, excess);
    ValueBound(excess);
    Pow10Sum(|excess|, exponent);
    hide Pow10, Value;
    ScaledRemainderDecides(r, Value(d.whole + kept), Value(excess), Pow10(|excess|), Pow10(exponent));
  }

  /** The conversion gives r exactly when r is the exact number of minor units and is safe. */
  lemma PartsAreExact(d: Decimals, exponent: nat, r: int)
    requires WellFormed(d)
    ensures MinorOfParts(d.whole, d.fraction, exponent) == Ok(r)
       <==> r <= MAX_SAFE_INTEGER && IsExactly(r, d, exponent)
  {
    if |d.fraction| <= exponent {
      FewPlacesConverted(d, exponent);
      FewPlaces(r, d, exponent);
    } else {
      ManyPlacesConverted(d, exponent);
      ManyPlaces(r, d, exponent);
    }
    hide Value, Pow10, IsExactly, ExactMinor, PadEnd, HasSignificantDigit;
  }

  lemma FewPlacesConverted(d: Decimals, exponent: nat)
    requires WellFormed(d) && |d.fraction| <= exponent
    ensures var exact := ExactMinor(d, exponent);
            MinorOfParts(d.whole, d.fraction, exponent)
            == if exact > MAX_SAFE_INTEGER then Err(AmountTooLarge) else Ok(exact)
  {
    PaddedIsExact(d.(negative := false), exponent);
    assert d.fraction[..|d.fraction|] == d.fraction;
    assert exponent <= |d.fraction| ==> d.fraction[exponent..] == "";
    hide Value, Pow10, PadEnd;
  }

  lemma ManyPlacesConverted(d: Decimals, exponent: nat)
    requires WellFormed(d) && |d.fraction| > exponent
    ensures var kept, excess := d.fraction[..exponent], d.fraction[exponent..];
            MinorOfParts(d.whole, d.fraction, exponent)
            == if Value(excess) != 0 then Err(ExcessDecimals)
               else if Value(d.whole + kept) > MAX_SAFE_INTEGER then Err(AmountTooLarge)
               else Ok(Value(d.whole + kept))
  {
    var kept, excess := d.fraction[..exponent], d.fraction[exponent..];
    SignificantExactlyWhenNonZero(excess);
    ValueAppend(d.whole, kept);
    hide Value, Pow10, HasSignificantDigit;
  }

  lemma DecimalToMinorIsExact(d: Decimals, code: string, r: int)
    requires WellFormed(d)
    ensures MatchMajor(Written(d)) == Some(d)
    ensures DecimalToMinor(Written(d), code) == Ok(r)
       <==> Exponent(code).Some? && r <= MAX_SAFE_INTEGER && IsExactly(r, d, Exponent(code).value)
  {
    hide MatchMajor, Written, WholePart, FractionPart, StripSign, Exponent, MinorOfParts, IsExactly;
    WrittenFormMatches(d);
    SplitOfMajor(Written(d));
    if Exponent(code).Some? {
      PartsAreExact(d, Exponent(code).value, r);
    }
  }

  // ------------------------------------------------------------------ from the statement to minor units

  /** What the import records for a statement amount. */
  function ImportedMinor(amountValue: string, code: string): Result<int, AmountError> {
    match NormalizedAmount(amountValue)
    case Err(error) => Err(error)
    case Ok(amount) =>
      NormalisedIsWellFormed(Cleaned(amountValue));
      WrittenFormMatches(Normalised(Cleaned(amountValue)));
      DecimalToMinor(amount, code)
  }

  lemma NormalisedIsWellFormed(cleaned: string)
    requires IsStatementAmount(cleaned)
    ensures WellFormed(Normalised(cleaned))
    ensures var d, u := Normalised(cleaned), StripSign(cleaned);
            HasSignificantDigit(WholePart(u) + FractionPart(u)) <==> Value(d.whole + d.fraction) > 0
  {
    ZeroFilled(WholePart(StripSign(cleaned)), FractionPart(StripSign(cleaned)));
    hide HasSignificantDigit, Value, WholePart, FractionPart, StripSign;
  }

  /** Writing "0" for an empty whole part leaves the digits' value. */
  lemma ZeroFilled(whole: string, fraction: string)
    requires AllDigits(whole) && AllDigits(fraction)
    ensures var filled := if whole == "" then "0" else whole;
            AllDigits(filled + fraction)
            && (HasSignificantDigit(whole + fraction) <==> Value(filled + fraction) > 0)
  {
    SignificantExactlyWhenNonZero(whole + fraction);
    LeadingZero(fraction);
    if whole == "" {
      assert whole + fraction == fraction;
    }
    hide HasSignificantDigit, Value;
  }

  lemma LeadingZero(digits: string)
    ensures AllDigits(digits) ==> AllDigits("0" + digits) && Value("0" + digits) == Value(digits)
  {
    if AllDigits(digits) {
      ValueAppend("0", digits);
      assert "0"[..0] == "";
      assert Value("0") == 0;
    }
  }

  /** The same for a cleaned text. */
  lemma CleanedImportIsExact(amountValue: string, code: string, r: int)
    ensures ImportedMinor(amountValue, code) == Ok(r)
       <==> IsStatementAmount(Cleaned(amountValue)) && Exponent(code).Some? && 1 <= r <= MAX_SAFE_INTEGER
            && WellFormed(Normalised(Cleaned(amountValue)))
            && IsExactly(r, Normalised(Cleaned(amountValue)), Exponent(code).value)
  {
    hide DecimalToMinor, Exponent, MatchMajor, Normalised, IsStatementAmount, Cleaned, Written, HasSignificantDigit;
    var cleaned := Cleaned(amountValue);
    if IsStatementAmount(cleaned) {
      var d := Normalised(cleaned);
      NormalisedIsWellFormed(cleaned);
      DecimalToMinorIsExact(d, code, r);
      if Exponent(code).Some? && IsExactly(r, d, Exponent(code).value) {
        PositiveExactly(r, d, Exponent(code).value);
      }
    }
  }

  lemma PositiveExactly(r: int, d: Decimals, exponent: nat)
    requires WellFormed(d) && IsExactly(r, d, exponent)
    ensures r >= 1 <==> Value(d.whole + d.fraction) > 0
  {
  }

  // ------------------------------------------------------------------ the texts themselves

  datatype Sign = NoSign | Plus | Minus

  /** A decimal as statements write it: "12", "12.", "12.5" or ".5", signed or not. */
  datatype StatementAmount = StatementAmount(sign: Sign, whole: string, dot: bool, fraction: string)

  predicate IsAmount(a: StatementAmount) {
    AllDigits(a.whole) && AllDigits(a.fraction) && (a.whole != "" || a.fraction != "") && (!a.dot ==> a.fraction == "")
  }

  function SignText(sign: Sign): string {
    match sign
    case NoSign => ""
    case Plus => "+"
    case Minus => "-"
  }

  function AmountText(a: StatementAmount): string {
    SignText(a.sign) + (a.whole + if a.dot then "." + a.fraction else "")
  }

  predicate IsSeparator(c: char) {
    c == ',' || IsSpace(c)
  }

  /** `text` is `plain` with commas and white space put in anywhere. */
  predicate IsSpaced(text: string, plain: string)
    decreases |text|
  {
    if text == "" then plain == ""
    else if IsSeparator(text[0]) then IsSpaced(text[1..], plain)
    else plain != "" && text[0] == plain[0] && IsSpaced(text[1..], plain[1..])
  }

  predicate Denotes(text: string, a: StatementAmount) {
    IsAmount(a) && IsSpaced(text, AmountText(a))
  }

  /** r / 10^exponent is the decimal's magnitude, digits / 10^places. */
  predicate IsWorth(a: StatementAmount, exponent: nat, r: int)
    requires IsAmount(a)
  {
    r * Pow10(|a.fraction|) == Value(a.whole + a.fraction) * Pow10(exponent)
  }

  lemma {:induction false} CleanedIsPlain(text: string)
    ensures IsSpaced(text, Cleaned(text))
    ensures forall plain :: IsSpaced(text, plain) ==> plain == Cleaned(text)
  {
    if text != "" {
      CleanedIsPlain(text[1..]);
      hide IsSpace;
      var rest := Cleaned(text[1..]);
      if IsSeparator(text[0]) {
        assert "" + rest == rest;
      } else {
        assert ([text[0]] + rest)[1..] == rest;
        forall plain | IsSpaced(text, plain) ensures plain == [text[0]] + rest {
          assert IsSpaced(text[1..], plain[1..]);
          assert plain == [plain[0]] + plain[1..];
        }
      }
    }
  }

  /** The parts of a written amount, as the import takes it apart. */
  lemma PartsOfAmount(a: StatementAmount)
    requires IsAmount(a)
    ensures var text := AmountText(a);
            && StripSign(text) == a.whole + (if a.dot then "." + a.fraction else "")
            && WholePart(StripSign(text)) == a.whole && FractionPart(StripSign(text)) == a.fraction
            && HasMinus(text) == a.sign.Minus?
  {
    var text, digits := AmountText(a), a.whole + (if a.dot then "." + a.fraction else "");
    SplitAtDot(a.whole, a.fraction);
    assert a.whole + "" == a.whole && "" + digits == digits;
    hide WholePart, FractionPart;
    assert digits != "" && (IsDigit(digits[0]) || digits[0] == '.');
    if !a.sign.NoSign? {
      assert text[1..] == digits;
    }
  }

  /** What the import makes of a written amount. */
  lemma AmountIsNormalised(a: StatementAmount)
    requires IsAmount(a)
    ensures IsStatementAmount(AmountText(a)) && WellFormed(Normalised(AmountText(a)))
    ensures Normalised(AmountText(a)).negative == a.sign.Minus?
    ensures forall exponent: nat, r: int ::
              IsExactly(r, Normalised(AmountText(a)), exponent) <==> IsWorth(a, exponent, r)
  {
    PartsOfAmount(a);
    LeadingZero(a.fraction);
    assert a.whole == "" ==> a.whole + a.fraction == a.fraction;
    hide WholePart, FractionPart, StripSign, AmountText, Value;
    NormalisedIsWellFormed(AmountText(a));
  }

  /** Every text of that form is imported as r exactly when the currency is known and r is, without any
      rounding, its magnitude in minor units, in 1 .. 2^53 - 1. */
  lemma AmountIsImportedExactly(text: string, a: StatementAmount, code: string, r: int)
    requires Denotes(text, a)
    ensures ImportedMinor(text, code) == Ok(r)
       <==> Exponent(code).Some? && 1 <= r <= MAX_SAFE_INTEGER && IsWorth(a, Exponent(code).value, r)
  {
    CleanedIsPlain(text);
    AmountIsNormalised(a);
    hide ImportedMinor, Exponent, IsExactly, IsWorth, Normalised, IsStatementAmount, AmountText, IsSpaced, Cleaned;
    CleanedImportIsExact(text, code, r);
  }

  /** What the cleaned text of an accepted amount is. */
  function AmountOf(cleaned: string): StatementAmount {
    var unsigned := StripSign(cleaned);
    StatementAmount(if HasMinus(cleaned) then Minus else if unsigned == cleaned then NoSign else Plus,
                    WholePart(unsigned), |WholePart(unsigned)| < |unsigned|, FractionPart(unsigned))
  }

  lemma {:induction false} PartsRejoin(s: string)
    ensures |WholePart(s)| <= |s|
    ensures s == WholePart(s) + if |WholePart(s)| < |s| then "." + FractionPart(s) else ""
    ensures |WholePart(s)| == |s| ==> FractionPart(s) == ""
  {
    if s != "" && s[0] != '.' {
      PartsRejoin(s[1..]);
    }
  }

  lemma AcceptedIsAnAmount(cleaned: string)
    requires IsStatementAmount(cleaned)
    ensures IsAmount(AmountOf(cleaned)) && AmountText(AmountOf(cleaned)) == cleaned
  {
    var unsigned := StripSign(cleaned);
    PartsRejoin(unsigned);
    hide WholePart, FractionPart;
    if unsigned != cleaned {
      assert cleaned == [cleaned[0]] + unsigned;
    }
  }

  /** Nothing else is imported. */
  lemma OnlyAmountsAreImported(text: string, code: string)
    requires ImportedMinor(text, code).Ok?
    ensures exists a :: Denotes(text, a)
  {
    CleanedIsPlain(text);
    hide IsStatementAmount, AmountText, IsSpaced, Cleaned, DecimalToMinor;
    assert IsStatementAmount(Cleaned(text));
    AcceptedIsAnAmount(Cleaned(text));
    assert Denotes(text, AmountOf(Cleaned(text)));
  }

  /** A statement amount is recorded as r exactly when its text is a decimal, with commas and white space
      anywhere, and r is, without any rounding, its magnitude in minor units, in 1 .. 2^53 - 1. */
  lemma ImportIsExact(text: string, code: string, r: int)
    ensures ImportedMinor(text, code) == Ok(r)
       <==> Exponent(code).Some? && 1 <= r <= MAX_SAFE_INTEGER
            && exists a :: Denotes(text, a) && IsWorth(a, Exponent(code).value, r)
  {
    hide ImportedMinor, Exponent, IsWorth, IsSpaced, AmountText;
    if ImportedMinor(text, code) == Ok(r) {
      OnlyAmountsAreImported(text, code);
      var a :| Denotes(text, a);
      AmountIsImportedExactly(text, a, code, r);
    }
    if a :| Denotes(text, a) && Exponent(code).Some? && IsWorth(a, Exponent(code).value, r) {
      AmountIsImportedExactly(text, a, code, r);
    }
  }

  /** Why an amount is refused: it is nothing but zeros; else the currency is unknown; else it has places beyond
      the currency's that are not zero, so that no number of minor units is exactly its worth; else that number
      is over 2^53 - 1. */
  lemma RefusalsAreDecided(text: string, a: StatementAmount, code: string)
    requires Denotes(text, a)
    ensures var r := ImportedMinor(text, code);
            && (r == Err(InvalidAmount) <==> Value(a.whole + a.fraction) == 0)
            && (r == Err(NoSuchCurrency) <==> Value(a.whole + a.fraction) > 0 && Exponent(code).None?)
            && (r == Err(ExcessDecimals)
                <==> Value(a.whole + a.fraction) > 0 && Exponent(code).Some?
                     && !exists n: int :: IsWorth(a, Exponent(code).value, n))
  {
    CleanedIsPlain(text);
    AmountIsNormalised(a);
    var cleaned := Cleaned(text);
    var d := Normalised(cleaned);
    NormalisedIsWellFormed(cleaned);
    SameZero(a);
    hide IsSpaced, Cleaned, AmountText, HasSignificantDigit, MinorOfParts, Value, Pow10, IsExactly, IsWorth, Normalised,
         IsStatementAmount, WholePart, FractionPart, StripSign, Written, MatchMajor;
    if HasSignificantDigit(WholePart(StripSign(cleaned)) + FractionPart(StripSign(cleaned))) && Exponent(code).Some? {
      WrittenFormMatches(d);
      SplitOfMajor(Written(d));
      ExcessExactlyWhenInexact(d, Exponent(code).value);
      assert ImportedMinor(text, code) == MinorOfParts(d.whole, d.fraction, Exponent(code).value);
      if n: int :| IsWorth(a, Exponent(code).value, n) {
        assert IsExactly(n, d, Exponent(code).value);
      }
    }
  }

  lemma SameZero(a: StatementAmount)
    requires IsAmount(a)
    ensures var d := Normalised(AmountText(a));
            AllDigits(d.whole + d.fraction) && Value(d.whole + d.fraction) == Value(a.whole + a.fraction)
  {
    PartsOfAmount(a);
    LeadingZero(a.fraction);
    assert a.whole == "" ==> a.whole + a.fraction == a.fraction;
    hide WholePart, FractionPart, StripSign, AmountText, Value;
  }

  lemma ExcessExactlyWhenInexact(d: Decimals, exponent: nat)
    requires WellFormed(d)
    ensures MinorOfParts(d.whole, d.fraction, exponent) == Err(ExcessDecimals)
       <==> !exists n: int :: IsExactly(n, d, exponent)
    ensures MinorOfParts(d.whole, d.fraction, exponent).Err? ==>
              MinorOfParts(d.whole, d.fraction, exponent).error in {ExcessDecimals, AmountTooLarge}
  {
    hide Value, Pow10, IsExactly, ExactMinor, PadEnd, HasSignificantDigit;
    if |d.fraction| <= exponent {
      FewPlacesConverted(d, exponent);
      FewPlaces(ExactMinor(d, exponent), d, exponent);
    } else {
      ManyPlacesConverted(d, exponent);
      var kept := d.fraction[..exponent];
      ManyPlaces(Value(d.whole + kept), d, exponent);
      if n: int :| IsExactly(n, d, exponent) {
        ManyPlaces(n, d, exponent);
      }
    }
  }

  /** The first character that is no separator. */
  predicate StartsWithMinus(text: string) {
    exists i :: 0 <= i < |text| && text[i] == '-' && forall j :: 0 <= j < i ==> IsSeparator(text[j])
  }

  lemma {:induction false} CleanedStart(text: string)
    ensures StartsWithMinus(text) <==> Cleaned(text) != "" && Cleaned(text)[0] == '-'
  {
    if text != "" {
      var rest := text[1..];
      CleanedStart(rest);
      assert !IsSeparator('-');
      hide IsSpace;
      if IsSeparator(text[0]) {
        if i :| 0 <= i < |rest| && rest[i] == '-' && forall j :: 0 <= j < i ==> IsSeparator(rest[j]) {
          assert text[i + 1] == '-' && forall j :: 0 <= j < i + 1 ==> j == 0 || text[j] == rest[j - 1];
        }
        if i :| 0 <= i < |text| && text[i] == '-' && forall j :: 0 <= j < i ==> IsSeparator(text[j]) {
          assert rest[i - 1] == '-' && forall j :: 0 <= j < i - 1 ==> rest[j] == text[j + 1];
        }
      }
    }
  }

  /** Spending or income: the recorded amount starts with '-' exactly when the statement's does, separators
      aside. */
  lemma SignIsKept(text: string)
    requires NormalizedAmount(text).Ok?
    ensures var amount := NormalizedAmount(text).value; amount != ""
    ensures NormalizedAmount(text).value[0] == '-' <==> StartsWithMinus(text)
  {
    CleanedStart(text);
    NormalisedIsWellFormed(Cleaned(text));
    hide Cleaned, IsStatementAmount, StartsWithMinus, HasSignificantDigit;
    SignOfWritten(Normalised(Cleaned(text)));
  }

  lemma SignOfWritten(d: Decimals)
    requires WellFormed(d)
    ensures Written(d) != "" && (Written(d)[0] == '-' <==> d.negative)
  {
  }

  /** On a normalised amount the import and the money package agree: majorStringToMinorUnits accepts
      exactly the amounts the import accepts that have no more places than the currency, and gives the
      same magnitude. */
  lemma AgreesWithMajorString(amountValue: string, code: string)
    requires NormalizedAmount(amountValue).Ok?
    ensures var amount, d := NormalizedAmount(amountValue).value, Normalised(Cleaned(amountValue));
            MajorStringToMinorUnits(amount, code).Ok?
            <==> ImportedMinor(amountValue, code).Ok? && |d.fraction| <= Exponent(code).value
    ensures var amount := NormalizedAmount(amountValue).value;
            MajorStringToMinorUnits(amount, code).Ok? ==>
              ImportedMinor(amountValue, code) == Ok(Abs(MajorStringToMinorUnits(amount, code).value))
  {
    hide DecimalToMinor, MajorStringToMinorUnits, Exponent, MatchMajor, Normalised, IsStatementAmount, Cleaned,
         Written, HasSignificantDigit;
    var d := Normalised(Cleaned(amountValue));
    NormalisedIsWellFormed(Cleaned(amountValue));
    MajorStringIsExact(d, code);
    if ImportedMinor(amountValue, code).Ok? {
      DecimalToMinorIsExact(d, code, ImportedMinor(amountValue, code).value);
    }
    if Exponent(code).Some? && |d.fraction| <= Exponent(code).value {
      var exact := ExactMinor(d, Exponent(code).value);
      DecimalToMinorIsExact(d, code, exact);
      FewPlaces(exact, d, Exponent(code).value);
      if ImportedMinor(amountValue, code).Ok? {
        FewPlaces(ImportedMinor(amountValue, code).value, d, Exponent(code).value);
      }
    }
  }
}
