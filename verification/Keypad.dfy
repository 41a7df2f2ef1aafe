/** The amount keypad of apps/mobile/app/add-transaction.tsx. */
module Keypad {
  import opened Common
  import opened Sequences
  import opened Decimal
  import opened Ieee754
  import opened Money
  import opened MajorUnits
  import opened ImportAmount

  predicate IsSymbol(c: char) {
    IsDigit(c) || c == '.'
  }

  type Symbol = c: char | IsSymbol(c) witness '0'

  datatype Key = Type(symbol: Symbol) | Backspace

  /** The state update of `handleDigit`. */
  function Press(prev: string, key: Key, exponent: nat): string {
    match key
    case Backspace => if |prev| <= 1 then "0" else prev[..|prev| - 1]
    case Type(c) =>
      if prev == "0" && c != '.' then [c]
      else if c == '.' && exponent == 0 then prev
      else if c == '.' && '.' in prev then prev
      else if '.' in prev && |FractionPart(prev)| >= exponent then prev
      else prev + [c]
  }

  /** The string after a run of presses on a fresh screen. */
  function Run(keys: seq<Key>, exponent: nat): string {
    if keys == [] then "0" else Press(Run(Front(keys), exponent), Last(keys), exponent)
  }

  function DisplayAmount(amount: string): string {
    if amount != "" && amount[0] == '0' && |amount| > 1 && !("0." <= amount) then StripZeros(amount) else amount
  }

  function StripZeros(s: string): string {
    if s != "" && s[0] == '0' then StripZeros(s[1..]) else s
  }

  /** What `handleSave` sends: the amount in minor units as text, or nothing when an alert is shown. */
  function Saved(amount: string, code: string): Option<string> {
    var minor := MajorStringToMinorUnits(amount, code);
    if minor.Err? || minor.value <= 0 then None else Some(IntText(minor.value))
  }

  // ------------------------------------------------------------------ entries

  /** An amount being typed: whole digits, perhaps a dot, perhaps decimals. */
  datatype Entry = Entry(whole: string, dot: bool, fraction: string)

  predicate Proper(e: Entry) {
    e.whole != "" && AllDigits(e.whole) && (e.whole[0] == '0' ==> e.whole == "0")
    && AllDigits(e.fraction) && (e.fraction != "" ==> e.dot)
  }

  predicate Fits(e: Entry, exponent: nat) {
    Proper(e) && |e.fraction| <= exponent && (e.dot ==> exponent > 0)
  }

  function Tail(e: Entry): string {
    if e.dot then "." + e.fraction else ""
  }

  function Shown(e: Entry): string {
    e.whole + Tail(e)
  }

  /** The effect of a key on the parts of the amount. */
  function Next(e: Entry, key: Key, exponent: nat): Entry {
    match key
    case Backspace =>
      if e.fraction != "" then e.(fraction := Front(e.fraction))
      else if e.dot then e.(dot := false)
      else if |e.whole| <= 1 then e.(whole := "0")
      else e.(whole := Front(e.whole))
    case Type(c) =>
      if c == '.' then (if exponent == 0 then e else e.(dot := true))
      else if e.dot then (if |e.fraction| >= exponent then e else e.(fraction := e.fraction + [c]))
      else if e.whole == "0" then e.(whole := [c])
      else e.(whole := e.whole + [c])
  }

  lemma ShownParts(e: Entry)
    requires Proper(e)
    ensures '.' in Shown(e) <==> e.dot
    ensures FractionPart(Shown(e)) == e.fraction
    ensures Shown(e) == "0" <==> e == Entry("0", false, "")
  {
    SplitAtDot(e.whole, e.fraction);
    if e.dot {
      assert Shown(e)[|e.whole|] == '.';
    } else {
      assert e.whole + "" == e.whole;
    }
  }

  /** Pressing a key on the shown text shows the next entry. */
  lemma PressShowsNext(e: Entry, key: Key, exponent: nat)
    requires Proper(e)
    ensures Proper(Next(e, key, exponent)) && Press(Shown(e), key, exponent) == Shown(Next(e, key, exponent))
    ensures Fits(e, exponent) ==> Fits(Next(e, key, exponent), exponent)
  {
    ShownParts(e);
    match key
    case Backspace => BackspaceShowsNext(e, exponent);
    case Type(c) => TypingShowsNext(e, c, exponent);
  }

  lemma BackspaceShowsNext(e: Entry, exponent: nat)
    requires Proper(e)
    ensures Proper(Next(e, Backspace, exponent))
    ensures Press(Shown(e), Backspace, exponent) == Shown(Next(e, Backspace, exponent))
  {
  }

  lemma TypingShowsNext(e: Entry, c: Symbol, exponent: nat)
    requires Proper(e)
    ensures Proper(Next(e, Type(c), exponent))
    ensures Press(Shown(e), Type(c), exponent) == Shown(Next(e, Type(c), exponent))
  {
    ShownParts(e);
    hide FractionPart;
    if e.dot {
      assert (e.whole + ("." + e.fraction)) + [c] == e.whole + ("." + (e.fraction + [c]));
    } else {
      assert e.whole + "" == e.whole && e.whole + "." == e.whole + ("." + "");
    }
  }

  // ------------------------------------------------------------------ runs

  ghost predicate IsEntryText(s: string, exponent: nat) {
    exists e: Entry :: Fits(e, exponent) && Shown(e) == s
  }

  lemma {:induction false} RunsShowEntries(keys: seq<Key>, exponent: nat) returns (e: Entry)
    ensures Fits(e, exponent) && Shown(e) == Run(keys, exponent)
  {
    if keys == [] {
      e := Entry("0", false, "");
    } else {
      hide Press, Shown, Fits;
      var before := RunsShowEntries(Front(keys), exponent);
      assert Proper(before) by { ProperWhenFitting(before, exponent); }
      PressShowsNext(before, Last(keys), exponent);
      e := Next(before, Last(keys), exponent);
    }
  }

  lemma ProperWhenFitting(e: Entry, exponent: nat)
    requires Fits(e, exponent)
    ensures Proper(e)
  {
  }

  predicate AllSymbols(s: string) {
    forall i :: 0 <= i < |s| ==> IsSymbol(s[i])
  }

  function Typed(s: string): seq<Key>
    requires AllSymbols(s)
  {
    seq(|s|, i requires 0 <= i < |s| => Type(s[i]))
  }

  lemma RunSnoc(s: string, c: Symbol, exponent: nat)
    requires AllSymbols(s)
    ensures AllSymbols(s + [c]) && Run(Typed(s + [c]), exponent) == Press(Run(Typed(s), exponent), Type(c), exponent)
  {
    assert Front(Typed(s + [c])) == Typed(s) && Last(Typed(s + [c])) == Type(c);
    hide Press;
  }

  /** Typing the characters of an entry one by one produces it. */
  lemma {:induction false} TypingReaches(e: Entry, exponent: nat)
    requires Fits(e, exponent)
    ensures AllSymbols(Shown(e)) && Run(Typed(Shown(e)), exponent) == Shown(e)
    decreases |Shown(e)|
  {
    ProperWhenFitting(e, exponent);
    if |Shown(e)| == 1 {
      assert e.whole == Shown(e);
      RunSnoc("", e.whole[0], exponent);
      assert "" + [e.whole[0]] == e.whole;
    } else {
      ShorterFits(e, exponent);
      hide Shown, Fits, Press, Next, Run, AllSymbols, Proper, Shorter, Typed;
      var before, c := Shorter(e), Last(Shown(e));
      TypingReaches(before, exponent);
      RunSnoc(Shown(before), c, exponent);
      ProperWhenFitting(before, exponent);
      PressShowsNext(before, Type(c), exponent);
    }
  }

  /** The entry without its last character. */
  function Shorter(e: Entry): Entry
    requires Proper(e)
  {
    if e.fraction != "" then e.(fraction := Front(e.fraction))
    else if e.dot then e.(dot := false)
    else e.(whole := Front(e.whole))
  }

  lemma SnocLast(s: string)
    requires s != ""
    ensures s == Front(s) + [Last(s)]
  {
  }

  lemma ShorterShows(e: Entry)
    requires Proper(e) && |Shown(e)| > 1
    ensures Shown(e) == Shown(Shorter(e)) + [Last(Shown(e))] && IsSymbol(Last(Shown(e)))
    ensures Last(Shown(e)) == if e.fraction != "" then Last(e.fraction) else if e.dot then '.' else Last(e.whole)
  {
  }

  lemma ShorterFits(e: Entry, exponent: nat)
    requires Fits(e, exponent) && |Shown(e)| > 1
    ensures Fits(Shorter(e), exponent) && IsSymbol(Last(Shown(e)))
    ensures Shown(e) == Shown(Shorter(e)) + [Last(Shown(e))]
    ensures Next(Shorter(e), Type(Last(Shown(e))), exponent) == e
  {
    ShorterShows(e);
    assert !e.dot ==> |e.whole| > 1;
    hide Shown;
    if e.fraction != "" {
      SnocLast(e.fraction);
    } else if !e.dot {
      SnocLast(e.whole);
    }
  }

  /** The strings that presses can produce are exactly the texts of entries: digits without a
      redundant leading zero, an optional dot, and at most `exponent` decimals. */
  lemma ReachableExactlyEntries(s: string, exponent: nat)
    ensures (exists keys :: Run(keys, exponent) == s) <==> IsEntryText(s, exponent)
  {
    if keys :| Run(keys, exponent) == s {
      var e := RunsShowEntries(keys, exponent);
    }
    if IsEntryText(s, exponent) {
      var e: Entry :| Fits(e, exponent) && Shown(e) == s;
      TypingReaches(e, exponent);
      assert Run(Typed(s), exponent) == s;
    }
  }

  /** The screen shows the string unchanged after any run. */
  lemma DisplayIsTheString(keys: seq<Key>, exponent: nat)
    ensures DisplayAmount(Run(keys, exponent)) == Run(keys, exponent)
  {
    var e := RunsShowEntries(keys, exponent);
    hide Run;
    if e.whole == "0" && e.dot {
      assert Shown(e) == "0." + e.fraction;
    } else if e.whole == "0" {
      assert Shown(e) == "0";
    } else {
      assert Shown(e)[0] == e.whole[0];
    }
  }

  lemma {:induction false} StripsAllZeros(n: nat, rest: string)
    requires rest == "" || rest[0] != '0'
    ensures StripZeros(Zeros(n) + rest) == rest
  {
    if n == 0 {
      assert Zeros(0) + rest == rest;
    } else {
      assert (Zeros(n) + rest)[1..] == Zeros(n - 1) + rest;
      StripsAllZeros(n - 1, rest);
    }
  }

  /** What the screen makes of any text, typed or not: leading zeros go, unless the text is "0" or starts with
      "0.". */
  lemma DisplayOfAnyText(n: nat, rest: string)
    requires rest == "" || rest[0] != '0'
    ensures DisplayAmount(Zeros(n) + rest)
         == if (n == 1 && (rest == "" || rest[0] == '.')) then Zeros(n) + rest else rest
  {
    StripsAllZeros(n, rest);
    hide StripZeros;
    var text := Zeros(n) + rest;
    if n == 0 {
      assert text == rest;
    } else if n == 1 && rest != "" {
      assert text == ['0'] + rest;
    } else if n >= 2 {
      assert text[1] == '0';
    }
  }

  /** After any run, backspace takes back a press that changed the string. */
  lemma BackspaceUndoes(keys: seq<Key>, c: Symbol, exponent: nat)
    requires Run(keys + [Type(c)], exponent) != Run(keys, exponent)
    ensures Run(keys + [Type(c), Backspace], exponent) == Run(keys, exponent)
  {
    var pressed := keys + [Type(c)];
    var all := keys + [Type(c), Backspace];
    assert Front(all) == pressed && Last(all) == Backspace;
    assert Front(pressed) == keys && Last(pressed) == Type(c);
    var e := RunsShowEntries(keys, exponent);
    assert Run(keys, exponent) != "";
    hide Run;
  }

  // ------------------------------------------------------------------ saving

  function AsDecimals(e: Entry): Decimals {
    Decimals(false, e.whole, e.fraction)
  }

  /** A typed amount is accepted exactly when it does not end in a dot, has no more decimals than the
      selected currency, and is in range; it is then exact. */
  lemma AcceptedExactly(e: Entry, code: string)
    requires Proper(e)
    ensures WellFormed(AsDecimals(e))
    ensures var r, d := MajorStringToMinorUnits(Shown(e), code), AsDecimals(e);
            r.Ok? <==> !(e.dot && e.fraction == "") && Exponent(code).Some?
                       && |e.fraction| <= Exponent(code).value && IsSafe(ExactMinor(d, Exponent(code).value))
    ensures var r, d := MajorStringToMinorUnits(Shown(e), code), AsDecimals(e);
            r.Ok? ==> r.value == ExactMinor(d, Exponent(code).value)
  {
    if e.dot && e.fraction == "" {
      TrailingDotIsNoMatch(e.whole);
      assert Shown(e) == e.whole + ".";
    } else {
      MajorStringIsExact(AsDecimals(e), code);
      assert Shown(e) == Written(AsDecimals(e));
    }
  }

  lemma TrailingDotIsNoMatch(whole: string)
    requires whole != "" && AllDigits(whole)
    ensures MatchMajor(whole + ".").None?
  {
    LeadingDigitsStop(whole, ".");
    hide LeadingDigits;
    assert (whole + ".")[|whole|..] == ".";
    assert !HasMinus(whole + ".");
  }

  /** End to end, for a fixed currency: after any run the save sends text exactly when the amount does
      not end in a dot and is in 1 .. 2^53 - 1 minor units, and the API parses that text back to
      exactly the amount on the screen. */
  lemma SavedAmountReachesTheApi(keys: seq<Key>, code: string) returns (e: Entry)
    requires Exponent(code).Some?
    ensures var exponent := Exponent(code).value;
            Fits(e, exponent) && Shown(e) == Run(keys, exponent) && WellFormed(AsDecimals(e))
    ensures var exponent := Exponent(code).value;
            var exact, saved := ExactMinor(AsDecimals(e), exponent), Saved(Run(keys, exponent), code);
            (saved.Some? <==> !(e.dot && e.fraction == "") && 1 <= exact <= MAX_SAFE_INTEGER)
            && (saved.Some? ==> ParseMinorUnits(saved.value) == Ok(exact))
  {
    var exponent := Exponent(code).value;
    e := RunsShowEntries(keys, exponent);
    hide Run, Exponent, MajorStringToMinorUnits, ParseMinorUnits, IntText;
    AcceptedExactly(e, code);
    var exact := ExactMinor(AsDecimals(e), exponent);
    if IsSafe(exact) {
      SerializeThenParse(exact);
    }
  }
}
