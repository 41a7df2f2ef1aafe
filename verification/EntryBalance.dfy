/** The double-entry check of packages/money/src/index.ts. */
module EntryBalance {
  import opened Common
  import opened Sequences
  import opened Ieee754
  import opened Money

  datatype Posting = Posting(debitMinor: int, creditMinor: int)
  datatype PostingFault = NegativeAmount | BothSides | NeitherSide
  datatype BalanceReport = BalanceReport(balanced: bool, totalDebit: Double, totalCredit: Double)

  function DebitOf(p: Posting): int {
    p.debitMinor
  }

  function CreditOf(p: Posting): int {
    p.creditMinor
  }

  function Fault(p: Posting): Option<PostingFault> {
    if p.debitMinor < 0 || p.creditMinor < 0 then Some(NegativeAmount)
    else if p.debitMinor > 0 && p.creditMinor > 0 then Some(BothSides)
    else if p.debitMinor == 0 && p.creditMinor == 0 then Some(NeitherSide)
    else None
  }

  function AddRounded(total: Double, amount: int): Double {
    if total.Infinite? then total else Round(total.value + amount)
  }

  /** The unguarded `total += amount` over all amounts. */
  function RunningTotal(amounts: seq<int>): Double {
    if amounts == [] then Finite(0) else AddRounded(RunningTotal(Front(amounts)), Last(amounts))
  }

  predicate BeyondSafe(d: Double) {
    d == Infinite(false) || (d.Finite? && d.value > MAX_SAFE_INTEGER)
  }

  lemma RoundOfNonNegative(n: int)
    requires n >= 0
    ensures if IsSafe(n) then Round(n) == Finite(n) else BeyondSafe(Round(n))
  {
    GuardDecidesExactly(n);
  }

  /** Over non-negative amounts a rounded total is the exact sum while that is safe, and beyond the
      safe range from then on. */
  lemma {:induction false} RunningTotalTracksTheSum(amounts: seq<int>)
    requires forall i :: 0 <= i < |amounts| ==> amounts[i] >= 0
    ensures Sum(amounts) >= 0
    ensures if IsSafe(Sum(amounts)) then RunningTotal(amounts) == Finite(Sum(amounts))
            else BeyondSafe(RunningTotal(amounts))
  {
    if amounts != [] {
      hide Round;
      var front, last := Front(amounts), Last(amounts);
      RunningTotalTracksTheSum(front);
      SumSnoc(front, last);
      assert amounts == front + [last];
      RoundOfNonNegative(Sum(front) + last);
      if RunningTotal(front).Finite? {
        RoundOfNonNegative(RunningTotal(front).value + last);
      }
    }
  }

  function Debits(postings: seq<Posting>): (r: seq<int>)
    ensures |r| == |postings|
  {
    Map(DebitOf, postings)
  }

  function Credits(postings: seq<Posting>): (r: seq<int>)
    ensures |r| == |postings|
  {
    Map(CreditOf, postings)
  }

  predicate Faultless(postings: seq<Posting>) {
    forall i :: 0 <= i < |postings| ==> Fault(postings[i]).None?
  }

  /** A posting is in order exactly when one of its sides is positive and the other zero; a fault says that a
      side is negative, else that both are positive, else that both are zero. */
  lemma FaultsAreDecided(p: Posting)
    ensures Fault(p) == None <==> (p.debitMinor > 0 && p.creditMinor == 0) || (p.debitMinor == 0 && p.creditMinor > 0)
    ensures Fault(p) == Some(NegativeAmount) <==> p.debitMinor < 0 || p.creditMinor < 0
    ensures Fault(p) == Some(BothSides) <==> p.debitMinor > 0 && p.creditMinor > 0
    ensures Fault(p) == Some(NeitherSide) <==> p.debitMinor == 0 && p.creditMinor == 0
  {
  }

  /** The first faulty posting decides the error; without one the report holds the rounded totals, and
      `balanced` is the exact verdict whenever one of the exact totals is safe. */
  method ValidateBalance(postings: seq<Posting>) returns (r: Result<BalanceReport, PostingFault>)
    ensures r.Ok? <==> Faultless(postings)
    ensures r.Err? ==> exists i :: 0 <= i < |postings| && Fault(postings[i]) == Some(r.error)
                                   && Faultless(postings[..i])
    ensures r.Ok? ==> r.value.totalDebit == RunningTotal(Debits(postings))
                      && r.value.totalCredit == RunningTotal(Credits(postings))
    ensures r.Ok? && (IsSafe(Sum(Debits(postings))) || IsSafe(Sum(Credits(postings)))) ==>
              (r.value.balanced <==> Sum(Debits(postings)) == Sum(Credits(postings)))
    ensures r.Ok? ==> (r.value.balanced <==> r.value.totalDebit == r.value.totalCredit)
  {
    hide AddRounded, RunningTotal, Sum, Debits, Credits;
    var totalDebit, totalCredit := Finite(0), Finite(0);
    RunningTotalsGrow(postings, 0);
    for i := 0 to |postings|
      invariant Faultless(postings[..i])
      invariant totalDebit == RunningTotal(Debits(postings[..i]))
      invariant totalCredit == RunningTotal(Credits(postings[..i]))
    {
      var posting := postings[i];
      if posting.debitMinor < 0 || posting.creditMinor < 0 {
        return Err(NegativeAmount);
      }
      if posting.debitMinor > 0 && posting.creditMinor > 0 {
        return Err(BothSides);
      }
      if posting.debitMinor == 0 && posting.creditMinor == 0 {
        return Err(NeitherSide);
      }
      RunningTotalsGrow(postings, i);
      totalDebit := AddRounded(totalDebit, posting.debitMinor);
      totalCredit := AddRounded(totalCredit, posting.creditMinor);
    }
    assert postings[..|postings|] == postings;
    VerdictIsExact(postings);
    return Ok(BalanceReport(totalDebit == totalCredit, totalDebit, totalCredit));
  }

  lemma RunningTotalsGrow(postings: seq<Posting>, i: nat)
    ensures RunningTotal(Debits([])) == Finite(0) && RunningTotal(Credits([])) == Finite(0)
    ensures i < |postings| ==>
              RunningTotal(Debits(postings[..i + 1]))
              == AddRounded(RunningTotal(Debits(postings[..i])), postings[i].debitMinor)
    ensures i < |postings| ==>
              RunningTotal(Credits(postings[..i + 1]))
              == AddRounded(RunningTotal(Credits(postings[..i])), postings[i].creditMinor)
  {
    hide AddRounded;
    if i < |postings| {
      assert Front(Debits(postings[..i + 1])) == Debits(postings[..i]);
      assert Front(Credits(postings[..i + 1])) == Credits(postings[..i]);
    }
  }

  lemma VerdictIsExact(postings: seq<Posting>)
    requires Faultless(postings)
    ensures IsSafe(Sum(Debits(postings))) || IsSafe(Sum(Credits(postings))) ==>
              (RunningTotal(Debits(postings)) == RunningTotal(Credits(postings))
               <==> Sum(Debits(postings)) == Sum(Credits(postings)))
  {
    hide RunningTotal, Sum;
    RunningTotalTracksTheSum(Debits(postings));
    RunningTotalTracksTheSum(Credits(postings));
  }

  // ------------------------------------------------------------------ how far the verdict can be trusted

  /** What `balanced` compares. */
  predicate LooksBalanced(postings: seq<Posting>) {
    RunningTotal(Debits(postings)) == RunningTotal(Credits(postings))
  }

  predicate IsBalanced(postings: seq<Posting>) {
    Sum(Debits(postings)) == Sum(Credits(postings))
  }

  /** For every entry whose smaller exact total is at most b the verdict is right. */
  ghost predicate VerdictExactUpTo(b: int) {
    forall postings | Faultless(postings) && Min(Sum(Debits(postings)), Sum(Credits(postings))) <= b ::
      LooksBalanced(postings) <==> IsBalanced(postings)
  }

  /** 2^53 + 1 of debit against 2^53 of credit. */
  const UNBALANCED: seq<Posting> :=
    [Posting(MAX_SAFE_INTEGER, 0), Posting(1, 0), Posting(1, 0), Posting(0, MAX_SAFE_INTEGER), Posting(0, 1)]

  /** 2^53 + 2 on both sides. */
  const BALANCED: seq<Posting> :=
    [Posting(MAX_SAFE_INTEGER, 0), Posting(1, 0), Posting(1, 0), Posting(1, 0),
     Posting(0, 1), Posting(0, 1), Posting(0, 1), Posting(0, MAX_SAFE_INTEGER)]

  lemma RunningTotalSnoc(amounts: seq<int>, last: int)
    ensures RunningTotal(amounts + [last]) == AddRounded(RunningTotal(amounts), last)
    ensures Sum(amounts + [last]) == Sum(amounts) + last
  {
    hide AddRounded;
    assert Front(amounts + [last]) == amounts;
    SumSnoc(amounts, last);
  }

  /** Amounts that leave a total where it is. */
  lemma {:induction false} ZerosAddNothing(amounts: seq<int>, n: nat)
    requires RunningTotal(amounts).Finite?
    requires Round(RunningTotal(amounts).value) == RunningTotal(amounts)
    ensures RunningTotal(amounts + seq(n, i => 0)) == RunningTotal(amounts)
    ensures Sum(amounts + seq(n, i => 0)) == Sum(amounts)
  {
    hide Round;
    var zeros := seq(n, i => 0);
    if n == 0 {
      assert amounts + zeros == amounts;
    } else {
      ZerosAddNothing(amounts, n - 1);
      RunningTotalSnoc(amounts + seq(n - 1, i => 0), 0);
      assert amounts + zeros == (amounts + seq(n - 1, i => 0)) + [0];
    }
  }

  lemma RoundingAtTheEdge()
    ensures Round(PRECISION) == Finite(PRECISION) && Round(PRECISION + 1) == Finite(PRECISION)
    ensures Round(PRECISION + 2) == Finite(PRECISION + 2)
    ensures Round(0) == Finite(0) && Round(MAX_SAFE_INTEGER) == Finite(MAX_SAFE_INTEGER)
  {
    OverflowIsFar();
    GuardDecidesExactly(0);
    GuardDecidesExactly(MAX_SAFE_INTEGER);
    hide Pow2;
    assert RoundFrom(PRECISION, 2) == PRECISION && RoundFrom(PRECISION + 1, 2) == PRECISION;
    assert RoundFrom(PRECISION + 2, 2) == PRECISION + 2;
  }

  lemma RoundsExactlyToTheEdge(n: nat)
    requires n <= PRECISION
    ensures Round(n) == Finite(n)
  {
    RoundingAtTheEdge();
    GuardDecidesExactly(n);
    hide Round;
  }

  predicate NonNegative(amounts: seq<int>) {
    forall i :: 0 <= i < |amounts| ==> amounts[i] >= 0
  }

  lemma NonNegativeParts(amounts: seq<int>)
    requires amounts != [] && NonNegative(amounts)
    ensures NonNegative(Front(amounts)) && Last(amounts) >= 0 && Sum(Front(amounts)) >= 0
    ensures Sum(amounts) == Sum(Front(amounts)) + Last(amounts)
    ensures RunningTotal(amounts) == AddRounded(RunningTotal(Front(amounts)), Last(amounts))
  {
    hide AddRounded;
    var front, last := Front(amounts), Last(amounts);
    assert amounts == front + [last];
    RunningTotalSnoc(front, last);
    RunningTotalTracksTheSum(front);
  }

  /** 2^53 itself is still reached exactly. */
  lemma {:induction false} ExactUpToTheEdge(amounts: seq<int>)
    requires NonNegative(amounts) && Sum(amounts) <= PRECISION
    ensures RunningTotal(amounts) == Finite(Sum(amounts))
  {
    if amounts != [] {
      NonNegativeParts(amounts);
      hide Round, RunningTotal, Sum, NonNegative;
      ExactUpToTheEdge(Front(amounts));
      RoundsExactlyToTheEdge(Sum(amounts));
    }
  }

  /** The largest safe integer and then ones: the total sticks at 2^53. */
  lemma OnesAfterTheEdge()
    ensures var a := [MAX_SAFE_INTEGER];
            && RunningTotal(a + [1]) == Finite(PRECISION) && Sum(a + [1]) == PRECISION
            && RunningTotal(a + [1] + [1]) == Finite(PRECISION) && Sum(a + [1] + [1]) == PRECISION + 1
            && RunningTotal(a + [1] + [1] + [1]) == Finite(PRECISION) && Sum(a + [1] + [1] + [1]) == PRECISION + 2
  {
    var a := [MAX_SAFE_INTEGER];
    RoundingAtTheEdge();
    RunningTotalSnoc([], MAX_SAFE_INTEGER);
    assert [] + a == a;
    RunningTotalSnoc(a, 1);
    RunningTotalSnoc(a + [1], 1);
    RunningTotalSnoc(a + [1] + [1], 1);
    hide Round, RunningTotal;
  }

  lemma {:induction false} LeadingZeros(n: nat)
    ensures RunningTotal(seq(n, i => 0)) == Finite(0) && Sum(seq(n, i => 0)) == 0
  {
    RoundingAtTheEdge();
    ZerosAddNothing([], n);
    assert [] + seq(n, i => 0) == seq(n, i => 0);
  }

  /** An entry of safe amounts that is out by one and passes. */
  lemma UnbalancedLooksBalanced()
    ensures Faultless(UNBALANCED) && LooksBalanced(UNBALANCED) && !IsBalanced(UNBALANCED)
    ensures Sum(Debits(UNBALANCED)) == PRECISION + 1 && Sum(Credits(UNBALANCED)) == PRECISION
  {
    var debits, credits, lead := [MAX_SAFE_INTEGER] + [1] + [1], [MAX_SAFE_INTEGER] + [1], seq(3, i => 0);
    OnesAfterTheEdge();
    RoundingAtTheEdge();
    ZerosAddNothing(debits, 2);
    LeadingZeros(3);
    RunningTotalSnoc(lead, MAX_SAFE_INTEGER);
    RunningTotalSnoc(lead + [MAX_SAFE_INTEGER], 1);
    assert Debits(UNBALANCED) == debits + seq(2, i => 0);
    assert Credits(UNBALANCED) == lead + [MAX_SAFE_INTEGER] + [1];
    hide Round, RunningTotal, Sum, Debits, Credits;
  }

  /** An entry of safe amounts that balances and is refused: the order of the amounts matters. */
  lemma BalancedLooksUnbalanced()
    ensures Faultless(BALANCED) && IsBalanced(BALANCED) && !LooksBalanced(BALANCED)
  {
    var debits, lead := [MAX_SAFE_INTEGER] + [1] + [1] + [1], seq(4, i => 0);
    OnesAfterTheEdge();
    RoundingAtTheEdge();
    ZerosAddNothing(debits, 4);
    SmallCredits(lead);
    assert Debits(BALANCED) == debits + seq(4, i => 0);
    assert Credits(BALANCED) == lead + [1] + [1] + [1] + [MAX_SAFE_INTEGER];
    hide Round, RunningTotal, Sum, Debits, Credits;
  }

  lemma SmallCredits(lead: seq<int>)
    requires lead == seq(4, i => 0)
    ensures RunningTotal(lead + [1] + [1] + [1] + [MAX_SAFE_INTEGER]) == Finite(PRECISION + 2)
    ensures Sum(lead + [1] + [1] + [1] + [MAX_SAFE_INTEGER]) == PRECISION + 2
  {
    RoundingAtTheEdge();
    LeadingZeros(4);
    GuardDecidesExactly(1);
    GuardDecidesExactly(2);
    GuardDecidesExactly(3);
    RunningTotalSnoc(lead, 1);
    RunningTotalSnoc(lead + [1], 1);
    RunningTotalSnoc(lead + [1] + [1], 1);
    RunningTotalSnoc(lead + [1] + [1] + [1], MAX_SAFE_INTEGER);
    hide Round, RunningTotal, Sum;
  }

  /** The verdict is right for all entries with an exact total of at most b exactly when b is a safe
      integer or less; from 2^53 on both kinds of wrong verdict occur. */
  lemma VerdictExactExactlyWhileSafe(b: int)
    ensures VerdictExactUpTo(b) <==> b <= MAX_SAFE_INTEGER
  {
    if b <= MAX_SAFE_INTEGER {
      forall postings | Faultless(postings) && Min(Sum(Debits(postings)), Sum(Credits(postings))) <= b
        ensures LooksBalanced(postings) <==> IsBalanced(postings)
      {
        TotalsAreNonNegative(postings);
        VerdictIsExact(postings);
      }
    } else {
      UnbalancedLooksBalanced();
    }
  }

  lemma TotalsAreNonNegative(postings: seq<Posting>)
    requires Faultless(postings)
    ensures Sum(Debits(postings)) >= 0 && Sum(Credits(postings)) >= 0
  {
    hide Sum, RunningTotal;
    RunningTotalTracksTheSum(Debits(postings));
    RunningTotalTracksTheSum(Credits(postings));
  }
}
