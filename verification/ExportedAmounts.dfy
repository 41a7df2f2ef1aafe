/** The amount that apps/api/src/imports/workspace-export.service.ts exports for a journal entry. */
module ExportedAmounts {
  import opened Common
  import opened Sequences
  import opened Ieee754
  import opened Money
  import opened EntryBalance
  import opened Ledger

  /** Every debit and credit, in the order the export adds them up. */
  function Sides(postings: seq<Posting>): seq<int> {
    if postings == [] then []
    else Sides(Front(postings)) + [Last(postings).debitMinor, Last(postings).creditMinor]
  }

  /** `Math.round(x / 2)` of an integer-valued number: halves round up. */
  function HalfRounded(d: Double): Double {
    match d
    case Finite(value) => Finite((value + 1) / 2)
    case Infinite(negative) => d
  }

  method EntryAmount(postings: seq<Posting>) returns (amount: Double)
    ensures amount == ExportedAmount(postings)
  {
    hide AddRounded;
    var sum := Finite(0);
    for i := 0 to |postings|
      invariant sum == RunningTotal(Sides(postings[..i]))
    {
      var row := postings[i];
      var before := Sides(postings[..i]);
      assert Front(postings[..i + 1]) == postings[..i];
      assert Front(before + [row.debitMinor, row.creditMinor]) == before + [row.debitMinor];
      assert Front(before + [row.debitMinor]) == before;
      sum := AddRounded(sum, row.debitMinor);
      sum := AddRounded(sum, row.creditMinor);
    }
    assert postings[..|postings|] == postings;
    return HalfRounded(sum);
  }

  lemma {:induction false} SidesSum(postings: seq<Posting>)
    ensures Sum(Sides(postings)) == Sum(Debits(postings)) + Sum(Credits(postings))
  {
    if postings != [] {
      var front, last := Front(postings), Last(postings);
      SidesSum(front);
      SumAppend(Sides(front), [last.debitMinor, last.creditMinor]);
      assert [last.debitMinor, last.creditMinor] == [last.debitMinor] + [last.creditMinor];
      SumPair(last.debitMinor, last.creditMinor);
      assert Debits(postings) == Debits(front) + [last.debitMinor];
      assert Credits(postings) == Credits(front) + [last.creditMinor];
      SumSnoc(Debits(front), last.debitMinor);
      SumSnoc(Credits(front), last.creditMinor);
      hide Sum, Debits, Credits;
    }
  }

  lemma {:induction false} SidesAreNonNegative(postings: seq<Posting>)
    requires Faultless(postings)
    ensures forall i :: 0 <= i < |Sides(postings)| ==> Sides(postings)[i] >= 0
  {
    if postings != [] {
      assert Fault(postings[|postings| - 1]).None?;
      SidesAreNonNegative(Front(postings));
    }
  }

  /** The amount the export shows for an entry. */
  function ExportedAmount(postings: seq<Posting>): Double {
    HalfRounded(RunningTotal(Sides(postings)))
  }

  /** While debit and credit together are at most 2^53, the exported amount is the entry's total debit
      exactly when the entry balances or its credits fall short by one. */
  lemma ExportedAmountIsTheTotalDebit(postings: seq<Posting>)
    requires Faultless(postings) && Sum(Debits(postings)) + Sum(Credits(postings)) <= PRECISION
    ensures var debit, credit := Sum(Debits(postings)), Sum(Credits(postings));
            ExportedAmount(postings) == Finite(debit) <==> credit == debit || credit == debit - 1
  {
    SidesSum(postings);
    SidesAreNonNegative(postings);
    hide Sum, Sides, RunningTotal, Debits, Credits;
    ExactUpToTheEdge(Sides(postings));
  }

  /** For every balanced entry whose debits and credits together are at most b, the export shows the
      total debit. */
  ghost predicate AmountExactUpTo(b: int) {
    forall postings |
      Faultless(postings) && IsBalanced(postings) && Sum(Debits(postings)) + Sum(Credits(postings)) <= b ::
      ExportedAmount(postings) == Finite(Sum(Debits(postings)))
  }

  /** 2^52 + 1 on both sides, in an order in which the last unit is rounded away. */
  const ROUNDED_AWAY: seq<Posting> :=
    [Posting(PRECISION / 2 + 1, 0), Posting(0, PRECISION / 2 - 1), Posting(0, 1), Posting(0, 1)]

  lemma RoundedAwayTotals()
    ensures Faultless(ROUNDED_AWAY)
    ensures Sum(Debits(ROUNDED_AWAY)) == PRECISION / 2 + 1 && Sum(Credits(ROUNDED_AWAY)) == PRECISION / 2 + 1
  {
    var half := PRECISION / 2;
    SumPair(half + 1, 0);
    SumSnoc([half + 1] + [0], 0);
    SumSnoc([half + 1] + [0] + [0], 0);
    SumPair(0, half - 1);
    SumSnoc([0] + [half - 1], 1);
    SumSnoc([0] + [half - 1] + [1], 1);
    assert Debits(ROUNDED_AWAY) == [half + 1] + [0] + [0] + [0];
    assert Credits(ROUNDED_AWAY) == [0] + [half - 1] + [1] + [1];
    hide Sum, Debits, Credits;
  }

  lemma SidesOfFour(p: seq<Posting>)
    requires |p| == 4
    ensures Sides(p) == [p[0].debitMinor] + [p[0].creditMinor] + [p[1].debitMinor] + [p[1].creditMinor]
                        + [p[2].debitMinor] + [p[2].creditMinor] + [p[3].debitMinor] + [p[3].creditMinor]
  {
    assert Front(p) == p[..3] && Front(p[..3]) == p[..2] && Front(p[..2]) == p[..1] && Front(p[..1]) == [];
    assert Sides([]) == [];
    assert Sides(p[..1]) == [p[0].debitMinor, p[0].creditMinor];
    assert Sides(p[..2]) == Sides(p[..1]) + [p[1].debitMinor, p[1].creditMinor];
    assert Sides(p[..3]) == Sides(p[..2]) + [p[2].debitMinor, p[2].creditMinor];
  }

  /** At 2^53 a rounded total no longer moves by ones. */
  lemma StaysAtTheEdge(a: seq<int>)
    requires RunningTotal(a) == Finite(PRECISION)
    ensures RunningTotal(a + [0] + [1] + [0] + [1]) == Finite(PRECISION)
  {
    RoundingAtTheEdge();
    RunningTotalSnoc(a, 0);
    RunningTotalSnoc(a + [0], 1);
    RunningTotalSnoc(a + [0] + [1], 0);
    RunningTotalSnoc(a + [0] + [1] + [0], 1);
    hide RunningTotal, Round, Sum;
  }

  lemma FirstSidesReachTheEdge(a: seq<int>)
    requires a == [PRECISION / 2 + 1] + [0] + [0] + [PRECISION / 2 - 1]
    ensures RunningTotal(a) == Finite(PRECISION)
  {
    var half := PRECISION / 2;
    SumPair(half + 1, 0);
    SumSnoc([half + 1] + [0], 0);
    SumSnoc([half + 1] + [0] + [0], half - 1);
    hide RunningTotal, Sum;
    ExactUpToTheEdge(a);
  }

  lemma LastUnitIsRoundedAway()
    ensures ExportedAmount(ROUNDED_AWAY) == Finite(PRECISION / 2)
  {
    var a := [PRECISION / 2 + 1] + [0] + [0] + [PRECISION / 2 - 1];
    SidesOfFour(ROUNDED_AWAY);
    FirstSidesReachTheEdge(a);
    StaysAtTheEdge(a);
    hide Sides, RunningTotal;
    assert Sides(ROUNDED_AWAY) == a + [0] + [1] + [0] + [1];
  }

  /** The export shows balanced entries exactly, up to a bound on their two sides together, exactly when
      that bound is at most 2^53 + 1. */
  lemma AmountExactExactlyUpToTheEdge(b: int)
    ensures AmountExactUpTo(b) <==> b <= PRECISION + 1
  {
    hide Sum, Debits, Credits, ExportedAmount;
    if b <= PRECISION + 1 {
      forall postings |
        Faultless(postings) && IsBalanced(postings) && Sum(Debits(postings)) + Sum(Credits(postings)) <= b
        ensures ExportedAmount(postings) == Finite(Sum(Debits(postings)))
      {
        ExportedAmountIsTheTotalDebit(postings);
      }
    } else {
      RoundedAwayTotals();
      LastUnitIsRoundedAway();
    }
  }
}
