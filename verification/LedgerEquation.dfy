/** The accounting equation of the account list in apps/api/src/accounts/accounts.service.ts, from the
    verdicts of validateBalance to the balances shown, and exactly when it holds. */
module LedgerEquation {
  import opened Common
  import opened Sequences
  import opened Ieee754
  import opened Money
  import opened EntryBalance
  import opened Ledger

  /** validateBalance calls the entry balanced, and one of its totals is a safe integer. */
  predicate Passes(entry: Entry) {
    Faultless(Postings(entry)) && LooksBalanced(Postings(entry))
    && (IsSafe(Sum(Debits(Postings(entry)))) || IsSafe(Sum(Credits(Postings(entry)))))
  }

  lemma PassedIsBalanced(entry: Entry)
    requires Passes(entry)
    ensures Balanced(entry)
  {
    VerdictIsExact(Postings(entry));
  }

  lemma BalancedPasses(entry: Entry)
    requires Faultless(Postings(entry)) && Balanced(entry) && IsSafe(Sum(Debits(Postings(entry))))
    ensures Passes(entry)
  {
    VerdictIsExact(Postings(entry));
  }

  predicate AllFinite(balances: seq<Double>) {
    forall i :: 0 <= i < |balances| ==> balances[i].Finite?
  }

  /** The sum of the shown balances of the accounts with one normal side. */
  function ShownSum(accounts: seq<Account>, balances: seq<Double>, side: NormalSide): int
    requires |balances| == |accounts| && AllFinite(balances)
  {
    if accounts == [] then 0
    else (if accounts[0].normal == side then balances[0].value else 0) + ShownSum(accounts[1..], balances[1..], side)
  }

  predicate SidesAgree(accounts: seq<Account>, balances: seq<Double>)
    requires |balances| == |accounts|
  {
    AllFinite(balances) && ShownSum(accounts, balances, DebitNormal) == ShownSum(accounts, balances, CreditNormal)
  }

  /** No account's balance leaves the safe range on the way. */
  predicate StaysSafe(accounts: seq<Account>, read: seq<Line>) {
    forall i :: 0 <= i < |accounts| ==> PrefixSumsSafe(DeltasOn(read, accounts[i].id))
  }

  lemma {:induction false} ShownSums(accounts: seq<Account>, read: seq<Line>, side: NormalSide)
    requires StaysSafe(accounts, read)
    ensures AllFinite(Shown(accounts, read))
    ensures ShownSum(accounts, Shown(accounts, read), side) == SideTotal(accounts, read, side)
  {
    hide ShownBalance, Balance, DeltasOn, PrefixSumsSafe;
    forall i | 0 <= i < |accounts| ensures Shown(accounts, read)[i] == Finite(Balance(accounts[i], read)) {
      ShownBalanceIsExact(accounts[i], read);
    }
    if accounts != [] {
      assert forall i :: 0 <= i < |accounts[1..]| ==> accounts[1..][i] == accounts[i + 1];
      ShownSums(accounts[1..], read, side);
      assert Shown(accounts, read)[1..] == Shown(accounts[1..], read);
    }
  }

  /** What the two sides show differs by the net of the postings that were read. */
  lemma ShownSidesDifferByTheNet(accounts: seq<Account>, read: seq<Line>)
    requires DistinctIds(accounts) && StaysSafe(accounts, read)
    requires forall i :: 0 <= i < |read| ==> Lists(accounts, read[i].account)
    ensures AllFinite(Shown(accounts, read))
    ensures SidesAgree(accounts, Shown(accounts, read)) <==> Net(read) == 0
  {
    hide Shown, SideTotal, Net, Lists, StaysSafe, AllFinite, ShownSum;
    ShownSums(accounts, read, DebitNormal);
    ShownSums(accounts, read, CreditNormal);
    SidesDifferByTheNet(accounts, read);
  }

  /** All entries pass validateBalance and every posting is on an existing account. */
  predicate ValidLedger(entries: seq<Entry>, existing: set<nat>) {
    && (forall i :: 0 <= i < |entries| ==> Passes(entries[i]))
    && (forall i :: 0 <= i < |Flatten(entries)| ==> Flatten(entries)[i].account in existing)
  }

  /** For every valid ledger of up to `most` postings and every answer of the database, the balances the
      list shows satisfy the accounting equation. */
  ghost predicate EquationShown(accounts: seq<Account>, existing: set<nat>, rowLimit: nat, most: nat) {
    forall entries: seq<Entry>, read: seq<Line> |
      ValidLedger(entries, existing) && |Flatten(entries)| <= most
      && IsAnswer(read, accounts, Flatten(entries), rowLimit) && StaysSafe(accounts, read) ::
      SidesAgree(accounts, Shown(accounts, read))
  }

  predicate SomeListed(accounts: seq<Account>, existing: set<nat>) {
    exists id :: id in existing && Lists(accounts, id)
  }

  predicate EachListed(accounts: seq<Account>, existing: set<nat>) {
    forall id :: id in existing ==> Lists(accounts, id)
  }

  lemma PassedLedgerNetsToZero(entries: seq<Entry>)
    requires forall i :: 0 <= i < |entries| ==> Passes(entries[i])
    ensures Net(Flatten(entries)) == 0
  {
    hide Passes, Balanced, Net;
    forall i | 0 <= i < |entries| ensures Balanced(entries[i]) {
      PassedIsBalanced(entries[i]);
    }
    BalancedEntriesNetToZero(entries);
  }

  lemma {:induction false} PassedLinesHaveDeltas(entries: seq<Entry>)
    requires forall i :: 0 <= i < |entries| ==> Passes(entries[i])
    ensures forall k :: 0 <= k < |Flatten(entries)| ==> Delta(Flatten(entries)[k]) != 0
  {
    if entries != [] {
      hide LooksBalanced, Debits, Credits;
      PassedLinesHaveDeltas(entries[1..]);
      var first := entries[0];
      forall k | 0 <= k < |first| ensures Delta(first[k]) != 0 {
        assert Fault(Postings(first)[k]).None?;
      }
    }
  }

  /** One posting alone never passes: a ledger of fewer than two postings is empty. */
  lemma NoSinglePosting(entries: seq<Entry>)
    requires (forall i :: 0 <= i < |entries| ==> Passes(entries[i])) && |Flatten(entries)| < 2
    ensures Flatten(entries) == []
  {
    var lines := Flatten(entries);
    PassedLedgerNetsToZero(entries);
    PassedLinesHaveDeltas(entries);
    if |lines| == 1 {
      assert Map(Delta, lines) == [Delta(lines[0])];
      SumPair(Delta(lines[0]), 0);
    }
  }

  lemma NothingReadAgrees(accounts: seq<Account>)
    requires DistinctIds(accounts)
    ensures SidesAgree(accounts, Shown(accounts, []))
  {
    assert forall id: nat :: DeltasOn([], id) == [];
    assert StaysSafe(accounts, []);
    assert Net([]) == 0;
    hide Net, Shown, StaysSafe, SidesAgree;
    ShownSidesDifferByTheNet(accounts, []);
  }

  /** Every account listed, and no more postings than the row limit: entries that pass validateBalance
      make the shown debit-normal and credit-normal balances add up to the same, in whatever order the
      postings are read. */
  lemma EquationHoldsWhenAllIsSeen(
    accounts: seq<Account>, existing: set<nat>, entries: seq<Entry>, rowLimit: nat, read: seq<Line>)
    requires DistinctIds(accounts) && ValidLedger(entries, existing) && EachListed(accounts, existing)
    requires |Flatten(entries)| <= rowLimit && IsAnswer(read, accounts, Flatten(entries), rowLimit)
    requires StaysSafe(accounts, read)
    ensures multiset(read) == multiset(Flatten(entries))
    ensures SidesAgree(accounts, Shown(accounts, read))
  {
    hide Passes, Net, Lists, Shown, StaysSafe, SidesAgree, OnListed;
    var ledger := Flatten(entries);
    AllListed(accounts, ledger, true);
    FullAnswer(read, ledger);
    NetIgnoresOrder(read, ledger);
    PassedLedgerNetsToZero(entries);
    AnswerIsListed(read, accounts, ledger, rowLimit);
    ShownSidesDifferByTheNet(accounts, read);
  }

  lemma SeenLedgersAgree(accounts: seq<Account>, existing: set<nat>, rowLimit: nat, most: nat)
    requires DistinctIds(accounts)
    requires most < 2 || rowLimit == 0 || !SomeListed(accounts, existing)
             || (EachListed(accounts, existing) && most <= rowLimit)
    ensures EquationShown(accounts, existing, rowLimit, most)
  {
    hide Passes, Lists, Shown, StaysSafe, SidesAgree, OnListed, Net;
    forall entries: seq<Entry>, read: seq<Line> |
      ValidLedger(entries, existing) && |Flatten(entries)| <= most
      && IsAnswer(read, accounts, Flatten(entries), rowLimit) && StaysSafe(accounts, read)
      ensures SidesAgree(accounts, Shown(accounts, read))
    {
      var ledger := Flatten(entries);
      NothingReadAgrees(accounts);
      if most < 2 {
        NoSinglePosting(entries);
        AllListed(accounts, ledger, true);
      } else if rowLimit == 0 {
        assert read == [];
      } else if !SomeListed(accounts, existing) {
        AllListed(accounts, ledger, false);
      } else {
        EquationHoldsWhenAllIsSeen(accounts, existing, entries, rowLimit, read);
      }
    }
  }

  // ------------------------------------------------------------------ ledgers that break it

  function Debit(account: nat, amount: nat): Line {
    Line(account, Posting(amount, 0))
  }

  function Credit(account: nat, amount: nat): Line {
    Line(account, Posting(0, amount))
  }

  lemma SmallEntryPasses(entry: Entry)
    requires (exists a: nat, b: nat :: entry == [Debit(a, 1), Credit(b, 1)])
             || (exists a: nat :: entry == [Debit(a, 2), Credit(a, 1), Credit(a, 1)])
    ensures Passes(entry)
  {
    var postings := Postings(entry);
    if |entry| == 2 {
      assert Debits(postings) == [1] + [0] && Credits(postings) == [0] + [1];
      SumPair(1, 0);
      SumPair(0, 1);
    } else {
      assert Debits(postings) == [2] + [0] + [0] && Credits(postings) == [0] + [1] + [1];
      SumPair(2, 0);
      SumPair(0, 1);
      SumSnoc([2] + [0], 0);
      SumSnoc([0] + [1], 1);
    }
    hide Sum, LooksBalanced;
    BalancedPasses(entry);
  }

  /** Small entries on one account; the last one begins within the first r postings and ends behind them. */
  function Overfull(account: nat, r: nat): seq<Entry>
    requires r >= 1
  {
    if r == 1 then [[Debit(account, 1), Credit(account, 1)]]
    else if r == 2 then [[Debit(account, 2), Credit(account, 1), Credit(account, 1)]]
    else [[Debit(account, 1), Credit(account, 1)]] + Overfull(account, r - 2)
  }

  lemma {:induction false} OverfullShape(account: nat, r: nat)
    requires r >= 1
    ensures forall i :: 0 <= i < |Overfull(account, r)| ==> Passes(Overfull(account, r)[i])
    ensures |Flatten(Overfull(account, r))| == r + 1
    ensures forall k :: 0 <= k <= r ==> Flatten(Overfull(account, r))[k].account == account
  {
    hide Passes;
    SmallEntryPasses([Debit(account, 1), Credit(account, 1)]);
    SmallEntryPasses([Debit(account, 2), Credit(account, 1), Credit(account, 1)]);
    if r > 2 {
      OverfullShape(account, r - 2);
      assert Overfull(account, r)[1..] == Overfull(account, r - 2);
    }
  }

  lemma NetOfThree(account: nat)
    ensures Net([]) == 0 && Net([Debit(account, 1)]) == 1 && Net([Debit(account, 1), Credit(account, 1)]) == 0
    ensures Net([Debit(account, 2)]) == 2 && Net([Debit(account, 2), Credit(account, 1)]) == 1
    ensures Net([Debit(account, 2), Credit(account, 1), Credit(account, 1)]) == 0
  {
    var d, c, e := Debit(account, 1), Credit(account, 1), Debit(account, 2);
    assert [d, c] == [d] + [c] && [e, c] == [e] + [c] && [e, c, c] == [e, c] + [c] && [] + [d] == [d] && [] + [e] == [e];
    NetSnoc([d]);
    NetSnoc([e]);
    NetSnoc([d, c]);
    NetSnoc([e, c]);
    NetSnoc([e, c, c]);
    assert Front([d]) == [] && Front([e]) == [] && Front([d, c]) == [d] && Front([e, c]) == [e] && Front([e, c, c]) == [e, c];
    assert Map(Delta, []) == [];
  }

  /** Along such a ledger the balance stays between 0 and 2, and after r postings it is not 0. */
  lemma {:induction false} OverfullNets(account: nat, r: nat, k: nat)
    requires r >= 1 && k <= r && |Flatten(Overfull(account, r))| == r + 1
    ensures 0 <= Net(Flatten(Overfull(account, r))[..k]) <= 2
    ensures k == r ==> Net(Flatten(Overfull(account, r))[..k]) == 1
  {
    hide Net, Flatten, Overfull;
    if r <= 2 {
      LastEntryNets(account, r, k);
    } else {
      OverfullShape(account, r - 2);
      OverfullSplits(account, r);
      PairNets(account, Flatten(Overfull(account, r - 2)), k);
      if k >= 2 {
        OverfullNets(account, r - 2, k - 2);
      }
    }
  }

  /** A balanced pair in front of a ledger. */
  lemma PairNets(account: nat, rest: seq<Line>, k: nat)
    requires k <= |rest| + 2
    ensures var ledger := [Debit(account, 1), Credit(account, 1)] + rest;
            if k < 2 then Net(ledger[..k]) == k else Net(ledger[..k]) == Net(rest[..k - 2])
  {
    NetOfThree(account);
    hide Net;
    var first := [Debit(account, 1), Credit(account, 1)];
    if k >= 2 {
      NetAppend(first, rest[..k - 2]);
      assert (first + rest)[..k] == first + rest[..k - 2];
    } else if k == 1 {
      assert (first + rest)[..1] == [first[0]];
    }
  }

  lemma OverfullSplits(account: nat, r: nat)
    requires r > 2
    ensures Flatten(Overfull(account, r)) == [Debit(account, 1), Credit(account, 1)] + Flatten(Overfull(account, r - 2))
  {
    assert Overfull(account, r)[1..] == Overfull(account, r - 2);
  }

  lemma LastEntryNets(account: nat, r: nat, k: nat)
    requires 1 <= r <= 2 && k <= r
    ensures |Flatten(Overfull(account, r))| == r + 1
    ensures 0 <= Net(Flatten(Overfull(account, r))[..k]) <= 2
    ensures k == r ==> Net(Flatten(Overfull(account, r))[..k]) == 1
  {
    NetOfThree(account);
    FlattenOne(Overfull(account, r)[0]);
    var ledger := Flatten(Overfull(account, r));
    assert ledger == Overfull(account, r)[0];
    hide Net, Flatten;
    assert k == 0 ==> ledger[..k] == [];
    assert k == 1 ==> ledger[..k] == [ledger[0]];
    assert k == 2 ==> ledger[..k] == [ledger[0], ledger[1]];
  }

  lemma FlattenOne<T>(part: seq<T>)
    ensures Flatten([part]) == part
  {
    assert Flatten([part]) == part + Flatten<T>([]);
  }

  lemma {:induction false} DeltasOfOneAccount(lines: seq<Line>, account: nat)
    requires forall i :: 0 <= i < |lines| ==> lines[i].account == account
    ensures DeltasOn(lines, account) == Map(Delta, lines)
    ensures forall id: nat :: id != account ==> DeltasOn(lines, id) == []
  {
    if lines != [] {
      DeltasOfOneAccount(Front(lines), account);
      assert Last(lines) == lines[|lines| - 1];
      assert Map(Delta, lines) == Map(Delta, Front(lines)) + [Delta(Last(lines))];
    }
  }

  /** Postings of one account with small running balances keep every account's balance safe. */
  lemma OneAccountStaysSafe(accounts: seq<Account>, read: seq<Line>, account: nat)
    requires forall i :: 0 <= i < |read| ==> read[i].account == account
    requires forall k :: 0 <= k <= |read| ==> 0 <= Net(read[..k]) <= 2
    ensures StaysSafe(accounts, read)
  {
    DeltasOfOneAccount(read, account);
    forall k | 0 <= k <= |read| ensures IsSafe(Sum(Map(Delta, read)[..k])) {
      assert Map(Delta, read)[..k] == Map(Delta, read[..k]);
      assert 0 <= Net(read[..k]) <= 2;
    }
    assert PrefixSumsSafe(Map(Delta, read));
    assert PrefixSumsSafe([]);
  }

  /** A valid ledger and an answer whose postings do not net to zero. */
  lemma AnswerBreaks(
    accounts: seq<Account>, existing: set<nat>, rowLimit: nat, most: nat, entries: seq<Entry>, read: seq<Line>)
    requires DistinctIds(accounts) && ValidLedger(entries, existing) && |Flatten(entries)| <= most
    requires IsAnswer(read, accounts, Flatten(entries), rowLimit) && StaysSafe(accounts, read) && Net(read) != 0
    ensures !EquationShown(accounts, existing, rowLimit, most)
  {
    AnswerIsListed(read, accounts, Flatten(entries), rowLimit);
    hide ValidLedger, Shown, Net, SidesAgree, StaysSafe, Lists, Flatten, IsAnswer, DistinctIds;
    ShownSidesDifferByTheNet(accounts, read);
  }

  lemma OverfullIsValid(existing: set<nat>, account: nat, r: nat)
    requires r >= 1 && account in existing
    ensures ValidLedger(Overfull(account, r), existing) && |Flatten(Overfull(account, r))| == r + 1
  {
    hide Passes, Flatten, Overfull;
    OverfullShape(account, r);
  }

  lemma OverfullBreaks(accounts: seq<Account>, existing: set<nat>, rowLimit: nat, most: nat, account: nat)
    requires DistinctIds(accounts) && account in existing && Lists(accounts, account) && 1 <= rowLimit < most
    ensures !EquationShown(accounts, existing, rowLimit, most)
  {
    hide Net, StaysSafe, OnListed, Lists, Overfull, DistinctIds, EquationShown, IsAnswer, ValidLedger, Flatten, AllOn;
    var entries := Overfull(account, rowLimit);
    OverfullIsValid(existing, account, rowLimit);
    OverfullRead(accounts, rowLimit, account);
    PrefixIsAnswer(accounts, Flatten(entries), rowLimit);
    AnswerBreaks(accounts, existing, rowLimit, most, entries, Flatten(entries)[..rowLimit]);
  }

  /** What the list reads of such a ledger on a listed account: the first r postings, which do not net
      to zero. */
  lemma OverfullRead(accounts: seq<Account>, r: nat, account: nat)
    requires r >= 1 && Lists(accounts, account)
    ensures |Flatten(Overfull(account, r))| == r + 1
    ensures var ledger := Flatten(Overfull(account, r));
            && OnListed(accounts, ledger, true) == ledger
            && StaysSafe(accounts, ledger[..r]) && Net(ledger[..r]) == 1
            && AllOn(accounts, ledger[..r], true)
  {
    hide Passes, Net, StaysSafe, OnListed, Lists, Overfull;
    OverfullShape(account, r);
    var ledger := Flatten(Overfull(account, r));
    hide Flatten;
    AllListed(accounts, ledger, true);
    var read := ledger[..r];
    forall k | 0 <= k <= |read| ensures 0 <= Net(read[..k]) <= 2 {
      OverfullNets(account, r, k);
      assert read[..k] == ledger[..k];
    }
    OneAccountStaysSafe(accounts, read, account);
    OverfullNets(account, r, r);
  }

  lemma UnlistedBreaks(accounts: seq<Account>, existing: set<nat>, rowLimit: nat, most: nat, account: nat, other: nat)
    requires DistinctIds(accounts) && account in existing && other in existing
    requires Lists(accounts, account) && !Lists(accounts, other) && rowLimit >= 1 && most >= 2
    ensures !EquationShown(accounts, existing, rowLimit, most)
  {
    var entry := [Debit(account, 1), Credit(other, 1)];
    var read := [Debit(account, 1)];
    PairLedgerIsValid(existing, account, other);
    FirstIsListed(accounts, entry);
    OneDebit(accounts, account);
    hide ValidLedger, Net, StaysSafe, Lists, Flatten, OnListed, DistinctIds, EquationShown;
    PrefixIsAnswer(accounts, entry, rowLimit);
    assert read[..1] == read;
    hide IsAnswer;
    AnswerBreaks(accounts, existing, rowLimit, most, [entry], read);
  }

  lemma PairLedgerIsValid(existing: set<nat>, account: nat, other: nat)
    requires account in existing && other in existing
    ensures var entry := [Debit(account, 1), Credit(other, 1)];
            Flatten([entry]) == entry && ValidLedger([entry], existing)
  {
    var entry := [Debit(account, 1), Credit(other, 1)];
    SmallEntryPasses(entry);
    FlattenOne(entry);
    hide Passes, Flatten;
  }

  lemma OneDebit(accounts: seq<Account>, account: nat)
    ensures Net([Debit(account, 1)]) == 1 && StaysSafe(accounts, [Debit(account, 1)])
  {
    var read := [Debit(account, 1)];
    NetOfThree(account);
    assert read[..0] == [] && read[..1] == read;
    hide Net;
    OneAccountStaysSafe(accounts, read, account);
  }

  lemma FirstIsListed(accounts: seq<Account>, lines: seq<Line>)
    requires |lines| == 2 && Lists(accounts, lines[0].account) && !Lists(accounts, lines[1].account)
    ensures OnListed(accounts, lines, true) == [lines[0]]
  {
    hide Lists;
    var first := [lines[0]];
    assert Front(lines) == first && Front(first) == [];
    assert OnListed(accounts, [], true) == [];
    assert OnListed(accounts, first, true) == [] + first == first;
    assert OnListed(accounts, lines, true) == first + [];
  }

  /** For which lists of accounts, row limits and ledger sizes the shown balances always satisfy the
      accounting equation: when every account with postings is listed and the postings fit the row
      limit, or when nothing can be read or posted at all. */
  lemma EquationShownExactlyWhenAllIsSeen(accounts: seq<Account>, existing: set<nat>, rowLimit: nat, most: nat)
    requires DistinctIds(accounts)
    ensures EquationShown(accounts, existing, rowLimit, most)
       <==> (EachListed(accounts, existing) && most <= rowLimit)
            || most < 2 || rowLimit == 0 || !SomeListed(accounts, existing)
  {
    hide EquationShown, Lists, DistinctIds;
    if (EachListed(accounts, existing) && most <= rowLimit) || most < 2 || rowLimit == 0
       || !SomeListed(accounts, existing) {
      SeenLedgersAgree(accounts, existing, rowLimit, most);
    } else {
      var account: nat :| account in existing && Lists(accounts, account);
      if EachListed(accounts, existing) {
        OverfullBreaks(accounts, existing, rowLimit, most, account);
      } else {
        var other: nat :| other in existing && !Lists(accounts, other);
        UnlistedBreaks(accounts, existing, rowLimit, most, account, other);
      }
    }
  }
}
