/** The account list of apps/api/src/accounts/accounts.service.ts: the balances it accumulates from the
    postings it reads, and how their two sides relate. */
module Ledger {
  import opened Common
  import opened Sequences
  import opened Ieee754
  import opened Money
  import opened EntryBalance

  datatype NormalSide = DebitNormal | CreditNormal
  datatype Account = Account(id: nat, normal: NormalSide)

  /** A posting with the account it is on. */
  datatype Line = Line(account: nat, posting: Posting)

  type Entry = seq<Line>

  function PostingOf(line: Line): Posting {
    line.posting
  }

  function Postings(lines: seq<Line>): seq<Posting> {
    Map(PostingOf, lines)
  }

  /** Debit minus credit. */
  function Delta(line: Line): int {
    line.posting.debitMinor - line.posting.creditMinor
  }

  // ------------------------------------------------------------------ listAccounts

  /** The deltas of one account, in the order the postings were read. */
  function DeltasOn(lines: seq<Line>, account: nat): seq<int> {
    if lines == [] then []
    else DeltasOn(Front(lines), account) + if Last(lines).account == account then [Delta(Last(lines))] else []
  }

  function Negate(d: Double): Double {
    match d
    case Finite(value) => Finite(-value)
    case Infinite(negative) => Infinite(!negative)
  }

  /** The balance the list shows: the rounded total, with the sign of the account's normal side. */
  function ShownBalance(account: Account, read: seq<Line>): Double {
    var raw := RunningTotal(DeltasOn(read, account.id));
    if account.normal == CreditNormal then Negate(raw) else raw
  }

  /** The balances of the whole list. */
  function Shown(accounts: seq<Account>, read: seq<Line>): (balances: seq<Double>)
    ensures |balances| == |accounts|
  {
    seq(|accounts|, i requires 0 <= i < |accounts| => ShownBalance(accounts[i], read))
  }

  /** `balanceMap.get(id) || 0` */
  function Raw(balances: map<nat, Double>, id: nat): Double {
    if id in balances then balances[id] else Finite(0)
  }

  /** Accumulates all postings in one map and reads every account's balance from it. */
  method ListAccounts(accounts: seq<Account>, read: seq<Line>) returns (balances: seq<Double>)
    ensures balances == Shown(accounts, read)
  {
    hide AddRounded, MapHolds, RunningTotal, ShownBalance, DeltasOn, Negate;
    var balanceMap: map<nat, Double> := map[];
    assert read[..0] == [];
    EmptyMapHolds();
    for k := 0 to |read|
      invariant MapHolds(balanceMap, read[..k])
    {
      var line := read[k];
      var current := Raw(balanceMap, line.account);
      MapStep(balanceMap, read, k);
      balanceMap := balanceMap[line.account := AddRounded(current, Delta(line))];
    }
    assert read[..|read|] == read;
    balances := [];
    for i := 0 to |accounts|
      invariant |balances| == i
      invariant forall j :: 0 <= j < i ==> balances[j] == ShownBalance(accounts[j], read)
    {
      var raw := Raw(balanceMap, accounts[i].id);
      ShownFromMap(balanceMap, read, accounts[i]);
      balances := balances + [if accounts[i].normal == CreditNormal then Negate(raw) else raw];
    }
  }

  /** The map holds every account's rounded total. */
  ghost predicate MapHolds(balances: map<nat, Double>, read: seq<Line>) {
    forall id: nat :: Raw(balances, id) == RunningTotal(DeltasOn(read, id))
  }

  lemma EmptyMapHolds()
    ensures MapHolds(map[], [])
  {
  }

  lemma MapHoldsAt(balances: map<nat, Double>, read: seq<Line>, id: nat)
    requires MapHolds(balances, read)
    ensures Raw(balances, id) == RunningTotal(DeltasOn(read, id))
  {
  }

  lemma ShownFromMap(balances: map<nat, Double>, read: seq<Line>, account: Account)
    requires MapHolds(balances, read)
    ensures ShownBalance(account, read)
         == var raw := Raw(balances, account.id); if account.normal == CreditNormal then Negate(raw) else raw
  {
  }

  lemma MapStep(balances: map<nat, Double>, read: seq<Line>, k: nat)
    requires k < |read| && MapHolds(balances, read[..k])
    ensures var line := read[k];
            MapHolds(balances[line.account := AddRounded(Raw(balances, line.account), Delta(line))], read[..k + 1])
  {
    hide AddRounded, RunningTotal, DeltasOn;
    var line := read[k];
    var after := balances[line.account := AddRounded(Raw(balances, line.account), Delta(line))];
    assert read[..k + 1] == read[..k] + [line];
    forall id: nat ensures Raw(after, id) == RunningTotal(DeltasOn(read[..k + 1], id)) {
      MapHoldsAt(balances, read[..k], id);
      DeltasSnoc(read[..k], line, id);
      if id == line.account {
        RunningTotalSnoc(DeltasOn(read[..k], id), Delta(line));
      }
    }
  }

  lemma DeltasSnoc(lines: seq<Line>, line: Line, id: nat)
    ensures DeltasOn(lines + [line], id)
         == if line.account == id then DeltasOn(lines, id) + [Delta(line)] else DeltasOn(lines, id)
  {
  }

  // ------------------------------------------------------------------ exact balances

  function Net(lines: seq<Line>): int {
    Sum(Map(Delta, lines))
  }

  /** The signed sum of an account's postings. */
  function Balance(account: Account, lines: seq<Line>): int {
    var net := Sum(DeltasOn(lines, account.id));
    if account.normal == CreditNormal then -net else net
  }

  /** While every partial sum of an account is safe its shown balance is exact. */
  lemma ShownBalanceIsExact(account: Account, read: seq<Line>)
    requires PrefixSumsSafe(DeltasOn(read, account.id))
    ensures ShownBalance(account, read) == Finite(Balance(account, read))
  {
    ExactWhilePrefixesAreSafe(DeltasOn(read, account.id));
  }

  lemma {:induction false} ExactWhilePrefixesAreSafe(amounts: seq<int>)
    requires PrefixSumsSafe(amounts)
    ensures RunningTotal(amounts) == Finite(Sum(amounts))
  {
    if amounts != [] {
      var front := Front(amounts);
      assert forall k :: 0 <= k <= |front| ==> front[..k] == amounts[..k];
      ExactWhilePrefixesAreSafe(front);
      SumSnoc(front, Last(amounts));
      assert amounts == front + [Last(amounts)] && amounts[..|amounts|] == amounts;
      GuardDecidesExactly(Sum(amounts));
      hide Round;
    }
  }

  function SideTotal(accounts: seq<Account>, lines: seq<Line>, side: NormalSide): int {
    if accounts == [] then 0
    else (if accounts[0].normal == side then Balance(accounts[0], lines) else 0) + SideTotal(accounts[1..], lines, side)
  }

  predicate DistinctIds(accounts: seq<Account>) {
    forall i, j :: 0 <= i < j < |accounts| ==> accounts[i].id != accounts[j].id
  }

  predicate Lists(accounts: seq<Account>, id: nat) {
    exists i :: 0 <= i < |accounts| && accounts[i].id == id
  }

  lemma SumPair(a: int, b: int)
    ensures Sum([a] + [b]) == a + b && Sum([a]) == a
  {
    SumSnoc([], a);
    SumSnoc([a], b);
    assert [] + [a] == [a];
  }

  lemma NetSnoc(lines: seq<Line>)
    requires lines != []
    ensures Net(lines) == Net(Front(lines)) + Delta(Last(lines))
  {
    assert Map(Delta, lines) == Map(Delta, Front(lines)) + [Delta(Last(lines))];
    SumSnoc(Map(Delta, Front(lines)), Delta(Last(lines)));
  }

  /** Posting one more line moves the difference of the two sides by its delta. */
  lemma {:induction false} SidesMove(accounts: seq<Account>, lines: seq<Line>)
    requires lines != [] && DistinctIds(accounts)
    ensures SideTotal(accounts, lines, DebitNormal) - SideTotal(accounts, lines, CreditNormal)
         == SideTotal(accounts, Front(lines), DebitNormal) - SideTotal(accounts, Front(lines), CreditNormal)
            + if Lists(accounts, Last(lines).account) then Delta(Last(lines)) else 0
  {
    if accounts != [] {
      var first, rest := accounts[0], accounts[1..];
      SidesMove(rest, lines);
      BalanceMoves(first, lines);
      ListsSplit(accounts, Last(lines).account);
      hide Balance, Delta, Lists;
    }
  }

  lemma BalanceMoves(account: Account, lines: seq<Line>)
    requires lines != []
    ensures var moved := if Last(lines).account == account.id then Delta(Last(lines)) else 0;
            Balance(account, lines)
            == Balance(account, Front(lines)) + if account.normal == DebitNormal then moved else -moved
  {
    var before := DeltasOn(Front(lines), account.id);
    assert before + [] == before;
    SumSnoc(before, Delta(Last(lines)));
  }

  lemma ListsSplit(accounts: seq<Account>, id: nat)
    requires accounts != [] && DistinctIds(accounts)
    ensures Lists(accounts, id) <==> accounts[0].id == id || Lists(accounts[1..], id)
    ensures accounts[0].id == id ==> !Lists(accounts[1..], id)
  {
  }

  /** Over postings of listed accounts, debit-normal minus credit-normal balances is their net. */
  lemma {:induction false} SidesDifferByTheNet(accounts: seq<Account>, read: seq<Line>)
    requires DistinctIds(accounts) && forall i :: 0 <= i < |read| ==> Lists(accounts, read[i].account)
    ensures SideTotal(accounts, read, DebitNormal) - SideTotal(accounts, read, CreditNormal) == Net(read)
  {
    if read == [] {
      NothingPosted(accounts, DebitNormal);
      NothingPosted(accounts, CreditNormal);
    } else {
      SidesDifferByTheNet(accounts, Front(read));
      SidesMove(accounts, read);
      NetSnoc(read);
    }
  }

  lemma {:induction false} NothingPosted(accounts: seq<Account>, side: NormalSide)
    ensures SideTotal(accounts, [], side) == 0
  {
    if accounts != [] {
      NothingPosted(accounts[1..], side);
    }
  }

  // ------------------------------------------------------------------ the accounting equation

  function OnListed(accounts: seq<Account>, lines: seq<Line>, listed: bool): (r: seq<Line>)
    ensures forall i :: 0 <= i < |r| ==> (Lists(accounts, r[i].account) <==> listed)
  {
    if lines == [] then []
    else OnListed(accounts, Front(lines), listed)
         + if Lists(accounts, Last(lines).account) == listed then [Last(lines)] else []
  }

  /** An answer to the one query for postings: as many postings of listed accounts as the row limit of the
      API lets through, in any order and any selection, as the query asks for no order. A read that fails
      is taken as no postings by the service: the limit 0. */
  predicate IsAnswer(read: seq<Line>, accounts: seq<Account>, ledger: seq<Line>, rowLimit: nat) {
    var found := OnListed(accounts, ledger, true);
    |read| == Min(rowLimit, |found|) && multiset(read) <= multiset(found)
  }

  lemma AnswerIsListed(read: seq<Line>, accounts: seq<Account>, ledger: seq<Line>, rowLimit: nat)
    requires IsAnswer(read, accounts, ledger, rowLimit)
    ensures AllOn(accounts, read, true)
  {
    hide Lists;
    var found := OnListed(accounts, ledger, true);
    forall i | 0 <= i < |read| ensures Lists(accounts, read[i].account) {
      assert read[i] in multiset(read);
      assert read[i] in found;
    }
  }

  /** The first postings found are one of the answers. */
  lemma PrefixIsAnswer(accounts: seq<Account>, ledger: seq<Line>, rowLimit: nat)
    ensures var found := OnListed(accounts, ledger, true);
            IsAnswer(found[..Min(rowLimit, |found|)], accounts, ledger, rowLimit)
  {
    var found := OnListed(accounts, ledger, true);
    assert found == found[..Min(rowLimit, |found|)] + found[Min(rowLimit, |found|)..];
  }

  lemma NetAppend(a: seq<Line>, b: seq<Line>)
    ensures Net(a + b) == Net(a) + Net(b)
  {
    assert Map(Delta, a + b) == Map(Delta, a) + Map(Delta, b);
    SumAppend(Map(Delta, a), Map(Delta, b));
  }

  /** The same postings in another order net to the same. */
  lemma {:induction false} NetIgnoresOrder(a: seq<Line>, b: seq<Line>)
    requires multiset(a) == multiset(b)
    ensures Net(a) == Net(b)
    decreases |a|
  {
    hide Net;
    if a == [] {
      assert |multiset(b)| == 0;
      assert a == b;
    } else {
      var i := SameWithoutLast(a, b);
      NetIgnoresOrder(Front(a), b[..i] + b[i + 1..]);
      NetSnoc(a);
      NetWithout(b, i);
    }
  }

  lemma MultisetWithout<T>(s: seq<T>, i: nat)
    requires i < |s|
    ensures multiset(s[..i] + s[i + 1..]) == multiset(s) - multiset{s[i]}
  {
    assert s == s[..i] + [s[i]] + s[i + 1..];
  }

  /** Where b holds the last posting of a; the others are the same in both. */
  lemma SameWithoutLast(a: seq<Line>, b: seq<Line>) returns (i: nat)
    requires a != [] && multiset(a) == multiset(b)
    ensures i < |b| && b[i] == Last(a) && multiset(Front(a)) == multiset(b[..i] + b[i + 1..])
  {
    var last := Last(a);
    assert last in multiset(a);
    i :| 0 <= i < |b| && b[i] == last;
    assert a == Front(a) + [last];
    MultisetWithout(b, i);
    assert multiset(Front(a)) == multiset(a) - multiset{last};
  }

  lemma NetWithout(lines: seq<Line>, i: nat)
    requires i < |lines|
    ensures Net(lines) == Net(lines[..i] + lines[i + 1..]) + Delta(lines[i])
  {
    hide Net;
    var before, after := lines[..i], lines[i + 1..];
    assert lines == (before + [lines[i]]) + after && Front(before + [lines[i]]) == before;
    NetAppend(before + [lines[i]], after);
    NetSnoc(before + [lines[i]]);
    NetAppend(before, after);
  }

  lemma {:induction false} ListedAndUnlisted(accounts: seq<Account>, ledger: seq<Line>)
    ensures Net(ledger) == Net(OnListed(accounts, ledger, true)) + Net(OnListed(accounts, ledger, false))
  {
    if ledger != [] {
      var front, last := Front(ledger), Last(ledger);
      ListedAndUnlisted(accounts, front);
      NetSnoc(ledger);
      var listed := Lists(accounts, last.account);
      var same, other := OnListed(accounts, front, listed), OnListed(accounts, front, !listed);
      assert other + [] == other;
      NetSnoc(same + [last]);
      assert Front(same + [last]) == same;
      hide Net, Lists;
    }
  }

  /** `unseen` are the postings on listed accounts that the answer leaves out. */
  lemma SeenAndUnseen(accounts: seq<Account>, ledger: seq<Line>, read: seq<Line>, unseen: seq<Line>)
    requires multiset(read + unseen) == multiset(OnListed(accounts, ledger, true))
    ensures Net(ledger) == Net(read) + Net(unseen) + Net(OnListed(accounts, ledger, false))
  {
    hide Net, OnListed;
    NetIgnoresOrder(read + unseen, OnListed(accounts, ledger, true));
    ListedAndUnlisted(accounts, ledger);
    NetAppend(read, unseen);
  }

  /** An answer as long as what was found is all of it. */
  lemma FullAnswer(read: seq<Line>, found: seq<Line>)
    requires |read| == |found| && multiset(read) <= multiset(found)
    ensures multiset(read) == multiset(found)
  {
    var rest := multiset(found) - multiset(read);
    assert |multiset(read)| == |read| && |multiset(found)| == |found|;
    assert multiset(found) == multiset(read) + rest && |rest| == 0;
  }

  predicate Balanced(entry: Entry) {
    IsBalanced(Postings(entry))
  }

  lemma {:induction false} NetOfEntry(entry: Entry)
    ensures Net(entry) == Sum(Debits(Postings(entry))) - Sum(Credits(Postings(entry)))
  {
    if entry != [] {
      NetOfEntry(Front(entry));
      NetSnoc(entry);
      var d, c := Debits(Postings(Front(entry))), Credits(Postings(Front(entry)));
      assert Debits(Postings(entry)) == d + [Last(entry).posting.debitMinor];
      assert Credits(Postings(entry)) == c + [Last(entry).posting.creditMinor];
      SumSnoc(d, Last(entry).posting.debitMinor);
      SumSnoc(c, Last(entry).posting.creditMinor);
    }
  }

  lemma {:induction false} BalancedEntriesNetToZero(entries: seq<Entry>)
    requires forall i :: 0 <= i < |entries| ==> Balanced(entries[i])
    ensures Net(Flatten(entries)) == 0
  {
    if entries != [] {
      BalancedEntriesNetToZero(entries[1..]);
      NetAppend(entries[0], Flatten(entries[1..]));
      NetOfEntry(entries[0]);
    }
  }

  /** When every entry is balanced, exact debit-normal minus credit-normal balances of the listed
      accounts are minus the net of the postings the list never sees: those an answer leaves out, and
      those on accounts that are not listed. */
  lemma AccountingEquation(accounts: seq<Account>, entries: seq<Entry>, rowLimit: nat, read: seq<Line>, unseen: seq<Line>)
    requires DistinctIds(accounts) && forall i :: 0 <= i < |entries| ==> Balanced(entries[i])
    requires IsAnswer(read, accounts, Flatten(entries), rowLimit)
    requires multiset(read + unseen) == multiset(OnListed(accounts, Flatten(entries), true))
    ensures SideTotal(accounts, read, DebitNormal) - SideTotal(accounts, read, CreditNormal)
         == -(Net(unseen) + Net(OnListed(accounts, Flatten(entries), false)))
  {
    hide Net, OnListed, SideTotal, Balanced;
    var ledger := Flatten(entries);
    BalancedEntriesNetToZero(entries);
    SeenAndUnseen(accounts, ledger, read, unseen);
    AnswerIsListed(read, accounts, ledger, rowLimit);
    SidesDifferByTheNet(accounts, read);
  }

  /** All postings are on listed accounts, or none is. */
  predicate AllOn(accounts: seq<Account>, lines: seq<Line>, listed: bool) {
    forall i :: 0 <= i < |lines| ==> Lists(accounts, lines[i].account) == listed
  }

  lemma AllOnLast(accounts: seq<Account>, lines: seq<Line>, listed: bool)
    requires lines != [] && AllOn(accounts, lines, listed)
    ensures AllOn(accounts, Front(lines), listed) && Lists(accounts, Last(lines).account) == listed
    ensures Front(lines) + [Last(lines)] == lines
  {
    hide Lists;
    assert Last(lines) == lines[|lines| - 1];
  }

  lemma {:induction false} AllListed(accounts: seq<Account>, lines: seq<Line>, listed: bool)
    requires AllOn(accounts, lines, listed)
    ensures OnListed(accounts, lines, listed) == lines && OnListed(accounts, lines, !listed) == []
  {
    if lines != [] {
      hide Lists, OnListed, AllOn;
      AllOnLast(accounts, lines, listed);
      AllListed(accounts, Front(lines), listed);
      OnListedLast(accounts, lines, listed);
      OnListedLast(accounts, lines, !listed);
    }
  }

  lemma OnListedLast(accounts: seq<Account>, lines: seq<Line>, listed: bool)
    requires lines != []
    ensures OnListed(accounts, lines, listed)
         == if Lists(accounts, Last(lines).account) == listed then OnListed(accounts, Front(lines), listed) + [Last(lines)]
            else OnListed(accounts, Front(lines), listed)
  {
    hide Lists;
    assert OnListed(accounts, Front(lines), listed) + [] == OnListed(accounts, Front(lines), listed);
  }
}
