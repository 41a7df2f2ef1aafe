/** Opening balances of apps/api/src/accounts/accounts.service.ts: what the account list shows of the
    entry that creating an account posts. */
module OpeningBalances {
  import opened Common
  import opened Sequences
  import opened Ieee754
  import opened Money
  import opened EntryBalance
  import opened Ledger

  /** The two postings of an opening entry. */
  function OpeningEntry(account: Account, equity: nat, amount: int): Entry {
    var size := Abs(amount);
    var onDebit, onCredit := Posting(size, 0), Posting(0, size);
    if account.normal == DebitNormal then [Line(account.id, onDebit), Line(equity, onCredit)]
    else [Line(account.id, onCredit), Line(equity, onDebit)]
  }

  /** What the database allowed: each failed step ends the method without postings and without error. */
  datatype OpeningSteps = OpeningSteps(entryInserted: bool, equityAvailable: bool, postingsInserted: bool)

  function PostedOpening(account: Account, equity: nat, amount: int, steps: OpeningSteps): Entry {
    if amount == 0 || !steps.entryInserted || !steps.equityAvailable || !steps.postingsInserted then []
    else OpeningEntry(account, equity, amount)
  }

  lemma OpeningEntryIsBalanced(account: Account, equity: nat, amount: int)
    requires amount != 0
    ensures Faultless(Postings(OpeningEntry(account, equity, amount)))
    ensures Balanced(OpeningEntry(account, equity, amount))
    ensures Sum(Debits(Postings(OpeningEntry(account, equity, amount)))) == Abs(amount)
  {
    var postings := Postings(OpeningEntry(account, equity, amount));
    var first, second := postings[0], postings[1];
    assert Debits(postings) == [first.debitMinor] + [second.debitMinor];
    assert Credits(postings) == [first.creditMinor] + [second.creditMinor];
    SumPair(first.debitMinor, second.debitMinor);
    SumPair(first.creditMinor, second.creditMinor);
  }

  predicate NothingOn(lines: seq<Line>, id: nat) {
    forall i :: 0 <= i < |lines| ==> lines[i].account != id
  }

  lemma {:induction false} NoDeltas(lines: seq<Line>, id: nat)
    requires NothingOn(lines, id)
    ensures DeltasOn(lines, id) == []
  {
    if lines != [] {
      NoDeltas(Front(lines), id);
      assert Last(lines) == lines[|lines| - 1];
    }
  }

  lemma SingleAmountIsExact(amount: int)
    requires IsSafe(amount)
    ensures RunningTotal([amount]) == Finite(amount)
  {
    SumPair(amount, 0);
    assert [amount][..0] == [] && [amount][..1] == [amount];
    ExactWhilePrefixesAreSafe([amount]);
  }

  /** Of postings in which one alone is on an account, either that one decides the account's balance, or it
      is not there and the balance is 0. */
  lemma {:induction false} LoneLineDecides(read: seq<Line>, all: seq<Line>, line: Line)
    requires multiset(read) <= multiset(all) && multiset(all)[line] == 1
    requires forall other :: other in all && other.account == line.account ==> other == line
    ensures DeltasOn(read, line.account) == if line in read then [Delta(line)] else []
    decreases |read|
  {
    if read != [] {
      var front, last := Front(read), Last(read);
      assert read == front + [last];
      assert multiset(front) <= multiset(read) && last in multiset(read);
      assert last in all;
      assert multiset(read)[line] == multiset(front)[line] + if last == line then 1 else 0;
      LoneLineDecides(front, all, line);
      hide Delta;
      assert line in front <==> multiset(front)[line] > 0;
      assert [] + [Delta(line)] == [Delta(line)];
    }
  }

  lemma {:induction false} OnListedIsFrom(accounts: seq<Account>, lines: seq<Line>, line: Line)
    ensures multiset(OnListed(accounts, lines, true))[line]
         == if Lists(accounts, line.account) then multiset(lines)[line] else 0
  {
    if lines != [] {
      assert lines == Front(lines) + [Last(lines)];
      OnListedIsFrom(accounts, Front(lines), line);
      hide Lists;
    }
  }

  /** In a ledger with a completed opening entry, the account's one posting. */
  lemma OpeningLineIsAlone(account: Account, equity: nat, amount: int, accounts: seq<Account>, others: seq<Line>)
    requires equity != account.id && NothingOn(others, account.id)
    ensures var ledger, line := others + OpeningEntry(account, equity, amount), OpeningEntry(account, equity, amount)[0];
            var found := OnListed(accounts, ledger, true);
            && line.account == account.id
            && multiset(found)[line] == (if Lists(accounts, account.id) then 1 else 0)
            && forall other :: other in found && other.account == account.id ==> other == line
  {
    var entry := OpeningEntry(account, equity, amount);
    var ledger, line := others + entry, entry[0];
    assert entry == [line] + [entry[1]];
    assert multiset(ledger)[line] == multiset(others)[line] + 1;
    assert line !in others;
    OnListedIsFrom(accounts, ledger, line);
    forall other | other in OnListed(accounts, ledger, true) && other.account == account.id
      ensures other == line
    {
      OnListedIsFrom(accounts, ledger, other);
      assert other in ledger;
    }
  }

  /** Whatever the answer of the database, the account is shown with this balance. */
  ghost predicate AlwaysShown(account: Account, accounts: seq<Account>, ledger: seq<Line>, rowLimit: nat, shown: Double) {
    forall read | IsAnswer(read, accounts, ledger, rowLimit) :: ShownBalance(account, read) == shown
  }

  lemma UnlistedShowsZero(account: Account, accounts: seq<Account>, ledger: seq<Line>, rowLimit: nat, read: seq<Line>)
    requires !Lists(accounts, account.id) && IsAnswer(read, accounts, ledger, rowLimit)
    ensures NothingOn(read, account.id) && ShownBalance(account, read) == Finite(0)
  {
    AnswerIsListed(read, accounts, ledger, rowLimit);
    hide Lists;
    assert NothingOn(read, account.id);
    NoDeltas(read, account.id);
  }

  /** An answer holds the one posting of the account or not. */
  lemma CompletedOpeningShows(
    account: Account, equity: nat, amount: int, accounts: seq<Account>, others: seq<Line>, rowLimit: nat, read: seq<Line>)
    requires IsSafe(amount) && equity != account.id && NothingOn(others, account.id)
    requires IsAnswer(read, accounts, others + OpeningEntry(account, equity, amount), rowLimit)
    ensures ShownBalance(account, read)
         == Finite(if OpeningEntry(account, equity, amount)[0] in read then Abs(amount) else 0)
  {
    var ledger, line := others + OpeningEntry(account, equity, amount), OpeningEntry(account, equity, amount)[0];
    OpeningLineIsAlone(account, equity, amount, accounts, others);
    SingleAmountIsExact(Delta(line));
    assert RunningTotal([]) == Finite(0);
    hide RunningTotal, OnListed, DeltasOn, OpeningEntry;
    if Lists(accounts, account.id) {
      hide Lists;
      LoneLineDecides(read, OnListed(accounts, ledger, true), line);
    } else {
      UnlistedShowsZero(account, accounts, ledger, rowLimit, read);
    }
  }

  /** A selection of n postings without one that occurs once. */
  lemma LeavingOut(found: seq<Line>, line: Line, n: nat) returns (read: seq<Line>)
    requires multiset(found)[line] == 1 && n < |found|
    ensures |read| == n && multiset(read) <= multiset(found) && line !in read
  {
    assert line in multiset(found);
    var i :| 0 <= i < |found| && found[i] == line;
    var rest := found[..i] + found[i + 1..];
    MultisetWithout(found, i);
    assert rest == rest[..n] + rest[n..];
    read := rest[..n];
    assert multiset(read) <= multiset(rest) && line !in multiset(rest);
  }

  /** With room for all postings of listed accounts, every answer holds the account's posting; without, some
      answer leaves it out. */
  lemma OpeningLineIsRead(line: Line, accounts: seq<Account>, ledger: seq<Line>, rowLimit: nat)
    requires multiset(OnListed(accounts, ledger, true))[line] == 1
    ensures (forall read | IsAnswer(read, accounts, ledger, rowLimit) :: line in read)
       <==> |OnListed(accounts, ledger, true)| <= rowLimit
  {
    hide OnListed;
    var found := OnListed(accounts, ledger, true);
    if |found| <= rowLimit {
      forall read | IsAnswer(read, accounts, ledger, rowLimit) ensures line in read {
        FullAnswer(read, found);
        assert line in multiset(read);
      }
    } else {
      var read := LeavingOut(found, line, rowLimit);
      assert IsAnswer(read, accounts, ledger, rowLimit);
    }
  }

  lemma NothingPostedShowsZero(account: Account, accounts: seq<Account>, others: seq<Line>, rowLimit: nat, read: seq<Line>)
    requires NothingOn(others, account.id) && IsAnswer(read, accounts, others, rowLimit)
    ensures NothingOn(read, account.id) && ShownBalance(account, read) == Finite(0)
  {
    forall i | 0 <= i < |read| ensures read[i].account != account.id {
      assert read[i] in multiset(read);
      OnListedIsFrom(accounts, others, read[i]);
      assert read[i] in others;
    }
    NoDeltas(read, account.id);
  }

  /** Any one answer shows a completed opening by its absolute value or, when it leaves the posting out, as
      zero, as it shows every other. */
  lemma AnyAnswerShows(
    account: Account, equity: nat, amount: int, steps: OpeningSteps,
    accounts: seq<Account>, others: seq<Line>, rowLimit: nat, read: seq<Line>)
    requires IsSafe(amount) && equity != account.id && NothingOn(others, account.id)
    requires IsAnswer(read, accounts, others + PostedOpening(account, equity, amount, steps), rowLimit)
    ensures ShownBalance(account, read)
         == Finite(if OpeningEntry(account, equity, amount)[0] in read then Abs(amount) else 0)
  {
    hide IsAnswer, ShownBalance, OnListed;
    if PostedOpening(account, equity, amount, steps) == [] {
      assert others + [] == others;
      NothingPostedShowsZero(account, accounts, others, rowLimit, read);
    } else {
      CompletedOpeningShows(account, equity, amount, accounts, others, rowLimit, read);
    }
  }

  /** The conditions under which every answer holds the account's posting. */
  predicate OpeningIsSeen(account: Account, accounts: seq<Account>, ledger: seq<Line>, rowLimit: nat) {
    Lists(accounts, account.id) && |OnListed(accounts, ledger, true)| <= rowLimit
  }

  lemma CompletedOpeningAlwaysShown(
    account: Account, equity: nat, amount: int, accounts: seq<Account>, others: seq<Line>, rowLimit: nat)
    requires IsSafe(amount) && equity != account.id && NothingOn(others, account.id) && amount != 0
    ensures var ledger := others + OpeningEntry(account, equity, amount);
            AlwaysShown(account, accounts, ledger, rowLimit, Finite(amount))
            <==> amount > 0 && OpeningIsSeen(account, accounts, ledger, rowLimit)
  {
    hide IsAnswer, ShownBalance, OnListed, NothingOn, Lists;
    var ledger, line := others + OpeningEntry(account, equity, amount), OpeningEntry(account, equity, amount)[0];
    OpeningLineIsAlone(account, equity, amount, accounts, others);
    PrefixIsAnswer(accounts, ledger, rowLimit);
    hide OpeningEntry;
    forall read | IsAnswer(read, accounts, ledger, rowLimit)
      ensures ShownBalance(account, read) == Finite(if line in read then Abs(amount) else 0)
    {
      CompletedOpeningShows(account, equity, amount, accounts, others, rowLimit, read);
    }
    if Lists(accounts, account.id) {
      OpeningLineIsRead(line, accounts, ledger, rowLimit);
    } else {
      UnlistedIsNotRead(line, accounts, ledger, rowLimit);
    }
  }

  lemma UnlistedIsNotRead(line: Line, accounts: seq<Account>, ledger: seq<Line>, rowLimit: nat)
    requires !Lists(accounts, line.account)
    ensures forall read | IsAnswer(read, accounts, ledger, rowLimit) :: line !in read
  {
    forall read | IsAnswer(read, accounts, ledger, rowLimit) ensures line !in read {
      AnswerIsListed(read, accounts, ledger, rowLimit);
    }
  }

  /** A fresh account is shown with the opening balance it was created with, whatever postings the database
      answers, exactly when that balance is zero, or positive with every step of the entry done, the account
      listed, and the postings of listed accounts within the row limit. */
  lemma OpeningBalanceShown(
    account: Account, equity: nat, amount: int, steps: OpeningSteps,
    accounts: seq<Account>, others: seq<Line>, rowLimit: nat)
    requires IsSafe(amount) && equity != account.id && NothingOn(others, account.id)
    ensures var ledger := others + PostedOpening(account, equity, amount, steps);
            AlwaysShown(account, accounts, ledger, rowLimit, Finite(amount))
            <==> amount == 0
                 || (amount > 0 && steps == OpeningSteps(true, true, true)
                     && OpeningIsSeen(account, accounts, ledger, rowLimit))
  {
    hide IsAnswer, ShownBalance, OnListed, OpeningIsSeen, OpeningEntry, NothingOn;
    var ledger := others + PostedOpening(account, equity, amount, steps);
    if PostedOpening(account, equity, amount, steps) == OpeningEntry(account, equity, amount) && amount != 0 {
      OpeningEntryNotEmpty(account, equity, amount);
      CompletedOpeningAlwaysShown(account, equity, amount, accounts, others, rowLimit);
    } else {
      assert ledger == others;
      PrefixIsAnswer(accounts, ledger, rowLimit);
      forall read | IsAnswer(read, accounts, ledger, rowLimit) ensures ShownBalance(account, read) == Finite(0) {
        NothingPostedShowsZero(account, accounts, others, rowLimit, read);
      }
    }
  }

  lemma OpeningEntryNotEmpty(account: Account, equity: nat, amount: int)
    ensures OpeningEntry(account, equity, amount) != []
  {
  }
}
