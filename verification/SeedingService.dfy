/** The seeding method of apps/api/src/categories/categories.service.ts against one workspace's
    tables, shown to be a run of one seeder of the machine in Seeding. */
module SeedingService {
  import opened Seeding
  import opened SeedingTheorems

  /** How the network treats an insert. */
  datatype Fate = Arrives | NeverArrives | AnswerLost

  datatype Network = Network(firstRead: bool, secondRead: bool, accounts: Fate, readBack: bool, categories: Fate)

  function AnswerTo(fate: Fate, conflict: bool, refused: bool): Answer {
    if fate.NeverArrives? then Refused
    else if conflict then (if fate.Arrives? then UniqueViolation else Refused)
    else if refused then Refused
    else if fate.Arrives? then Stored else StoredUnseen
  }

  class CategoriesService {
    var accounts: set<AccountRow>
    var categories: set<CategoryRow>
    var nextId: nat

    ghost function WithSeeder(phase: Phase): State
      reads this
    {
      State(accounts, categories, nextId, [phase])
    }

    method InsertAccountRows(toCreate: set<nat>, fate: Fate) returns (answer: Answer)
      modifies this
      ensures answer == AnswerTo(fate, toCreate * Names(old(accounts)) != {}, false)
      ensures accounts == old(accounts)
                          + if answer.Stored? || answer.StoredUnseen? then NewAccounts(toCreate, old(nextId)) else {}
      ensures nextId == old(nextId) + 16 && categories == old(categories)
    {
      answer := AnswerTo(fate, toCreate * Names(accounts) != {}, false);
      if answer.Stored? || answer.StoredUnseen? {
        accounts := accounts + NewAccounts(toCreate, nextId);
      }
      nextId := nextId + 16;
    }

    method InsertCategoryRows(rows: map<nat, nat>, fate: Fate) returns (answer: Answer)
      modifies this
      ensures answer == AnswerTo(fate, rows.Keys * Keys(old(categories)) != {}, !KindsAgree(rows, old(accounts)))
      ensures categories == old(categories)
                            + if answer.Stored? || answer.StoredUnseen? then NewCategories(rows, old(nextId)) else {}
      ensures nextId == old(nextId) + 16 && accounts == old(accounts)
    {
      answer := AnswerTo(fate, rows.Keys * Keys(categories) != {}, !KindsAgree(rows, accounts));
      if answer.Stored? || answer.StoredUnseen? {
        categories := categories + NewCategories(rows, nextId);
      }
      nextId := nextId + 16;
    }

    /** Maps the read accounts by name and keeps the missing entries that have one. */
    method PrepareRows(missing: set<nat>) returns (rows: map<nat, nat>)
      requires UniqueNames(accounts) && missing <= SLOTS
      ensures rows == RowsFor(accounts, missing)
    {
      rows := map[];
      for n := 0 to 16
        invariant rows.Keys == set k | k in missing && k < n && k in Names(accounts)
        invariant forall k :: k in rows ==> rows[k] == IdOf(accounts, k)
      {
        if n in missing && n in Names(accounts) {
          var a :| a in accounts && a.name == n;
          rows := rows[n := a.id];
        }
      }
    }

    /** One call of the service: a run of one seeder, ending with or without an error. */
    method SeedSystemCategories(net: Network) returns (outcome: Phase, ghost steps: seq<Step>)
      requires Inv(WithSeeder(Ready))
      modifies this
      ensures outcome == Finished || outcome == Failed
      ensures Led(old(WithSeeder(Ready)), steps, WithSeeder(outcome))
      ensures net.accounts.Arrives? && net.categories.Arrives? && AsInCatalogue(old(accounts)) ==> outcome == Finished
      ensures net == GOOD && AsInCatalogue(old(accounts)) ==> outcome == Finished && SLOTS <= Keys(categories)
    {
      hide KindsAgree, Names, Keys, NewAccounts, NewCategories, RowsFor, UniqueKeys, UniqueNames, Backed, UniqueIds,
           IdsBelow, Enabled, Next, Runs, Final, SLOTS, AsInCatalogue;
      ghost var first := WithSeeder(Ready);
      steps := NoSteps(first);
      var existing := if net.firstRead then Keys(categories) else {};
      var missing := SLOTS - existing;
      steps := FirstReadStep(first, steps, first, net.firstRead, missing);
      NothingMissing(SLOTS, existing);
      if missing == {} {
        return Finished, steps;
      }

      var haveAccount := if net.secondRead then Names(accounts) else {};
      var toCreate := missing - haveAccount;
      steps := SecondReadStep(first, steps, WithSeeder(Lacking(missing)), net.secondRead, toCreate);

      NothingMissing(missing, haveAccount);
      if toCreate != {} {
        ghost var before := WithSeeder(ToCreate(missing, toCreate));
        var answer := InsertAccountRows(toCreate, net.accounts);
        var failed := !answer.Stored? && !answer.UniqueViolation?;
        AccountsFit(before.accounts, missing, toCreate, before.nextId);
        steps := AccountsStep(first, steps, before, answer, WithSeeder(if failed then Failed else Prepared(missing)));
        if failed {
          return Failed, steps;
        }
      }

      var rows: map<nat, nat> := map[];
      if net.readBack {
        InvParts(WithSeeder(Prepared(missing)));
        rows := PrepareRows(missing);
      }
      steps := ReadBackStep(first, steps, WithSeeder(Prepared(missing)), net.readBack, rows);
      RowsFit(accounts, categories, missing, rows, nextId);
      if rows == map[] {
        return Finished, steps;
      }

      ghost var before := WithSeeder(ToInsert(rows));
      var answer := InsertCategoryRows(rows, net.categories);
      outcome := if answer.Stored? || answer.UniqueViolation? then Finished else Failed;
      steps := CategoriesStep(first, steps, before, answer, WithSeeder(outcome));
    }
  }

  const GOOD: Network := Network(true, true, Arrives, true, Arrives)

  /** Accounts under catalogue names are of the catalogue's kinds. */
  predicate AsInCatalogue(accounts: set<AccountRow>) {
    forall a :: a in accounts && a.name in SLOTS ==> a.kind == KindOf(a.name)
  }

  lemma NewAccountsAreListed(accounts: set<AccountRow>, toCreate: set<nat>, nextId: nat)
    requires AsInCatalogue(accounts)
    ensures AsInCatalogue(accounts + NewAccounts(toCreate, nextId))
  {
    hide KindOf;
  }

  lemma RowsAgree(accounts: set<AccountRow>, missing: set<nat>, rows: map<nat, nat>)
    requires missing <= SLOTS && AsInCatalogue(accounts) && (rows == map[] || rows == RowsFor(accounts, missing))
    ensures KindsAgree(rows, accounts)
  {
    ReadRowsAgree(accounts, missing);
    hide RowsFor, KindOf, Names;
  }

  lemma NewAccountsFit(accounts: set<AccountRow>, missing: set<nat>, toCreate: set<nat>, nextId: nat)
    requires missing <= SLOTS && toCreate == missing - Names(accounts) && AsInCatalogue(accounts)
    ensures toCreate * Names(accounts) == {}
    ensures var all := accounts + NewAccounts(toCreate, nextId); missing <= Names(all) && AsInCatalogue(all)
  {
    NewNames(toCreate, nextId);
    NamesOfUnion(accounts, NewAccounts(toCreate, nextId));
    hide KindOf;
  }

  /** What the first insert leaves, whether it was made or not. */
  lemma AccountsFit(accounts: set<AccountRow>, missing: set<nat>, toCreate: set<nat>, nextId: nat)
    requires missing <= SLOTS
    ensures var all := accounts + NewAccounts(toCreate, nextId);
            && (AsInCatalogue(accounts) ==> AsInCatalogue(all) && AsInCatalogue(accounts + {}))
            && (AsInCatalogue(accounts) && toCreate == missing - Names(accounts) ==>
                  toCreate * Names(accounts) == {} && missing <= Names(all))
  {
    assert accounts + {} == accounts;
    if AsInCatalogue(accounts) {
      NewAccountsAreListed(accounts, toCreate, nextId);
      if toCreate == missing - Names(accounts) {
        NewAccountsFit(accounts, missing, toCreate, nextId);
      }
    }
  }

  /** How the second insert will be answered. */
  lemma RowsFit(
    accounts: set<AccountRow>, categories: set<CategoryRow>, missing: set<nat>, rows: map<nat, nat>, nextId: nat)
    requires missing <= SLOTS
    ensures AsInCatalogue(accounts) && (rows == map[] || rows == RowsFor(accounts, missing)) ==> KindsAgree(rows, accounts)
    ensures AsInCatalogue(accounts) && rows == RowsFor(accounts, missing)
            && missing == SLOTS - Keys(categories) && missing <= Names(accounts) ==>
              rows.Keys * Keys(categories) == {} && SLOTS <= Keys(categories + NewCategories(rows, nextId))
              && (missing != {} ==> rows != map[])
  {
    if AsInCatalogue(accounts) && (rows == map[] || rows == RowsFor(accounts, missing)) {
      RowsAgree(accounts, missing, rows);
      if rows == RowsFor(accounts, missing) && missing == SLOTS - Keys(categories) && missing <= Names(accounts) {
        GoodRows(accounts, categories, missing, rows, nextId);
        assert rows == map[] ==> rows.Keys == {};
      }
    }
  }

  lemma GoodRows(
    accounts: set<AccountRow>, categories: set<CategoryRow>, missing: set<nat>, rows: map<nat, nat>, nextId: nat)
    requires missing == SLOTS - Keys(categories) && missing <= Names(accounts) && AsInCatalogue(accounts)
    requires rows == RowsFor(accounts, missing)
    ensures rows.Keys == missing && KindsAgree(rows, accounts) && rows.Keys * Keys(categories) == {}
    ensures SLOTS <= Keys(categories + NewCategories(rows, nextId))
  {
    ReadRowsAgree(accounts, missing);
    NewKeys(rows, nextId);
    KeysOfUnion(categories, NewCategories(rows, nextId));
    hide Keys, Names, KindsAgree, NewCategories, KindOf;
    assert missing * Names(accounts) == missing;
  }

  /** `st` is where `steps` lead from the consistent state `first`. */
  ghost predicate Led(first: State, steps: seq<Step>, st: State) {
    Runs(first, steps) && Final(first, steps) == st && Inv(st)
  }

  lemma NoSteps(first: State) returns (steps: seq<Step>)
    requires Inv(first)
    ensures Led(first, steps, first)
  {
    steps := [];
  }

  lemma InvParts(st: State)
    requires Inv(st) && st.seeders != []
    ensures UniqueNames(st.accounts) && PhaseInCatalogue(st.seeders[0])
  {
  }

  lemma FirstReadStep(first: State, steps: seq<Step>, st: State, ok: bool, missing: set<nat>)
    returns (longer: seq<Step>)
    requires Led(first, steps, st) && st.seeders == [Ready]
    requires missing == SLOTS - if ok then Keys(st.categories) else {}
    ensures Led(first, longer, st.(seeders := [if missing == {} then Finished else Lacking(missing)]))
  {
    SlotBounds();
    hide Keys, Inv;
    longer := Advance(first, steps, st, ReadCategories(0, ok),
                      st.(seeders := [if missing == {} then Finished else Lacking(missing)]));
  }

  lemma SecondReadStep(first: State, steps: seq<Step>, st: State, ok: bool, toCreate: set<nat>)
    returns (longer: seq<Step>)
    requires Led(first, steps, st) && |st.seeders| == 1 && st.seeders[0].Lacking?
    requires toCreate == st.seeders[0].missing - if ok then Names(st.accounts) else {}
    ensures var missing := st.seeders[0].missing;
            Led(first, longer,
                st.(seeders := [if toCreate == {} then Prepared(missing) else ToCreate(missing, toCreate)]))
  {
    hide Names, Inv;
    var missing := st.seeders[0].missing;
    assert missing - {} == missing;
    longer := Advance(first, steps, st, ReadExisting(0, ok),
                      st.(seeders := [if toCreate == {} then Prepared(missing) else ToCreate(missing, toCreate)]));
  }

  lemma AccountsStep(first: State, steps: seq<Step>, st: State, answer: Answer, next: State)
    returns (longer: seq<Step>)
    requires Led(first, steps, st) && |st.seeders| == 1 && st.seeders[0].ToCreate?
    requires AnswerPossible(answer, st.seeders[0].toCreate * Names(st.accounts) != {}, false)
    requires var stored := answer.Stored? || answer.StoredUnseen?;
             var fine := answer.Stored? || answer.UniqueViolation?;
             next == State(st.accounts + if stored then NewAccounts(st.seeders[0].toCreate, st.nextId) else {},
                           st.categories, st.nextId + 16, [if fine then Prepared(st.seeders[0].missing) else Failed])
    ensures Led(first, longer, next)
  {
    hide Names, Inv, NewAccounts;
    longer := Advance(first, steps, st, InsertAccounts(0, answer), next);
  }

  lemma ReadBackStep(first: State, steps: seq<Step>, st: State, ok: bool, rows: map<nat, nat>)
    returns (longer: seq<Step>)
    requires Led(first, steps, st) && |st.seeders| == 1 && st.seeders[0].Prepared?
    requires rows == if ok then RowsFor(st.accounts, st.seeders[0].missing) else map[]
    ensures Led(first, longer, st.(seeders := [if rows == map[] then Finished else ToInsert(rows)]))
  {
    hide RowsFor, Inv;
    longer := Advance(first, steps, st, ReadBack(0, ok),
                      st.(seeders := [if rows == map[] then Finished else ToInsert(rows)]));
  }

  lemma CategoriesStep(first: State, steps: seq<Step>, st: State, answer: Answer, next: State)
    returns (longer: seq<Step>)
    requires Led(first, steps, st) && |st.seeders| == 1 && st.seeders[0].ToInsert?
    requires AnswerPossible(answer, st.seeders[0].rows.Keys * Keys(st.categories) != {},
                            !KindsAgree(st.seeders[0].rows, st.accounts))
    requires var stored := answer.Stored? || answer.StoredUnseen?;
             var fine := answer.Stored? || answer.UniqueViolation?;
             next == State(st.accounts,
                           st.categories + if stored then NewCategories(st.seeders[0].rows, st.nextId) else {},
                           st.nextId + 16, [if fine then Finished else Failed])
    ensures Led(first, longer, next)
  {
    hide Keys, KindsAgree, Inv, NewCategories;
    longer := Advance(first, steps, st, InsertCategories(0, answer), next);
  }

  /** A step after a run from a consistent state is a run, and ends consistent. */
  lemma Advance(first: State, steps: seq<Step>, st: State, step: Step, next: State) returns (longer: seq<Step>)
    requires Led(first, steps, st) && Enabled(st, step) && Next(st, step) == next
    ensures Led(first, longer, next)
  {
    longer := steps + [step];
    hide Inv, Enabled, Next;
    RunSnoc(first, steps, step);
    StepKeepsInv(st, step);
  }
}
