/** When a finished seeder implies a complete catalogue, and what a further call does. */
module SeedingTheorems {
  import opened Seeding

  predicate Complete(st: State) {
    SLOTS <= Keys(st.categories)
  }

  /** Which parts of the environment may interfere with a run: failing reads; other requests that give an
      account a catalogue name, new or by renaming; and other requests that take one away, by deleting or
      renaming. Accounts of any other name come and go freely. */
  datatype Env = Env(firstReadFails: bool, secondReadFails: bool, readBackFails: bool, namesTaken: bool, namesFreed: bool)

  predicate Allowed(env: Env, step: Step) {
    match step
    case ReadCategories(_, ok) => ok || env.firstReadFails
    case ReadExisting(_, ok) => ok || env.secondReadFails
    case ReadBack(_, ok) => ok || env.readBackFails
    case ForeignAccount(name, _) => name !in SLOTS || env.namesTaken
    case RemoveAccount(name) => name !in SLOTS || env.namesFreed
    case RenameAccount(name, to) => (name !in SLOTS || env.namesFreed) && (to !in SLOTS || env.namesTaken)
    case _ => true
  }

  /** Any consistent tables, and any number of seeders about to start. */
  predicate Initial(st: State) {
    Inv(st) && forall i :: 0 <= i < |st.seeders| ==> st.seeders[i] == Ready
  }

  ghost predicate RunTo(env: Env, first: State, steps: seq<Step>, st: State) {
    && Initial(first) && Runs(first, steps) && Final(first, steps) == st
    && forall i :: 0 <= i < |steps| ==> Allowed(env, steps[i])
  }

  ghost predicate Reachable(env: Env, st: State) {
    exists first, steps :: RunTo(env, first, steps, st)
  }

  /** Once any one seeder has finished without an error, the whole catalogue is present. */
  ghost predicate FinishedMeansComplete(env: Env) {
    forall st | Reachable(env, st) :: Finished in st.seeders ==> Complete(st)
  }

  // ------------------------------------------------------------------ undisturbed runs

  /** The same catalogue names are taken. */
  predicate SameSlots(a: set<AccountRow>, b: set<AccountRow>) {
    SLOTS * Names(a) == SLOTS * Names(b)
  }

  lemma SlotsDecide(m: set<nat>, a: set<AccountRow>, b: set<AccountRow>)
    requires m <= SLOTS && SameSlots(a, b)
    ensures m - Names(a) == m - Names(b) && (m <= Names(a) <==> m <= Names(b))
  {
    hide Names;
    forall n | n in m ensures n in Names(a) <==> n in Names(b) {
      assert n in SLOTS * Names(a) <==> n in SLOTS * Names(b);
    }
  }

  /** What every undisturbed run keeps, with M the entries missing at the start: the catalogue names
      taken change at most once, to all of M's, and the categories at most once, to all. */
  predicate Undisturbed(first: State, st: State) {
    var m := SLOTS - Keys(first.categories);
    && (st.categories == first.categories || Complete(st))
    && (SameSlots(st.accounts, first.accounts) || m <= Names(st.accounts))
    && forall i :: 0 <= i < |st.seeders| ==> OnTrack(first, st, st.seeders[i])
  }

  predicate OnTrack(first: State, st: State, phase: Phase) {
    var m := SLOTS - Keys(first.categories);
    match phase
    case Ready => true
    case Lacking(missing) => missing == m
    case ToCreate(missing, toCreate) => missing == m && toCreate == m - Names(first.accounts)
    case Prepared(missing) => missing == m && m <= Names(st.accounts)
    case ToInsert(rows) => rows.Keys == m
    case Finished => Complete(st)
    case Failed => true
  }

  /** Tables that keep catalogue names and categories keep every other seeder on track. */
  lemma StaysOnTrack(first: State, st: State, next: State, phase: Phase)
    requires OnTrack(first, st, phase)
    requires SLOTS * Names(st.accounts) <= Names(next.accounts) && st.categories <= next.categories
    ensures OnTrack(first, next, phase)
  {
    if phase.Prepared? {
      hide Names;
      forall n | n in SLOTS - Keys(first.categories) ensures n in Names(next.accounts) {
        assert n in SLOTS * Names(st.accounts);
      }
    }
  }

  lemma NewNames(slots: set<nat>, nextId: nat)
    ensures Names(NewAccounts(slots, nextId)) == slots
  {
    forall n | n in slots ensures n in Names(NewAccounts(slots, nextId)) {
      assert AccountRow(nextId + n, n, KindOf(n)) in NewAccounts(slots, nextId);
    }
  }

  lemma NewKeys(rows: map<nat, nat>, nextId: nat)
    ensures Keys(NewCategories(rows, nextId)) == rows.Keys
  {
    forall n | n in rows ensures n in Keys(NewCategories(rows, nextId)) {
      assert CategoryRow(nextId + n, n, rows[n], KindOf(n)) in NewCategories(rows, nextId);
    }
  }

  lemma NamesOfUnion(a: set<AccountRow>, b: set<AccountRow>)
    ensures Names(a + b) == Names(a) + Names(b)
  {
  }

  lemma KeysOfUnion(a: set<CategoryRow>, b: set<CategoryRow>)
    ensures Keys(a + b) == Keys(a) + Keys(b)
  {
  }

  lemma TablesGrow(st: State, step: Step)
    requires Enabled(st, step) && !IsForeign(step)
    ensures st.accounts <= Next(st, step).accounts && st.categories <= Next(st, step).categories
    ensures SLOTS * Names(st.accounts) <= Names(Next(st, step).accounts)
  {
  }

  lemma NothingMissing(all: set<nat>, present: set<nat>)
    ensures all - present == {} <==> all <= present
  {
    forall n | n in all && all - present == {} ensures n in present {
      assert n !in all - present;
    }
  }

  const CALM: Env := Env(false, false, false, false, false)

  /** The seeder that moves stays on track, and so do the tables. */
  lemma MoverStaysOnTrack(first: State, st: State, step: Step)
    requires Undisturbed(first, st) && Inv(st) && Enabled(st, step)
    requires Allowed(CALM, step) && !IsForeign(step)
    ensures var next := Next(st, step);
            (next.categories == first.categories || Complete(next))
            && (SameSlots(next.accounts, first.accounts) || SLOTS - Keys(first.categories) <= Names(next.accounts))
            && OnTrack(first, next, next.seeders[step.who])
  {
    assert OnTrack(first, st, st.seeders[step.who]) && PhaseInCatalogue(st.seeders[step.who]);
    match step
    case ReadCategories(who, ok) =>
      NothingMissing(SLOTS, Keys(st.categories));
      hide Names, Keys, Inv;
    case ReadExisting(who, ok) =>
      SecondReadOnTrack(first, st, who);
      hide Inv, Names, Keys;
    case InsertAccounts(who, answer) =>
      AccountsInsertOnTrack(first, st, who, answer);
    case ReadBack(who, ok) =>
      ReadBackOnTrack(first, st, who);
      hide Inv;
    case InsertCategories(who, answer) =>
      CategoriesInsertOnTrack(first, st, who, answer);
  }

  lemma SecondReadOnTrack(first: State, st: State, who: nat)
    requires Undisturbed(first, st) && Enabled(st, ReadExisting(who, true)) && OnTrack(first, st, st.seeders[who])
    ensures var next := Next(st, ReadExisting(who, true));
            next.accounts == st.accounts && next.categories == st.categories && OnTrack(first, next, next.seeders[who])
  {
    var m := SLOTS - Keys(first.categories);
    NothingMissing(m, Names(st.accounts));
    hide Names, Keys;
    if SameSlots(st.accounts, first.accounts) {
      SlotsDecide(m, st.accounts, first.accounts);
    }
  }

  lemma ReadBackOnTrack(first: State, st: State, who: nat)
    requires Enabled(st, ReadBack(who, true)) && OnTrack(first, st, st.seeders[who])
    requires PhaseInCatalogue(st.seeders[who])
    ensures OnTrack(first, Next(st, ReadBack(who, true)), Next(st, ReadBack(who, true)).seeders[who])
    ensures Next(st, ReadBack(who, true)).accounts == st.accounts
    ensures Next(st, ReadBack(who, true)).categories == st.categories
  {
    var rows := RowsFor(st.accounts, st.seeders[who].missing);
    RowsForKeys(st.accounts, st.seeders[who].missing);
    hide RowsFor, Names, Keys;
    assert rows == map[] ==> rows.Keys == {};
  }

  lemma AccountsInsertOnTrack(first: State, st: State, who: nat, answer: Answer)
    requires Undisturbed(first, st) && Enabled(st, InsertAccounts(who, answer))
    requires OnTrack(first, st, st.seeders[who])
    ensures var next := Next(st, InsertAccounts(who, answer));
            next.categories == st.categories
            && (SameSlots(next.accounts, first.accounts) || SLOTS - Keys(first.categories) <= Names(next.accounts))
            && OnTrack(first, next, next.seeders[who])
  {
    var phase := st.seeders[who];
    NewNames(phase.toCreate, st.nextId);
    NamesOfUnion(st.accounts, NewAccounts(phase.toCreate, st.nextId));
    var m := SLOTS - Keys(first.categories);
    hide Keys, NewAccounts, Names;
    if SameSlots(st.accounts, first.accounts) {
      SlotsDecide(m, st.accounts, first.accounts);
      assert phase.toCreate * Names(st.accounts) == {};
    }
    assert st.accounts + {} == st.accounts;
  }

  lemma NamesWithout(accounts: set<AccountRow>, name: nat)
    ensures Names(Without(accounts, name)) == Names(accounts) - {name}
  {
    forall n | n in Names(accounts) && n != name ensures n in Names(Without(accounts, name)) {
      var a :| a in accounts && a.name == n;
      assert a in Without(accounts, name);
    }
  }

  lemma NamesRenamed(accounts: set<AccountRow>, name: nat, to: nat)
    ensures Names(Renamed(accounts, name, to))
         == if name in Names(accounts) then Names(accounts) - {name} + {to} else Names(accounts)
  {
    var renamed := Renamed(accounts, name, to);
    forall a | a in accounts ensures (if a.name == name then to else a.name) in Names(renamed) {
      assert (if a.name == name then a.(name := to) else a) in renamed;
    }
  }

  /** Other requests that keep away from the catalogue's names. */
  lemma ForeignKeepsSlots(st: State, step: Step)
    requires Enabled(st, step) && IsForeign(step) && Allowed(CALM, step)
    ensures SameSlots(Next(st, step).accounts, st.accounts)
    ensures Next(st, step).categories == st.categories && Next(st, step).seeders == st.seeders
  {
    match step
    case ForeignAccount(name, kind) =>
      NamesOfUnion(st.accounts, {AccountRow(st.nextId, name, kind)});
      assert Names({AccountRow(st.nextId, name, kind)}) == {name};
    case RemoveAccount(name) => NamesWithout(st.accounts, name);
    case RenameAccount(name, to) => NamesRenamed(st.accounts, name, to);
  }

  lemma ForeignStaysUndisturbed(first: State, st: State, step: Step)
    requires Undisturbed(first, st) && Enabled(st, step) && IsForeign(step) && Allowed(CALM, step)
    ensures Undisturbed(first, Next(st, step))
  {
    var next := Next(st, step);
    ForeignKeepsSlots(st, step);
    var m := SLOTS - Keys(first.categories);
    SlotsDecide(m, next.accounts, st.accounts);
    hide Names, Keys, OnTrack, Next, Enabled, Allowed;
    forall i | 0 <= i < |next.seeders| ensures OnTrack(first, next, next.seeders[i]) {
      StaysOnTrack(first, st, next, st.seeders[i]);
    }
  }

  lemma CategoriesInsertOnTrack(first: State, st: State, who: nat, answer: Answer)
    requires Undisturbed(first, st) && Enabled(st, InsertCategories(who, answer))
    requires OnTrack(first, st, st.seeders[who])
    ensures var next := Next(st, InsertCategories(who, answer));
            next.accounts == st.accounts
            && (next.categories == first.categories || Complete(next))
            && OnTrack(first, next, next.seeders[who])
  {
    var phase := st.seeders[who];
    NewKeys(phase.rows, st.nextId);
    KeysOfUnion(st.categories, NewCategories(phase.rows, st.nextId));
    hide Keys, Names, NewCategories, KindsAgree;
    assert phase.rows.Keys * Keys(first.categories) == {};
    assert st.categories + {} == st.categories;
  }

  lemma StepStaysUndisturbed(first: State, st: State, step: Step)
    requires Undisturbed(first, st) && Inv(st) && Enabled(st, step) && Allowed(CALM, step)
    ensures Undisturbed(first, Next(st, step))
  {
    if IsForeign(step) {
      ForeignStaysUndisturbed(first, st, step);
      hide Undisturbed;
    } else {
      TablesGrow(st, step);
      MoverStaysOnTrack(first, st, step);
      var next := Next(st, step);
      OthersDoNotMove(st, step);
      hide Next, Enabled, Inv, OnTrack, Complete, Names, Keys, SameSlots;
      forall i | 0 <= i < |next.seeders| ensures OnTrack(first, next, next.seeders[i]) {
        if i != step.who {
          StaysOnTrack(first, st, next, st.seeders[i]);
        }
      }
    }
  }

  lemma OthersDoNotMove(st: State, step: Step)
    requires Enabled(st, step) && !IsForeign(step)
    ensures |Next(st, step).seeders| == |st.seeders|
    ensures forall i :: 0 <= i < |st.seeders| && i != step.who ==> Next(st, step).seeders[i] == st.seeders[i]
  {
    hide NewAccounts, NewCategories, AfterFirstRead, AfterSecondRead, AfterReadBack, Names, Keys, KindsAgree;
  }

  lemma {:induction false} RunsStayUndisturbed(first: State, st: State, steps: seq<Step>)
    requires Undisturbed(first, st) && Inv(st) && Runs(st, steps)
    requires forall i :: 0 <= i < |steps| ==> Allowed(CALM, steps[i])
    ensures Undisturbed(first, Final(st, steps))
    decreases |steps|
  {
    hide Undisturbed, Inv, Enabled, Next, Allowed;
    if steps != [] {
      StepStaysUndisturbed(first, st, steps[0]);
      StepKeepsInv(st, steps[0]);
      RunsStayUndisturbed(first, Next(st, steps[0]), steps[1..]);
    }
  }

  // ------------------------------------------------------------------ five disturbed runs

  lemma {:induction false} RunSnoc(st: State, steps: seq<Step>, step: Step)
    requires Runs(st, steps) && Enabled(Final(st, steps), step)
    ensures Runs(st, steps + [step]) && Final(st, steps + [step]) == Next(Final(st, steps), step)
    decreases |steps|
  {
    hide Enabled, Next;
    if steps == [] {
      assert [] + [step] == [step] && [step][1..] == [];
    } else {
      RunSnoc(Next(st, steps[0]), steps[1..], step);
      assert (steps + [step])[1..] == steps[1..] + [step];
    }
  }

  lemma ReachableNext(env: Env, st: State, step: Step, next: State)
    requires Reachable(env, st) && Allowed(env, step) && Enabled(st, step) && Next(st, step) == next
    ensures Reachable(env, next)
  {
    var first, steps :| RunTo(env, first, steps, st);
    hide Enabled, Next, Allowed;
    RunSnoc(first, steps, step);
    assert RunTo(env, first, steps + [step], next);
  }

  lemma ReachableInitial(env: Env, st: State)
    requires Initial(st)
    ensures Reachable(env, st)
  {
    assert RunTo(env, st, [], st);
  }

  lemma SlotBounds()
    ensures 0 in SLOTS && 1 in SLOTS && SLOTS - {} == SLOTS
  {
  }

  /** Empty tables, read without trouble: everything is to be created. */
  lemma ReachToCreate(env: Env)
    ensures Reachable(env, State({}, {}, 0, [ToCreate(SLOTS, SLOTS)]))
  {
    SlotBounds();
    var s0 := State({}, {}, 0, [Ready]);
    ReachableInitial(env, s0);
    var s1 := State({}, {}, 0, [Lacking(SLOTS)]);
    var s2 := State({}, {}, 0, [ToCreate(SLOTS, SLOTS)]);
    assert Keys({}) == {} && Names({}) == {};
    hide Keys, Names, Inv;
    ReachableNext(env, s0, ReadCategories(0, true), s1);
    ReachableNext(env, s1, ReadExisting(0, true), s2);
  }

  /** A read-back that sees no account: the seeder returns without inserting anything. */
  lemma FailedReadBackIsSilent(env: Env)
    requires env.readBackFails
    ensures !FinishedMeansComplete(env)
  {
    ReachToCreate(env);
    SlotBounds();
    var s2 := State({}, {}, 0, [ToCreate(SLOTS, SLOTS)]);
    assert Names({}) == {} && Keys({}) == {};
    hide Names, Keys, NewAccounts;
    var s3 := State(NewAccounts(SLOTS, 0), {}, 16, [Prepared(SLOTS)]);
    ReachableNext(env, s2, InsertAccounts(0, Stored), s3);
    var s4 := State(NewAccounts(SLOTS, 0), {}, 16, [Finished]);
    ReachableNext(env, s3, ReadBack(0, false), s4);
    assert Finished in s4.seeders;
  }

  const LONE: AccountRow := AccountRow(0, 0, Expense)

  lemma LoneRows()
    ensures Names({LONE}) == {0} && RowsFor({LONE}, SLOTS) == map[0 := 0] && KindsAgree(map[0 := 0], {LONE})
  {
  }

  /** With one account in place and the batch of accounts refused, one category is inserted. */
  lemma LoneAccountEndsEarly(env: Env, nextId: nat)
    requires Reachable(env, State({LONE}, {}, nextId, [Prepared(SLOTS)]))
    ensures !FinishedMeansComplete(env)
  {
    LoneRows();
    SlotBounds();
    var rows: map<nat, nat> := map[0 := 0];
    NewKeys(rows, nextId);
    var s1 := State({LONE}, {}, nextId, [Prepared(SLOTS)]);
    var s2 := s1.(seeders := [ToInsert(rows)]);
    hide RowsFor, KindsAgree, NewCategories;
    assert 0 in rows;
    ReachableNext(env, s1, ReadBack(0, true), s2);
    var s3 := State({LONE}, NewCategories(rows, nextId), nextId + 16, [Finished]);
    assert Keys({}) == {};
    ReachableNext(env, s2, InsertCategories(0, Stored), s3);
    assert Finished in s3.seeders && 1 !in Keys(s3.categories);
  }

  /** A failed second read makes the seeder insert an account that exists; the batch is refused. */
  lemma FailedSecondReadLosesTheBatch(env: Env)
    requires env.secondReadFails
    ensures !FinishedMeansComplete(env)
  {
    SlotBounds();
    LoneRows();
    var s0 := State({LONE}, {}, 1, [Ready]);
    ReachableInitial(env, s0);
    assert Keys({}) == {};
    hide Keys, Names, Inv;
    var s1 := s0.(seeders := [Lacking(SLOTS)]);
    ReachableNext(env, s0, ReadCategories(0, true), s1);
    var s2 := s0.(seeders := [ToCreate(SLOTS, SLOTS)]);
    ReachableNext(env, s1, ReadExisting(0, false), s2);
    assert 0 in SLOTS * Names({LONE});
    var s3 := State({LONE}, {}, 17, [Prepared(SLOTS)]);
    assert {LONE} + {} == {LONE};
    ReachableNext(env, s2, InsertAccounts(0, UniqueViolation), s3);
    LoneAccountEndsEarly(env, 17);
  }

  /** A foreign account that takes a catalogue name after the second read has the same effect. */
  lemma ForeignAccountLosesTheBatch(env: Env)
    requires env.namesTaken
    ensures !FinishedMeansComplete(env)
  {
    ReachToCreate(env);
    SlotBounds();
    LoneRows();
    var s2 := State({}, {}, 0, [ToCreate(SLOTS, SLOTS)]);
    var s3 := State({LONE}, {}, 1, [ToCreate(SLOTS, SLOTS)]);
    assert Names({}) == {} && {} + {LONE} == {LONE};
    hide Names;
    ReachableNext(env, s2, ForeignAccount(0, Expense), s3);
    assert 0 in SLOTS * Names({LONE});
    var s4 := State({LONE}, {}, 17, [Prepared(SLOTS)]);
    assert {LONE} + {} == {LONE};
    ReachableNext(env, s3, InsertAccounts(0, UniqueViolation), s4);
    LoneAccountEndsEarly(env, 17);
  }

  /** Every account as the catalogue has it. */
  function AllAccounts(): set<AccountRow> {
    NewAccounts(SLOTS, 0)
  }

  lemma AllAccountsAreConsistent()
    ensures Inv(State(AllAccounts(), {}, 16, [Ready])) && Names(AllAccounts()) == SLOTS && Keys({}) == {}
    ensures forall a :: a in AllAccounts() ==> a.kind == KindOf(a.name)
  {
    NewNames(SLOTS, 0);
  }

  lemma ReachAllPrepared(env: Env)
    ensures Reachable(env, State(AllAccounts(), {}, 16, [Prepared(SLOTS)]))
  {
    SlotBounds();
    AllAccountsAreConsistent();
    var s0 := State(AllAccounts(), {}, 16, [Ready]);
    ReachableInitial(env, s0);
    hide Keys, Names, Inv, AllAccounts;
    var s1 := s0.(seeders := [Lacking(SLOTS)]);
    ReachableNext(env, s0, ReadCategories(0, true), s1);
    assert SLOTS - SLOTS == {};
    ReachableNext(env, s1, ReadExisting(0, true), s0.(seeders := [Prepared(SLOTS)]));
  }

  /** What is read back from such accounts passes the trigger. */
  lemma ReadRowsAgree(accounts: set<AccountRow>, missing: set<nat>)
    requires forall a :: a in accounts && a.name in missing ==> a.kind == KindOf(a.name)
    ensures KindsAgree(RowsFor(accounts, missing), accounts)
    ensures RowsFor(accounts, missing).Keys == missing * Names(accounts)
  {
    RowsForKeys(accounts, missing);
    forall n | n in RowsFor(accounts, missing)
      ensures HasAccount(accounts, RowsFor(accounts, missing)[n], KindOf(n))
    {
      var a :| a in accounts && a.name == n && a.id == IdOf(accounts, n);
    }
  }

  /** One account has another name when the seeder reads back. */
  lemma ReachOneRenamed(env: Env) returns (left: set<AccountRow>)
    requires env.namesFreed
    ensures Reachable(env, State(left, {}, 16, [Prepared(SLOTS)]))
    ensures Names(left) == SLOTS - {0} + {16}
    ensures forall a :: a in left && a.name in SLOTS ==> a.kind == KindOf(a.name)
  {
    ReachAllPrepared(env);
    AllAccountsAreConsistent();
    left := Renamed(AllAccounts(), 0, 16);
    NamesRenamed(AllAccounts(), 0, 16);
    SlotBounds();
    hide Names, AllAccounts, Reachable;
    var st := State(AllAccounts(), {}, 16, [Prepared(SLOTS)]);
    ReachableNext(env, st, RenameAccount(0, 16), st.(accounts := left));
  }

  /** One category is missing from the rows of a seeder, which ends without an error all the same. */
  lemma PartialRowsEndEarly(env: Env, accounts: set<AccountRow>, rows: map<nat, nat>)
    requires Reachable(env, State(accounts, {}, 16, [ToInsert(rows)]))
    requires KindsAgree(rows, accounts) && 0 !in rows
    ensures !FinishedMeansComplete(env)
  {
    SlotBounds();
    NewKeys(rows, 16);
    assert Keys({}) == {};
    var st := State(accounts, {}, 16, [ToInsert(rows)]);
    var last := State(accounts, NewCategories(rows, 16), 32, [Finished]);
    hide Keys, KindsAgree, NewCategories, Reachable;
    assert {} + NewCategories(rows, 16) == NewCategories(rows, 16);
    ReachableNext(env, st, InsertCategories(0, Stored), last);
    assert Finished in last.seeders && !Complete(last);
  }

  /** Prepared with all accounts in place, one of them is renamed before the read-back: fifteen categories
      are inserted. */
  lemma RenamedAccountIsLeftOut(env: Env)
    requires env.namesFreed
    ensures !FinishedMeansComplete(env)
  {
    var left := ReachOneRenamed(env);
    SlotBounds();
    ReadRowsAgree(left, SLOTS);
    var rows := RowsFor(left, SLOTS);
    hide Names, RowsFor, KindsAgree, Reachable, FinishedMeansComplete;
    assert 1 in rows && 0 !in rows;
    var st := State(left, {}, 16, [Prepared(SLOTS)]);
    ReachableNext(env, st, ReadBack(0, true), st.(seeders := [ToInsert(rows)]));
    PartialRowsEndEarly(env, left, rows);
  }

  const FIRST: CategoryRow := CategoryRow(16, 0, 0, Expense)

  /** All accounts and one category, as an earlier run left them. */
  function HalfSeeded(phase: Phase): State {
    State(NewAccounts(SLOTS, 0), {FIRST}, 17, [phase])
  }

  lemma HalfSeededIsConsistent()
    ensures Inv(HalfSeeded(Ready)) && Names(NewAccounts(SLOTS, 0)) == SLOTS && Keys({FIRST}) == {0}
  {
    SlotBounds();
    NewNames(SLOTS, 0);
    assert AccountRow(0 + 0, 0, KindOf(0)) in NewAccounts(SLOTS, 0);
    assert HasAccount(NewAccounts(SLOTS, 0), 0, Expense);
  }

  lemma ReachHalfPrepared(env: Env)
    requires env.firstReadFails
    ensures Reachable(env, HalfSeeded(Prepared(SLOTS)))
  {
    SlotBounds();
    HalfSeededIsConsistent();
    ReachableInitial(env, HalfSeeded(Ready));
    hide Keys, Names, Inv, NewAccounts;
    ReachableNext(env, HalfSeeded(Ready), ReadCategories(0, false), HalfSeeded(Lacking(SLOTS)));
    assert SLOTS - SLOTS == {};
    ReachableNext(env, HalfSeeded(Lacking(SLOTS)), ReadExisting(0, true), HalfSeeded(Prepared(SLOTS)));
  }

  lemma ReadsBackAll(env: Env, accounts: set<AccountRow>, categories: set<CategoryRow>) returns (rows: map<nat, nat>)
    requires Reachable(env, State(accounts, categories, 17, [Prepared(SLOTS)])) && Names(accounts) == SLOTS
    ensures rows.Keys == SLOTS && Reachable(env, State(accounts, categories, 17, [ToInsert(rows)]))
  {
    rows := RowsFor(accounts, SLOTS);
    RowsForKeys(accounts, SLOTS);
    SlotBounds();
    hide Names, RowsFor, Reachable;
    assert 0 in rows;
    var st := State(accounts, categories, 17, [Prepared(SLOTS)]);
    ReachableNext(env, st, ReadBack(0, true), st.(seeders := [ToInsert(rows)]));
  }

  /** A batch refused because of one category that exists still ends without an error. */
  lemma RefusedBatchEndsEarly(env: Env, accounts: set<AccountRow>, rows: map<nat, nat>)
    requires Reachable(env, State(accounts, {FIRST}, 17, [ToInsert(rows)])) && rows.Keys == SLOTS
    ensures !FinishedMeansComplete(env)
  {
    SlotBounds();
    var st := State(accounts, {FIRST}, 17, [ToInsert(rows)]);
    var last := State(accounts, {FIRST}, 33, [Finished]);
    assert Keys({FIRST}) == {0};
    hide Reachable, Keys, KindsAgree, NewCategories;
    assert 0 in rows.Keys * Keys({FIRST});
    assert {FIRST} + {} == {FIRST};
    ReachableNext(env, st, InsertCategories(0, UniqueViolation), last);
    assert Finished in last.seeders && 1 !in Keys(last.categories);
  }

  /** A failed first read makes the seeder insert a category that exists; the batch is refused. */
  lemma FailedFirstReadLosesTheBatch(env: Env)
    requires env.firstReadFails
    ensures !FinishedMeansComplete(env)
  {
    ReachHalfPrepared(env);
    HalfSeededIsConsistent();
    hide Inv, Names, Keys, NewAccounts, Reachable, FinishedMeansComplete;
    var rows := ReadsBackAll(env, NewAccounts(SLOTS, 0), {FIRST});
    RefusedBatchEndsEarly(env, NewAccounts(SLOTS, 0), rows);
  }

  // ------------------------------------------------------------------ the theorems

  lemma InitialIsUndisturbed(st: State)
    requires Initial(st)
    ensures Undisturbed(st, st)
  {
  }

  /** With any number of seeders and any interleaving, a seeder that returns without an error leaves
      the whole catalogue present, exactly when no read fails and no other request gives an account a
      catalogue name or takes one away. */
  lemma FinishedMeansCompleteExactlyUndisturbed(env: Env)
    ensures FinishedMeansComplete(env) <==> env == CALM
  {
    if env.firstReadFails {
      FailedFirstReadLosesTheBatch(env);
    } else if env.secondReadFails {
      FailedSecondReadLosesTheBatch(env);
    } else if env.readBackFails {
      FailedReadBackIsSilent(env);
    } else if env.namesTaken {
      ForeignAccountLosesTheBatch(env);
    } else if env.namesFreed {
      RenamedAccountIsLeftOut(env);
    } else {
      forall st | Reachable(env, st) ensures Finished in st.seeders ==> Complete(st) {
        UndisturbedFinishIsComplete(env, st);
      }
    }
  }

  lemma UndisturbedFinishIsComplete(env: Env, st: State)
    requires env == CALM && Reachable(env, st)
    ensures Finished in st.seeders ==> Complete(st)
  {
    var first, steps :| RunTo(env, first, steps, st);
    InitialIsUndisturbed(first);
    hide Inv, Runs, Final, Allowed, Complete;
    RunsStayUndisturbed(first, first, steps);
    if Finished in st.seeders {
      var i :| 0 <= i < |st.seeders| && st.seeders[i] == Finished;
      assert OnTrack(first, st, st.seeders[i]);
    }
  }

  /** In every run, whatever fails: one row per key and per name, and every category's account exists. */
  lemma TablesStayConsistent(env: Env, st: State)
    requires Reachable(env, st)
    ensures UniqueKeys(st.categories) && UniqueNames(st.accounts) && Backed(st.categories, st.accounts)
  {
    var first, steps :| RunTo(env, first, steps, st);
    hide Runs, Final;
    RunsKeepInv(first, steps);
  }

  /** A complete catalogue never changes again, whatever fails. */
  lemma {:induction false} CompleteCategoriesNeverChange(st: State, steps: seq<Step>)
    requires Inv(st) && Complete(st) && Runs(st, steps)
    ensures Final(st, steps).categories == st.categories
    decreases |steps|
  {
    if steps != [] {
      CompleteStep(st, steps[0]);
      StepKeepsInv(st, steps[0]);
      hide Inv, Complete, Enabled, Next;
      CompleteCategoriesNeverChange(Next(st, steps[0]), steps[1..]);
    }
  }

  lemma CompleteStep(st: State, step: Step)
    requires Inv(st) && Complete(st) && Enabled(st, step)
    ensures Next(st, step).categories == st.categories && Complete(Next(st, step))
  {
  }

  predicate Settled(phase: Phase) {
    phase.Ready? || phase.Finished? || phase.Failed?
  }

  /** Once the catalogue is complete, further calls whose first read succeeds change nothing at all. */
  lemma {:induction false} FurtherCallsChangeNothing(st: State, steps: seq<Step>)
    requires Complete(st) && Runs(st, steps)
    requires forall i :: 0 <= i < |st.seeders| ==> Settled(st.seeders[i])
    requires forall i :: 0 <= i < |steps| ==> !IsForeign(steps[i]) && Allowed(Env(false, true, true, true, true), steps[i])
    ensures var last := Final(st, steps); last == st.(seeders := last.seeders)
    ensures |Final(st, steps).seeders| == |st.seeders|
    ensures forall i :: 0 <= i < |st.seeders| ==> Settled(Final(st, steps).seeders[i])
    decreases |steps|
  {
    if steps != [] {
      assert Allowed(Env(false, true, true, true, true), steps[0]) && !IsForeign(steps[0]);
      assert steps[0].ReadCategories? && Settled(st.seeders[steps[0].who]);
      NothingMissing(SLOTS, Keys(st.categories));
      var next := Next(st, steps[0]);
      assert next == st.(seeders := next.seeders);
      hide Keys, Names, Next, Enabled;
      FurtherCallsChangeNothing(next, steps[1..]);
    }
  }

  // ------------------------------------------------------------------ what a completed catalogue holds

  /** All categories are the catalogue's, each of the kind it has there. */
  predicate AsListed(categories: set<CategoryRow>) {
    forall c :: c in categories ==> c.key in SLOTS && c.kind == KindOf(c.key)
  }

  lemma {:induction false} RunsStayListed(st: State, steps: seq<Step>)
    requires Inv(st) && AsListed(st.categories) && Runs(st, steps)
    ensures AsListed(Final(st, steps).categories) && UniqueKeys(Final(st, steps).categories)
    decreases |steps|
  {
    if steps != [] {
      StepStaysListed(st, steps[0]);
      StepKeepsInv(st, steps[0]);
      hide Inv, AsListed, Enabled, Next;
      RunsStayListed(Next(st, steps[0]), steps[1..]);
    }
  }

  lemma StepStaysListed(st: State, step: Step)
    requires Inv(st) && AsListed(st.categories) && Enabled(st, step)
    ensures AsListed(Next(st, step).categories)
  {
    if step.InsertCategories? {
      assert PhaseInCatalogue(st.seeders[step.who]);
    }
    hide KindOf, Names, Keys;
  }

  /** The categories with a key in a range of the catalogue. */
  function InRange(categories: set<CategoryRow>, low: nat, high: nat): set<CategoryRow> {
    set c | c in categories && low <= c.key < high
  }

  lemma {:induction false} RangeIsCounted(categories: set<CategoryRow>, low: nat, high: nat)
    requires low <= high <= 16 && UniqueKeys(categories) && SLOTS <= Keys(categories)
    ensures |InRange(categories, low, high)| == high - low
    decreases high
  {
    if low == high {
      assert InRange(categories, low, high) == {};
    } else {
      RangeIsCounted(categories, low, high - 1);
      assert high - 1 in SLOTS;
      var c :| c in categories && c.key == high - 1;
      assert InRange(categories, low, high) == InRange(categories, low, high - 1) + {c};
    }
  }

  /** Whatever any number of seeders and other requests do, a catalogue completed from nothing has eleven
      expense and five income categories. */
  lemma CompletedCatalogue(st: State, steps: seq<Step>)
    requires Inv(st) && st.categories == {} && Runs(st, steps) && Complete(Final(st, steps))
    ensures |set c | c in Final(st, steps).categories && c.kind == Expense| == 11
    ensures |set c | c in Final(st, steps).categories && c.kind == Income| == 5
  {
    RunsStayListed(st, steps);
    var categories := Final(st, steps).categories;
    hide Inv, Runs, Final;
    RangeIsCounted(categories, 0, 11);
    RangeIsCounted(categories, 11, 16);
    hide UniqueKeys, Keys;
    assert InRange(categories, 0, 11) == set c | c in categories && c.kind == Expense;
    assert InRange(categories, 11, 16) == set c | c in categories && c.kind == Income;
  }
}
