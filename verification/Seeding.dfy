/** Seeding the system categories: `seedSystemCategories` in
    apps/api/src/categories/categories.service.ts as interleaved steps of any number of seeders over
    one workspace's two tables, with the unique indexes and the trigger of
    supabase/migrations/00006_categories_alignment.sql. Catalogue entries are numbered; entry n stands
    for its translation key and for its account name, both of which differ between entries. */
module Seeding {

  datatype Kind = Income | Expense

  /** A ledger account of subtype CATEGORY; names from 16 on are not in the catalogue. */
  datatype AccountRow = AccountRow(id: nat, name: nat, kind: Kind)

  /** A category with a translation key. */
  datatype CategoryRow = CategoryRow(id: nat, key: nat, account: nat, kind: Kind)

  const SLOTS: set<nat> := set n: nat | n < 16

  /** The catalogue lists eleven expense categories, then five income categories. */
  function KindOf(slot: nat): Kind {
    if slot < 11 then Expense else Income
  }

  /** Where a seeder stands; each phase holds what the next statements still use. */
  datatype Phase =
    | Ready
    | Lacking(missing: set<nat>)
    | ToCreate(missing: set<nat>, toCreate: set<nat>)
    | Prepared(missing: set<nat>)
    | ToInsert(rows: map<nat, nat>)
    | Finished
    | Failed

  datatype State = State(accounts: set<AccountRow>, categories: set<CategoryRow>, nextId: nat, seeders: seq<Phase>)

  /** How an insert ends: stored; refused by a unique index; refused or lost for another reason; or
      stored while the seeder sees an error. */
  datatype Answer = Stored | UniqueViolation | Refused | StoredUnseen

  datatype Step =
    | ReadCategories(who: nat, ok: bool)
    | ReadExisting(who: nat, ok: bool)
    | InsertAccounts(who: nat, answer: Answer)
    | ReadBack(who: nat, ok: bool)
    | InsertCategories(who: nat, answer: Answer)
    | ForeignAccount(name: nat, kind: Kind)
    | RemoveAccount(name: nat)
    | RenameAccount(name: nat, to: nat)

  /** Steps of other requests: creating an account, deleting one (the roll-back of a category that could
      not be created), renaming one. */
  predicate IsForeign(step: Step) {
    step.ForeignAccount? || step.RemoveAccount? || step.RenameAccount?
  }

  function Names(accounts: set<AccountRow>): set<nat> {
    set a | a in accounts :: a.name
  }

  function Keys(categories: set<CategoryRow>): set<nat> {
    set c | c in categories :: c.key
  }

  ghost function IdOf(accounts: set<AccountRow>, name: nat): nat
    requires name in Names(accounts)
  {
    var a :| a in accounts && a.name == name;
    a.id
  }

  function NewAccounts(slots: set<nat>, nextId: nat): set<AccountRow> {
    set n | n in slots :: AccountRow(nextId + n, n, KindOf(n))
  }

  function NewCategories(rows: map<nat, nat>, nextId: nat): set<CategoryRow> {
    set n | n in rows :: CategoryRow(nextId + n, n, rows[n], KindOf(n))
  }

  /** The rows the seeder prepares from the accounts it read back. */
  ghost function RowsFor(accounts: set<AccountRow>, missing: set<nat>): map<nat, nat> {
    map n | n in missing && n in Names(accounts) :: IdOf(accounts, n)
  }

  predicate HasAccount(accounts: set<AccountRow>, id: nat, kind: Kind) {
    exists a :: a in accounts && a.id == id && a.kind == kind
  }

  /** The trigger: a category's account exists and is of the same kind. */
  predicate KindsAgree(rows: map<nat, nat>, accounts: set<AccountRow>) {
    forall n :: n in rows ==> HasAccount(accounts, rows[n], KindOf(n))
  }

  predicate AnswerPossible(answer: Answer, conflict: bool, refused: bool) {
    match answer
    case Stored => !conflict && !refused
    case StoredUnseen => !conflict && !refused
    case UniqueViolation => conflict
    case Refused => true
  }

  /** The account of a category cannot be deleted: the foreign key of `categories`. */
  predicate IsUsed(categories: set<CategoryRow>, id: nat) {
    exists c :: c in categories && c.account == id
  }

  predicate ForeignEnabled(st: State, step: Step)
    requires IsForeign(step)
  {
    match step
    case ForeignAccount(name, _) => name !in Names(st.accounts)
    case RemoveAccount(name) =>
      forall a :: a in st.accounts && a.name == name ==> !IsUsed(st.categories, a.id)
    case RenameAccount(name, to) => to !in Names(st.accounts)
  }

  predicate Enabled(st: State, step: Step) {
    if IsForeign(step) then ForeignEnabled(st, step)
    else
      step.who < |st.seeders|
      && var phase := st.seeders[step.who];
         match step
         case ReadCategories(_, _) => phase.Ready?
         case ReadExisting(_, _) => phase.Lacking?
         case InsertAccounts(_, answer) =>
           phase.ToCreate? && AnswerPossible(answer, phase.toCreate * Names(st.accounts) != {}, false)
         case ReadBack(_, _) => phase.Prepared?
         case InsertCategories(_, answer) =>
           phase.ToInsert?
           && AnswerPossible(answer, phase.rows.Keys * Keys(st.categories) != {}, !KindsAgree(phase.rows, st.accounts))
  }

  function AfterFirstRead(categories: set<CategoryRow>, ok: bool): Phase {
    var missing := if ok then SLOTS - Keys(categories) else SLOTS;
    if missing == {} then Finished else Lacking(missing)
  }

  function AfterSecondRead(accounts: set<AccountRow>, missing: set<nat>, ok: bool): Phase {
    var toCreate := if ok then missing - Names(accounts) else missing;
    if toCreate == {} then Prepared(missing) else ToCreate(missing, toCreate)
  }

  ghost function AfterReadBack(accounts: set<AccountRow>, missing: set<nat>, ok: bool): Phase {
    var rows := if ok then RowsFor(accounts, missing) else map[];
    if rows == map[] then Finished else ToInsert(rows)
  }

  function Without(accounts: set<AccountRow>, name: nat): set<AccountRow> {
    set a | a in accounts && a.name != name
  }

  /** An account keeps its id and its kind under its new name. */
  function Renamed(accounts: set<AccountRow>, name: nat, to: nat): set<AccountRow> {
    set a | a in accounts :: if a.name == name then a.(name := to) else a
  }

  ghost function Next(st: State, step: Step): State
    requires Enabled(st, step)
  {
    match step
    case ReadCategories(who, ok) =>
      st.(seeders := st.seeders[who := AfterFirstRead(st.categories, ok)])
    case ReadExisting(who, ok) =>
      st.(seeders := st.seeders[who := AfterSecondRead(st.accounts, st.seeders[who].missing, ok)])
    case InsertAccounts(who, answer) =>
      var phase := st.seeders[who];
      st.(accounts := st.accounts + if answer.Stored? || answer.StoredUnseen? then NewAccounts(phase.toCreate, st.nextId) else {},
          nextId := st.nextId + 16,
          seeders := st.seeders[who := if answer.Stored? || answer.UniqueViolation? then Prepared(phase.missing) else Failed])
    case ReadBack(who, ok) =>
      st.(seeders := st.seeders[who := AfterReadBack(st.accounts, st.seeders[who].missing, ok)])
    case InsertCategories(who, answer) =>
      var phase := st.seeders[who];
      st.(categories := st.categories + if answer.Stored? || answer.StoredUnseen? then NewCategories(phase.rows, st.nextId) else {},
          nextId := st.nextId + 16,
          seeders := st.seeders[who := if answer.Stored? || answer.UniqueViolation? then Finished else Failed])
    case ForeignAccount(name, kind) =>
      st.(accounts := st.accounts + {AccountRow(st.nextId, name, kind)}, nextId := st.nextId + 1)
    case RemoveAccount(name) => st.(accounts := Without(st.accounts, name))
    case RenameAccount(name, to) => st.(accounts := Renamed(st.accounts, name, to))
  }

  ghost predicate Runs(st: State, steps: seq<Step>)
    decreases |steps|
  {
    steps == [] || (Enabled(st, steps[0]) && Runs(Next(st, steps[0]), steps[1..]))
  }

  ghost function Final(st: State, steps: seq<Step>): State
    requires Runs(st, steps)
    decreases |steps|
  {
    if steps == [] then st else Final(Next(st, steps[0]), steps[1..])
  }

  // ------------------------------------------------------------------ every run

  predicate UniqueNames(accounts: set<AccountRow>) {
    forall a, b :: a in accounts && b in accounts && a.name == b.name ==> a == b
  }

  predicate UniqueKeys(categories: set<CategoryRow>) {
    forall c, d :: c in categories && d in categories && c.key == d.key ==> c == d
  }

  predicate Backed(categories: set<CategoryRow>, accounts: set<AccountRow>) {
    forall c :: c in categories ==> HasAccount(accounts, c.account, c.kind)
  }

  predicate IdsBelow(accounts: set<AccountRow>, categories: set<CategoryRow>, nextId: nat) {
    (forall a :: a in accounts ==> a.id < nextId) && (forall c :: c in categories ==> c.id < nextId)
  }

  predicate UniqueIds(accounts: set<AccountRow>) {
    forall a, b :: a in accounts && b in accounts && a.id == b.id ==> a == b
  }

  /** Work in progress only concerns the catalogue. */
  predicate PhaseInCatalogue(phase: Phase) {
    match phase
    case Lacking(missing) => missing <= SLOTS && missing != {}
    case ToCreate(missing, toCreate) => missing <= SLOTS && toCreate <= missing && toCreate != {}
    case Prepared(missing) => missing <= SLOTS && missing != {}
    case ToInsert(rows) => rows.Keys <= SLOTS && rows.Keys != {}
    case _ => true
  }

  predicate Inv(st: State) {
    && UniqueNames(st.accounts) && UniqueKeys(st.categories)
    && Backed(st.categories, st.accounts)
    && IdsBelow(st.accounts, st.categories, st.nextId) && UniqueIds(st.accounts)
    && forall i :: 0 <= i < |st.seeders| ==> PhaseInCatalogue(st.seeders[i])
  }

  lemma BackedGrows(categories: set<CategoryRow>, accounts: set<AccountRow>, more: set<AccountRow>)
    requires Backed(categories, accounts)
    ensures Backed(categories, accounts + more)
  {
  }

  lemma Apart(x: set<nat>, y: set<nat>, n: nat)
    requires x * y == {} && n in x
    ensures n !in y
  {
    assert n in y ==> n in x * y;
  }

  lemma AccountsStored(st: State, toCreate: set<nat>)
    requires Inv(st) && toCreate <= SLOTS && toCreate * Names(st.accounts) == {}
    ensures var accounts := st.accounts + NewAccounts(toCreate, st.nextId);
            UniqueNames(accounts) && UniqueIds(accounts) && Backed(st.categories, accounts)
            && IdsBelow(accounts, st.categories, st.nextId + 16)
  {
    var added := NewAccounts(toCreate, st.nextId);
    forall a, b | a in st.accounts && b in added ensures a.name != b.name && a.id < b.id {
      Apart(toCreate, Names(st.accounts), b.name);
      assert a.name in Names(st.accounts);
    }
    BackedGrows(st.categories, st.accounts, added);
    hide Backed;
  }

  lemma CategoriesStored(st: State, rows: map<nat, nat>)
    requires Inv(st) && rows.Keys <= SLOTS && rows.Keys * Keys(st.categories) == {} && KindsAgree(rows, st.accounts)
    ensures var categories := st.categories + NewCategories(rows, st.nextId);
            UniqueKeys(categories) && Backed(categories, st.accounts)
            && IdsBelow(st.accounts, categories, st.nextId + 16)
  {
    var added := NewCategories(rows, st.nextId);
    forall c, d | c in st.categories && d in added ensures c.key != d.key {
      Apart(rows.Keys, Keys(st.categories), d.key);
      assert c.key in Keys(st.categories);
    }
    forall c | c in added ensures HasAccount(st.accounts, c.account, c.kind) {
      assert c.key in rows && c.account == rows[c.key] && c.kind == KindOf(c.key);
    }
    hide HasAccount, KindsAgree, Keys, UniqueNames, UniqueIds;
  }

  lemma ForeignStored(st: State, name: nat, kind: Kind)
    requires Inv(st) && name !in Names(st.accounts)
    ensures Inv(Next(st, ForeignAccount(name, kind)))
  {
  }

  lemma AccountRemoved(st: State, name: nat)
    requires Inv(st) && Enabled(st, RemoveAccount(name))
    ensures Inv(Next(st, RemoveAccount(name)))
  {
    var left := Without(st.accounts, name);
    forall c | c in st.categories ensures HasAccount(left, c.account, c.kind) {
      var a :| a in st.accounts && a.id == c.account && a.kind == c.kind;
      assert IsUsed(st.categories, a.id);
      assert a in left;
    }
    hide HasAccount, IsUsed, Names;
  }

  lemma AccountRenamed(st: State, name: nat, to: nat)
    requires Inv(st) && Enabled(st, RenameAccount(name, to))
    ensures Inv(Next(st, RenameAccount(name, to)))
  {
    var renamed := Renamed(st.accounts, name, to);
    forall c | c in st.categories ensures HasAccount(renamed, c.account, c.kind) {
      var a :| a in st.accounts && a.id == c.account && a.kind == c.kind;
      assert (if a.name == name then a.(name := to) else a) in renamed;
    }
    forall a | a in st.accounts ensures a.name != to {
      assert a.name in Names(st.accounts);
    }
    hide HasAccount, Names;
  }

  lemma RowsForKeys(accounts: set<AccountRow>, missing: set<nat>)
    ensures RowsFor(accounts, missing).Keys == missing * Names(accounts)
  {
  }

  lemma ReadsStayInCatalogue(st: State, step: Step)
    requires Inv(st) && Enabled(st, step)
    ensures !IsForeign(step) ==> step.who < |st.seeders| && PhaseInCatalogue(Next(st, step).seeders[step.who])
  {
  }

  /** In every run, whatever fails: one category per translation key, one account per name, and the
      account of every category exists and is of its kind. */
  lemma StepKeepsInv(st: State, step: Step)
    requires Inv(st) && Enabled(st, step)
    ensures Inv(Next(st, step))
  {
    ReadsStayInCatalogue(st, step);
    match step
    case InsertAccounts(who, answer) =>
      assert PhaseInCatalogue(st.seeders[who]);
      if answer.Stored? || answer.StoredUnseen? {
        AccountsStored(st, st.seeders[who].toCreate);
      }
      hide UniqueNames, UniqueKeys, Backed, UniqueIds, PhaseInCatalogue;
    case InsertCategories(who, answer) =>
      assert PhaseInCatalogue(st.seeders[who]);
      if answer.Stored? || answer.StoredUnseen? {
        CategoriesStored(st, st.seeders[who].rows);
      }
      hide UniqueNames, UniqueKeys, Backed, UniqueIds, PhaseInCatalogue;
    case ForeignAccount(name, kind) =>
      ForeignStored(st, name, kind);
      hide Inv;
    case RemoveAccount(name) =>
      AccountRemoved(st, name);
      hide Inv;
    case RenameAccount(name, to) =>
      AccountRenamed(st, name, to);
      hide Inv;
    case _ =>
      hide UniqueNames, UniqueKeys, Backed, UniqueIds, IdsBelow, PhaseInCatalogue;
  }

  lemma {:induction false} RunsKeepInv(st: State, steps: seq<Step>)
    requires Inv(st) && Runs(st, steps)
    ensures Inv(Final(st, steps))
    decreases |steps|
  {
    hide Inv, Enabled, Next;
    if steps != [] {
      StepKeepsInv(st, steps[0]);
      RunsKeepInv(Next(st, steps[0]), steps[1..]);
    }
  }
}
