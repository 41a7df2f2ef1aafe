/** The bounded telemetry buffer of apps/api/src/observability/system-events.service.ts: records
    arrive at any time, also while an insert is in flight. */
module Telemetry {
  import opened Common
  import opened Sequences

  datatype EventInput = EventInput(code: string, message: Option<string>, route: Option<string>)

  /** A row of `system_events`: a recorded event, or the note that events were dropped. */
  datatype Row = Event(code: string, message: string, route: Option<string>) | OverflowNote(count: nat)

  const MAX_BUFFER: nat := 500
  const ELLIPSIS: char := '\U{2026}'

  function Truncate(value: string, max: nat): (r: string)
    requires max > 0
    ensures |r| <= max
    ensures r == value <==> |value| <= max
    ensures |value| > max ==> |r| == max && r[..max - 1] == value[..max - 1] && r[max - 1] == ELLIPSIS
  {
    if |value| > max then value[..max - 1] + [ELLIPSIS] else value
  }

  function ToRow(input: EventInput): Row {
    Event(input.code,
          Truncate(if input.message.Some? then input.message.value else "", 2000),
          if input.route.Some? && input.route.value != "" then Some(Truncate(input.route.value, 500)) else None)
  }

  /** What a row keeps of an event: its code; its message, up to 2000 characters, empty without one; and its
      route, up to 500, if it has one. */
  lemma RowKeeps(input: EventInput)
    ensures var row := ToRow(input);
            && row.Event? && row.code == input.code
            && |row.message| <= 2000 && (row.route.Some? ==> 1 <= |row.route.value| <= 500)
            && (input.message.Some? && |input.message.value| <= 2000 ==> row.message == input.message.value)
            && (input.message.None? ==> row.message == "")
            && (row.route.Some? <==> input.route.Some? && input.route.value != "")
            && (row.route.Some? && |input.route.value| <= 500 ==> row.route == input.route)
            && (input.message.Some? && |input.message.value| > 2000 ==> row.message[..1999] == input.message.value[..1999])
            && (row.route.Some? && |input.route.value| > 500 ==> row.route.value[..499] == input.route.value[..499])
  {
  }

  // ------------------------------------------------------------------ the service's fields

  datatype Memory = Memory(buffer: seq<Row>, flushing: bool, dropped: nat, disabled: bool)

  const EMPTY: Memory := Memory([], false, 0, false)

  /** How getting the service client goes: no key is configured, or something else throws. */
  datatype Client = Available | Missing | Broken

  /** How the insert ends. */
  datatype Insert = Stored | Rejected | Threw(saysMissing: bool)

  function RecordIn(m: Memory, input: EventInput): Memory {
    if m.disabled then m
    else
      var full := |m.buffer| >= MAX_BUFFER;
      m.(buffer := (if full then m.buffer[1..] else m.buffer) + [ToRow(input)],
         dropped := if full then m.dropped + 1 else m.dropped)
  }

  predicate FlushStarts(m: Memory) {
    !m.flushing && m.buffer != []
  }

  /** The batch as inserted: the buffer, and a note if anything was dropped since the last flush. */
  function BatchOf(m: Memory): seq<Row> {
    m.buffer + if m.dropped > 0 then [OverflowNote(m.dropped)] else []
  }

  /** flush() up to its await. */
  function BeginIn(m: Memory, client: Client): Memory {
    if !FlushStarts(m) then m
    else match client
      case Available => Memory([], true, 0, m.disabled)
      case Missing => Memory([], false, 0, true)
      case Broken => Memory([], false, 0, m.disabled)
  }

  /** flush() after its await. */
  function EndIn(m: Memory, insert: Insert): Memory {
    m.(flushing := false, disabled := m.disabled || insert == Threw(true))
  }

  class SystemEventsService {
    var buffer: seq<Row>
    var flushing: bool
    var droppedSinceLastFlush: nat
    var persistenceDisabled: bool

    ghost function View(): Memory
      reads this
    {
      Memory(buffer, flushing, droppedSinceLastFlush, persistenceDisabled)
    }

    constructor ()
      ensures View() == EMPTY
    {
      buffer, flushing, droppedSinceLastFlush, persistenceDisabled := [], false, 0, false;
    }

    method Record(input: EventInput)
      modifies this
      ensures View() == RecordIn(old(View()), input)
      ensures old(persistenceDisabled) ==> View() == old(View())
      ensures !old(persistenceDisabled) && |old(buffer)| < MAX_BUFFER ==>
                buffer == old(buffer) + [ToRow(input)] && droppedSinceLastFlush == old(droppedSinceLastFlush)
      ensures !old(persistenceDisabled) && |old(buffer)| >= MAX_BUFFER ==>
                buffer == old(buffer)[1..] + [ToRow(input)]
                && droppedSinceLastFlush == old(droppedSinceLastFlush) + 1
      ensures flushing == old(flushing) && persistenceDisabled == old(persistenceDisabled)
    {
      if persistenceDisabled {
        return;
      }
      if |buffer| >= MAX_BUFFER {
        buffer := buffer[1..];
        droppedSinceLastFlush := droppedSinceLastFlush + 1;
      }
      buffer := buffer + [ToRow(input)];
    }

    /** The synchronous part of flush(): what it hands to the insert, if it gets that far. */
    method FlushBegin(client: Client) returns (batch: Option<seq<Row>>)
      modifies this
      ensures View() == BeginIn(old(View()), client)
      ensures batch == if FlushStarts(old(View())) && client == Available then Some(BatchOf(old(View()))) else None
      ensures old(flushing) || old(buffer) == [] ==> View() == old(View()) && batch == None
      ensures !old(flushing) && old(buffer) != [] ==>
                buffer == [] && droppedSinceLastFlush == 0 && flushing == client.Available?
                && persistenceDisabled == (old(persistenceDisabled) || client.Missing?)
                && batch == if !client.Available? then None
                            else if old(droppedSinceLastFlush) == 0 then Some(old(buffer))
                            else Some(old(buffer) + [OverflowNote(old(droppedSinceLastFlush))])
    {
      if flushing || |buffer| == 0 {
        return None;
      }
      flushing := true;
      var taken := buffer;
      var dropped := droppedSinceLastFlush;
      buffer := [];
      droppedSinceLastFlush := 0;
      if client != Available {
        if client == Missing {
          persistenceDisabled := true;
        }
        flushing := false;
        return None;
      }
      if dropped > 0 {
        taken := taken + [OverflowNote(dropped)];
      } else {
        assert taken + [] == taken;
      }
      batch := Some(taken);
    }

    /** The rest of flush(), when the insert has ended. */
    method FlushEnd(insert: Insert)
      modifies this
      ensures View() == EndIn(old(View()), insert)
      ensures !flushing && buffer == old(buffer) && droppedSinceLastFlush == old(droppedSinceLastFlush)
      ensures persistenceDisabled == (old(persistenceDisabled) || insert == Threw(true))
    {
      if insert.Threw? && insert.saysMissing {
        persistenceDisabled := true;
      }
      flushing := false;
    }
  }

  // ------------------------------------------------------------------ runs

  datatype Fate = Dropped | Attempted | Discarded

  datatype Gone = Gone(row: Row, fate: Fate)

  /** The service with what it ever accepted, what left the buffer and why, the batches it tried to
      insert, which of them are in flight, in the table or lost, and how many drops were taken out of
      the counter without being noted in any batch. */
  datatype State = State(m: Memory, inFlight: seq<seq<Row>>, accepted: seq<Row>, gone: seq<Gone>,
                         attempted: seq<seq<Row>>, stored: seq<seq<Row>>, lost: seq<seq<Row>>, unreported: nat)

  const START: State := State(EMPTY, [], [], [], [], [], [], 0)

  datatype Step = Record(input: EventInput) | Begin(client: Client) | End(which: nat, insert: Insert)

  predicate Enabled(st: State, step: Step) {
    step.End? ==> step.which < |st.inFlight|
  }

  function MarkAll(rows: seq<Row>, fate: Fate): (g: seq<Gone>)
    ensures |g| == |rows|
  {
    seq(|rows|, i requires 0 <= i < |rows| => Gone(rows[i], fate))
  }

  function Next(st: State, step: Step): State
    requires Enabled(st, step)
  {
    match step
    case Record(input) =>
      if st.m.disabled then st
      else
        var full := |st.m.buffer| >= MAX_BUFFER;
        st.(m := RecordIn(st.m, input), accepted := st.accepted + [ToRow(input)],
            gone := if full then st.gone + [Gone(st.m.buffer[0], Dropped)] else st.gone)
    case Begin(client) =>
      if !FlushStarts(st.m) then st
      else if client == Available then
        st.(m := BeginIn(st.m, client), inFlight := st.inFlight + [BatchOf(st.m)],
            gone := st.gone + MarkAll(st.m.buffer, Attempted), attempted := st.attempted + [BatchOf(st.m)])
      else
        st.(m := BeginIn(st.m, client), gone := st.gone + MarkAll(st.m.buffer, Discarded),
            unreported := st.unreported + st.m.dropped)
    case End(which, insert) =>
      var batch := st.inFlight[which];
      st.(m := EndIn(st.m, insert), inFlight := st.inFlight[..which] + st.inFlight[which + 1..],
          stored := if insert.Stored? then st.stored + [batch] else st.stored,
          lost := if insert.Stored? then st.lost else st.lost + [batch])
  }

  predicate Runs(st: State, steps: seq<Step>)
    decreases |steps|
  {
    steps == [] || (Enabled(st, steps[0]) && Runs(Next(st, steps[0]), steps[1..]))
  }

  function Final(st: State, steps: seq<Step>): State
    requires Runs(st, steps)
    decreases |steps|
  {
    if steps == [] then st else Final(Next(st, steps[0]), steps[1..])
  }

  // ------------------------------------------------------------------ conservation

  function Rows(gone: seq<Gone>): (rows: seq<Row>)
    ensures |rows| == |gone|
  {
    seq(|gone|, i requires 0 <= i < |gone| => gone[i].row)
  }

  function WithFate(gone: seq<Gone>, fate: Fate): seq<Row> {
    if gone == [] then []
    else (if gone[0].fate == fate then [gone[0].row] else []) + WithFate(gone[1..], fate)
  }

  /** A batch without its overflow note. */
  function Events(batch: seq<Row>): seq<Row> {
    if batch == [] then [] else (if batch[0].Event? then [batch[0]] else []) + Events(batch[1..])
  }

  /** The drops a batch reports. */
  function Noted(batch: seq<Row>): nat {
    if batch == [] then 0 else (if batch[0].Event? then 0 else batch[0].count) + Noted(batch[1..])
  }

  lemma {:induction false} WithFateAppend(a: seq<Gone>, b: seq<Gone>, fate: Fate)
    ensures WithFate(a + b, fate) == WithFate(a, fate) + WithFate(b, fate)
  {
    if a == [] {
      assert a + b == b;
    } else {
      assert (a + b)[1..] == a[1..] + b;
      WithFateAppend(a[1..], b, fate);
      var head := if a[0].fate == fate then [a[0].row] else [];
      assert WithFate(a + b, fate) == head + (WithFate(a[1..], fate) + WithFate(b, fate));
      assert WithFate(a, fate) == head + WithFate(a[1..], fate);
    }
  }

  lemma {:induction false} WithFateMarked(rows: seq<Row>, mark: Fate, fate: Fate)
    ensures WithFate(MarkAll(rows, mark), fate) == if mark == fate then rows else []
  {
    if rows != [] {
      assert MarkAll(rows, mark)[1..] == MarkAll(rows[1..], mark);
      WithFateMarked(rows[1..], mark, fate);
      assert rows == [rows[0]] + rows[1..];
    }
  }

  predicate AllEvents(rows: seq<Row>) {
    forall i :: 0 <= i < |rows| ==> rows[i].Event?
  }

  lemma {:induction false} BatchContents(events: seq<Row>, notes: seq<Row>)
    requires AllEvents(events) && (notes == [] || (|notes| == 1 && notes[0].OverflowNote?))
    ensures Events(events + notes) == events
    ensures Noted(events + notes) == if notes == [] then 0 else notes[0].count
  {
    if events == [] {
      assert events + notes == notes;
    } else {
      assert (events + notes)[1..] == events[1..] + notes;
      BatchContents(events[1..], notes);
      assert events == [events[0]] + events[1..];
    }
  }

  function NotedIn(batches: seq<seq<Row>>): nat {
    if batches == [] then 0 else NotedIn(batches[..|batches| - 1]) + Noted(batches[|batches| - 1])
  }

  function EventsIn(batches: seq<seq<Row>>): seq<Row> {
    if batches == [] then [] else EventsIn(batches[..|batches| - 1]) + Events(batches[|batches| - 1])
  }

  /** At most one insert is in flight, and every note handed to an insert is in the table, lost or in
      flight. */
  predicate BatchesInv(st: State) {
    && |st.inFlight| == (if st.m.flushing then 1 else 0)
    && NotedIn(st.attempted) == NotedIn(st.stored) + NotedIn(st.lost) + NotedIn(st.inFlight)
  }

  predicate Inv(st: State) {
    && BatchesInv(st)
    && |st.m.buffer| <= MAX_BUFFER && AllEvents(st.m.buffer)
    && (forall i :: 0 <= i < |st.attempted| ==> |st.attempted[i]| <= MAX_BUFFER + 1)
    && st.accepted == Rows(st.gone) + st.m.buffer
    && WithFate(st.gone, Attempted) == EventsIn(st.attempted)
    && |WithFate(st.gone, Dropped)| == NotedIn(st.attempted) + st.m.dropped + st.unreported
  }

  /** A full buffer lets its oldest row go. */
  lemma OldestLeaves(gone: seq<Gone>, buffer: seq<Row>)
    requires buffer != []
    ensures var first := Gone(buffer[0], Dropped);
            && Rows(gone + [first]) + buffer[1..] == Rows(gone) + buffer
            && WithFate(gone + [first], Attempted) == WithFate(gone, Attempted)
            && |WithFate(gone + [first], Dropped)| == |WithFate(gone, Dropped)| + 1
  {
    var first := Gone(buffer[0], Dropped);
    WithFateAppend(gone, [first], Attempted);
    WithFateAppend(gone, [first], Dropped);
    assert [first][1..] == [];
    assert WithFate(gone, Attempted) + [] == WithFate(gone, Attempted);
    assert Rows(gone + [first]) == Rows(gone) + [buffer[0]];
    assert buffer == [buffer[0]] + buffer[1..];
  }

  lemma RecordKeepsInv(st: State, input: EventInput)
    requires Inv(st)
    ensures Inv(Next(st, Record(input)))
  {
    hide Truncate, WithFate, Rows, EventsIn, NotedIn;
    var next, row := Next(st, Record(input)), ToRow(input);
    if !st.m.disabled {
      if |st.m.buffer| >= MAX_BUFFER {
        OldestLeaves(st.gone, st.m.buffer);
        assert Rows(next.gone) + (st.m.buffer[1..] + [row]) == (Rows(next.gone) + st.m.buffer[1..]) + [row];
      } else {
        assert Rows(next.gone) + (st.m.buffer + [row]) == (Rows(next.gone) + st.m.buffer) + [row];
      }
    }
  }

  /** The whole buffer leaves with one fate. */
  lemma BufferLeaves(gone: seq<Gone>, rows: seq<Row>, fate: Fate)
    requires fate != Dropped
    ensures Rows(gone + MarkAll(rows, fate)) + [] == Rows(gone) + rows
    ensures WithFate(gone + MarkAll(rows, fate), Attempted)
         == WithFate(gone, Attempted) + if fate == Attempted then rows else []
    ensures WithFate(gone + MarkAll(rows, fate), Dropped) == WithFate(gone, Dropped)
  {
    assert Rows(gone + MarkAll(rows, fate)) == Rows(gone) + rows;
    hide Rows, WithFate, MarkAll;
    WithFateAppend(gone, MarkAll(rows, fate), Attempted);
    WithFateAppend(gone, MarkAll(rows, fate), Dropped);
    WithFateMarked(rows, fate, Attempted);
    WithFateMarked(rows, fate, Dropped);
    assert WithFate(gone, Dropped) + [] == WithFate(gone, Dropped);
    assert (Rows(gone) + rows) + [] == Rows(gone) + rows;
  }

  lemma NewBatch(st: State)
    requires AllEvents(st.m.buffer)
    ensures Noted(BatchOf(st.m)) == st.m.dropped && Events(BatchOf(st.m)) == st.m.buffer
    ensures EventsIn(st.attempted + [BatchOf(st.m)]) == EventsIn(st.attempted) + st.m.buffer
  {
    BatchContents(st.m.buffer, if st.m.dropped > 0 then [OverflowNote(st.m.dropped)] else []);
    assert st.m.buffer + [] == st.m.buffer;
    assert (st.attempted + [BatchOf(st.m)])[..|st.attempted|] == st.attempted;
  }

  lemma BeginKeepsInv(st: State, client: Client)
    requires Inv(st) && FlushStarts(st.m)
    ensures Inv(Next(st, Begin(client)))
  {
    hide WithFate, Rows, MarkAll, Events, EventsIn, Noted, NotedIn;
    BufferLeaves(st.gone, st.m.buffer, if client == Available then Attempted else Discarded);
    NewBatch(st);
    NotedSnoc(st.attempted, BatchOf(st.m));
    NotedSnoc(st.inFlight, BatchOf(st.m));
    assert WithFate(st.gone, Attempted) + [] == WithFate(st.gone, Attempted);
  }

  lemma NotedSnoc(batches: seq<seq<Row>>, batch: seq<Row>)
    ensures NotedIn(batches + [batch]) == NotedIn(batches) + Noted(batch)
  {
    assert (batches + [batch])[..|batches|] == batches;
  }

  /** The one insert in flight ends: its batch is in the table, or lost with its note. */
  lemma EndKeepsInv(st: State, which: nat, insert: Insert)
    requires Inv(st) && which < |st.inFlight|
    ensures Inv(Next(st, End(which, insert)))
  {
    hide WithFate, EventsIn, Rows, AllEvents, Noted;
    EndKeepsBatches(st, which, insert);
    hide BatchesInv;
  }

  lemma EndKeepsBatches(st: State, which: nat, insert: Insert)
    requires BatchesInv(st) && which < |st.inFlight|
    ensures BatchesInv(Next(st, End(which, insert)))
  {
    var batch := st.inFlight[which];
    assert st.inFlight == [] + [batch];
    NotedSnoc([], batch);
    NotedSnoc(st.stored, batch);
    NotedSnoc(st.lost, batch);
    assert Next(st, End(which, insert)).inFlight == [];
    assert NotedIn([]) == 0;
    hide NotedIn, Noted;
  }

  /** Every step keeps the bounds, the single insert in flight, the order and the two balances. */
  lemma StepKeepsInv(st: State, step: Step)
    requires Inv(st) && Enabled(st, step)
    ensures Inv(Next(st, step))
  {
    match step
    case Record(input) => RecordKeepsInv(st, input);
    case Begin(client) =>
      if FlushStarts(st.m) { BeginKeepsInv(st, client); }
    case End(which, insert) => EndKeepsInv(st, which, insert);
  }

  lemma {:induction false} RunsKeepInv(st: State, steps: seq<Step>)
    requires Inv(st) && Runs(st, steps)
    ensures Inv(Final(st, steps))
    decreases |steps|
  {
    hide Inv, Enabled, Next;
    if steps != [] {
      StepKeepsInv(st, steps[0]);
      RunsKeepInv(Next(st, steps[0]), steps[1..]);
    }
  }

  // ------------------------------------------------------------------ over all runs

  /** Whether in a run the service client can be unavailable, and whether inserts can fail. */
  datatype Env = Env(clientMayFail: bool, insertMayFail: bool)

  predicate Allowed(env: Env, step: Step) {
    match step
    case Record(_) => true
    case Begin(client) => client == Available || env.clientMayFail
    case End(_, insert) => insert == Stored || env.insertMayFail
  }

  predicate RunTo(env: Env, steps: seq<Step>, st: State) {
    Runs(START, steps) && (forall i :: 0 <= i < |steps| ==> Allowed(env, steps[i])) && Final(START, steps) == st
  }

  ghost predicate Reachable(env: Env, st: State) {
    exists steps :: RunTo(env, steps, st)
  }

  lemma StartInv()
    ensures Inv(START)
  {
  }

  /** In every run: the buffer holds at most 500 rows, a batch at most 501, one insert is in flight
      at a time; accepted events are, in order, those that left the buffer and those still in it,
      and the ones that left were dropped, discarded, or are exactly the events of the batches. */
  lemma TelemetryConserves(env: Env, st: State)
    requires Reachable(env, st)
    ensures |st.m.buffer| <= MAX_BUFFER
    ensures forall i :: 0 <= i < |st.attempted| ==> |st.attempted[i]| <= MAX_BUFFER + 1
    ensures |st.inFlight| == if st.m.flushing then 1 else 0
    ensures st.accepted == Rows(st.gone) + st.m.buffer
    ensures WithFate(st.gone, Attempted) == EventsIn(st.attempted)
    ensures |WithFate(st.gone, Dropped)| == NotedIn(st.attempted) + st.m.dropped + st.unreported
    ensures NotedIn(st.attempted) == NotedIn(st.stored) + NotedIn(st.lost) + NotedIn(st.inFlight)
  {
    hide WithFate, NotedIn, EventsIn, Rows, AllEvents;
    var steps :| RunTo(env, steps, st);
    StartInv();
    hide Runs, Final;
    RunsKeepInv(START, steps);
  }

  /** In the course of a run a flush with something to write found no client, or an insert said that it is
      missing. */
  predicate MissingSeen(st: State, steps: seq<Step>)
    requires Runs(st, steps)
    decreases |steps|
  {
    steps != []
    && ((steps[0] == Begin(Missing) && !st.m.flushing && st.m.buffer != [])
        || (steps[0].End? && steps[0].insert == Threw(true))
        || MissingSeen(Next(st, steps[0]), steps[1..]))
  }

  lemma StepDisables(st: State, step: Step)
    requires Enabled(st, step)
    ensures Next(st, step).m.disabled
       <==> st.m.disabled
            || (step == Begin(Missing) && !st.m.flushing && st.m.buffer != [])
            || (step.End? && step.insert == Threw(true))
    ensures st.m.disabled ==> Next(st, step).accepted == st.accepted
    ensures !st.m.disabled && step.Record? ==> Next(st, step).accepted == st.accepted + [ToRow(step.input)]
    ensures !step.Record? ==> Next(st, step).accepted == st.accepted
  {
  }

  /** Persistence is disabled exactly after a missing client was seen, for ever; nothing is accepted from then
      on, and every recorded event until then. */
  lemma {:induction false} DisabledExactlyWhenMissing(st: State, steps: seq<Step>)
    requires Runs(st, steps)
    ensures Final(st, steps).m.disabled <==> st.m.disabled || MissingSeen(st, steps)
    ensures st.m.disabled ==> Final(st, steps).accepted == st.accepted
    decreases |steps|
  {
    if steps != [] {
      StepDisables(st, steps[0]);
      hide Enabled, Next;
      DisabledExactlyWhenMissing(Next(st, steps[0]), steps[1..]);
    }
  }

  /** Every drop is noted in a stored batch or in the one in flight, or still counted for the next. */
  predicate DropsAccountedFor(st: State) {
    |WithFate(st.gone, Dropped)| == NotedIn(st.stored) + NotedIn(st.inFlight) + st.m.dropped
  }

  ghost predicate EveryDropIsReported(env: Env) {
    forall st :: Reachable(env, st) ==> DropsAccountedFor(st)
  }

  const CALM: Env := Env(false, false)

  lemma {:induction false} CalmRunsLoseNothing(st: State, steps: seq<Step>)
    requires Runs(st, steps) && st.unreported == 0 && st.lost == []
    requires forall i :: 0 <= i < |steps| ==> Allowed(CALM, steps[i])
    ensures Final(st, steps).unreported == 0 && Final(st, steps).lost == []
    decreases |steps|
  {
    if steps != [] {
      assert Allowed(CALM, steps[0]);
      CalmRunsLoseNothing(Next(st, steps[0]), steps[1..]);
    }
  }

  lemma {:induction false} RunSnoc(st: State, steps: seq<Step>, step: Step)
    requires Runs(st, steps) && Enabled(Final(st, steps), step)
    ensures Runs(st, steps + [step]) && Final(st, steps + [step]) == Next(Final(st, steps), step)
    decreases |steps|
  {
    hide Enabled, Next;
    if steps == [] {
      assert steps + [step] == [step] && [step][1..] == [];
    } else {
      assert (steps + [step])[1..] == steps[1..] + [step];
      RunSnoc(Next(st, steps[0]), steps[1..], step);
    }
  }

  lemma ReachableNext(env: Env, st: State, step: Step, next: State)
    requires Reachable(env, st) && Allowed(env, step) && Enabled(st, step) && Next(st, step) == next
    ensures Reachable(env, next)
  {
    var steps :| RunTo(env, steps, st);
    hide Enabled, Next, Allowed;
    RunSnoc(START, steps, step);
    assert RunTo(env, steps + [step], next);
  }

  const SAMPLE: EventInput := EventInput("STORM", None, None)

  /** n copies of the sample have been recorded and nothing was flushed. */
  function Filled(n: nat): State {
    State(Memory(seq(n, i => ToRow(SAMPLE)), false, 0, false), [], seq(n, i => ToRow(SAMPLE)), [], [], [], [], 0)
  }

  lemma {:induction false} ReachFilled(env: Env, n: nat)
    requires n <= MAX_BUFFER
    ensures Reachable(env, Filled(n))
  {
    hide ToRow;
    if n == 0 {
      assert RunTo(env, [], START);
      assert Filled(0) == START;
    } else {
      ReachFilled(env, n - 1);
      assert seq(n - 1, i => ToRow(SAMPLE)) + [ToRow(SAMPLE)] == seq(n, i => ToRow(SAMPLE));
      ReachableNext(env, Filled(n - 1), Record(SAMPLE), Filled(n));
    }
  }

  /** A full buffer has just dropped one event. */
  lemma ReachOneDrop(env: Env) returns (st: State)
    ensures Reachable(env, st) && st.m.buffer != [] && st.m.dropped == 1 && !st.m.flushing && st.inFlight == []
    ensures st.stored == [] && st.lost == [] && st.attempted == [] && st.unreported == 0
  {
    ReachFilled(env, MAX_BUFFER);
    var full := Filled(MAX_BUFFER);
    st := Next(full, Record(SAMPLE));
    ReachableNext(env, full, Record(SAMPLE), st);
  }

  /** A flush without a client forgets the drop. */
  lemma MissingClientForgetsDrops(env: Env)
    requires env.clientMayFail
    ensures !EveryDropIsReported(env)
  {
    var dropped := ReachOneDrop(env);
    var forgot := Next(dropped, Begin(Missing));
    ReachableNext(env, dropped, Begin(Missing), forgot);
    assert forgot.unreported == 1;
    TelemetryConserves(env, forgot);
    assert !DropsAccountedFor(forgot);
  }

  lemma NoBatchesNoteNothing()
    ensures NotedIn([]) == 0
  {
  }

  /** A refused insert takes the note with it. */
  lemma FailedInsertLosesTheNote(env: Env)
    requires env.insertMayFail
    ensures !EveryDropIsReported(env)
  {
    hide WithFate, NotedIn, Rows, Noted;
    var dropped := ReachOneDrop(env);
    var sent := Next(dropped, Begin(Available));
    assert |sent.inFlight| == 1 && sent.m.dropped == 0;
    ReachableNext(env, dropped, Begin(Available), sent);
    var refused := Next(sent, End(0, Rejected));
    ReachableNext(env, sent, End(0, Rejected), refused);
    assert refused.inFlight == [] && refused.stored == [] && refused.m.dropped == 0;
    TelemetryConserves(env, dropped);
    NoBatchesNoteNothing();
    BufferLeaves(dropped.gone, dropped.m.buffer, Attempted);
    hide Next;
    assert !DropsAccountedFor(refused);
  }

  /** No drop goes unreported, in every run, exactly when the service client is always available and
      no insert fails. */
  lemma DropsReportedExactlyWhenNothingFails(env: Env)
    ensures EveryDropIsReported(env) <==> !env.clientMayFail && !env.insertMayFail
  {
    if env.clientMayFail {
      MissingClientForgetsDrops(env);
    } else if env.insertMayFail {
      FailedInsertLosesTheNote(env);
    } else {
      forall st | Reachable(env, st)
        ensures DropsAccountedFor(st)
      {
        var steps :| RunTo(env, steps, st);
        CalmRunsLoseNothing(START, steps);
        TelemetryConserves(env, st);
      }
    }
  }
}
