/** The persist-before-send error reporter of packages/observability/src/durable-http-reporter.ts
    as a machine whose steps end at the awaits of the source. It can crash at every one of them and
    restart with other options; saves, loads and requests succeed or fail as they like, and another
    reporter may write to the same store. */
module Outbox {
  import opened Common

  /** A report with the number under which it arrived. */
  datatype Report = Report(id: nat, text: string)

  /** The clamped maxQueued: a number from 1 on, not necessarily whole, or none when it is NaN, to which
      no length compares. */
  type Limit = l: Option<real> | l.Some? ==> l.value >= 1.0 witness None

  datatype Config = Config(batchSize: nat, maxQueued: Limit)

  /** `Math.min(Math.max(x, 1), high)` */
  function Clamp(x: Number, high: nat): (r: Number)
    requires high >= 1
    ensures x.NaN? <==> r.NaN?
    ensures !r.NaN? ==> r.Real? && 1.0 <= r.value <= high as real
  {
    match x
    case NaN => NaN
    case NegativeInfinity => Real(1.0)
    case PositiveInfinity => Real(high as real)
    case Real(v) => Real(if v < 1.0 then 1.0 else if v > high as real then high as real else v)
  }

  /** The options as the constructor clamps them. A batch is cut with `slice`, which truncates its end,
      and takes NaN for 0. */
  function Configure(batchSize: Option<Number>, maxQueued: Option<Number>): (c: Config)
    ensures ValidConfig(c)
    ensures c.batchSize == 0 <==> batchSize == Some(NaN)
    ensures c.maxQueued == None <==> maxQueued == Some(NaN)
    ensures batchSize == None ==> c.batchSize == 25
    ensures batchSize.Some? && batchSize.value.Real? ==> c.batchSize == Min(Max(batchSize.value.value.Floor, 1), 100)
    ensures batchSize == Some(PositiveInfinity) ==> c.batchSize == 100
    ensures batchSize == Some(NegativeInfinity) ==> c.batchSize == 1
    ensures maxQueued == None ==> c.maxQueued == Some(1000.0)
    ensures maxQueued.Some? && maxQueued.value.Real? && 1.0 <= maxQueued.value.value <= 10_000.0 ==>
              c.maxQueued == Some(maxQueued.value.value)
  {
    var batch := Clamp(if batchSize.Some? then batchSize.value else Real(25.0), 100);
    var queued := Clamp(if maxQueued.Some? then maxQueued.value else Real(1000.0), 10_000);
    Config(if batch.NaN? then 0 else batch.value.Floor, if queued.NaN? then None else Some(queued.value))
  }

  predicate ValidConfig(c: Config) {
    c.batchSize <= 100 && (c.maxQueued.Some? ==> c.maxQueued.value <= 10_000.0)
  }

  datatype Op = ReportOp(text: string) | FlushOp

  /** The await at which the running operation stands. */
  datatype Phase = Loading | Idle | Saving | Fetching(batch: seq<Report>) | Resaving

  /** Memory (queue, waiting), the durable store (saved), how many reports arrived, and for the current
      process what entered its queue and what left it. */
  datatype State = State(
    config: Config, queue: seq<Report>, waiting: seq<Op>, phase: Phase, saved: seq<Report>,
    arrivals: nat, entered: seq<Report>, left: seq<Report>)

  function Initial(config: Config): State {
    State(config, [], [], Loading, [], 0, [], [])
  }

  function Ids(s: seq<Report>): set<nat> {
    set r | r in s :: r.id
  }

  /** How many reports `splice(0, length - maxQueued)` takes off; the count is truncated. */
  function Overflow(queue: seq<Report>, limit: Limit): (cut: nat)
    ensures cut <= |queue|
  {
    if limit.Some? && |queue| as real > limit.value then (|queue| as real - limit.value).Floor else 0
  }

  /** `slice(-maxQueued)`, the start truncated; NaN keeps everything. */
  function Kept(saved: seq<Report>, limit: Limit): seq<Report> {
    if limit.None? then saved else TakeLast(saved, limit.value.Floor)
  }

  /** A queue may exceed a fractional limit by less than one report. */
  predicate WithinLimit(n: nat, limit: Limit) {
    limit.Some? ==> n as real < limit.value + 1.0
  }

  function Batch(queue: seq<Report>, batchSize: nat): seq<Report> {
    queue[..Min(batchSize, |queue|)]
  }

  /** Push a report and splice the oldest off if the queue is over its bound. */
  function Push(st: State, text: string): State {
    var r := Report(st.arrivals, text);
    var grown := st.queue + [r];
    var cut := Overflow(grown, st.config.maxQueued);
    st.(queue := grown[cut..], arrivals := st.arrivals + 1, entered := st.entered + [r], left := st.left + grown[..cut])
  }

  function SaveQueue(st: State): State {
    st.(saved := st.queue)
  }

  /** The loop head of flushUnsafe. */
  function EnterFlush(st: State): State {
    if st.queue == [] then st.(phase := Idle)
    else st.(phase := Fetching(Batch(st.queue, st.config.batchSize)))
  }

  /** After a 2xx: splice as many reports as the batch had. */
  function Acknowledge(st: State, batch: seq<Report>): State
    requires |batch| <= |st.queue|
  {
    st.(queue := st.queue[|batch|..], left := st.left + st.queue[..|batch|], phase := Resaving)
  }

  function Load(st: State): State {
    var kept := Kept(st.saved, st.config.maxQueued);
    st.(queue := kept, entered := kept, phase := Idle)
  }

  datatype Step =
    | Schedule(op: Op)
    | LoadDone(ok: bool)
    | Start
    | SaveDone(ok: bool)
    | FetchDone(ok: bool)
    | ResaveDone(ok: bool)
    | Crash(config: Config)
    | OtherSave(reports: seq<Report>, arrived: nat)

  predicate Enabled(st: State, step: Step) {
    match step
    case Schedule(_) => true
    case LoadDone(_) => st.phase.Loading?
    case Start => st.phase.Idle? && st.waiting != []
    case SaveDone(_) => st.phase.Saving?
    case FetchDone(_) => st.phase.Fetching? && |st.phase.batch| <= |st.queue|
    case ResaveDone(_) => st.phase.Resaving?
    case Crash(config) => ValidConfig(config)
    case OtherSave(reports, arrived) => InOrder(reports, st.arrivals + arrived)
  }

  /** OtherSave is the save of another reporter over the same store, as each browser tab has one: it puts
      its own queue in place of what was there. That queue may hold reports which only the other reporter
      received; the numbering counts them too, and like every queue it is in arrival order. */
  function Next(st: State, step: Step): State
    requires Enabled(st, step)
  {
    match step
    case Schedule(op) => st.(waiting := st.waiting + [op])
    case LoadDone(ok) => if ok then Load(st) else st.(phase := Idle)
    case Start =>
      var rest := st.(waiting := st.waiting[1..]);
      if st.waiting[0].ReportOp? then Push(rest, st.waiting[0].text).(phase := Saving) else EnterFlush(rest)
    case SaveDone(ok) => if ok then EnterFlush(SaveQueue(st)) else st.(phase := Idle)
    case FetchDone(ok) => if ok then Acknowledge(st, st.phase.batch) else st.(phase := Idle)
    case ResaveDone(ok) => if ok then EnterFlush(SaveQueue(st)) else st.(phase := Idle)
    case Crash(config) =>
      st.(config := config, queue := [], waiting := [], phase := Loading, entered := [], left := [])
    case OtherSave(reports, arrived) => st.(saved := reports, arrivals := st.arrivals + arrived)
  }

  /** A crash leaves nothing but the store: what follows is a fresh process over it. */
  lemma CrashKeepsOnlyTheStore(st: State, config: Config)
    requires Enabled(st, Crash(config))
    ensures Next(st, Crash(config)) == Initial(config).(saved := st.saved, arrivals := st.arrivals)
  {
  }

  predicate Runs(st: State, steps: seq<Step>)
    decreases |steps|
  {
    steps == [] || (Enabled(st, steps[0]) && Runs(Next(st, steps[0]), steps[1..]))
  }

  function Final(st: State, steps: seq<Step>): State
    requires Runs(st, steps)
    decreases |steps|
  {
    if steps == [] then st else Final(Next(st, steps[0]), steps[1..])
  }

  // ------------------------------------------------------------------ what every run keeps

  /** Arrival order, which a crash and a reload do not disturb. */
  predicate InOrder(s: seq<Report>, arrivals: nat) {
    && (forall i, j :: 0 <= i < j < |s| ==> s[i].id < s[j].id)
    && (forall i :: 0 <= i < |s| ==> s[i].id < arrivals)
  }

  predicate Inv(st: State) {
    && ValidConfig(st.config)
    && WithinLimit(|st.queue|, st.config.maxQueued)
    && InOrder(st.queue, st.arrivals) && InOrder(st.saved, st.arrivals)
    && (st.phase.Loading? ==> st.queue == [] && st.entered == [] && st.left == [])
    && (st.phase.Fetching? ==> st.queue != [] && st.phase.batch == Batch(st.queue, st.config.batchSize))
    && st.entered == st.left + st.queue
  }

  lemma SliceInOrder(s: seq<Report>, from: nat, arrivals: nat)
    requires InOrder(s, arrivals) && from <= |s|
    ensures InOrder(s[from..], arrivals)
  {
  }

  lemma TrimmedIsWithinLimit(queue: seq<Report>, limit: Limit)
    ensures WithinLimit(|queue| - Overflow(queue, limit), limit)
  {
  }

  predicate IsWhole(limit: Limit) {
    limit.Some? && limit.value.Floor as real == limit.value
  }

  predicate TrimmedToLimit(queue: seq<Report>, limit: Limit) {
    limit.Some? && (|queue| - Overflow(queue, limit)) as real <= limit.value
  }

  ghost predicate AlwaysTrimsToLimit(limit: Limit) {
    forall queue: seq<Report> :: TrimmedToLimit(queue, limit)
  }

  lemma WholeLimitTrims(queue: seq<Report>, limit: Limit)
    requires IsWhole(limit)
    ensures TrimmedToLimit(queue, limit)
  {
    var whole := limit.value.Floor;
    assert |queue| as real - limit.value == (|queue| - whole) as real;
  }

  lemma FractionStaysOver(limit: Limit) returns (queue: seq<Report>)
    requires limit.Some? && !IsWhole(limit)
    ensures !TrimmedToLimit(queue, limit)
  {
    queue := seq(limit.value.Floor + 1, i => Report(0, ""));
    assert 0.0 < |queue| as real - limit.value < 1.0;
  }

  /** Trimming brings every queue down to maxQueued exactly when that is a whole number. */
  lemma TrimsExactlyWhenWhole(limit: Limit)
    ensures AlwaysTrimsToLimit(limit) <==> IsWhole(limit)
  {
    hide IsWhole, TrimmedToLimit;
    if IsWhole(limit) {
      forall queue: seq<Report> ensures TrimmedToLimit(queue, limit) {
        WholeLimitTrims(queue, limit);
      }
    } else if limit.Some? {
      var queue := FractionStaysOver(limit);
    } else {
      NaNTrimsNothing(limit);
    }
  }

  lemma NaNTrimsNothing(limit: Limit)
    requires limit == None
    ensures !TrimmedToLimit([], limit) && !IsWhole(limit)
  {
  }

  lemma WholeLimitIsMet(n: nat, limit: Limit)
    requires IsWhole(limit) && WithinLimit(n, limit)
    ensures n as real <= limit.value
  {
    LessThanOneOver(n, limit.value.Floor);
  }

  lemma LessThanOneOver(n: int, whole: int)
    requires n as real < whole as real + 1.0
    ensures n <= whole
  {
    assert whole as real + 1.0 == (whole + 1) as real;
  }

  lemma KeptIsWithinLimit(saved: seq<Report>, limit: Limit)
    ensures var kept := Kept(saved, limit);
            |kept| <= |saved| && kept == saved[|saved| - |kept|..] && WithinLimit(|kept|, limit)
  {
  }

  // ------------------------------------------------------------------ what is kept, from the limit alone

  /** The least whole number not below x. */
  function Ceiling(x: real): int {
    -((-x).Floor)
  }

  predicate Exceeds(n: nat, limit: Limit) {
    limit.Some? && n as real > limit.value
  }

  lemma OverflowLeavesTheCeiling(queue: seq<Report>, limit: Limit)
    ensures !Exceeds(|queue|, limit) ==> Overflow(queue, limit) == 0
    ensures Exceeds(|queue|, limit) ==> Overflow(queue, limit) == |queue| - Ceiling(limit.value)
    ensures Exceeds(|queue|, limit) ==> 1 <= limit.value.Floor <= Ceiling(limit.value) <= |queue|
  {
    if Exceeds(|queue|, limit) {
      FloorOfDifference(|queue|, limit.value);
    }
  }

  lemma FloorOfDifference(n: int, x: real)
    ensures (n as real - x).Floor == n - Ceiling(x)
    ensures x.Floor <= Ceiling(x) && (n as real >= x ==> n >= Ceiling(x))
  {
    var up := Ceiling(x);
    assert (-x).Floor as real <= -x < (-x).Floor as real + 1.0;
    assert n as real - x == (n - up) as real + (up as real - x);
  }

  /** Pushing a report keeps everything within maxQueued, and otherwise the newest ceil(maxQueued) reports. */
  lemma PushKeepsTheNewest(st: State, text: string)
    ensures var grown, limit := st.queue + [Report(st.arrivals, text)], st.config.maxQueued;
            Push(st, text).queue
            == if Exceeds(|grown|, limit) then TakeLast(grown, Ceiling(limit.value)) else grown
  {
    OverflowLeavesTheCeiling(st.queue + [Report(st.arrivals, text)], st.config.maxQueued);
  }

  /** Loading keeps the whole store within maxQueued, and otherwise its newest floor(maxQueued) reports. */
  lemma LoadKeepsTheNewest(saved: seq<Report>, limit: Limit)
    ensures !Exceeds(|saved|, limit) ==> Kept(saved, limit) == saved
    ensures Exceeds(|saved|, limit) ==>
              1 <= limit.value.Floor <= |saved| && Kept(saved, limit) == saved[|saved| - limit.value.Floor..]
  {
  }

  lemma PushKeepsInv(st: State, text: string)
    requires Inv(st) && !st.phase.Loading? && !st.phase.Fetching?
    ensures Inv(Push(st, text))
  {
    var next := Push(st, text);
    var r := Report(st.arrivals, text);
    var grown := st.queue + [r];
    var cut := Overflow(grown, st.config.maxQueued);
    TrimmedIsWithinLimit(grown, st.config.maxQueued);
    hide Overflow, WithinLimit;
    assert InOrder(grown, next.arrivals);
    SliceInOrder(grown, cut, next.arrivals);
    assert InOrder(st.saved, next.arrivals);
    hide InOrder;
    FrontLeaves(st.left, grown, cut);
    assert st.entered + [r] == st.left + st.queue + [r] == st.left + grown;
  }

  /** Taking reports off the front moves them from the queue to the record of what left. */
  lemma FrontLeaves(left: seq<Report>, queue: seq<Report>, n: nat)
    requires n <= |queue|
    ensures (left + queue[..n]) + queue[n..] == left + queue
  {
  }

  lemma AcknowledgeKeepsInv(st: State)
    requires Inv(st) && st.phase.Fetching?
    ensures Inv(Acknowledge(st, st.phase.batch))
  {
    FewerIsWithinLimit(|st.queue| - |st.phase.batch|, |st.queue|, st.config.maxQueued);
    hide WithinLimit;
    var n := |st.phase.batch|;
    assert st.phase.batch == st.queue[..n];
    SliceInOrder(st.queue, n, st.arrivals);
    hide InOrder;
    FrontLeaves(st.left, st.queue, n);
  }

  lemma LoadKeepsInv(st: State)
    requires Inv(st) && st.phase.Loading?
    ensures Inv(Load(st))
  {
    KeptIsWithinLimit(st.saved, st.config.maxQueued);
    hide Kept, WithinLimit;
    SliceInOrder(st.saved, |st.saved| - |Load(st).queue|, st.arrivals);
  }

  lemma FewerIsWithinLimit(fewer: nat, n: nat, limit: Limit)
    requires fewer <= n && WithinLimit(n, limit)
    ensures WithinLimit(fewer, limit)
  {
  }

  lemma EnterFlushKeepsInv(st: State)
    requires Inv(st) && !st.phase.Loading?
    ensures Inv(EnterFlush(st))
  {
  }

  /** Bound, arrival order, the batch in flight and conservation hold after every step. */
  lemma StepKeepsInv(st: State, step: Step)
    requires Inv(st) && Enabled(st, step)
    ensures Inv(Next(st, step))
  {
    match step
    case Schedule(_) =>
    case LoadDone(ok) =>
      if ok { LoadKeepsInv(st); }
    case Start =>
      var rest := st.(waiting := st.waiting[1..]);
      if st.waiting[0].ReportOp? { PushKeepsInv(rest, st.waiting[0].text); } else { EnterFlushKeepsInv(rest); }
    case SaveDone(ok) =>
      if ok { EnterFlushKeepsInv(SaveQueue(st)); }
    case FetchDone(ok) =>
      if ok { AcknowledgeKeepsInv(st); }
    case ResaveDone(ok) =>
      if ok { EnterFlushKeepsInv(SaveQueue(st)); }
    case Crash(_) =>
    case OtherSave(_, _) =>
  }

  lemma {:induction false} RunsKeepInv(st: State, steps: seq<Step>)
    requires Inv(st) && Runs(st, steps)
    ensures Inv(Final(st, steps))
    decreases |steps|
  {
    hide Inv, Enabled, Next;
    if steps != [] {
      StepKeepsInv(st, steps[0]);
      RunsKeepInv(Next(st, steps[0]), steps[1..]);
    }
  }
}
