/** Crash safety, persist-before-send and conservation of the outbox, with the exact condition on
    the store under which each holds in every run. What was stored, acknowledged and displaced is noted
    by an observer that looks only at what the machine shows: its store, its queue and its requests. */
module OutboxTheorems {
  import opened Common
  import opened Outbox

  /** What the store may do to a run: refuse to load, refuse to save, be written by another reporter. */
  datatype Env = Env(loadMayFail: bool, saveMayFail: bool, storeShared: bool)

  predicate Allowed(env: Env, step: Step) {
    match step
    case LoadDone(ok) => ok || env.loadMayFail
    case SaveDone(ok) => ok || env.saveMayFail
    case ResaveDone(ok) => ok || env.saveMayFail
    case OtherSave(_, _) => env.storeShared
    case _ => true
  }

  predicate AllAllowed(env: Env, steps: seq<Step>) {
    forall i :: 0 <= i < |steps| ==> Allowed(env, steps[i])
  }

  // ------------------------------------------------------------------ the observer

  /** The machine, and the ids that were ever in the store, were in a batch that got a 2xx, or had to make
      room for newer ones. */
  datatype Watched = Watched(st: State, stored: set<nat>, acked: set<nat>, displaced: set<nat>)

  /** At least floor(maxQueued) reports are queued, all of them newer. */
  predicate MadeRoom(st: State, id: nat) {
    st.config.maxQueued.Some? && |st.queue| >= st.config.maxQueued.value.Floor
    && forall i :: 0 <= i < |st.queue| ==> id < st.queue[i].id
  }

  function AckedBy(st: State, step: Step): set<nat>
    requires Enabled(st, step)
  {
    if step == FetchDone(true) then Ids(st.phase.batch) else {}
  }

  /** Of the reports that were queued, or in the store that is loaded, those which made room. */
  function DisplacedBy(st: State, step: Step): set<nat>
    requires Enabled(st, step)
  {
    var candidates := if step.LoadDone? then st.saved else if step.Start? then st.queue else [];
    set r | r in candidates && MadeRoom(Next(st, step), r.id) :: r.id
  }

  function Watch(w: Watched, step: Step): Watched
    requires Enabled(w.st, step)
  {
    var next := Next(w.st, step);
    Watched(next, w.stored + Ids(next.saved), w.acked + AckedBy(w.st, step), w.displaced + DisplacedBy(w.st, step))
  }

  function WatchRun(w: Watched, steps: seq<Step>): Watched
    requires Runs(w.st, steps)
    decreases |steps|
  {
    if steps == [] then w else WatchRun(Watch(w, steps[0]), steps[1..])
  }

  function Started(config: Config): Watched {
    Watched(Initial(config), {}, {}, {})
  }

  ghost predicate Reachable(env: Env, w: Watched) {
    exists config, steps :: RunTo(env, config, steps, w)
  }

  predicate RunTo(env: Env, config: Config, steps: seq<Step>, w: Watched) {
    ValidConfig(config) && Runs(Initial(config), steps) && AllAllowed(env, steps)
    && WatchRun(Started(config), steps) == w
  }

  /** Every report that was ever in the store is still there, was acknowledged, or was displaced. */
  predicate NothingSavedIsLost(w: Watched) {
    w.stored <= Ids(w.st.saved) + w.acked + w.displaced
  }

  /** Whatever is in flight is in the durable store. */
  predicate InFlightIsSaved(st: State) {
    st.phase.Fetching? ==> Ids(st.phase.batch) <= Ids(st.saved)
  }

  // ------------------------------------------------------------------ safety, given the store

  lemma IdsAppend(a: seq<Report>, b: seq<Report>)
    ensures Ids(a + b) == Ids(a) + Ids(b)
  {
  }

  lemma IdsSplit(s: seq<Report>, n: nat)
    requires n <= |s|
    ensures Ids(s) == Ids(s[..n]) + Ids(s[n..])
  {
    assert s == s[..n] + s[n..];
    IdsAppend(s[..n], s[n..]);
  }

  /** What left the queue of this process was acknowledged or displaced. */
  predicate LeftIsExplained(w: Watched) {
    Ids(w.st.left) <= w.acked + w.displaced
  }

  lemma FrontMakesRoom(st: State, queue: seq<Report>, cut: nat, arrivals: nat)
    requires InOrder(queue, arrivals) && cut <= |queue| && st.queue == queue[cut..]
    requires st.config.maxQueued.Some? && |queue| - cut >= st.config.maxQueued.value.Floor
    ensures forall r :: r in queue[..cut] ==> MadeRoom(st, r.id)
  {
  }

  /** Pushing displaces exactly what it takes off, if anything. */
  lemma PushDisplaces(st: State, step: Step)
    requires Inv(st) && Enabled(st, step) && step.Start? && st.waiting[0].ReportOp?
    ensures var next := Next(st, step);
            && Ids(st.queue) <= Ids(next.queue) + DisplacedBy(st, step)
            && Ids(next.left) <= Ids(st.left) + DisplacedBy(st, step)
            && next.saved == st.saved && next.phase == Saving
  {
    var next, r := Next(st, step), Report(st.arrivals, st.waiting[0].text);
    var grown := st.queue + [r];
    var cut := Overflow(grown, st.config.maxQueued);
    OverflowLeavesTheCeiling(grown, st.config.maxQueued);
    assert InOrder(grown, st.arrivals + 1);
    hide Overflow, InOrder;
    IdsAppend(st.queue, [r]);
    IdsSplit(grown, cut);
    IdsAppend(st.left, grown[..cut]);
    if cut > 0 {
      FrontMakesRoom(next, grown, cut, st.arrivals + 1);
      hide MadeRoom;
      assert cut <= |st.queue|;
      forall x | x in grown[..cut] ensures x.id in DisplacedBy(st, step) {
        assert grown[..cut] == st.queue[..cut];
      }
    }
  }

  /** Loading displaces exactly what it leaves behind, if anything. */
  lemma LoadDisplaces(st: State)
    requires Inv(st) && st.phase.Loading?
    ensures var next := Next(st, LoadDone(true));
            && Ids(st.saved) <= Ids(next.queue) + DisplacedBy(st, LoadDone(true))
            && next.saved == st.saved && next.left == st.left && next.phase == Idle
  {
    var next, limit := Next(st, LoadDone(true)), st.config.maxQueued;
    LoadKeepsTheNewest(st.saved, limit);
    hide Kept;
    if Exceeds(|st.saved|, limit) {
      var cut := |st.saved| - limit.value.Floor;
      FrontMakesRoom(next, st.saved, cut, st.arrivals);
      IdsSplit(st.saved, cut);
      hide MadeRoom, InOrder;
      forall x | x in st.saved[..cut] ensures x.id in DisplacedBy(st, LoadDone(true)) {
      }
    }
  }

  lemma AcknowledgedLeave(st: State)
    requires Inv(st) && st.phase.Fetching? && Enabled(st, FetchDone(true))
    ensures var next := Next(st, FetchDone(true));
            && Ids(st.queue) <= Ids(next.queue) + AckedBy(st, FetchDone(true))
            && Ids(next.left) <= Ids(st.left) + AckedBy(st, FetchDone(true))
            && next.saved == st.saved && next.phase == Resaving
  {
    var batch := st.phase.batch;
    assert st.queue[..|batch|] == batch;
    hide InOrder;
    IdsSplit(st.queue, |batch|);
    IdsAppend(st.left, batch);
    hide Ids;
  }

  /** What memory and store account for between two steps. */
  predicate SafeInv(w: Watched) {
    && NothingSavedIsLost(w) && LeftIsExplained(w)
    && (w.st.phase.Loading? || Ids(w.st.saved) <= Ids(w.st.queue) + w.acked + w.displaced)
  }

  lemma StepKeepsSafe(w: Watched, step: Step)
    requires Inv(w.st) && SafeInv(w) && Enabled(w.st, step) && Allowed(Env(false, true, false), step)
    ensures SafeInv(Watch(w, step))
  {
    hide InOrder;
    var next := Next(w.st, step);
    match step
    case LoadDone(ok) =>
      LoadDisplaces(w.st);
      hide Load, DisplacedBy, Ids;
    case Start =>
      if w.st.waiting[0].ReportOp? {
        PushDisplaces(w.st, step);
      }
      hide Push, DisplacedBy, Ids;
    case FetchDone(ok) =>
      if ok {
        AcknowledgedLeave(w.st);
      }
      hide Acknowledge, DisplacedBy, Ids;
    case Crash(_) => assert Ids(next.left) == {};
      hide DisplacedBy;
    case _ => hide DisplacedBy, Ids;
  }

  lemma {:induction false} RunsKeepSafe(w: Watched, steps: seq<Step>)
    requires Inv(w.st) && SafeInv(w) && Runs(w.st, steps) && AllAllowed(Env(false, true, false), steps)
    ensures SafeInv(WatchRun(w, steps))
    decreases |steps|
  {
    hide Inv, SafeInv, Enabled, Next, Allowed;
    if steps != [] {
      StepKeepsInv(w.st, steps[0]);
      StepKeepsSafe(w, steps[0]);
      RunsKeepSafe(Watch(w, steps[0]), steps[1..]);
    }
  }

  /** What left the queue is explained in every run, whatever fails. */
  lemma StepKeepsExplained(w: Watched, step: Step)
    requires Inv(w.st) && LeftIsExplained(w) && Enabled(w.st, step)
    ensures LeftIsExplained(Watch(w, step))
  {
    hide InOrder;
    match step
    case Start =>
      if w.st.waiting[0].ReportOp? {
        PushDisplaces(w.st, step);
      }
      hide Push, DisplacedBy, Ids;
    case FetchDone(ok) =>
      if ok {
        AcknowledgedLeave(w.st);
      }
      hide Acknowledge, DisplacedBy, Ids;
    case Crash(_) => assert Ids([]) == {};
      hide DisplacedBy;
    case _ => hide DisplacedBy, Ids;
  }

  /** As long as no save fails, the queue is a part of the store wherever a send can begin. */
  predicate PersistInv(st: State) {
    && InFlightIsSaved(st)
    && (st.phase.Idle? || st.phase.Fetching? ==> Ids(st.queue) <= Ids(st.saved))
  }

  lemma StepKeepsPersist(st: State, step: Step)
    requires Inv(st) && PersistInv(st) && Enabled(st, step) && Allowed(Env(true, false, false), step)
    ensures PersistInv(Next(st, step))
  {
  }

  lemma {:induction false} RunsKeepPersist(w: Watched, steps: seq<Step>)
    requires Inv(w.st) && PersistInv(w.st) && Runs(w.st, steps) && AllAllowed(Env(true, false, false), steps)
    ensures PersistInv(WatchRun(w, steps).st)
    decreases |steps|
  {
    hide Inv, PersistInv, Enabled, Next, Allowed;
    if steps != [] {
      StepKeepsInv(w.st, steps[0]);
      StepKeepsPersist(w.st, steps[0]);
      RunsKeepPersist(Watch(w, steps[0]), steps[1..]);
    }
  }

  lemma {:induction false} RunsKeepInvariants(w: Watched, steps: seq<Step>)
    requires Inv(w.st) && LeftIsExplained(w) && Runs(w.st, steps)
    ensures Inv(WatchRun(w, steps).st) && LeftIsExplained(WatchRun(w, steps))
    decreases |steps|
  {
    hide Inv, LeftIsExplained, Enabled, Next;
    if steps != [] {
      StepKeepsInv(w.st, steps[0]);
      StepKeepsExplained(w, steps[0]);
      RunsKeepInvariants(Watch(w, steps[0]), steps[1..]);
    }
  }

  ghost predicate CrashSafe(env: Env) {
    forall w :: Reachable(env, w) ==> NothingSavedIsLost(w)
  }

  ghost predicate PersistsBeforeSend(env: Env) {
    forall w :: Reachable(env, w) ==> InFlightIsSaved(w.st)
  }

  lemma InitialInv(config: Config)
    requires ValidConfig(config)
    ensures Inv(Initial(config)) && SafeInv(Started(config)) && PersistInv(Initial(config))
  {
  }

  lemma {:induction false} RunSnoc(w: Watched, steps: seq<Step>, step: Step)
    requires Runs(w.st, steps) && Enabled(WatchRun(w, steps).st, step)
    ensures Runs(w.st, steps + [step]) && WatchRun(w, steps + [step]) == Watch(WatchRun(w, steps), step)
    decreases |steps|
  {
    hide Enabled, Next, Watch;
    if steps == [] {
      assert steps + [step] == [step] && [step][1..] == [];
    } else {
      assert (steps + [step])[1..] == steps[1..] + [step];
      assert Watch(w, steps[0]).st == Next(w.st, steps[0]) by { WatchMoves(w, steps[0]); }
      RunSnoc(Watch(w, steps[0]), steps[1..], step);
    }
  }

  lemma WatchMoves(w: Watched, step: Step)
    requires Enabled(w.st, step)
    ensures Watch(w, step).st == Next(w.st, step)
  {
  }

  lemma ReachableInitial(env: Env, config: Config)
    requires ValidConfig(config)
    ensures Reachable(env, Started(config))
  {
    assert RunTo(env, config, [], Started(config));
  }

  lemma ReachableNext(env: Env, w: Watched, step: Step, next: Watched)
    requires Reachable(env, w) && Allowed(env, step) && Enabled(w.st, step) && Watch(w, step) == next
    ensures Reachable(env, next)
  {
    var config, steps :| RunTo(env, config, steps, w);
    hide Enabled, Next, Allowed, Watch;
    RunSnoc(Started(config), steps, step);
    assert RunTo(env, config, steps + [step], next);
  }

  lemma PushOntoEmpty(st: State, text: string)
    requires st.queue == []
    ensures var r := Report(st.arrivals, text);
            Push(st, text) == st.(queue := [r], arrivals := st.arrivals + 1, entered := st.entered + [r])
  {
  }

  lemma BatchOfOne(r: Report)
    ensures Batch([r], 1) == [r]
  {
  }

  const SMALL: Config := Config(1, Some(1.0))
  const A: Report := Report(0, "a")
  const B: Report := Report(1, "b")

  /** A step with which nothing is acknowledged and nothing can make room. */
  lemma ReachableQuietly(env: Env, w: Watched, step: Step, next: State, stored: set<nat>)
    requires Reachable(env, w) && Allowed(env, step) && Enabled(w.st, step) && Next(w.st, step) == next
    requires !step.FetchDone? && (step.Start? ==> w.st.queue == []) && (step.LoadDone? ==> next.queue == [])
    requires stored == w.stored + Ids(next.saved)
    ensures Reachable(env, w.(st := next, stored := stored))
  {
    assert DisplacedBy(w.st, step) == {} && AckedBy(w.st, step) == {};
    hide Next, Enabled, DisplacedBy, AckedBy, Reachable;
    assert Watch(w, step) == w.(st := next, stored := stored);
    ReachableNext(env, w, step, w.(st := next, stored := stored));
  }

  function Unseen(st: State): Watched {
    Watched(st, {}, {}, {})
  }

  /** A first report has been pushed and its save is under way. */
  function FirstPushed(): State {
    State(SMALL, [A], [], Saving, [], 1, [A], [])
  }

  lemma ReachFirstPushed(env: Env)
    ensures Reachable(env, Unseen(FirstPushed()))
  {
    var s0 := Initial(SMALL);
    assert Started(SMALL) == Unseen(s0) && Ids([]) == {};
    ReachableInitial(env, SMALL);
    hide Reachable, Ids;
    var s1 := s0.(phase := Idle);
    ReachableQuietly(env, Unseen(s0), LoadDone(true), s1, {});
    var s2 := s1.(waiting := [ReportOp("a")]);
    ReachableQuietly(env, Unseen(s1), Schedule(ReportOp("a")), s2, {});
    assert s2.waiting[1..] == [];
    PushOntoEmpty(s1, "a");
    hide Push;
    ReachableQuietly(env, Unseen(s2), Start, FirstPushed(), {});
  }

  /** The first report is saved, and its request under way. */
  function FirstFetching(): State {
    FirstPushed().(saved := [A], phase := Fetching([A]))
  }

  function OneSeen(st: State): Watched {
    Watched(st, {0}, {}, {})
  }

  lemma ReachFirstFetching(env: Env)
    ensures Reachable(env, OneSeen(FirstFetching()))
  {
    ReachFirstPushed(env);
    assert Ids([A]) == {0};
    BatchOfOne(A);
    hide Ids, Push, Batch, Reachable;
    ReachableQuietly(env, Unseen(FirstPushed()), SaveDone(true), FirstFetching(), {0});
  }

  /** Another reporter, which never saw the first report, saves its queue when that is empty: the store
      holds neither what was saved nor what is being sent. */
  lemma SharedStoreLoses(env: Env)
    requires env.storeShared
    ensures !CrashSafe(env) && !PersistsBeforeSend(env)
  {
    ReachFirstFetching(env);
    var st := FirstFetching().(saved := []);
    assert Ids([]) == {} && A in st.phase.batch && 0 in Ids([A]);
    hide Reachable, Ids;
    ReachableQuietly(env, OneSeen(FirstFetching()), OtherSave([], 0), st, {0});
    var w := OneSeen(st);
    assert 0 in w.stored && !NothingSavedIsLost(w) && !InFlightIsSaved(st);
  }

  /** A process that could not load the first report. */
  function Restarted(): State {
    State(SMALL, [], [], Idle, [A], 1, [], [])
  }

  lemma ReachRestarted(env: Env)
    requires env.loadMayFail
    ensures Reachable(env, OneSeen(Restarted()))
  {
    ReachFirstFetching(env);
    assert Ids([A]) == {0};
    hide Reachable, Ids;
    var loading := Restarted().(phase := Loading);
    ReachableQuietly(env, OneSeen(FirstFetching()), Crash(SMALL), loading, {0});
    ReachableQuietly(env, OneSeen(loading), LoadDone(false), Restarted(), {0});
  }

  /** It saves a second report. */
  function SecondPushed(): State {
    State(SMALL, [B], [], Saving, [A], 2, [B], [])
  }

  lemma ReachSecondPushed(env: Env)
    requires env.loadMayFail
    ensures Reachable(env, OneSeen(SecondPushed()))
  {
    ReachRestarted(env);
    assert Ids([A]) == {0};
    PushOntoEmpty(Restarted(), "b");
    hide Push, Reachable, Ids;
    var waiting := Restarted().(waiting := [ReportOp("b")]);
    ReachableQuietly(env, OneSeen(Restarted()), Schedule(ReportOp("b")), waiting, {0});
    assert waiting.waiting[1..] == [];
    ReachableQuietly(env, OneSeen(waiting), Start, SecondPushed(), {0});
  }

  /** Restarted without the store's reports, the second report overwrites the first. */
  lemma FailedLoadLoses(env: Env)
    requires env.loadMayFail
    ensures !CrashSafe(env)
  {
    ReachSecondPushed(env);
    assert Ids([B]) == {1};
    BatchOfOne(B);
    hide Batch, Reachable, Ids;
    var st := SecondPushed().(saved := [B], phase := Fetching([B]));
    ReachableQuietly(env, OneSeen(SecondPushed()), SaveDone(true), st, {0, 1});
    var w := Watched(st, {0, 1}, {}, {});
    assert 0 in w.stored && !NothingSavedIsLost(w);
  }

  /** The first save failed, and a flush is waiting. */
  function FlushWaiting(): State {
    FirstPushed().(phase := Idle, waiting := [FlushOp])
  }

  lemma ReachFlushWaiting(env: Env)
    requires env.saveMayFail
    ensures Reachable(env, Unseen(FlushWaiting()))
  {
    ReachFirstPushed(env);
    assert Ids([]) == {};
    hide Reachable, Ids;
    var idle := FirstPushed().(phase := Idle);
    ReachableQuietly(env, Unseen(FirstPushed()), SaveDone(false), idle, {});
    ReachableQuietly(env, Unseen(idle), Schedule(FlushOp), FlushWaiting(), {});
  }

  /** After a failed save, a flush sends what the store never held. */
  lemma FailedSaveSendsUnsaved(env: Env)
    requires env.saveMayFail
    ensures !PersistsBeforeSend(env)
  {
    ReachFlushWaiting(env);
    BatchOfOne(A);
    assert Ids([]) == {} && Ids([A]) == {0};
    hide Batch, Reachable, Ids;
    assert FlushWaiting().waiting[1..] == [];
    var sending := FirstPushed().(phase := Fetching([A]));
    ReachSending(env, FlushWaiting(), sending);
    assert !InFlightIsSaved(Unseen(sending).st);
  }

  lemma ReachSending(env: Env, st: State, next: State)
    requires Reachable(env, Unseen(st)) && Enabled(st, Start) && Next(st, Start) == next
    requires next.queue == st.queue && Ids(next.saved) == {}
    ensures Reachable(env, Unseen(next))
  {
    hide Reachable, Ids, Next, Enabled, Watch;
    FlushStartIsQuiet(st, next);
    ReachableNext(env, Unseen(st), Start, Unseen(next));
  }

  lemma FlushStartIsQuiet(st: State, next: State)
    requires Enabled(st, Start) && Next(st, Start) == next && next.queue == st.queue && Ids(next.saved) == {}
    ensures Watch(Unseen(st), Start) == Unseen(next)
  {
    forall r | r in st.queue ensures !MadeRoom(next, r.id) {
      var i :| 0 <= i < |st.queue| && st.queue[i] == r;
      assert !(r.id < next.queue[i].id);
    }
  }

  /** A run of a kinder environment. */
  lemma AllowedMore(env: Env, more: Env, steps: seq<Step>)
    requires AllAllowed(env, steps)
    requires (env.loadMayFail ==> more.loadMayFail) && (env.saveMayFail ==> more.saveMayFail)
    requires env.storeShared ==> more.storeShared
    ensures AllAllowed(more, steps)
  {
  }

  lemma ReachableIsSafe(env: Env, w: Watched)
    requires Reachable(env, w) && !env.loadMayFail && !env.storeShared
    ensures NothingSavedIsLost(w)
  {
    var config, steps :| RunTo(env, config, steps, w);
    AllowedMore(env, Env(false, true, false), steps);
    InitialInv(config);
    hide Inv, Runs, WatchRun, AllAllowed, NothingSavedIsLost, PersistInv;
    RunsKeepSafe(Started(config), steps);
  }

  lemma PersistedInFlight(st: State)
    requires PersistInv(st)
    ensures InFlightIsSaved(st)
  {
  }

  lemma ReachableIsPersisted(env: Env, w: Watched)
    requires Reachable(env, w) && !env.saveMayFail && !env.storeShared
    ensures InFlightIsSaved(w.st)
  {
    var config, steps :| RunTo(env, config, steps, w);
    AllowedMore(env, Env(true, false, false), steps);
    InitialInv(config);
    hide Inv, Runs, WatchRun, AllAllowed, SafeInv, PersistInv, InFlightIsSaved;
    RunsKeepPersist(Started(config), steps);
    PersistedInFlight(w.st);
  }

  /** In every run, with a crash or restart at any await: every report that was ever in the store is there,
      was acknowledged by a 2xx, or made room for at least floor(maxQueued) newer ones, exactly when the
      store never refuses to load and no other reporter writes to it. Failing saves do no harm to this. */
  lemma CrashSafeExactlyWhenOwnStoreLoads(env: Env)
    ensures CrashSafe(env) <==> !env.loadMayFail && !env.storeShared
  {
    hide Reachable;
    if env.loadMayFail {
      FailedLoadLoses(env);
    } else if env.storeShared {
      SharedStoreLoses(env);
    } else {
      forall w | Reachable(env, w)
        ensures NothingSavedIsLost(w)
      {
        ReachableIsSafe(env, w);
      }
    }
  }

  /** Every batch is in the store while it is sent, exactly when saving never fails and no other reporter
      writes to the store. A failed load does no harm to this. */
  lemma PersistsBeforeSendExactlyWhenOwnStoreSaves(env: Env)
    ensures PersistsBeforeSend(env) <==> !env.saveMayFail && !env.storeShared
  {
    hide Reachable, InFlightIsSaved;
    if env.saveMayFail {
      FailedSaveSendsUnsaved(env);
    } else if env.storeShared {
      SharedStoreLoses(env);
    } else {
      forall w | Reachable(env, w)
        ensures InFlightIsSaved(w.st)
      {
        ReachableIsPersisted(env, w);
      }
    }
  }

  lemma BatchIsTheFront(queue: seq<Report>, batchSize: nat)
    requires queue != []
    ensures var batch := Batch(queue, batchSize);
            batch <= queue && |batch| == Min(batchSize, |queue|)
  {
  }

  /** In every run: the queue exceeds maxQueued by less than one report, and not at all when maxQueued is
      whole; memory and store stay in arrival order, the batch in flight is the front of the queue, and
      what entered this process's queue is what left it, acknowledged or to make room, followed by what is
      still queued. */
  lemma OutboxInvariants(env: Env, w: Watched)
    requires Reachable(env, w)
    ensures WithinLimit(|w.st.queue|, w.st.config.maxQueued)
    ensures IsWhole(w.st.config.maxQueued) ==> |w.st.queue| as real <= w.st.config.maxQueued.value
    ensures InOrder(w.st.queue, w.st.arrivals) && InOrder(w.st.saved, w.st.arrivals)
    ensures w.st.phase.Fetching? ==>
              w.st.queue != [] && w.st.phase.batch <= w.st.queue
              && |w.st.phase.batch| == Min(w.st.config.batchSize, |w.st.queue|)
    ensures w.st.entered == w.st.left + w.st.queue
    ensures Ids(w.st.left) <= w.acked + w.displaced
  {
    var config, steps :| RunTo(env, config, steps, w);
    hide Runs, WatchRun, WithinLimit, IsWhole, InOrder, Batch, Ids;
    InitialInv(config);
    RunsKeepInvariants(Started(config), steps);
    var st := w.st;
    if IsWhole(st.config.maxQueued) { WholeLimitIsMet(|st.queue|, st.config.maxQueued); }
    if st.phase.Fetching? { BatchIsTheFront(st.queue, st.config.batchSize); }
  }
}
