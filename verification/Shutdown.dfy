/**
 Stopping the worker pool: the workers' own steps always run out, and after `stop` the pool comes to rest
 with every worker gone exactly when no sentinel was abandoned.
 */
module Shutdown {
  import opened Basics
  import opened JobQueues
  import opened WorkerPools
  import opened QueueInvariants
  import opened QueueTheorems

  // ---- The workers' own steps run out ----

  function GetterWeight(g: Getter): nat {
    if g.Done? then 3 else 0
  }

  function Weight(w: Worker): nat {
    match w.phase
    case Ready => 2
    case Waiting(high, normal) => 1 + GetterWeight(high) + GetterWeight(normal)
    case Handling(_) => 3
    case Exited => 0
    case Crashed => 0
  }

  function TotalWeight(ws: seq<Worker>): nat {
    if ws == [] then 0 else Weight(ws[0]) + TotalWeight(ws[1..])
  }

  lemma {:induction false} TotalWeightUpdate(ws: seq<Worker>, i: nat, w: Worker)
    requires i < |ws|
    ensures TotalWeight(ws[i := w]) + Weight(ws[i]) == TotalWeight(ws) + Weight(w)
  {
    if i > 0 {
      TotalWeightUpdate(ws[1..], i - 1, w);
      assert ws[i := w][1..] == ws[1..][i - 1 := w];
    } else {
      assert ws[i := w][1..] == ws[1..];
    }
  }

  /** An upper bound on the steps the workers can still take on their own. */
  function Potential(s: System): nat {
    4 * Backlog(s) + TotalWeight(s.workers)
  }

  lemma PotentialFalls(cfg: Config, s: System, a: Action)
    requires Inv(s) && Enabled(s, a) && a.ByWorker()
    ensures Potential(Next(cfg, s, a)) < Potential(s)
  {
    hide Inv, Enabled, Next, TotalWeight;
    var p, mine, others := WorkerEffect(cfg, s, a);
    TotalWeightUpdate(s.workers, a.w, Next(cfg, s, a).workers[a.w]);
  }

  ghost predicate WorkersOnly(run: seq<Action>) {
    forall i :: 0 <= i < |run| ==> run[i].ByWorker()
  }

  /** Handlers that return let only finitely many steps happen without a new `enqueue`, `drain` or `stop`. */
  lemma {:induction false} WorkerStepsRunOut(cfg: Config, s: System, run: seq<Action>)
    requires Inv(s) && Runs(cfg, s, run) && WorkersOnly(run)
    ensures |run| + Potential(After(cfg, s, run)) <= Potential(s)
    decreases |run|
  {
    hide Inv, Enabled, Next, Potential;
    if run != [] {
      assert run[0].ByWorker();
      PotentialFalls(cfg, s, run[0]);
      StepKeepsInv(cfg, s, run[0]);
      assert WorkersOnly(run[1..]);
      WorkerStepsRunOut(cfg, Next(cfg, s, run[0]), run[1..]);
    }
  }

  /** From any reachable state the workers, left alone, come to rest. */
  lemma {:induction false} RestIsReached(cfg: Config, s: System) returns (run: seq<Action>)
    requires Inv(s)
    ensures Runs(cfg, s, run) && WorkersOnly(run) && AtRest(After(cfg, s, run))
    decreases Potential(s)
  {
    hide Inv, Enabled, Next, Potential;
    if AtRest(s) {
      run := [];
    } else {
      var a: Action :| a.ByWorker() && Enabled(s, a);
      PotentialFalls(cfg, s, a);
      StepKeepsInv(cfg, s, a);
      var rest := RestIsReached(cfg, Next(cfg, s, a));
      run := [a] + rest;
      RunCons(cfg, s, a, rest);
    }
  }

  // ---- Where the sentinels are ----

  function LiveWorkers(s: System): int {
    |s.workers| - CountExited(s.workers)
  }

  /** What the workers' own steps leave alone, and the sentinel that stays last in the high queue. */
  ghost predicate Stopping(s: System) {
    && s.stopped && |s.workers| >= 1
    && s.q.high.log.evicted[None] == 0 && s.q.high.log.drained[None] == 0
    && (s.q.high.chan.items != [] ==> s.q.high.chan.items[|s.q.high.chan.items| - 1].None?)
  }

  /** A sentinel that was put and has not ended a worker is queued, taken or abandoned. */
  lemma SentinelsLeft(s: System)
    requires Inv(s) && Stopping(s)
    ensures LiveWorkers(s) == multiset(s.q.high.chan.items)[None] + Gather(s.workers, Taken, High)[None]
                              + s.q.high.log.abandoned[None]
  {
    hide Gather, Accounts, AllRouted;
    var taken, held := Gather(s.workers, Taken, High), Gather(s.workers, Held, High);
    assert LaneInv(s, High);
    PlacesAddUp(High, s.q.high, taken, held);
    assert multiset(s.q.high.log.put)[None]
        == multiset(s.q.high.chan.items)[None] + taken[None] + held[None] + s.q.high.log.finished[None]
           + s.q.high.log.evicted[None] + s.q.high.log.drained[None] + s.q.high.log.abandoned[None];
    NoSentinelHeld(s.workers);
  }

  lemma {:induction false} NoSentinelHeld(ws: seq<Worker>)
    ensures Gather(ws, Held, High)[None] == 0
  {
    if ws != [] {
      NoSentinelHeld(ws[1..]);
    }
  }

  lemma StopStep(cfg: Config, s: System)
    requires Inv(s) && Enabled(s, Stop) && |s.workers| >= 1
    ensures Stopping(Next(cfg, s, Stop))
  {
    hide Gather, Accounts, AllRouted, CountExited;
    SentinelsTouchNothingElse(s.q, |s.workers|);
    var log := s.q.high.log;
    assert LaneInv(s, High);
    PlacesAddUp(High, s.q.high, Gather(s.workers, Taken, High), Gather(s.workers, Held, High));
    assert log.evicted[None] + log.drained[None] <= multiset(log.put)[None];
  }

  lemma MovedKeeps(lane: Lane, m: Move)
    requires CanMove(lane, m)
    ensures var after := Moved(lane, m);
            && after.log.evicted == lane.log.evicted && after.log.drained == lane.log.drained
            && after.log.put == lane.log.put
            && after.chan.items == (if m.popped.Some? then lane.chan.items[1..] else lane.chan.items)
            && after.log.abandoned == lane.log.abandoned + Bag(m.abandoned)
  {
  }

  lemma StoppingStep(cfg: Config, s: System, a: Action)
    requires Inv(s) && Stopping(s) && Enabled(s, a) && a.ByWorker()
    ensures Stopping(Next(cfg, s, a))
    ensures Next(cfg, s, a).q.high.log.evicted == s.q.high.log.evicted
    ensures Next(cfg, s, a).q.high.log.drained == s.q.high.log.drained
    ensures Next(cfg, s, a).q.high.log.put == s.q.high.log.put
    ensures |Next(cfg, s, a).workers| == |s.workers|
  {
    hide Inv, Enabled, Next, Moved, IsStep, WorkerInv, FinishesBoth;
    var p, mine, others := WorkerEffect(cfg, s, a);
    MovedKeeps(s.q.On(p), mine);
    MovedKeeps(s.q.On(Other(p)), others);
  }

  lemma {:induction false} StoppingAlongRun(cfg: Config, s: System, run: seq<Action>)
    requires Inv(s) && Stopping(s) && Runs(cfg, s, run) && WorkersOnly(run)
    ensures var t := After(cfg, s, run);
            && Inv(t) && Stopping(t) && |t.workers| == |s.workers|
            && t.q.high.log.evicted == s.q.high.log.evicted && t.q.high.log.drained == s.q.high.log.drained
            && t.q.high.log.put == s.q.high.log.put
    decreases |run|
  {
    hide Inv, Enabled, Next, Stopping;
    if run != [] {
      assert run[0].ByWorker();
      StoppingStep(cfg, s, run[0]);
      StepKeepsInv(cfg, s, run[0]);
      assert WorkersOnly(run[1..]);
      StoppingAlongRun(cfg, Next(cfg, s, run[0]), run[1..]);
    }
  }

  lemma {:induction false} WorkersStay(cfg: Config, s: System, run: seq<Action>)
    requires Inv(s) && Runs(cfg, s, run)
    ensures |After(cfg, s, run).workers| == |s.workers|
    decreases |run|
  {
    hide Inv, Enabled, Deliver, AfterHandler, AfterEnqueue, AfterDrain, AfterSentinels;
    if run != [] {
      if run[0].ByWorker() {
        var p, mine, others := WorkerEffect(cfg, s, run[0]);
      }
      StepKeepsInv(cfg, s, run[0]);
      WorkersStay(cfg, Next(cfg, s, run[0]), run[1..]);
    }
  }

  // ---- A running pool at rest ----

  lemma NobodyExitedYet(s: System)
    requires Inv(s) && !s.stopped
    ensures CountExited(s.workers) == 0
  {
    hide Gather, Accounts, AllRouted, CountExited;
    assert LaneInv(s, High);
    PlacesAddUp(High, s.q.high, Gather(s.workers, Taken, High), Gather(s.workers, Held, High));
    assert s.q.high.log.finished[None] <= multiset(s.q.high.log.put)[None];
  }

  lemma {:induction false} ExitedIsCounted(ws: seq<Worker>, w: nat)
    requires w < |ws|
    ensures ws[w].phase.Exited? ==> CountExited(ws) > 0
  {
    if w > 0 {
      ExitedIsCounted(ws[1..], w - 1);
    }
  }

  lemma EveryoneWaits(s: System)
    requires Inv(s) && AtRest(s) && !s.stopped
    ensures forall w :: 0 <= w < |s.workers| ==> s.workers[w].phase == Waiting(Pending, Pending) && s.q.Idle()
  {
    hide Inv, AtRest, CountExited;
    NobodyExitedYet(s);
    forall w | 0 <= w < |s.workers|
      ensures s.workers[w].phase == Waiting(Pending, Pending) && s.q.Idle()
    {
      RestingWorker(s, w);
      ExitedIsCounted(s.workers, w);
    }
  }

  /**
   What a running pool achieves: when its workers are at rest, every item ever put into either queue has been
   finished, evicted or drained, or was abandoned, and the unfinished-task counter is what was abandoned. The
   workers come to rest whenever they are left alone (`RestIsReached`), so then `join` returns unless
   something was lost.
   */
  lemma RunningPoolGetsDone(cfg: Config, s0: System, run: seq<Action>, p: Priority)
    requires Reached(cfg, s0, run) && !After(cfg, s0, run).stopped && AtRest(After(cfg, s0, run))
    ensures var lane := After(cfg, s0, run).q.On(p);
            && lane.chan.items == []
            && multiset(lane.log.put) == lane.log.finished + lane.log.evicted + lane.log.drained + lane.log.abandoned
            && lane.chan.unfinished == |lane.log.abandoned|
  {
    hide Inv, Enabled, Next, AtRest, Gather;
    var s := After(cfg, s0, run);
    ReachedInv(cfg, s0, run);
    InitialInv(s0);
    WorkersStay(cfg, s0, run);
    EveryoneWaits(s);
    assert s.workers[0].phase == Waiting(Pending, Pending);
    GatherNothing(s.workers, Taken, p);
    GatherNothing(s.workers, Held, p);
    EveryItemIsInOnePlace(cfg, s0, run, p);
    UnfinishedIsExact(cfg, s0, run, p);
    var lane := s.q.On(p);
    var all := lane.log.finished + lane.log.evicted + lane.log.drained + lane.log.abandoned;
    assert multiset(lane.chan.items) + multiset{} + multiset{} + lane.log.finished + lane.log.evicted + lane.log.drained
           + lane.log.abandoned == all;
  }

  // ---- A run to rest after `stop` ----

  /** A pool that was stopped after `before` and has since taken only the workers' own steps in `after`. */
  ghost predicate StoppedRun(cfg: Config, s0: System, before: seq<Action>, after: seq<Action>) {
    && Reached(cfg, s0, before)
    && Enabled(After(cfg, s0, before), Stop)
    && Runs(cfg, Next(cfg, After(cfg, s0, before), Stop), after)
    && WorkersOnly(after)
  }

  ghost function StoppedAt(cfg: Config, s0: System, before: seq<Action>, after: seq<Action>): System
    requires StoppedRun(cfg, s0, before, after)
  {
    After(cfg, Next(cfg, After(cfg, s0, before), Stop), after)
  }

  lemma StoppedRunFacts(cfg: Config, s0: System, before: seq<Action>, after: seq<Action>)
    requires StoppedRun(cfg, s0, before, after)
    ensures var s := After(cfg, s0, before);
            var t := StoppedAt(cfg, s0, before, after);
            && Inv(s) && Inv(t) && Stopping(t) && |t.workers| == |s.workers|
            && t.q.high.log.evicted == s.q.high.log.evicted && t.q.high.log.drained == s.q.high.log.drained
            && t.q.high.log.put == s.q.high.log.put + seq(|s.workers|, _ => None)
  {
    hide Inv, Enabled, Stopping;
    var s := After(cfg, s0, before);
    ReachedInv(cfg, s0, before);
    InitialInv(s0);
    WorkersStay(cfg, s0, before);
    SentinelsTouchNothingElse(s.q, |s.workers|);
    StopStep(cfg, s);
    StepKeepsInv(cfg, s, Stop);
    StoppingAlongRun(cfg, Next(cfg, s, Stop), after);
  }

  /** At every moment after `stop`, the sentinels still queued, taken or abandoned are as many as the live workers. */
  lemma SentinelsMatchLiveWorkers(cfg: Config, s0: System, before: seq<Action>, after: seq<Action>)
    requires StoppedRun(cfg, s0, before, after)
    ensures var t := StoppedAt(cfg, s0, before, after);
            LiveWorkers(t) == multiset(t.q.high.chan.items)[None] + Gather(t.workers, Taken, High)[None]
                              + t.q.high.log.abandoned[None]
  {
    hide Inv, Enabled, Stopping, Gather;
    StoppedRunFacts(cfg, s0, before, after);
    SentinelsLeft(StoppedAt(cfg, s0, before, after));
  }

  /** Worker `w` can take its next step: it is not stuck behind an empty queue. */
  ghost predicate CanProceed(s: System, w: nat) {
    exists a: Action :: a.ByWorker() && a.w == w && Enabled(s, a)
  }

  lemma {:induction false} SentinelHoldersAreLive(ws: seq<Worker>, w: nat)
    requires w < |ws| && AllWell(ws) && !ws[w].phase.Exited? && OwnedBy(ws[w], Taken, High).None?
    ensures Gather(ws, Taken, High)[None] + 1 <= |ws| - CountExited(ws)
  {
    HoldersAtMostLive(ws[1..]);
    if w > 0 {
      assert AllWell(ws[1..]);
      SentinelHoldersAreLive(ws[1..], w - 1);
    }
  }

  lemma {:induction false} HoldersAtMostLive(ws: seq<Worker>)
    ensures Gather(ws, Taken, High)[None] <= |ws| - CountExited(ws)
  {
    if ws != [] {
      HoldersAtMostLive(ws[1..]);
    }
  }

  /** After `stop`, as long as no sentinel has been abandoned, no live worker ever blocks. */
  lemma NoLiveWorkerBlocks(cfg: Config, s0: System, before: seq<Action>, after: seq<Action>, w: nat)
    requires StoppedRun(cfg, s0, before, after)
    requires var t := StoppedAt(cfg, s0, before, after);
             t.q.high.log.abandoned[None] == 0 && w < |t.workers| && !t.workers[w].phase.Exited?
    ensures CanProceed(StoppedAt(cfg, s0, before, after), w)
  {
    hide LaneInv, Gather, CountExited, Next, Runs, After;
    StoppedRunFacts(cfg, s0, before, after);
    var t := StoppedAt(cfg, s0, before, after);
    SentinelsLeft(t);
    assert WorkerInv(t.workers[w]);
    match t.workers[w].phase
    case Ready => assert Enabled(t, GetNow(w)) || Enabled(t, StartWait(w));
    case Handling(_) => assert Enabled(t, Finish(w, false, 0.0));
    case Waiting(high, normal) =>
      if high.Done? {
        assert Enabled(t, Resume(w, High));
      } else {
        SentinelHoldersAreLive(t.workers, w);
        assert Enabled(t, Take(w, High));
      }
  }

  /** No worker and no getter can take a step. */
  ghost predicate AtRest(s: System) {
    forall a: Action :: a.ByWorker() ==> !Enabled(s, a)
  }

  lemma RestingWorker(s: System, w: nat)
    requires Inv(s) && AtRest(s) && w < |s.workers|
    ensures s.workers[w].phase.Exited? || (s.workers[w].phase == Waiting(Pending, Pending) && s.q.Idle())
  {
    hide LaneInv, CountExited;
    assert WorkerInv(s.workers[w]);
    assert !Enabled(s, GetNow(w)) && !Enabled(s, StartWait(w)) && !Enabled(s, Finish(w, false, 0.0));
    assert !Enabled(s, Resume(w, High)) && !Enabled(s, Resume(w, Normal));
    assert !Enabled(s, Take(w, High)) && !Enabled(s, Take(w, Normal));
  }

  lemma RestingPool(s: System)
    requires Inv(s) && Stopping(s) && AtRest(s)
    ensures s.q.high.chan.items == []
    ensures forall p, place :: Gather(s.workers, place, p) == multiset{}
    ensures LiveWorkers(s) == s.q.high.log.abandoned[None]
  {
    hide LaneInv, Gather, CountExited, AtRest;
    forall w | 0 <= w < |s.workers|
      ensures s.workers[w].phase.Exited? || (s.workers[w].phase == Waiting(Pending, Pending) && s.q.Idle())
    {
      RestingWorker(s, w);
    }
    forall p, place
      ensures Gather(s.workers, place, p) == multiset{}
    {
      GatherNothing(s.workers, place, p);
    }
    SentinelsLeft(s);
    var items := s.q.high.chan.items;
    assert items != [] ==> multiset(items)[items[|items| - 1]] >= 1;
    if forall w :: 0 <= w < |s.workers| ==> s.workers[w].phase.Exited? {
      EveryoneExited(s.workers);
    }
  }

  lemma {:induction false} EveryoneExited(ws: seq<Worker>)
    requires forall w :: 0 <= w < |ws| ==> ws[w].phase.Exited?
    ensures CountExited(ws) == |ws|
  {
    if ws != [] {
      EveryoneExited(ws[1..]);
    }
  }

  lemma {:induction false} SomeoneLive(ws: seq<Worker>)
    ensures CountExited(ws) <= |ws|
    ensures CountExited(ws) == |ws| ==> forall w :: 0 <= w < |ws| ==> ws[w].phase.Exited?
  {
    if ws != [] {
      SomeoneLive(ws[1..]);
    }
  }

  /**
   Where every stopped pool ends up. The high queue is empty, and the workers that never exit are exactly
   as many as the sentinels that were abandoned: shutdown completes if and only if no sentinel was.
   */
  lemma ShutdownOutcome(cfg: Config, s0: System, before: seq<Action>, after: seq<Action>)
    requires StoppedRun(cfg, s0, before, after) && AtRest(StoppedAt(cfg, s0, before, after))
    ensures var t := StoppedAt(cfg, s0, before, after);
            && t.q.high.chan.items == []
            && LiveWorkers(t) == t.q.high.log.abandoned[None]
            && ((forall w :: 0 <= w < |t.workers| ==> t.workers[w].phase.Exited?)
                <==> t.q.high.log.abandoned[None] == 0)
  {
    hide Inv, Enabled, Stopping, AtRest, Gather, StoppedRun;
    var t := StoppedAt(cfg, s0, before, after);
    StoppedRunFacts(cfg, s0, before, after);
    RestingPool(t);
    SomeoneLive(t.workers);
    if forall w :: 0 <= w < |t.workers| ==> t.workers[w].phase.Exited? {
      EveryoneExited(t.workers);
    }
  }

  /**
   What becomes of the high-priority work: everything queued, taken or being handled at the time of `stop`
   is finished when the pool is at rest, except for what was abandoned, and so is each sentinel.
   */
  lemma HighJobsAreHandled(cfg: Config, s0: System, before: seq<Action>, after: seq<Action>)
    requires StoppedRun(cfg, s0, before, after) && AtRest(StoppedAt(cfg, s0, before, after))
    ensures var s := After(cfg, s0, before);
            var t := StoppedAt(cfg, s0, before, after);
            && t.q.high.log.finished + t.q.high.log.abandoned
               == s.q.high.log.finished + s.q.high.log.abandoned
                  + multiset(s.q.high.chan.items) + Gather(s.workers, Taken, High) + Gather(s.workers, Held, High)
                  + multiset(seq<Item>(|s.workers|, _ => None))
  {
    hide Inv, Enabled, Stopping, AtRest, Gather, LiveWorkers, Next;
    var s := After(cfg, s0, before);
    var t := StoppedAt(cfg, s0, before, after);
    StoppedRunFacts(cfg, s0, before, after);
    RestingPool(t);
    InvPlaces(s);
    InvPlaces(t);
    assert multiset(t.q.high.log.put) == multiset(s.q.high.log.put) + multiset(seq<Item>(|s.workers|, _ => None));
    RestAccounts(s.q.high, Gather(s.workers, Taken, High), Gather(s.workers, Held, High), t.q.high.log,
                 multiset(seq<Item>(|s.workers|, _ => None)));
  }

  lemma RestAccounts(s: Lane, taken: multiset<Item>, held: multiset<Item>, t: Ledger, sentinels: multiset<Item>)
    requires multiset(s.log.put) == multiset(s.chan.items) + taken + held
                                    + s.log.finished + s.log.evicted + s.log.drained + s.log.abandoned
    requires multiset(t.put) == t.finished + t.evicted + t.drained + t.abandoned
    requires multiset(t.put) == multiset(s.log.put) + sentinels
    requires t.evicted == s.log.evicted && t.drained == s.log.drained
    ensures t.finished + t.abandoned
            == s.log.finished + s.log.abandoned + multiset(s.chan.items) + taken + held + sentinels
  {
    var left := t.finished + t.abandoned;
    var right := s.log.finished + s.log.abandoned + multiset(s.chan.items) + taken + held + sentinels;
    forall x: Item
      ensures left[x] == right[x]
    {
      assert multiset(s.log.put)[x] == multiset(s.chan.items)[x] + taken[x] + held[x]
             + s.log.finished[x] + s.log.evicted[x] + s.log.drained[x] + s.log.abandoned[x];
      assert multiset(t.put)[x] == multiset(s.log.put)[x] + sentinels[x];
    }
  }

  // ---- Which steps lose what ----

  /** What the high queue loses: a worker resumes with a normal item after its other getter has taken a high one. */
  function LostBy(s: System, a: Action): multiset<Item> {
    if a.Resume? && a.lane.Normal? && a.w < |s.workers| && s.workers[a.w].phase.Waiting?
       && s.workers[a.w].phase.high.Done?
    then multiset{s.workers[a.w].phase.high.item}
    else multiset{}
  }

  ghost function LostHigh(cfg: Config, s: System, run: seq<Action>): multiset<Item>
    requires Runs(cfg, s, run)
    decreases |run|
  {
    if run == [] then multiset{} else LostBy(s, run[0]) + LostHigh(cfg, Next(cfg, s, run[0]), run[1..])
  }

  lemma AbandonsTheLost(a: Action, s: System, after: Worker, p: Priority, mine: Move, others: Move)
    requires a.ByWorker() && a.w < |s.workers| && IsStep(a, s.workers[a.w], after, p, mine, others)
    ensures Bag(if p.High? then mine.abandoned else others.abandoned) == LostBy(s, a)
  {
  }

  lemma LostStep(cfg: Config, s: System, a: Action)
    requires Inv(s) && Enabled(s, a) && a.ByWorker()
    ensures Next(cfg, s, a).q.high.log.abandoned == s.q.high.log.abandoned + LostBy(s, a)
  {
    hide Inv, Enabled, Next, Moved, IsStep, WorkerInv, FinishesBoth, LostBy;
    var p, mine, others := WorkerEffect(cfg, s, a);
    AbandonsTheLost(a, s, Next(cfg, s, a).workers[a.w], p, mine, others);
    MovedKeeps(s.q.On(p), mine);
    MovedKeeps(s.q.On(Other(p)), others);
  }

  lemma {:induction false} LostAlongRun(cfg: Config, s: System, run: seq<Action>)
    requires Inv(s) && Runs(cfg, s, run) && WorkersOnly(run)
    ensures After(cfg, s, run).q.high.log.abandoned == s.q.high.log.abandoned + LostHigh(cfg, s, run)
    decreases |run|
  {
    hide Inv, Enabled, Next, LostBy;
    if run != [] {
      assert run[0].ByWorker();
      LostStep(cfg, s, run[0]);
      StepKeepsInv(cfg, s, run[0]);
      assert WorkersOnly(run[1..]);
      LostAlongRun(cfg, Next(cfg, s, run[0]), run[1..]);
    }
  }

  lemma LostAfterStop(cfg: Config, s0: System, before: seq<Action>, after: seq<Action>)
    requires StoppedRun(cfg, s0, before, after)
    ensures var s := After(cfg, s0, before);
            && s.q.high.log.abandoned[None] == 0
            && StoppedAt(cfg, s0, before, after).q.high.log.abandoned
               == s.q.high.log.abandoned + LostHigh(cfg, Next(cfg, s, Stop), after)
  {
    hide Inv, Enabled, Next, LostHigh;
    var s := After(cfg, s0, before);
    ReachedInv(cfg, s0, before);
    StepKeepsInv(cfg, s, Stop);
    StopAbandonsNothing(cfg, s);
    NoSentinelYet(s);
    LostAlongRun(cfg, Next(cfg, s, Stop), after);
  }

  /**
   When `stop` completes: the workers left waiting when the pool is at rest are as many as the steps after
   `stop` in which a worker resumed with a normal item although its other getter had taken a sentinel. So all
   workers exit, and `stop` returns, if and only if there was no such step.
   */
  lemma StopCompletesIff(cfg: Config, s0: System, before: seq<Action>, after: seq<Action>)
    requires StoppedRun(cfg, s0, before, after) && AtRest(StoppedAt(cfg, s0, before, after))
    ensures var t := StoppedAt(cfg, s0, before, after);
            var lost := LostHigh(cfg, Next(cfg, After(cfg, s0, before), Stop), after);
            && LiveWorkers(t) == lost[None]
            && ((forall w :: 0 <= w < |t.workers| ==> t.workers[w].phase.Exited?) <==> lost[None] == 0)
  {
    hide Inv, Enabled, AtRest, LiveWorkers, Next, LostHigh;
    LostAfterStop(cfg, s0, before, after);
    ShutdownOutcome(cfg, s0, before, after);
  }

  /**
   The shutdown the pool is meant to have. When no worker resumes after `stop` with a normal item although its
   other getter has taken a high one, whatever happened before, every worker exits, each on a sentinel of its
   own, and every high job that was pending at `stop` has been handled.
   */
  lemma CleanShutdown(cfg: Config, s0: System, before: seq<Action>, after: seq<Action>)
    requires StoppedRun(cfg, s0, before, after) && AtRest(StoppedAt(cfg, s0, before, after))
    requires LostHigh(cfg, Next(cfg, After(cfg, s0, before), Stop), after) == multiset{}
    ensures var s := After(cfg, s0, before);
            var t := StoppedAt(cfg, s0, before, after);
            && (forall w :: 0 <= w < |t.workers| ==> t.workers[w].phase.Exited?)
            && t.q.high.log.finished
               == s.q.high.log.finished
                  + multiset(s.q.high.chan.items) + Gather(s.workers, Taken, High) + Gather(s.workers, Held, High)
                  + multiset(seq<Item>(|s.workers|, _ => None))
  {
    hide Inv, Enabled, Stopping, AtRest, Gather, LiveWorkers, Next, LostHigh;
    var s := After(cfg, s0, before);
    var t := StoppedAt(cfg, s0, before, after);
    LostAfterStop(cfg, s0, before, after);
    assert t.q.high.log.abandoned == s.q.high.log.abandoned;
    StopCompletesIff(cfg, s0, before, after);
    HighJobsAreHandled(cfg, s0, before, after);
    var pending := multiset(s.q.high.chan.items) + Gather(s.workers, Taken, High) + Gather(s.workers, Held, High)
                   + multiset(seq<Item>(|s.workers|, _ => None));
    assert s.q.high.log.finished + s.q.high.log.abandoned + pending
        == s.q.high.log.finished + pending + s.q.high.log.abandoned;
    SameRemainder(t.q.high.log.finished, s.q.high.log.finished + pending, s.q.high.log.abandoned);
  }

  lemma StopAbandonsNothing(cfg: Config, s: System)
    requires Enabled(s, Stop)
    ensures Next(cfg, s, Stop).q.high.log.abandoned == s.q.high.log.abandoned
  {
    hide AfterSentinels;
    SentinelsTouchNothingElse(s.q, |s.workers|);
  }

  /** Before `stop` there is no sentinel that could have been abandoned. */
  lemma NoSentinelYet(s: System)
    requires Inv(s) && Enabled(s, Stop)
    ensures s.q.high.log.abandoned[None] == 0
  {
    hide LaneInv, CountExited, Gather;
    InvPlaces(s);
    assert multiset(s.q.high.log.put)[None] >= s.q.high.log.abandoned[None];
  }

  lemma SameRemainder(a: multiset<Item>, b: multiset<Item>, c: multiset<Item>)
    requires a + c == b + c
    ensures a == b
  {
    forall x: Item
      ensures a[x] == b[x]
    {
      assert (a + c)[x] == (b + c)[x];
    }
  }

  lemma InvPlaces(s: System)
    requires Inv(s)
    ensures multiset(s.q.high.log.put)
            == multiset(s.q.high.chan.items) + Gather(s.workers, Taken, High) + Gather(s.workers, Held, High)
               + s.q.high.log.finished + s.q.high.log.evicted + s.q.high.log.drained + s.q.high.log.abandoned
  {
    hide LaneOk, Gather;
    assert LaneInv(s, High);
    PlacesAddUp(High, s.q.high, Gather(s.workers, Taken, High), Gather(s.workers, Held, High));
  }

  /**
   The shutdown the code can have instead: the only worker, idle when a normal job and then `stop` arrive,
   resumes with the normal job after its other getter has taken the sentinel. The sentinel is gone, the
   worker goes back to waiting, and `stop` waits for it forever.
   */
  lemma StopCanHang(cfg: Config, s0: System, plain: Job)
    requires Initial(s0) && |s0.workers| == 1 && cfg.maxSize >= 1 && plain.priority.Normal?
    ensures var t := s0.q.clock;
            var before := [StartWait(0), Enqueue(plain, t)];
            var after := [Take(0, Normal), Take(0, High)] + ([Resume(0, Normal), Finish(0, false, 0.0)] + [StartWait(0)]);
            && StoppedRun(cfg, s0, before, after)
            && AtRest(StoppedAt(cfg, s0, before, after))
            && LiveWorkers(StoppedAt(cfg, s0, before, after)) == 1
  {
    hide AfterEnqueue;
    var t := s0.q.clock;
    var s1 := Next(cfg, s0, StartWait(0));
    FreshEnqueue(cfg, s1.q, plain);
    var s2 := Next(cfg, s1, Enqueue(plain, t));
    RunOfTwo(cfg, s0, StartWait(0), Enqueue(plain, t), []);
    assert [StartWait(0), Enqueue(plain, t)] + [] == [StartWait(0), Enqueue(plain, t)];
    var s3 := Next(cfg, s2, Stop);
    SentinelsTouchNothingElse(s2.q, 1);
    HangAfterStop(cfg, s3, plain);
  }

  lemma HangAfterStop(cfg: Config, s: System, plain: Job)
    requires |s.workers| == 1 && s.workers[0].phase == Waiting(Pending, Pending) && plain.priority.Normal?
    requires s.q.high.chan == Channel([None], 1) && s.q.normal.chan == Channel([Some(plain)], 1)
    ensures var run := [Take(0, Normal), Take(0, High)] + ([Resume(0, Normal), Finish(0, false, 0.0)] + [StartWait(0)]);
            && Runs(cfg, s, run) && WorkersOnly(run)
            && AtRest(After(cfg, s, run)) && LiveWorkers(After(cfg, s, run)) == 1
  {
    var s1 := Next(cfg, s, Take(0, Normal));
    var s2 := Next(cfg, s1, Take(0, High));
    assert s2.workers[0].phase == Waiting(Done(None), Done(Some(plain))) && |s2.workers| == 1;
    assert s2.q.high.chan == Channel([], 1) && s2.q.normal.chan == Channel([], 1);
    HangAfterBoth(cfg, s2, plain);
    RunOfTwo(cfg, s, Take(0, Normal), Take(0, High), [Resume(0, Normal), Finish(0, false, 0.0)] + [StartWait(0)]);
  }

  lemma HangAfterBoth(cfg: Config, s: System, plain: Job)
    requires |s.workers| == 1 && s.workers[0].phase == Waiting(Done(None), Done(Some(plain))) && plain.priority.Normal?
    requires s.q.high.chan == Channel([], 1) && s.q.normal.chan == Channel([], 1)
    ensures var run := [Resume(0, Normal), Finish(0, false, 0.0)] + [StartWait(0)];
            && Runs(cfg, s, run)
            && AtRest(After(cfg, s, run)) && LiveWorkers(After(cfg, s, run)) == 1
  {
    var s1 := Next(cfg, s, Resume(0, Normal));
    assert s1.workers[0].phase == Handling(plain) && |s1.workers| == 1;
    assert s1.q.high.chan == Channel([], 1) && s1.q.normal.chan == Channel([], 1);
    var s2 := Next(cfg, s1, Finish(0, false, 0.0));
    assert s2.workers[0].phase == Ready && |s2.workers| == 1 && s2.q.Idle();
    var s3 := Next(cfg, s2, StartWait(0));
    assert s3.workers == [s3.workers[0]] && s3.workers[0].phase == Waiting(Pending, Pending) && s3.q.Idle();
    WaitingAloneRests(s3);
    RunCons(cfg, s2, StartWait(0), []);
    assert [StartWait(0)] + [] == [StartWait(0)];
    RunOfTwo(cfg, s, Resume(0, Normal), Finish(0, false, 0.0), [StartWait(0)]);
  }

  lemma WaitingAloneRests(s: System)
    requires |s.workers| == 1 && s.workers[0].phase == Waiting(Pending, Pending) && s.q.Idle()
    ensures AtRest(s) && LiveWorkers(s) == 1
  {
    assert CountExited(s.workers[1..]) == 0;
  }
}
