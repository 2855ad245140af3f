/**
 What the counters of the statistics mean: they count the classes of the conservation law, and they are a
 function of the steps of the run.
 */
module QueueStatistics {
  import opened Basics
  import opened Deduplicators
  import opened StatsCollectors
  import opened JobQueues
  import opened WorkerPools
  import opened QueueInvariants
  import opened QueueTheorems
  import opened QueueHistory

  // ---- The classes of the conservation law ----

  ghost predicate Tallied(s: System) {
    && CountProcessed(s.workers) == JobCount(s.q.high.log.finished) + JobCount(s.q.normal.log.finished)
    && (s.q.stats.Some? ==>
          && s.q.stats.value.totalEnqueued == |s.q.accepted|
          && s.q.stats.value.totalDeduped == s.q.duplicates
          && s.q.stats.value.totalDropped == s.q.rejections + |s.q.high.log.evicted| + |s.q.normal.log.evicted|
          && s.q.stats.value.totalUpdates == CountProcessed(s.workers))
  }

  lemma TallyRoom(cfg: Config, s: System)
    requires Tallied(s)
    ensures Tallied(s.(q := MakeRoom(cfg, s.q)))
  {
    hide AfterDropOldest, CountProcessed;
    DropOldestShape(s.q);
  }

  lemma TallyAccept(s: System, job: Job, now: real)
    requires Tallied(s)
    ensures Tallied(s.(q := Accept(s.q, job, now)))
  {
    hide Accept, CountProcessed;
    AcceptShape(s.q, job, now);
  }

  lemma TallyRefusal(s: System)
    requires Tallied(s)
    ensures Tallied(s.(q := s.q.NoteDuplicate()))
    ensures Tallied(s.(q := s.q.(rejections := s.q.rejections + 1).NoteDrop()))
  {
    hide CountProcessed;
  }

  lemma TallyEnqueue(cfg: Config, s: System, job: Job, now: real)
    requires Tallied(s)
    ensures Tallied(s.(q := AfterEnqueue(cfg, s.q, job, now)))
  {
    hide MakeRoom, Accept, SeenMarks, SeenAnswer, KeyOf, CountProcessed, JobCount;
    var marked := s.(q := Marked(cfg, s.q, job, now));
    assert Tallied(marked);
    hide Tallied;
    TallyRefusal(marked);
    TallyRoom(cfg, marked);
    TallyAccept(marked.(q := MakeRoom(cfg, marked.q)), job, now);
  }

  lemma MovedTally(lane: Lane, m: Move)
    requires CanMove(lane, m)
    ensures Moved(lane, m).log.evicted == lane.log.evicted
    ensures JobCount(Moved(lane, m).log.finished)
            == JobCount(lane.log.finished) + if m.finished.Some? && m.finished.value.Some? then 1 else 0
  {
  }

  /** A job is finished on one of the queues exactly when a handler is. */
  lemma StepFinishes(a: Action, before: Worker, after: Worker, p: Priority, mine: Move, others: Move)
    requires IsStep(a, before, after, p, mine, others)
    ensures mine.finished.Some? && mine.finished.value.Some? <==> a.Finish?
    ensures others.finished.None?
  {
  }

  lemma TallyWorker(s: System, t: System, a: Action, p: Priority, mine: Move, others: Move)
    requires Tallied(s) && a.ByWorker() && Effect(s, t, a, p, mine, others)
    ensures Tallied(t)
  {
    hide CountProcessed, Moved, CanMove, JobCount, IsStep, WorkerInv, FinishesBoth;
    CountProcessedUpdate(s.workers, a.w, t.workers[a.w]);
    StepFinishes(a, s.workers[a.w], t.workers[a.w], p, mine, others);
    MovedTally(s.q.On(p), mine);
    MovedTally(s.q.On(Other(p)), others);
  }

  lemma TallyStep(cfg: Config, s: System, a: Action)
    requires Inv(s) && Enabled(s, a) && Tallied(s)
    ensures Tallied(Next(cfg, s, a))
  {
    hide Inv, Enabled, Tallied, Effect, AfterEnqueue, AfterSentinels, Deliver, AfterHandler;
    match a
    case Enqueue(job, now) => TallyEnqueue(cfg, s, job, now);
    case Drain => SameTally(s, Next(cfg, s, a));
    case Stop =>
      SentinelsTouchNothingElse(s.q, |s.workers|);
      SameTally(s, Next(cfg, s, a));
    case _ =>
      var p, mine, others := WorkerEffect(cfg, s, a);
      TallyWorker(s, Next(cfg, s, a), a, p, mine, others);
  }

  lemma SameTally(s: System, t: System)
    requires Tallied(s) && t.workers == s.workers
    requires t.q.stats == s.q.stats && t.q.accepted == s.q.accepted
    requires t.q.duplicates == s.q.duplicates && t.q.rejections == s.q.rejections
    requires t.q.high.log.finished == s.q.high.log.finished && t.q.normal.log.finished == s.q.normal.log.finished
    requires t.q.high.log.evicted == s.q.high.log.evicted && t.q.normal.log.evicted == s.q.normal.log.evicted
    ensures Tallied(t)
  {
  }

  lemma {:induction false} TallyAlongRun(cfg: Config, s: System, run: seq<Action>)
    requires Inv(s) && Runs(cfg, s, run) && Tallied(s)
    ensures Tallied(After(cfg, s, run))
    decreases |run|
  {
    hide Inv, Enabled, Next, Tallied;
    if run != [] {
      TallyStep(cfg, s, run[0]);
      StepKeepsInv(cfg, s, run[0]);
      TallyAlongRun(cfg, Next(cfg, s, run[0]), run[1..]);
    }
  }

  lemma {:induction false} NothingProcessed(ws: seq<Worker>)
    requires forall w :: 0 <= w < |ws| ==> ws[w].processed == 0
    ensures CountProcessed(ws) == 0
  {
    if ws != [] {
      NothingProcessed(ws[1..]);
    }
  }

  lemma {:induction false} JobsInCount(items: seq<Item>)
    ensures |JobsIn(items)| == JobCount(multiset(items))
  {
    if items != [] {
      var n := |items| - 1;
      JobsInCount(items[..n]);
      assert items == items[..n] + [items[n]];
    }
  }

  lemma {:induction false} AcceptedSplit(accepted: seq<Acceptance>)
    ensures |accepted| == |AcceptedOn(accepted, High)| + |AcceptedOn(accepted, Normal)|
  {
    if accepted != [] {
      AcceptedSplit(accepted[..|accepted| - 1]);
    }
  }

  /** The jobs of one queue that are in some class of the conservation law. */
  function JobsPlaced(s: System, p: Priority): int {
    var log := s.q.On(p).log;
    JobCount(multiset(s.q.On(p).chan.items)) + JobCount(Gather(s.workers, Taken, p)) + JobCount(Gather(s.workers, Held, p))
    + JobCount(log.finished) + JobCount(log.evicted) + JobCount(log.drained) + JobCount(log.abandoned)
  }

  lemma PutIsPlaced(cfg: Config, s0: System, run: seq<Action>, p: Priority)
    requires Reached(cfg, s0, run)
    ensures |JobsIn(After(cfg, s0, run).q.On(p).log.put)| == JobsPlaced(After(cfg, s0, run), p)
  {
    hide Inv, Enabled, Next, Gather, JobsIn;
    EveryItemIsInOnePlace(cfg, s0, run, p);
    JobsInCount(After(cfg, s0, run).q.On(p).log.put);
  }

  /**
   The statistics and the ledger, in every run: `total_enqueued` is the number of jobs in all the classes
   together, `total_updates` the number of finished jobs, `total_dropped` the rejected offers and the evicted
   jobs, and `total_deduped` the duplicates.
   */
  lemma StatisticsAddUp(cfg: Config, s0: System, run: seq<Action>)
    requires Reached(cfg, s0, run) && After(cfg, s0, run).q.stats.Some?
    ensures var s := After(cfg, s0, run);
            var c := s.q.stats.value;
            && c.totalEnqueued == JobsPlaced(s, High) + JobsPlaced(s, Normal)
            && c.totalUpdates == JobCount(s.q.high.log.finished) + JobCount(s.q.normal.log.finished)
            && c.totalDropped == s.q.rejections + |s.q.high.log.evicted| + |s.q.normal.log.evicted|
            && c.totalDeduped == s.q.duplicates
  {
    hide Inv, Enabled, Next, JobsPlaced, JobsIn, AcceptedOn, JobCount;
    InitialInv(s0);
    InitialTally(s0);
    TallyAlongRun(cfg, s0, run);
    forall p
      ensures |AcceptedOn(After(cfg, s0, run).q.accepted, p)| == JobsPlaced(After(cfg, s0, run), p)
    {
      EmptyHistory(p);
      OrderAlongRun(cfg, s0, run, p);
      PutIsPlaced(cfg, s0, run, p);
    }
    AcceptedSplit(After(cfg, s0, run).q.accepted);
  }

  lemma InitialTally(s: System)
    requires Initial(s)
    ensures Tallied(s)
  {
    NothingProcessed(s.workers);
  }

  // ---- The steps of the run ----

  /** How many of the first `k` steps were offers decided so. */
  ghost function Decided(cfg: Config, s0: System, run: seq<Action>, k: nat, d: Decision): nat
    requires Runs(cfg, s0, run) && k <= |run|
  {
    if k == 0 then 0
    else
      var a := run[k - 1];
      Decided(cfg, s0, run, k - 1, d)
      + if a.Enqueue? && DecisionOn(cfg, At(cfg, s0, run, k - 1).q, a.job, a.now) == d then 1 else 0
  }

  /** How many of them found the queue full, with something to evict, and were accepted nevertheless. */
  ghost function Evictions(cfg: Config, s0: System, run: seq<Action>, k: nat): nat
    requires Runs(cfg, s0, run) && k <= |run|
  {
    if k == 0 then 0
    else
      var a, q := run[k - 1], At(cfg, s0, run, k - 1).q;
      Evictions(cfg, s0, run, k - 1)
      + if a.Enqueue? && DecisionOn(cfg, q, a.job, a.now).Enqueued? && q.size >= cfg.maxSize && !q.Idle() then 1 else 0
  }

  /** `_size` right after the last accepted job. */
  ghost function LastSize(cfg: Config, s0: System, run: seq<Action>, k: nat): int
    requires Runs(cfg, s0, run) && k <= |run|
  {
    if k == 0 then 0
    else
      var a := run[k - 1];
      if a.Enqueue? && DecisionOn(cfg, At(cfg, s0, run, k - 1).q, a.job, a.now).Enqueued? then At(cfg, s0, run, k).q.size
      else LastSize(cfg, s0, run, k - 1)
  }

  function Handled(run: seq<Action>, k: nat): nat
    requires k <= |run|
  {
    if k == 0 then 0 else Handled(run, k - 1) + if run[k - 1].Finish? then 1 else 0
  }

  function Failures(run: seq<Action>, k: nat): nat
    requires k <= |run|
  {
    if k == 0 then 0 else Failures(run, k - 1) + if run[k - 1].Finish? && run[k - 1].failed then 1 else 0
  }

  function HandlerMs(run: seq<Action>, k: nat): real
    requires k <= |run|
  {
    if k == 0 then 0.0 else HandlerMs(run, k - 1) + if run[k - 1].Finish? then run[k - 1].elapsedMs else 0.0
  }

  function LastMs(run: seq<Action>, k: nat): real
    requires k <= |run|
  {
    if k == 0 then 0.0 else if run[k - 1].Finish? then run[k - 1].elapsedMs else LastMs(run, k - 1)
  }

  lemma RoomStats(cfg: Config, q: QState)
    requires q.stats.Some?
    ensures var r := MakeRoom(cfg, q);
            && r.stats == Some(q.stats.value.(totalDropped := q.stats.value.totalDropped + if Evicts(cfg, q) then 1 else 0))
            && r.rejections == q.rejections && r.duplicates == q.duplicates
  {
    hide AfterDropOldest;
    DropOldestShape(q);
  }

  lemma AcceptStats(q: QState, job: Job, now: real)
    requires q.stats.Some?
    ensures var r := Accept(q, job, now);
            && r.stats == Some(q.stats.value.(totalEnqueued := q.stats.value.totalEnqueued + 1, lastQueueSize := q.size + 1))
            && r.rejections == q.rejections && r.duplicates == q.duplicates && r.size == q.size + 1
  {
    hide Accept;
    AcceptShape(q, job, now);
  }

  /** What an offer does to the counters. */
  lemma OfferStats(cfg: Config, q: QState, job: Job, now: real)
    requires q.stats.Some?
    ensures var r, c, d := AfterEnqueue(cfg, q, job, now), q.stats.value, DecisionOn(cfg, q, job, now);
            && r.stats == Some(c.(totalEnqueued := c.totalEnqueued + (if d.Enqueued? then 1 else 0),
                                  totalDropped := c.totalDropped + (if d.Dropped? || (d.Enqueued? && Evicts(cfg, q)) then 1 else 0),
                                  totalDeduped := c.totalDeduped + (if d.Duplicate? then 1 else 0),
                                  lastQueueSize := if d.Enqueued? then r.size else c.lastQueueSize))
            && r.rejections == q.rejections + (if d.Dropped? then 1 else 0)
            && r.duplicates == q.duplicates + (if d.Duplicate? then 1 else 0)
  {
    hide MakeRoom, Accept, SeenMarks, KeyOf, DecisionOn;
    var marked := Marked(cfg, q, job, now);
    RoomStats(cfg, marked);
    AcceptStats(MakeRoom(cfg, marked), job, now);
  }

  /** What a step other than an offer does to the counters. */
  lemma OtherStats(cfg: Config, s: System, a: Action)
    requires Inv(s) && Enabled(s, a) && !a.Enqueue? && s.q.stats.Some?
    ensures var t, c := Next(cfg, s, a).q, s.q.stats.value;
            && t.stats == Some(if a.Finish? then
                                 c.(totalUpdates := c.totalUpdates + 1, totalErrors := c.totalErrors + (if a.failed then 1 else 0),
                                    totalDispatchMs := c.totalDispatchMs + a.elapsedMs, lastDispatchMs := a.elapsedMs)
                               else c)
            && t.rejections == s.q.rejections && t.duplicates == s.q.duplicates
  {
    hide Inv, Enabled, Deliver, AfterHandler, AfterSentinels;
    match a
    case Drain =>
    case Stop => SentinelsTouchNothingElse(s.q, |s.workers|);
    case _ =>
      hide Next, Moved, IsStep, WorkerInv, FinishesBoth;
      var p, mine, others := WorkerEffect(cfg, s, a);
  }

  /** The counters as the run determines them. */
  ghost function StatsOf(cfg: Config, s0: System, run: seq<Action>, k: nat): Stats
    requires Runs(cfg, s0, run) && k <= |run|
  {
    Stats(Handled(run, k), Failures(run, k), Decided(cfg, s0, run, k, Enqueued),
          Decided(cfg, s0, run, k, Dropped) + Evictions(cfg, s0, run, k), Decided(cfg, s0, run, k, Duplicate),
          HandlerMs(run, k), LastMs(run, k), LastSize(cfg, s0, run, k))
  }

  /**
   At every point of every run: `total_updates` and `total_errors` count the handlers that returned and those
   that raised, with their times summed and the last one noted; `total_enqueued` and `total_deduped` count the
   offers decided so, `total_dropped` those turned away and those accepted at the cost of an eviction.
   */
  lemma {:induction false} StatisticsOfTheRun(cfg: Config, s0: System, run: seq<Action>, k: nat)
    requires Reached(cfg, s0, run) && k <= |run| && s0.q.stats.Some?
    ensures At(cfg, s0, run, k).q.stats == Some(StatsOf(cfg, s0, run, k))
    ensures At(cfg, s0, run, k).q.rejections == Decided(cfg, s0, run, k, Dropped)
    ensures At(cfg, s0, run, k).q.duplicates == Decided(cfg, s0, run, k, Duplicate)
  {
    hide Inv, Next, Enabled, Runs, DecisionOn, AfterEnqueue;
    if k > 0 {
      hide Initial;
      var s, a := At(cfg, s0, run, k - 1), run[k - 1];
      StatisticsOfTheRun(cfg, s0, run, k - 1);
      AtNext(cfg, s0, run, k - 1);
      ReachedInvAt(cfg, s0, run, k - 1);
      if a.Enqueue? {
        OfferStats(cfg, s.q, a.job, a.now);
        NextIsEnqueue(cfg, s, a);
      } else {
        OtherStats(cfg, s, a);
      }
    }
  }

  lemma NextIsEnqueue(cfg: Config, s: System, a: Action)
    requires a.Enqueue? && Enabled(s, a)
    ensures Next(cfg, s, a).q == AfterEnqueue(cfg, s.q, a.job, a.now)
  {
    hide AfterEnqueue;
  }
}
