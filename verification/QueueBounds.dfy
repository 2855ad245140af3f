/**
 The two limits that `max_size` suggests: how far `_size` and the queues themselves can get past it, and
 exactly which steps take them there.
 */
module QueueBounds {
  import opened Basics
  import opened Deduplicators
  import opened JobQueues
  import opened WorkerPools
  import opened QueueInvariants
  import opened QueueTheorems

  // ---- `_size` ----

  function SizeLimit(cfg: Config): nat {
    Max(0, cfg.maxSize)
  }

  /**
   A job is accepted under "drop_oldest" with `_size` at its limit, and the eviction does not lower it:
   both queues are empty, or `_size` is zero already.
   */
  predicate Overflows(cfg: Config, s: System, a: Action) {
    && a.Enqueue? && cfg.policy.DropOldest? && s.q.size == SizeLimit(cfg)
    && !SeenAnswer(s.q.marks, cfg.ttl, KeyOf(a.job), a.now)
    && (s.q.Idle() || s.q.size == 0)
  }

  lemma EnqueueOverflow(cfg: Config, s: System, a: Action)
    requires a.Enqueue? && 0 <= s.q.size <= SizeLimit(cfg)
    ensures AfterEnqueue(cfg, s.q, a.job, a.now).size > SizeLimit(cfg) <==> Overflows(cfg, s, a)
  {
    hide AfterDropOldest, Accept, SeenMarks, SeenAnswer, KeyOf;
    var marked := Marked(cfg, s.q, a.job, a.now);
    DropOldestShape(marked);
    AcceptShape(MakeRoom(cfg, marked), a.job, a.now);
  }

  lemma OverflowStep(cfg: Config, s: System, a: Action)
    requires Inv(s) && Enabled(s, a) && s.q.size <= SizeLimit(cfg)
    ensures Next(cfg, s, a).q.size > SizeLimit(cfg) <==> Overflows(cfg, s, a)
  {
    hide LaneInv, CountExited, Enabled, AfterEnqueue, AfterSentinels, AfterDrain, Deliver, AfterHandler, SeenAnswer;
    match a
    case Enqueue(_, _) => EnqueueOverflow(cfg, s, a);
    case Drain => assert Next(cfg, s, a).q.size == 0 by { DrainedSize(s.q); }
    case Stop => SentinelsTouchNothingElse(s.q, |s.workers|);
    case _ => DeliveryStep(cfg, s, a);
  }

  lemma DrainedSize(q: QState)
    ensures AfterDrain(q).size == 0
  {
  }

  ghost predicate SizeWithin(cfg: Config, s0: System, run: seq<Action>, k: nat)
    requires Runs(cfg, s0, run) && k <= |run|
  {
    At(cfg, s0, run, k).q.size <= SizeLimit(cfg)
  }

  ghost predicate OverflowsAt(cfg: Config, s0: System, run: seq<Action>, k: nat)
    requires Runs(cfg, s0, run) && k < |run|
  {
    Overflows(cfg, At(cfg, s0, run, k), run[k])
  }

  /** The first step that takes `_size` past its limit is an overflowing enqueue, and each such step does. */
  lemma FirstOverflow(cfg: Config, s0: System, run: seq<Action>, k: nat)
    requires Reached(cfg, s0, run) && k < |run| && SizeWithin(cfg, s0, run, k)
    ensures !SizeWithin(cfg, s0, run, k + 1) <==> OverflowsAt(cfg, s0, run, k)
  {
    hide Inv, Enabled, Next, Initial, Runs, Overflows;
    ReachedInvAt(cfg, s0, run, k);
    AtNext(cfg, s0, run, k);
    OverflowStep(cfg, At(cfg, s0, run, k), run[k]);
  }

  lemma {:induction false} WithinWhileNoOverflow(cfg: Config, s0: System, run: seq<Action>, k: nat)
    requires Reached(cfg, s0, run) && k <= |run|
    requires forall i :: 0 <= i < |run| ==> !OverflowsAt(cfg, s0, run, i)
    ensures SizeWithin(cfg, s0, run, k)
  {
    hide OverflowsAt;
    if k > 0 {
      WithinWhileNoOverflow(cfg, s0, run, k - 1);
      FirstOverflow(cfg, s0, run, k - 1);
    }
  }

  /**
   `_size` stays within `max_size` throughout a run, drains and `stop` included, if and only if no enqueue
   of the run overflows; under "reject" none does.
   */
  lemma SizeStaysWithinIff(cfg: Config, s0: System, run: seq<Action>)
    requires Reached(cfg, s0, run)
    ensures (forall k :: 0 <= k <= |run| ==> SizeWithin(cfg, s0, run, k))
            <==> (forall k :: 0 <= k < |run| ==> !OverflowsAt(cfg, s0, run, k))
    ensures cfg.policy.Reject? ==> forall k :: 0 <= k <= |run| ==> SizeWithin(cfg, s0, run, k)
  {
    if forall k :: 0 <= k < |run| ==> !OverflowsAt(cfg, s0, run, k) {
      forall k | 0 <= k <= |run|
        ensures SizeWithin(cfg, s0, run, k)
      {
        WithinWhileNoOverflow(cfg, s0, run, k);
      }
    }
    hide OverflowsAt, SizeWithin;
    if forall k :: 0 <= k <= |run| ==> SizeWithin(cfg, s0, run, k) {
      forall k | 0 <= k < |run|
        ensures !OverflowsAt(cfg, s0, run, k)
      {
        assert SizeWithin(cfg, s0, run, k) && SizeWithin(cfg, s0, run, k + 1);
        FirstOverflow(cfg, s0, run, k);
      }
    }
  }

  /** Such an enqueue is reached with one worker: the first job is only taken, so nothing can be evicted. */
  lemma SizeCanExceedMax(cfg: Config, s0: System, first: Job, second: Job)
    requires Initial(s0) && cfg.maxSize == 1 && cfg.policy.DropOldest?
    requires first.priority.Normal? && second.priority.Normal? && KeyOf(first) != KeyOf(second)
    ensures var t := s0.q.clock;
            var run := [StartWait(0), Enqueue(first, t)] + [Take(0, Normal), Enqueue(second, t)];
            && Reached(cfg, s0, run)
            && After(cfg, s0, run).q.size == 2
  {
    hide AfterDropOldest, Accept;
    var t := s0.q.clock;
    var s1 := Next(cfg, s0, StartWait(0));
    AcceptShape(Marked(cfg, s1.q, first, t), first, t);
    var s2 := Next(cfg, s1, Enqueue(first, t));
    var s3 := Next(cfg, s2, Take(0, Normal));
    var marked := Marked(cfg, s3.q, second, t);
    DropOldestShape(marked);
    AcceptShape(marked, second, t);
    var s4 := Next(cfg, s3, Enqueue(second, t));
    RunOfTwo(cfg, s2, Take(0, Normal), Enqueue(second, t), []);
    assert [Take(0, Normal), Enqueue(second, t)] + [] == [Take(0, Normal), Enqueue(second, t)];
    RunOfTwo(cfg, s0, StartWait(0), Enqueue(first, t), [Take(0, Normal), Enqueue(second, t)]);
  }

  // ---- The queues themselves ----

  function BacklogLimit(cfg: Config): nat {
    Max(1, cfg.maxSize)
  }

  /** Items taken by getters whose worker has not resumed. */
  function TakenBy(s: System): nat {
    |Gather(s.workers, Taken, High)| + |Gather(s.workers, Taken, Normal)|
  }

  /** The sentinels put so far, which `_size` does not count. */
  function SentinelsPut(s: System): nat {
    if s.stopped then |s.workers| else 0
  }

  /** Queued and taken items that `_size` does not account for. */
  function Uncounted(s: System): int {
    Undelivered(s) - AbandonedCount(s) - s.q.size
  }

  ghost predicate Bounded(cfg: Config, s: System, m: nat) {
    && Uncounted(s) <= m + SentinelsPut(s)
    && Backlog(s) <= BacklogLimit(cfg) + m + SentinelsPut(s)
  }

  lemma UncountedIs(s: System)
    requires Inv(s)
    ensures Uncounted(s) == Backlog(s) + TakenBy(s) - s.q.size
  {
    hide Inv, Gather, Undelivered, AbandonedCount;
    UndeliveredIs(s);
  }

  lemma EnqueueIsBounded(cfg: Config, s: System, job: Job, now: real, m: nat)
    requires Inv(s) && Bounded(cfg, s, m)
    ensures Bounded(cfg, s.(q := AfterEnqueue(cfg, s.q, job, now)), m)
  {
    hide Inv, AfterEnqueue, SeenAnswer, KeyOf, Gather, Undelivered, AbandonedCount;
    UncountedIs(s);
    EnqueueNumbers(cfg, s, job, now);
    AbandonedByEnqueue(cfg, s, job, now);
  }

  lemma AbandonedByEnqueue(cfg: Config, s: System, job: Job, now: real)
    ensures AbandonedCount(s.(q := AfterEnqueue(cfg, s.q, job, now))) == AbandonedCount(s)
  {
    hide AfterEnqueue;
    EnqueueKeepsAbandoned(cfg, s.q, job, now);
  }

  lemma DrainIsBounded(cfg: Config, s: System, m: nat)
    requires Inv(s) && TakenBy(s) <= m
    ensures Bounded(cfg, s.(q := AfterDrain(s.q)), m)
  {
    hide Inv, Gather, Undelivered, AbandonedCount;
    var t := s.(q := AfterDrain(s.q));
    DrainAllKeeps(s);
    UncountedIs(t);
  }

  lemma StopIsBounded(cfg: Config, s: System, m: nat)
    requires Inv(s) && Enabled(s, Stop) && Bounded(cfg, s, m)
    ensures Bounded(cfg, Next(cfg, s, Stop), m)
  {
    hide Inv, AfterSentinels, CountHandling;
    SentinelsTouchNothingElse(s.q, |s.workers|);
  }

  lemma WorkerBacklog(cfg: Config, s: System, a: Action)
    requires Inv(s) && Enabled(s, a) && a.ByWorker()
    ensures Backlog(Next(cfg, s, a)) <= Backlog(s)
    ensures SentinelsPut(Next(cfg, s, a)) == SentinelsPut(s)
  {
    hide Inv, Enabled, Next;
    var p, mine, others := WorkerEffect(cfg, s, a);
  }

  lemma WorkerIsBounded(cfg: Config, s: System, a: Action, m: nat)
    requires Inv(s) && Enabled(s, a) && a.ByWorker() && Bounded(cfg, s, m)
    ensures Bounded(cfg, Next(cfg, s, a), m)
  {
    hide Inv, Enabled, Next, Undelivered, AbandonedCount, FinishesBoth, Backlog;
    DeliveryStep(cfg, s, a);
    AbandonStep(cfg, s, a);
    WorkerBacklog(cfg, s, a);
  }

  lemma BoundedStep(cfg: Config, s: System, a: Action, m: nat)
    requires Inv(s) && Enabled(s, a) && Bounded(cfg, s, m) && (a.Drain? ==> TakenBy(s) <= m)
    ensures Bounded(cfg, Next(cfg, s, a), m)
  {
    hide Inv, Enabled, Bounded, TakenBy, AfterEnqueue, AfterSentinels, AfterDrain, Deliver, AfterHandler;
    match a
    case Enqueue(job, now) => EnqueueIsBounded(cfg, s, job, now, m);
    case Drain => DrainIsBounded(cfg, s, m);
    case Stop => StopIsBounded(cfg, s, m);
    case _ => WorkerIsBounded(cfg, s, a, m);
  }

  /** At every drain of the run getters hold at most `m` items. */
  ghost predicate DrainsCatch(cfg: Config, s0: System, run: seq<Action>, m: nat)
    requires Runs(cfg, s0, run)
  {
    forall k :: 0 <= k < |run| && run[k].Drain? ==> TakenBy(At(cfg, s0, run, k)) <= m
  }

  lemma {:induction false} BoundedAt(cfg: Config, s0: System, run: seq<Action>, m: nat, k: nat)
    requires Reached(cfg, s0, run) && DrainsCatch(cfg, s0, run, m) && k <= |run|
    ensures Bounded(cfg, At(cfg, s0, run, k), m)
  {
    hide Inv, Enabled, Next, Runs, TakenBy, Undelivered;
    if k == 0 {
      NothingUndeliveredYet(s0);
    } else {
      hide Bounded, Initial;
      BoundedAt(cfg, s0, run, m, k - 1);
      ReachedInvAt(cfg, s0, run, k - 1);
      AtNext(cfg, s0, run, k - 1);
      BoundedStep(cfg, At(cfg, s0, run, k - 1), run[k - 1], m);
    }
  }

  /**
   How much the two queues can hold between them, in every run: `max_size` items (one, if `max_size` is
   below one), the sentinels put, and as many more as getters held at the worst `drain`. Without `stop`,
   and when no getter holds an item at any drain, that is `max_size` itself.
   */
  lemma BacklogIsBounded(cfg: Config, s0: System, run: seq<Action>, m: nat)
    requires Reached(cfg, s0, run) && DrainsCatch(cfg, s0, run, m)
    ensures var s := After(cfg, s0, run); Backlog(s) <= BacklogLimit(cfg) + m + SentinelsPut(s)
  {
    hide Inv, Enabled, Next, Runs, DrainsCatch;
    BoundedAt(cfg, s0, run, m, |run|);
    AtEnd(cfg, s0, run);
  }

  /**
   A job is accepted without an eviction, because `_size` is below `max_size`, although the queues are
   full; or the sentinels do not fit.
   */
  predicate Overfills(cfg: Config, s: System, a: Action) {
    || (a.Enqueue? && Backlog(s) == BacklogLimit(cfg) && s.q.size < cfg.maxSize
        && !SeenAnswer(s.q.marks, cfg.ttl, KeyOf(a.job), a.now))
    || (a.Stop? && Backlog(s) + |s.workers| > BacklogLimit(cfg))
  }

  lemma EnqueueOverfill(cfg: Config, s: System, a: Action)
    requires a.Enqueue? && s.q.size >= 0 && Backlog(s) <= BacklogLimit(cfg)
    ensures Backlog(s.(q := AfterEnqueue(cfg, s.q, a.job, a.now))) > BacklogLimit(cfg) <==> Overfills(cfg, s, a)
  {
    hide AfterDropOldest, Accept, SeenMarks, SeenAnswer, KeyOf;
    var marked := Marked(cfg, s.q, a.job, a.now);
    DropOldestShape(marked);
    AcceptShape(MakeRoom(cfg, marked), a.job, a.now);
  }

  lemma DrainedBacklog(s: System)
    ensures Backlog(s.(q := AfterDrain(s.q))) == 0
  {
  }

  lemma OverfillStep(cfg: Config, s: System, a: Action)
    requires Inv(s) && Enabled(s, a) && Backlog(s) <= BacklogLimit(cfg)
    ensures Backlog(Next(cfg, s, a)) > BacklogLimit(cfg) <==> Overfills(cfg, s, a)
  {
    hide LaneInv, CountExited, AfterEnqueue, AfterSentinels, AfterDrain, Deliver, AfterHandler, SeenAnswer, Enabled;
    match a
    case Enqueue(_, _) => EnqueueOverfill(cfg, s, a);
    case Drain => DrainedBacklog(s);
    case Stop => SentinelsTouchNothingElse(s.q, |s.workers|);
    case _ => WorkerBacklog(cfg, s, a);
  }

  ghost predicate BacklogWithin(cfg: Config, s0: System, run: seq<Action>, k: nat)
    requires Runs(cfg, s0, run) && k <= |run|
  {
    Backlog(At(cfg, s0, run, k)) <= BacklogLimit(cfg)
  }

  ghost predicate OverfillsAt(cfg: Config, s0: System, run: seq<Action>, k: nat)
    requires Runs(cfg, s0, run) && k < |run|
  {
    Overfills(cfg, At(cfg, s0, run, k), run[k])
  }

  lemma FirstOverfill(cfg: Config, s0: System, run: seq<Action>, k: nat)
    requires Reached(cfg, s0, run) && k < |run| && BacklogWithin(cfg, s0, run, k)
    ensures !BacklogWithin(cfg, s0, run, k + 1) <==> OverfillsAt(cfg, s0, run, k)
  {
    hide Inv, Enabled, Next, Initial, Runs, Overfills, Backlog;
    ReachedInvAt(cfg, s0, run, k);
    AtNext(cfg, s0, run, k);
    OverfillStep(cfg, At(cfg, s0, run, k), run[k]);
  }

  lemma {:induction false} WithinWhileNoOverfill(cfg: Config, s0: System, run: seq<Action>, k: nat)
    requires Reached(cfg, s0, run) && k <= |run|
    requires forall i :: 0 <= i < |run| ==> !OverfillsAt(cfg, s0, run, i)
    ensures BacklogWithin(cfg, s0, run, k)
  {
    hide OverfillsAt;
    if k > 0 {
      WithinWhileNoOverfill(cfg, s0, run, k - 1);
      FirstOverfill(cfg, s0, run, k - 1);
    }
  }

  /** The queues stay within `max_size` throughout a run if and only if no step of the run overfills them. */
  lemma BacklogStaysWithinIff(cfg: Config, s0: System, run: seq<Action>)
    requires Reached(cfg, s0, run)
    ensures (forall k :: 0 <= k <= |run| ==> BacklogWithin(cfg, s0, run, k))
            <==> (forall k :: 0 <= k < |run| ==> !OverfillsAt(cfg, s0, run, k))
  {
    if forall k :: 0 <= k < |run| ==> !OverfillsAt(cfg, s0, run, k) {
      forall k | 0 <= k <= |run|
        ensures BacklogWithin(cfg, s0, run, k)
      {
        WithinWhileNoOverfill(cfg, s0, run, k);
      }
    }
    hide OverfillsAt, BacklogWithin;
    if forall k :: 0 <= k <= |run| ==> BacklogWithin(cfg, s0, run, k) {
      forall k | 0 <= k < |run|
        ensures !OverfillsAt(cfg, s0, run, k)
      {
        assert BacklogWithin(cfg, s0, run, k) && BacklogWithin(cfg, s0, run, k + 1);
        FirstOverfill(cfg, s0, run, k);
      }
    }
  }

  /**
   A drain does overfill them: it sets `_size` to zero while a getter holds a job, the return of `get`
   then takes the count of the next job, and one more finds room that is not there.
   */
  lemma BacklogCanExceedMax(cfg: Config, s0: System, a: Job, b: Job, c: Job)
    requires Initial(s0) && cfg.maxSize == 1
    requires a.priority.Normal? && b.priority.Normal? && c.priority.Normal?
    requires KeyOf(a) != KeyOf(b) && KeyOf(a) != KeyOf(c) && KeyOf(b) != KeyOf(c)
    ensures var t := s0.q.clock;
            var run := [StartWait(0), Enqueue(a, t)]
                       + ([Take(0, Normal), Drain] + ([Enqueue(b, t), Resume(0, Normal)] + [Enqueue(c, t)]));
            && Reached(cfg, s0, run)
            && Backlog(After(cfg, s0, run)) == 2
  {
    hide AfterEnqueue;
    var t := s0.q.clock;
    var s1 := Next(cfg, s0, StartWait(0));
    FreshEnqueue(cfg, s1.q, a);
    var s2 := Next(cfg, s1, Enqueue(a, t));
    var s3 := Next(cfg, s2, Take(0, Normal));
    var s4 := Next(cfg, s3, Drain);
    FreshEnqueue(cfg, s4.q, b);
    var s5 := Next(cfg, s4, Enqueue(b, t));
    var s6 := Next(cfg, s5, Resume(0, Normal));
    FreshEnqueue(cfg, s6.q, c);
    var s7 := Next(cfg, s6, Enqueue(c, t));
    var last := [Enqueue(c, t)];
    RunCons(cfg, s6, Enqueue(c, t), []);
    assert last + [] == last;
    RunOfTwo(cfg, s4, Enqueue(b, t), Resume(0, Normal), last);
    RunOfTwo(cfg, s2, Take(0, Normal), Drain, [Enqueue(b, t), Resume(0, Normal)] + last);
    RunOfTwo(cfg, s0, StartWait(0), Enqueue(a, t), [Take(0, Normal), Drain] + ([Enqueue(b, t), Resume(0, Normal)] + last));
  }
}
