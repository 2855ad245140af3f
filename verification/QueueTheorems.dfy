/**
 The laws of the job queue over whole runs: conservation of items, the meaning of the unfinished-task
 counters and of `_size`, and exactly when an accepted job can be lost.
 */
module QueueTheorems {
  import opened Basics
  import opened JobQueues
  import opened WorkerPools
  import opened QueueInvariants
  import opened Deduplicators

  /** A state the started pool can get into. */
  ghost predicate Reached(cfg: Config, s0: System, run: seq<Action>) {
    Initial(s0) && Runs(cfg, s0, run)
  }

  lemma ReachedInv(cfg: Config, s0: System, run: seq<Action>)
    requires Reached(cfg, s0, run)
    ensures Inv(After(cfg, s0, run))
  {
    hide Inv, Initial;
    InitialInv(s0);
    RunKeepsInv(cfg, s0, run);
  }

  lemma {:induction false} ReachedInvAt(cfg: Config, s0: System, run: seq<Action>, k: nat)
    requires Reached(cfg, s0, run) && k <= |run|
    ensures Inv(At(cfg, s0, run, k))
  {
    hide Inv, Initial, Enabled, Next, Runs;
    if k == 0 {
      InitialInv(s0);
    } else {
      ReachedInvAt(cfg, s0, run, k - 1);
      AtNext(cfg, s0, run, k - 1);
      StepKeepsInv(cfg, At(cfg, s0, run, k - 1), run[k - 1]);
    }
  }

  // ---- Conservation and order ----

  /**
   At every moment of every interleaving each item ever put into a queue is in exactly one place, and
   items leave a queue in the order in which they were put.
   */
  lemma EveryItemIsInOnePlace(cfg: Config, s0: System, run: seq<Action>, p: Priority)
    requires Reached(cfg, s0, run)
    ensures var s := After(cfg, s0, run);
            var lane := s.q.On(p);
            && lane.log.put == lane.log.left + lane.chan.items
            && multiset(lane.log.put) == multiset(lane.chan.items)
                                         + Gather(s.workers, Taken, p) + Gather(s.workers, Held, p)
                                         + lane.log.finished + lane.log.evicted + lane.log.drained + lane.log.abandoned
  {
    ReachedInv(cfg, s0, run);
    var s := After(cfg, s0, run);
    assert LaneInv(s, p);
    PlacesAddUp(p, s.q.On(p), Gather(s.workers, Taken, p), Gather(s.workers, Held, p));
  }

  lemma PlacesAddUp(p: Priority, lane: Lane, taken: multiset<Item>, held: multiset<Item>)
    requires LaneOk(p, lane, taken, held)
    ensures multiset(lane.log.put) == multiset(lane.chan.items) + taken + held
                                      + lane.log.finished + lane.log.evicted + lane.log.drained + lane.log.abandoned
  {
    var left := taken + held + lane.log.finished + lane.log.evicted + lane.log.drained + lane.log.abandoned;
    forall x: Item
      ensures multiset(lane.log.left)[x] == left[x]
    {
      assert Accounts(lane.log, taken, held, x);
    }
    assert multiset(lane.log.left) == left;
  }

  // ---- The unfinished-task counters ----

  /** The counter of a queue counts exactly the items that are queued, taken, held or abandoned. */
  lemma UnfinishedIsExact(cfg: Config, s0: System, run: seq<Action>, p: Priority)
    requires Reached(cfg, s0, run)
    ensures var s := After(cfg, s0, run);
            s.q.On(p).chan.unfinished == |s.q.On(p).chan.items| + |Gather(s.workers, Taken, p)|
                                         + |Gather(s.workers, Held, p)| + |s.q.On(p).log.abandoned|
  {
    ReachedInv(cfg, s0, run);
    assert LaneInv(After(cfg, s0, run), p);
  }

  /**
   `task_done` is never called once too often: no worker ever dies of the ValueError it would raise, and the
   counter of each queue covers its items, so neither an eviction nor a drain can raise it.
   */
  lemma TaskDoneNeverRaises(cfg: Config, s0: System, run: seq<Action>, w: nat)
    requires Reached(cfg, s0, run) && w < |After(cfg, s0, run).workers|
    ensures !After(cfg, s0, run).workers[w].phase.Crashed?
    ensures After(cfg, s0, run).workers[w].alive <==> !After(cfg, s0, run).workers[w].phase.Exited?
    ensures var q := After(cfg, s0, run).q; forall p :: q.On(p).chan.unfinished >= |q.On(p).chan.items|
  {
    hide LaneInv, CountExited;
    ReachedInv(cfg, s0, run);
    UnfinishedIsExact(cfg, s0, run, High);
    UnfinishedIsExact(cfg, s0, run, Normal);
    assert WorkerInv(After(cfg, s0, run).workers[w]);
  }

  /** What `join` waits for: a zero counter means every item put was finished, evicted or drained. */
  lemma JoinMeansAllDone(cfg: Config, s0: System, run: seq<Action>, p: Priority)
    requires Reached(cfg, s0, run)
    ensures var lane := After(cfg, s0, run).q.On(p);
            lane.chan.unfinished == 0
            <==> multiset(lane.log.put) == lane.log.finished + lane.log.evicted + lane.log.drained
  {
    EveryItemIsInOnePlace(cfg, s0, run, p);
    UnfinishedIsExact(cfg, s0, run, p);
    var s := After(cfg, s0, run);
    OutstandingOrDone(s.q.On(p), Gather(s.workers, Taken, p), Gather(s.workers, Held, p));
  }

  lemma OutstandingOrDone(lane: Lane, taken: multiset<Item>, held: multiset<Item>)
    requires multiset(lane.log.put) == multiset(lane.chan.items) + taken + held
                                       + lane.log.finished + lane.log.evicted + lane.log.drained + lane.log.abandoned
    requires lane.chan.unfinished == |lane.chan.items| + |taken| + |held| + |lane.log.abandoned|
    ensures lane.chan.unfinished == 0
            <==> multiset(lane.log.put) == lane.log.finished + lane.log.evicted + lane.log.drained
  {
    var done := lane.log.finished + lane.log.evicted + lane.log.drained;
    assert |multiset(lane.log.put)| == |multiset(lane.chan.items)| + |taken| + |held| + |lane.log.abandoned| + |done|;
    if lane.chan.unfinished == 0 {
      assert taken == multiset{} && held == multiset{} && lane.log.abandoned == multiset{} && lane.chan.items == [];
    }
  }

  // ---- Lost jobs ----

  ghost function BothFinished(cfg: Config, s: System, run: seq<Action>): nat
    requires Runs(cfg, s, run)
    decreases |run|
  {
    if run == [] then 0
    else (if FinishesBoth(s, run[0]) then 1 else 0) + BothFinished(cfg, Next(cfg, s, run[0]), run[1..])
  }

  function AbandonedCount(s: System): nat {
    |s.q.high.log.abandoned| + |s.q.normal.log.abandoned|
  }

  lemma {:induction false} SentinelsTouchNothingElse(q: QState, n: nat)
    ensures AfterSentinels(q, n) == q.(high := AfterSentinels(q, n).high)
    ensures AfterSentinels(q, n).high.log == q.high.log.(put := AfterSentinels(q, n).high.log.put)
    ensures AfterSentinels(q, n).high.chan.unfinished == q.high.chan.unfinished + n
    ensures AfterSentinels(q, n).high.chan.items == q.high.chan.items + seq(n, _ => None)
    ensures AfterSentinels(q, n).high.log.put == q.high.log.put + seq(n, _ => None)
  {
    if n > 0 {
      SentinelsTouchNothingElse(q, n - 1);
      assert seq<Item>(n, _ => None) == seq<Item>(n - 1, _ => None) + [None];
    }
  }

  /** Room is made at the expense of the normal queue, and of the high queue only when the normal one is empty. */
  lemma DropOldestShape(q: QState)
    ensures var r := AfterDropOldest(q);
            var p := if q.normal.chan.items != [] then Normal else High;
            if q.Idle() then r == q
            else
              && q.On(p).chan.items != []
              && r.On(p) == q.On(p).Evict() && r.On(Other(p)) == q.On(Other(p))
              && r == q.(high := r.high, normal := r.normal, size := Max(0, q.size - 1), stats := r.stats)
              && r.stats == q.NoteDrop().stats
  {
  }

  lemma AcceptShape(q: QState, job: Job, now: real)
    ensures var r := Accept(q, job, now);
            && r.On(job.priority) == q.On(job.priority).Put(Some(job))
            && r.On(Other(job.priority)) == q.On(Other(job.priority))
            && r == q.(high := r.high, normal := r.normal, size := q.size + 1, stats := r.stats,
                       accepted := q.accepted + [Acceptance(job, now)])
            && r.stats == q.(size := q.size + 1).NoteEnqueue().stats
  {
  }

  lemma RoomKeepsAbandoned(cfg: Config, q: QState)
    ensures MakeRoom(cfg, q).high.log.abandoned == q.high.log.abandoned
    ensures MakeRoom(cfg, q).normal.log.abandoned == q.normal.log.abandoned
  {
    hide AfterDropOldest;
    DropOldestShape(q);
  }

  lemma EnqueueKeepsAbandoned(cfg: Config, q: QState, job: Job, now: real)
    ensures AfterEnqueue(cfg, q, job, now).high.log.abandoned == q.high.log.abandoned
    ensures AfterEnqueue(cfg, q, job, now).normal.log.abandoned == q.normal.log.abandoned
  {
    hide MakeRoom, Accept, SeenMarks, SeenAnswer, KeyOf;
    var marked := Marked(cfg, q, job, now);
    RoomKeepsAbandoned(cfg, marked);
    AcceptShape(MakeRoom(cfg, marked), job, now);
  }

  lemma EffectAbandons(s: System, t: System, a: Action, p: Priority, mine: Move, others: Move)
    requires a.ByWorker() && Effect(s, t, a, p, mine, others)
    ensures AbandonedCount(t) == AbandonedCount(s) + if FinishesBoth(s, a) then 1 else 0
  {
    hide FinishesBoth;
    assert mine.abandoned.None?;
  }

  lemma DrainAbandons(s: System)
    ensures AbandonedCount(s.(q := AfterDrain(s.q))) == AbandonedCount(s)
  {
  }

  lemma AbandonStep(cfg: Config, s: System, a: Action)
    requires Inv(s) && Enabled(s, a)
    ensures AbandonedCount(Next(cfg, s, a)) == AbandonedCount(s) + if FinishesBoth(s, a) then 1 else 0
  {
    hide Inv, Effect, AfterEnqueue, AfterSentinels, AfterDrain, Deliver, AfterHandler, Enabled;
    match a
    case Enqueue(job, now) => EnqueueKeepsAbandoned(cfg, s.q, job, now);
    case Stop => SentinelsTouchNothingElse(s.q, |s.workers|);
    case Drain => DrainAbandons(s);
    case _ =>
      hide AbandonedCount, FinishesBoth, Next;
      var p, mine, others := WorkerEffect(cfg, s, a);
      EffectAbandons(s, Next(cfg, s, a), a, p, mine, others);
  }

  lemma {:induction false} AbandonedAlongRun(cfg: Config, s: System, run: seq<Action>)
    requires Inv(s) && Runs(cfg, s, run)
    ensures AbandonedCount(After(cfg, s, run)) == AbandonedCount(s) + BothFinished(cfg, s, run)
    decreases |run|
  {
    hide Inv, Next, AbandonedCount, FinishesBoth, Enabled;
    if run != [] {
      AbandonStep(cfg, s, run[0]);
      StepKeepsInv(cfg, s, run[0]);
      AbandonedAlongRun(cfg, Next(cfg, s, run[0]), run[1..]);
    }
  }

  /**
   Nothing put into the queues is ever lost exactly when no waiting worker resumes with both of its
   getters completed; each such resumption loses one item.
   */
  lemma NothingLostIff(cfg: Config, s0: System, run: seq<Action>)
    requires Reached(cfg, s0, run)
    ensures AbandonedCount(After(cfg, s0, run)) == BothFinished(cfg, s0, run)
    ensures After(cfg, s0, run).q.high.log.abandoned == multiset{} && After(cfg, s0, run).q.normal.log.abandoned == multiset{}
            <==> BothFinished(cfg, s0, run) == 0
  {
    hide Inv, Next, Enabled;
    InitialInv(s0);
    AbandonedAlongRun(cfg, s0, run);
  }

  /** Runs are built from their first action on. */
  lemma RunCons(cfg: Config, s: System, a: Action, rest: seq<Action>)
    requires Enabled(s, a) && Runs(cfg, Next(cfg, s, a), rest)
    ensures Runs(cfg, s, [a] + rest)
    ensures After(cfg, s, [a] + rest) == After(cfg, Next(cfg, s, a), rest)
  {
    assert ([a] + rest)[1..] == rest;
  }

  /** A new job finds room and is put at the end of its queue. */
  lemma FreshEnqueue(cfg: Config, q: QState, job: Job)
    requires KeyOf(job) !in q.marks && q.size < cfg.maxSize
    ensures var r := AfterEnqueue(cfg, q, job, q.clock);
            && r.On(job.priority) == q.On(job.priority).Put(Some(job))
            && r.On(Other(job.priority)) == q.On(Other(job.priority))
            && r.size == q.size + 1 && r.clock == q.clock
            && (forall k :: k in r.marks ==> k in q.marks || k == KeyOf(job))
  {
    hide Accept;
    AcceptShape(Marked(cfg, q, job, q.clock), job, q.clock);
  }

  /**
   A loss that does happen: an idle worker waits, a normal and a high job arrive, both getters take their
   job before the worker resumes, and the normal job is neither handled nor queued any more.
   */
  lemma AcceptedJobCanBeLost(cfg: Config, s0: System, urgent: Job, plain: Job)
    requires Initial(s0) && cfg.maxSize >= 2
    requires urgent.priority.High? && plain.priority.Normal? && KeyOf(urgent) != KeyOf(plain)
    ensures var t := s0.q.clock;
            var run := [StartWait(0), Enqueue(plain, t)]
                       + ([Enqueue(urgent, t), Take(0, Normal)] + [Take(0, High), Resume(0, High)]);
            && Reached(cfg, s0, run)
            && After(cfg, s0, run).q.normal.log.abandoned == multiset{Some(plain)}
            && After(cfg, s0, run).q.normal.chan.items == []
            && After(cfg, s0, run).workers == s0.workers[0 := Worker(Handling(urgent), Some(High), 0, true)]
  {
    hide AfterEnqueue;
    var t := s0.q.clock;
    var s1 := Next(cfg, s0, StartWait(0));
    FreshEnqueue(cfg, s1.q, plain);
    var s2 := Next(cfg, s1, Enqueue(plain, t));
    FreshEnqueue(cfg, s2.q, urgent);
    var s3 := Next(cfg, s2, Enqueue(urgent, t));
    var s4 := Next(cfg, s3, Take(0, Normal));
    var s5 := Next(cfg, s4, Take(0, High));
    var s6 := Next(cfg, s5, Resume(0, High));
    RunOfTwo(cfg, s4, Take(0, High), Resume(0, High), []);
    RunOfTwo(cfg, s2, Enqueue(urgent, t), Take(0, Normal), [Take(0, High), Resume(0, High)] + []);
    RunOfTwo(cfg, s0, StartWait(0), Enqueue(plain, t),
             [Enqueue(urgent, t), Take(0, Normal)] + ([Take(0, High), Resume(0, High)] + []));
    assert [Take(0, High), Resume(0, High)] + [] == [Take(0, High), Resume(0, High)];
  }

  lemma RunOfTwo(cfg: Config, s: System, a: Action, b: Action, rest: seq<Action>)
    requires Enabled(s, a) && Enabled(Next(cfg, s, a), b)
    requires Runs(cfg, Next(cfg, Next(cfg, s, a), b), rest)
    ensures Runs(cfg, s, [a, b] + rest)
    ensures After(cfg, s, [a, b] + rest) == After(cfg, Next(cfg, Next(cfg, s, a), b), rest)
  {
    hide Enabled, Next;
    RunCons(cfg, Next(cfg, s, a), b, rest);
    RunCons(cfg, s, a, [b] + rest);
    assert [a] + ([b] + rest) == [a, b] + rest;
  }

  // ---- The meaning of `_size` ----

  function CountHandling(ws: seq<Worker>): nat {
    if ws == [] then 0 else (if ws[0].phase.Handling? then 1 else 0) + CountHandling(ws[1..])
  }

  lemma {:induction false} CountHandlingUpdate(ws: seq<Worker>, i: nat, w: Worker)
    requires i < |ws|
    ensures CountHandling(ws[i := w]) + (if ws[i].phase.Handling? then 1 else 0)
            == CountHandling(ws) + if w.phase.Handling? then 1 else 0
  {
    if i > 0 {
      CountHandlingUpdate(ws[1..], i - 1, w);
      assert ws[i := w][1..] == ws[1..][i - 1 := w];
    } else {
      assert ws[i := w][1..] == ws[1..];
    }
  }

  lemma {:induction false} HandlingIsHeld(ws: seq<Worker>)
    ensures CountHandling(ws) == |Gather(ws, Held, High)| + |Gather(ws, Held, Normal)|
  {
    if ws != [] {
      HandlingIsHeld(ws[1..]);
    }
  }

  /** Everything accepted or put that no worker has been given yet. */
  function Undelivered(s: System): int {
    s.q.high.chan.unfinished + s.q.normal.chan.unfinished - CountHandling(s.workers)
  }

  lemma UndeliveredIs(s: System)
    requires Inv(s)
    ensures Undelivered(s) == |s.q.high.chan.items| + |s.q.normal.chan.items|
                              + |Gather(s.workers, Taken, High)| + |Gather(s.workers, Taken, Normal)|
                              + AbandonedCount(s)
  {
    hide Gather, Accounts, AllRouted;
    assert LaneInv(s, High) && LaneInv(s, Normal);
    HandlingIsHeld(s.workers);
  }

  /** A worker step lowers the number of undelivered items by one exactly when `get` returns. */
  lemma DeliveryStep(cfg: Config, s: System, a: Action)
    requires Inv(s) && Enabled(s, a) && a.ByWorker()
    ensures var t := Next(cfg, s, a);
            && Undelivered(t) == Undelivered(s) - (if a.GetNow? || a.Resume? then 1 else 0)
            && t.q.size == if a.GetNow? || a.Resume? then Max(0, s.q.size - 1) else s.q.size
  {
    hide Inv, Next, CountHandling;
    var p, mine, others := WorkerEffect(cfg, s, a);
    CountHandlingUpdate(s.workers, a.w, Next(cfg, s, a).workers[a.w]);
  }

  lemma SomethingUndelivered(s: System, a: Action)
    requires Inv(s) && Enabled(s, a) && (a.GetNow? || a.Resume?)
    ensures Undelivered(s) >= 1
  {
    hide LaneInv, Gather, CountExited;
    UndeliveredIs(s);
    if a.Resume? {
      OwnedIsGathered(s.workers, a.w, Taken, a.lane);
    }
  }

  lemma QueuedIsUndelivered(s: System)
    requires Inv(s)
    ensures s.q.high.chan.unfinished >= |s.q.high.chan.items|
    ensures s.q.normal.chan.unfinished >= |s.q.normal.chan.items|
    ensures Undelivered(s) >= |s.q.high.chan.items| + |s.q.normal.chan.items|
  {
    hide Gather, Accounts, AllRouted, CountHandling;
    UndeliveredIs(s);
    assert LaneInv(s, High) && LaneInv(s, Normal);
  }

  /** What the two queues hold between them. */
  function Backlog(s: System): nat {
    |s.q.high.chan.items| + |s.q.normal.chan.items|
  }

  /** An accepted job finds the queue full, and there is something to evict. */
  predicate Evicts(cfg: Config, q: QState) {
    q.size >= cfg.maxSize && !q.Idle()
  }

  lemma RoomNumbers(cfg: Config, s: System)
    requires Inv(s)
    ensures var t := s.(q := MakeRoom(cfg, s.q));
            var e := if Evicts(cfg, s.q) then 1 else 0;
            && Undelivered(t) == Undelivered(s) - e && Backlog(t) == Backlog(s) - e
            && t.q.size == if Evicts(cfg, s.q) then Max(0, s.q.size - 1) else s.q.size
  {
    hide AfterDropOldest, Inv, CountHandling;
    QueuedIsUndelivered(s);
    DropOldestShape(s.q);
  }

  lemma AcceptNumbers(s: System, job: Job, now: real)
    ensures var t := s.(q := Accept(s.q, job, now));
            Undelivered(t) == Undelivered(s) + 1 && Backlog(t) == Backlog(s) + 1 && t.q.size == s.q.size + 1
  {
    hide Accept, CountHandling;
    AcceptShape(s.q, job, now);
  }

  lemma MarkedNumbers(cfg: Config, s: System, job: Job, now: real)
    requires Inv(s)
    ensures var t := s.(q := Marked(cfg, s.q, job, now));
            && Inv(t) && Undelivered(t) == Undelivered(s) && Backlog(t) == Backlog(s) && t.q.size == s.q.size
            && (Evicts(cfg, t.q) <==> Evicts(cfg, s.q))
            && Undelivered(t.(q := t.q.NoteDuplicate())) == Undelivered(s)
            && Undelivered(t.(q := t.q.(rejections := s.q.rejections + 1).NoteDrop())) == Undelivered(s)
  {
    hide LaneOk, Gather, CountExited, CountHandling, SeenMarks, KeyOf;
    assert LaneInv(s, High) && LaneInv(s, Normal);
  }

  /** What an offer does to the undelivered items, the backlog and `_size`. */
  lemma EnqueueNumbers(cfg: Config, s: System, job: Job, now: real)
    requires Inv(s)
    ensures var t := s.(q := AfterEnqueue(cfg, s.q, job, now));
            var d := DecisionOn(cfg, s.q, job, now);
            var more := if d.Enqueued? && !Evicts(cfg, s.q) then 1 else 0;
            && Undelivered(t) == Undelivered(s) + more && Backlog(t) == Backlog(s) + more
            && t.q.size == (if d.Enqueued? && Evicts(cfg, s.q) then Max(0, s.q.size - 1) + 1 else s.q.size + more)
  {
    hide Inv, Undelivered, MakeRoom, Accept, DecisionOn, Marked, Evicts;
    var marked := s.(q := Marked(cfg, s.q, job, now));
    MarkedNumbers(cfg, s, job, now);
    RoomNumbers(cfg, marked);
    AcceptNumbers(marked.(q := MakeRoom(cfg, marked.q)), job, now);
    assert marked.q.rejections == s.q.rejections by {
      MarkedRejections(cfg, s.q, job, now);
    }
  }

  lemma MarkedRejections(cfg: Config, q: QState, job: Job, now: real)
    ensures Marked(cfg, q, job, now).rejections == q.rejections
  {
  }

  /** `enqueue` moves `_size` and the undelivered items together, even when it evicts. */
  lemma EnqueueSize(cfg: Config, s: System, job: Job, now: real)
    requires Inv(s) && s.q.size <= Undelivered(s)
    ensures var t := s.(q := AfterEnqueue(cfg, s.q, job, now));
            && t.q.size <= Undelivered(t)
            && (s.q.size == Undelivered(s) ==> t.q.size == Undelivered(t))
  {
    hide Inv, Undelivered, AfterEnqueue, DecisionOn;
    QueuedIsUndelivered(s);
    EnqueueNumbers(cfg, s, job, now);
  }

  /** `_size` never overstates what is undelivered, in any run at all. */
  lemma SizeStep(cfg: Config, s: System, a: Action)
    requires Inv(s) && Enabled(s, a) && s.q.size <= Undelivered(s)
    ensures Next(cfg, s, a).q.size <= Undelivered(Next(cfg, s, a))
    ensures !a.Drain? && !a.Stop? && s.q.size == Undelivered(s) ==>
              Next(cfg, s, a).q.size == Undelivered(Next(cfg, s, a))
  {
    hide Inv, Enabled, Undelivered, AfterEnqueue, AfterSentinels, AfterDrain, Deliver, AfterHandler;
    match a
    case Enqueue(job, now) => EnqueueSize(cfg, s, job, now);
    case Drain => DrainSize(cfg, s);
    case Stop => StopSize(cfg, s);
    case _ =>
      DeliveryStep(cfg, s, a);
      if a.GetNow? || a.Resume? {
        SomethingUndelivered(s, a);
      }
  }

  lemma DrainSize(cfg: Config, s: System)
    requires Inv(s)
    ensures Next(cfg, s, Drain).q.size <= Undelivered(Next(cfg, s, Drain))
  {
    hide Inv, CountHandling;
    QueuedIsUndelivered(s);
  }

  lemma StopSize(cfg: Config, s: System)
    requires Inv(s) && s.q.size <= Undelivered(s) && Enabled(s, Stop)
    ensures Next(cfg, s, Stop).q.size <= Undelivered(Next(cfg, s, Stop))
  {
    hide Inv, CountHandling, AfterSentinels;
    SentinelsTouchNothingElse(s.q, |s.workers|);
  }

  ghost predicate NoDrainOrStop(run: seq<Action>) {
    forall i :: 0 <= i < |run| ==> !run[i].Drain? && !run[i].Stop?
  }

  lemma {:induction false} SizeAlongRun(cfg: Config, s: System, run: seq<Action>)
    requires Inv(s) && Runs(cfg, s, run) && s.q.size <= Undelivered(s)
    ensures After(cfg, s, run).q.size <= Undelivered(After(cfg, s, run))
    ensures NoDrainOrStop(run) && s.q.size == Undelivered(s) ==>
              After(cfg, s, run).q.size == Undelivered(After(cfg, s, run))
    decreases |run|
  {
    hide Inv, Enabled, Next, Undelivered;
    if run != [] {
      SizeStep(cfg, s, run[0]);
      StepKeepsInv(cfg, s, run[0]);
      SizeAlongRun(cfg, Next(cfg, s, run[0]), run[1..]);
      assert NoDrainOrStop(run) ==> NoDrainOrStop(run[1..]);
    }
  }

  lemma NothingUndeliveredYet(s: System)
    requires Initial(s)
    ensures Inv(s) && Undelivered(s) == 0
  {
    hide Inv;
    InitialInv(s);
    NobodyHandling(s.workers);
  }

  lemma {:induction false} NobodyHandling(ws: seq<Worker>)
    requires forall w :: 0 <= w < |ws| ==> !ws[w].phase.Handling?
    ensures CountHandling(ws) == 0
  {
    if ws != [] {
      NobodyHandling(ws[1..]);
    }
  }

  /**
   What `_size` counts: without drains and sentinels exactly the items that are queued, taken by a getter
   whose worker has not resumed, or abandoned. With them it can only fall short of that.
   */
  lemma SizeCountsUndelivered(cfg: Config, s0: System, run: seq<Action>)
    requires Reached(cfg, s0, run)
    ensures var s := After(cfg, s0, run);
            var n := |s.q.high.chan.items| + |s.q.normal.chan.items|
                     + |Gather(s.workers, Taken, High)| + |Gather(s.workers, Taken, Normal)| + AbandonedCount(s);
            && 0 <= s.q.size <= n
            && (NoDrainOrStop(run) ==> s.q.size == n)
  {
    hide LaneInv, CountExited, Undelivered, Gather, AbandonedCount, Next, Enabled;
    NothingUndeliveredYet(s0);
    SizeAlongRun(cfg, s0, run);
    ReachedInv(cfg, s0, run);
    UndeliveredIs(After(cfg, s0, run));
  }

  /**
   The clamps in `_size = max(0, _size - 1)` never bite in a run without drains and sentinels: neither when
   `get` returns nor when an eviction finds something to evict.
   */
  lemma ClampNeverBites(cfg: Config, s0: System, run: seq<Action>)
    requires Reached(cfg, s0, run) && NoDrainOrStop(run)
    ensures forall a :: Enabled(After(cfg, s0, run), a) && (a.GetNow? || a.Resume?) ==> After(cfg, s0, run).q.size >= 1
    ensures !After(cfg, s0, run).q.Idle() ==> After(cfg, s0, run).q.size >= 1
  {
    hide Inv, Enabled, Undelivered, Next;
    var s := After(cfg, s0, run);
    NothingUndeliveredYet(s0);
    SizeAlongRun(cfg, s0, run);
    ReachedInv(cfg, s0, run);
    QueuedIsUndelivered(s);
    forall a | Enabled(s, a) && (a.GetNow? || a.Resume?)
      ensures s.q.size >= 1
    {
      SomethingUndelivered(s, a);
    }
  }
}
