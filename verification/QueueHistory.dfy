/**
 What the queue's history looks like: jobs leave each queue in the order of acceptance, jobs of one
 deduplication key are accepted more than a time-to-live apart, and an offer is a duplicate exactly when the
 history of offers says so.
 */
module QueueHistory {
  import opened Basics
  import opened Deduplicators
  import opened JobQueues
  import opened WorkerPools
  import opened QueueInvariants
  import opened QueueTheorems

  // ---- Order of acceptance ----

  /** The jobs among the items, in order. */
  function JobsIn(items: seq<Item>): seq<Job> {
    if items == [] then []
    else
      var n := |items| - 1;
      JobsIn(items[..n]) + if items[n].Some? then [items[n].value] else []
  }

  function AcceptedOn(accepted: seq<Acceptance>, p: Priority): seq<Job> {
    if accepted == [] then []
    else
      var n := |accepted| - 1;
      AcceptedOn(accepted[..n], p) + if accepted[n].job.priority == p then [accepted[n].job] else []
  }

  lemma JobsInSnoc(items: seq<Item>, x: Item)
    ensures JobsIn(items + [x]) == JobsIn(items) + if x.Some? then [x.value] else []
  {
    assert (items + [x])[..|items|] == items;
  }

  lemma {:induction false} JobsInConcat(a: seq<Item>, b: seq<Item>)
    ensures JobsIn(a + b) == JobsIn(a) + JobsIn(b)
  {
    if b == [] {
      assert a + b == a;
    } else {
      var n := |b| - 1;
      JobsInConcat(a, b[..n]);
      JobsInSnoc(a + b[..n], b[n]);
      assert a + b[..n] + [b[n]] == a + b;
    }
  }

  lemma {:induction false} NoJobsInSentinels(items: seq<Item>, n: nat)
    ensures JobsIn(items + seq(n, _ => None)) == JobsIn(items)
  {
    if n == 0 {
      assert items + seq<Item>(n, _ => None) == items;
    } else {
      NoJobsInSentinels(items, n - 1);
      JobsInSnoc(items + seq<Item>(n - 1, _ => None), None);
      assert items + seq<Item>(n - 1, _ => None) + [None] == items + seq<Item>(n, _ => None);
    }
  }

  lemma AcceptedOnSnoc(accepted: seq<Acceptance>, x: Acceptance, p: Priority)
    ensures AcceptedOn(accepted + [x], p) == AcceptedOn(accepted, p) + if x.job.priority == p then [x.job] else []
  {
    assert (accepted + [x])[..|accepted|] == accepted;
  }

  /** What has been put into a queue, apart from sentinels, is what was accepted at its priority. */
  ghost predicate PutIsAccepted(q: QState, p: Priority) {
    JobsIn(q.On(p).log.put) == AcceptedOn(q.accepted, p)
  }

  lemma AcceptKeepsOrder(q: QState, job: Job, now: real, p: Priority)
    requires PutIsAccepted(q, p)
    ensures PutIsAccepted(Accept(q, job, now), p)
  {
    hide Accept, JobsIn, AcceptedOn;
    AcceptShape(q, job, now);
    JobsInSnoc(q.On(p).log.put, Some(job));
    AcceptedOnSnoc(q.accepted, Acceptance(job, now), p);
  }

  lemma RoomKeepsOrder(cfg: Config, q: QState, p: Priority)
    requires PutIsAccepted(q, p)
    ensures PutIsAccepted(MakeRoom(cfg, q), p)
  {
    hide AfterDropOldest, JobsIn, AcceptedOn;
    DropOldestShape(q);
  }

  lemma EnqueueKeepsOrder(cfg: Config, q: QState, job: Job, now: real, p: Priority)
    requires PutIsAccepted(q, p)
    ensures PutIsAccepted(AfterEnqueue(cfg, q, job, now), p)
  {
    hide MakeRoom, Accept, JobsIn, AcceptedOn, SeenMarks, SeenAnswer, KeyOf;
    var marked := Marked(cfg, q, job, now);
    RoomKeepsOrder(cfg, marked, p);
    AcceptKeepsOrder(MakeRoom(cfg, marked), job, now, p);
  }

  lemma OrderStep(cfg: Config, s: System, a: Action, p: Priority)
    requires Inv(s) && Enabled(s, a) && PutIsAccepted(s.q, p)
    ensures PutIsAccepted(Next(cfg, s, a).q, p)
  {
    hide Inv, Enabled, JobsIn, AcceptedOn, AfterEnqueue, AfterSentinels, Deliver, AfterHandler;
    match a
    case Enqueue(job, now) => EnqueueKeepsOrder(cfg, s.q, job, now, p);
    case Drain =>
    case Stop =>
      SentinelsTouchNothingElse(s.q, |s.workers|);
      NoJobsInSentinels(s.q.high.log.put, |s.workers|);
    case _ => var r, mine, others := WorkerEffect(cfg, s, a);
  }

  lemma {:induction false} OrderAlongRun(cfg: Config, s: System, run: seq<Action>, p: Priority)
    requires Inv(s) && Runs(cfg, s, run) && PutIsAccepted(s.q, p)
    ensures PutIsAccepted(After(cfg, s, run).q, p)
    decreases |run|
  {
    hide Inv, Enabled, Next, PutIsAccepted;
    if run != [] {
      OrderStep(cfg, s, run[0], p);
      StepKeepsInv(cfg, s, run[0]);
      OrderAlongRun(cfg, Next(cfg, s, run[0]), run[1..], p);
    }
  }

  /** Per priority: accepted jobs = jobs that have left, in order, followed by the jobs still queued. */
  lemma JobsLeaveInOrder(cfg: Config, s0: System, run: seq<Action>, p: Priority)
    requires Reached(cfg, s0, run)
    ensures var s := After(cfg, s0, run);
            AcceptedOn(s.q.accepted, p) == JobsIn(s.q.On(p).log.left) + JobsIn(s.q.On(p).chan.items)
  {
    hide Inv, Enabled, Next, JobsIn, AcceptedOn;
    var s := After(cfg, s0, run);
    assert PutIsAccepted(s0.q, p) by {
      assert JobsIn([]) == [] && AcceptedOn([], p) == [] by {
        EmptyHistory(p);
      }
    }
    InitialInv(s0);
    OrderAlongRun(cfg, s0, run, p);
    EveryItemIsInOnePlace(cfg, s0, run, p);
    JobsInConcat(s.q.On(p).log.left, s.q.On(p).chan.items);
  }

  lemma EmptyHistory(p: Priority)
    ensures JobsIn([]) == [] && AcceptedOn([], p) == []
  {
  }

  /**
   The choice between the queues: a `get` that does not wait hands out a normal item only when the high
   queue is empty, and an `enqueue` evicts a high item only when the normal queue is empty.
   */
  lemma HighGoesFirst(cfg: Config, s: System, a: Action)
    requires Enabled(s, a) && (a.GetNow? || a.Enqueue?)
    ensures var t := Next(cfg, s, a);
            && (a.GetNow? && t.q.normal.log.left != s.q.normal.log.left ==> s.q.high.chan.items == [])
            && (a.Enqueue? && t.q.high.log.left != s.q.high.log.left ==> s.q.normal.chan.items == [])
  {
    hide AfterDropOldest, Accept, SeenMarks, SeenAnswer, KeyOf;
    if a.Enqueue? {
      var marked := Marked(cfg, s.q, a.job, a.now);
      DropOldestShape(marked);
      AcceptShape(MakeRoom(cfg, marked), a.job, a.now);
    }
  }

  /**
   No overtaking between the queues, in any run: when a `get` that does not wait hands out a normal item,
   every high job ever accepted has left its queue, and when an `enqueue` evicts a high job, every normal
   job ever accepted has left its queue.
   */
  lemma NoJobIsOvertaken(cfg: Config, s0: System, run: seq<Action>, a: Action)
    requires Reached(cfg, s0, run) && Enabled(After(cfg, s0, run), a)
    ensures var s, t := After(cfg, s0, run).q, Next(cfg, After(cfg, s0, run), a).q;
            && (a.GetNow? && t.normal.log.left != s.normal.log.left ==>
                  AcceptedOn(s.accepted, High) == JobsIn(s.high.log.left))
            && (a.Enqueue? && t.high.log.left != s.high.log.left ==>
                  AcceptedOn(s.accepted, Normal) == JobsIn(s.normal.log.left))
  {
    hide Next, Enabled, Runs, Initial, JobsIn, AcceptedOn;
    EmptyHistory(High);
    JobsLeaveInOrder(cfg, s0, run, High);
    JobsLeaveInOrder(cfg, s0, run, Normal);
    if a.GetNow? || a.Enqueue? {
      HighGoesFirst(cfg, After(cfg, s0, run), a);
    }
  }

  // ---- Deduplication of accepted jobs ----

  /** The key of an accepted job is still marked, or its mark has expired by now. */
  ghost predicate Remembered(q: QState, ttl: int, x: Acceptance) {
    && x.at <= q.clock
    && ((KeyOf(x.job) in q.marks && q.marks[KeyOf(x.job)] >= x.at) || q.clock - x.at > ttl as real)
  }

  ghost predicate KeysSpaced(q: QState, ttl: int) {
    && (forall i :: 0 <= i < |q.accepted| ==> Remembered(q, ttl, q.accepted[i]))
    && (forall i, j :: 0 <= i < j < |q.accepted| && KeyOf(q.accepted[i].job) == KeyOf(q.accepted[j].job) ==>
          q.accepted[j].at - q.accepted[i].at > ttl as real)
  }

  /** Only `enqueue` touches the marks, the clock and the list of accepted jobs. */
  lemma OnlyEnqueueAccepts(cfg: Config, s: System, a: Action)
    requires Inv(s) && Enabled(s, a) && !a.Enqueue?
    ensures var t := Next(cfg, s, a).q;
            t.marks == s.q.marks && t.clock == s.q.clock && t.accepted == s.q.accepted
  {
    hide Inv, Enabled, Deliver, AfterHandler, AfterSentinels;
    match a
    case Drain =>
    case Stop => SentinelsTouchNothingElse(s.q, |s.workers|);
    case _ => var p, mine, others := WorkerEffect(cfg, s, a);
  }

  lemma MarkingRemembers(marks: Marks, q: QState, cfg: Config, job: Job, now: real, x: Acceptance)
    requires now >= q.clock && Remembered(q, cfg.ttl, x)
    ensures Remembered(Marked(cfg, q, job, now), cfg.ttl, x)
    ensures !SeenAnswer(q.marks, cfg.ttl, KeyOf(job), now) && KeyOf(job) == KeyOf(x.job) ==> now - x.at > cfg.ttl as real
  {
    hide KeyOf;
  }

  lemma AcceptedByEnqueue(cfg: Config, q: QState, job: Job, now: real)
    ensures var r := AfterEnqueue(cfg, q, job, now);
            && r.marks == Marked(cfg, q, job, now).marks && r.clock == now
            && r.accepted == q.accepted + if DecisionOn(cfg, q, job, now).Enqueued? then [Acceptance(job, now)] else []
  {
    hide AfterDropOldest, Accept, SeenMarks, SeenAnswer, KeyOf;
    var marked := Marked(cfg, q, job, now);
    DropOldestShape(marked);
    AcceptShape(MakeRoom(cfg, marked), job, now);
  }

  lemma EnqueueKeepsSpacing(cfg: Config, q: QState, job: Job, now: real)
    requires KeysSpaced(q, cfg.ttl) && now >= q.clock
    ensures KeysSpaced(AfterEnqueue(cfg, q, job, now), cfg.ttl)
  {
    hide AfterEnqueue, SeenMarks, SeenAnswer, KeyOf, Remembered;
    var marked := Marked(cfg, q, job, now);
    var r := AfterEnqueue(cfg, q, job, now);
    AcceptedByEnqueue(cfg, q, job, now);
    forall i | 0 <= i < |q.accepted|
      ensures Remembered(r, cfg.ttl, q.accepted[i])
      ensures DecisionOn(cfg, q, job, now).Enqueued? && KeyOf(q.accepted[i].job) == KeyOf(job) ==>
                now - q.accepted[i].at > cfg.ttl as real
    {
      MarkingRemembers(q.marks, q, cfg, job, now, q.accepted[i]);
      SameMarksRemember(marked, r, cfg.ttl, q.accepted[i]);
    }
    if DecisionOn(cfg, q, job, now).Enqueued? {
      FreshIsRemembered(cfg, q, job, now);
      SameMarksRemember(marked, r, cfg.ttl, Acceptance(job, now));
    }
  }

  lemma SameMarksRemember(q: QState, r: QState, ttl: int, x: Acceptance)
    requires Remembered(q, ttl, x) && r.marks == q.marks && r.clock == q.clock
    ensures Remembered(r, ttl, x)
  {
  }

  lemma FreshIsRemembered(cfg: Config, q: QState, job: Job, now: real)
    requires !SeenAnswer(q.marks, cfg.ttl, KeyOf(job), now)
    ensures Remembered(Marked(cfg, q, job, now), cfg.ttl, Acceptance(job, now))
  {
  }

  lemma {:induction false} SpacingAlongRun(cfg: Config, s: System, run: seq<Action>)
    requires Inv(s) && Runs(cfg, s, run) && KeysSpaced(s.q, cfg.ttl)
    ensures KeysSpaced(After(cfg, s, run).q, cfg.ttl)
    decreases |run|
  {
    hide Inv, KeysSpaced, AfterEnqueue, AfterDrain, AfterSentinels, Deliver, AfterHandler;
    if run != [] {
      var t := Next(cfg, s, run[0]);
      if run[0].Enqueue? {
        EnqueueKeepsSpacing(cfg, s.q, run[0].job, run[0].now);
      } else {
        OnlyEnqueueAccepts(cfg, s, run[0]);
        SameHistoryIsSpaced(s.q, t.q, cfg.ttl);
      }
      StepKeepsInv(cfg, s, run[0]);
      SpacingAlongRun(cfg, t, run[1..]);
    }
  }

  lemma SameHistoryIsSpaced(q: QState, r: QState, ttl: int)
    requires KeysSpaced(q, ttl) && r.marks == q.marks && r.clock == q.clock && r.accepted == q.accepted
    ensures KeysSpaced(r, ttl)
  {
    hide KeyOf;
  }

  /** In every run, two accepted jobs with the same deduplication key are more than `ttl` seconds apart. */
  lemma AcceptedKeysAreSpaced(cfg: Config, s0: System, run: seq<Action>, i: nat, j: nat)
    requires Reached(cfg, s0, run) && i < j < |After(cfg, s0, run).q.accepted|
    requires var acc := After(cfg, s0, run).q.accepted; KeyOf(acc[i].job) == KeyOf(acc[j].job)
    ensures var acc := After(cfg, s0, run).q.accepted; acc[j].at - acc[i].at > cfg.ttl as real
  {
    hide Inv, Enabled, Next, KeyOf;
    InitialInv(s0);
    SpacingAlongRun(cfg, s0, run);
  }

  // ---- Duplicates in the history of offers ----

  /** The queries that the first `k` steps of a run put to the duplicate filter. */
  function Offers(run: seq<Action>, k: nat): seq<Query>
    requires k <= |run|
  {
    if k == 0 then []
    else Offers(run, k - 1) + if run[k - 1].Enqueue? then [Query(KeyOf(run[k - 1].job), run[k - 1].now)] else []
  }

  /** An offer marks its key and sets the clock, whatever is decided on it. */
  lemma OfferMarks(cfg: Config, s: System, a: Action)
    requires a.Enqueue? && Enabled(s, a)
    ensures var t := Next(cfg, s, a).q;
            t.marks == SeenMarks(s.q.marks, cfg.ttl, KeyOf(a.job), a.now) && t.clock == a.now
  {
    hide AfterDropOldest, Accept, SeenMarks, SeenAnswer, KeyOf;
    var marked := Marked(cfg, s.q, a.job, a.now);
    DropOldestShape(marked);
    AcceptShape(MakeRoom(cfg, marked), a.job, a.now);
  }

  lemma MarksOfSnoc(queries: seq<Query>, q: Query, ttl: int)
    ensures MarksAfter(queries + [q], ttl) == SeenMarks(MarksAfter(queries, ttl), ttl, q.key, q.at)
  {
    assert (queries + [q])[..|queries|] == queries;
  }

  /** The queue's marks are those of a filter asked exactly the offers of the run, in order of time. */
  lemma {:induction false} MarksAreThoseOfTheOffers(cfg: Config, s0: System, run: seq<Action>, k: nat)
    requires Reached(cfg, s0, run) && k <= |run|
    ensures At(cfg, s0, run, k).q.marks == MarksAfter(Offers(run, k), cfg.ttl)
    ensures Deduplicators.InOrder(Offers(run, k))
    ensures forall i :: 0 <= i < |Offers(run, k)| ==> Offers(run, k)[i].at <= At(cfg, s0, run, k).q.clock
  {
    hide Inv, Next, Runs, SeenMarks, KeyOf, MarksAfter;
    if k > 0 {
      hide Initial;
      var s, a := At(cfg, s0, run, k - 1), run[k - 1];
      MarksAreThoseOfTheOffers(cfg, s0, run, k - 1);
      AtNext(cfg, s0, run, k - 1);
      if a.Enqueue? {
        OfferMarks(cfg, s, a);
        MarksOfSnoc(Offers(run, k - 1), Query(KeyOf(a.job), a.now), cfg.ttl);
      } else {
        ReachedInvAt(cfg, s0, run, k - 1);
        OnlyEnqueueAccepts(cfg, s, a);
        assert Offers(run, k) == Offers(run, k - 1);
      }
    } else {
      NoMarksYet(cfg.ttl);
    }
  }

  lemma NoMarksYet(ttl: int)
    ensures MarksAfter([], ttl) == map[]
  {
  }

  /** The offer of step `j` is query number |Offers(run, j)|. */
  lemma {:induction false} OfferIsQuery(run: seq<Action>, j: nat, k: nat)
    requires j < k <= |run| && run[j].Enqueue?
    ensures var i := |Offers(run, j)|;
            && i < |Offers(run, k)| && Offers(run, k)[..i] == Offers(run, j)
            && Offers(run, k)[i] == Query(KeyOf(run[j].job), run[j].now)
  {
    hide KeyOf;
    if j < k - 1 {
      OfferIsQuery(run, j, k - 1);
    }
  }

  lemma {:induction false} QueryIsOffer(run: seq<Action>, i: nat, k: nat) returns (j: nat)
    requires k <= |run| && i < |Offers(run, k)|
    ensures j < k && run[j].Enqueue? && |Offers(run, j)| == i
  {
    hide KeyOf;
    if i < |Offers(run, k - 1)| {
      j := QueryIsOffer(run, i, k - 1);
    } else {
      j := k - 1;
    }
  }

  /** Step `j` offered a job with this key that was not found to be a duplicate, at most `ttl` before `now`. */
  ghost predicate FreshOffer(cfg: Config, s0: System, run: seq<Action>, j: nat, key: string, now: real)
    requires Runs(cfg, s0, run) && j < |run|
  {
    && run[j].Enqueue? && KeyOf(run[j].job) == key && now - run[j].now <= cfg.ttl as real
    && !DecisionOn(cfg, At(cfg, s0, run, j).q, run[j].job, run[j].now).Duplicate?
  }

  /** What the queue decided on an offer is what the filter answered to the query. */
  lemma OfferIsAnswered(cfg: Config, s0: System, run: seq<Action>, j: nat, k: nat)
    requires Reached(cfg, s0, run) && j < k <= |run| && run[j].Enqueue? && |Offers(run, j)| < |Offers(run, k)|
    ensures Answer(Offers(run, k), cfg.ttl, |Offers(run, j)|)
            <==> DecisionOn(cfg, At(cfg, s0, run, j).q, run[j].job, run[j].now).Duplicate?
  {
    hide Runs, KeyOf, MarksAfter, Initial, SeenAnswer, Offers;
    MarksAreThoseOfTheOffers(cfg, s0, run, j);
    OfferIsQuery(run, j, k);
  }

  lemma FreshOfferIsQuery(cfg: Config, s0: System, run: seq<Action>, j: nat, k: nat, key: string, now: real)
    requires Reached(cfg, s0, run) && j < k <= |run| && run[j].Enqueue?
    requires |Offers(run, j)| < |Offers(run, k)|
    ensures FreshOffer(cfg, s0, run, j, key, now) <==> FreshWithin(Offers(run, k), cfg.ttl, |Offers(run, j)|, key, now)
  {
    hide Runs, KeyOf, MarksAfter, Initial, SeenAnswer, Offers, DecisionOn, Answer;
    OfferIsQuery(run, j, k);
    OfferIsAnswered(cfg, s0, run, j, k);
  }

  /** One more query, asked after the first `k` steps of the run. */
  lemma NextAnswer(cfg: Config, s0: System, run: seq<Action>, k: nat, job: Job, now: real)
    requires Reached(cfg, s0, run) && k <= |run| && now >= At(cfg, s0, run, k).q.clock
    ensures DecisionOn(cfg, At(cfg, s0, run, k).q, job, now).Duplicate?
            <==> exists i: nat :: i < |Offers(run, k)| && FreshWithin(Offers(run, k), cfg.ttl, i, KeyOf(job), now)
  {
    hide Runs, KeyOf, MarksAfter, Initial, SeenAnswer, Offers;
    var asked := Offers(run, k);
    var queries := asked + [Query(KeyOf(job), now)];
    MarksAreThoseOfTheOffers(cfg, s0, run, k);
    SeenMatchesHistory(queries, cfg.ttl, |asked|);
    assert queries[..|asked|] == asked;
    forall i: nat | i < |asked|
      ensures FreshWithin(queries, cfg.ttl, i, KeyOf(job), now) <==> FreshWithin(asked, cfg.ttl, i, KeyOf(job), now)
    {
      AnswerOfPrefix(queries, cfg.ttl, |asked|, i);
    }
  }

  /**
   Exactly when an offer is a duplicate: some earlier step of the run offered its key, not as a duplicate,
   at most `ttl` before. Whether that job was accepted or turned away makes no difference.
   */
  lemma DuplicateIff(cfg: Config, s0: System, run: seq<Action>, k: nat, job: Job, now: real)
    requires Reached(cfg, s0, run) && k <= |run| && now >= At(cfg, s0, run, k).q.clock
    ensures DecisionOn(cfg, At(cfg, s0, run, k).q, job, now).Duplicate?
            <==> exists j: nat :: j < k && FreshOffer(cfg, s0, run, j, KeyOf(job), now)
  {
    hide Runs, Initial, DecisionOn, KeyOf, Offers, FreshWithin, FreshOffer;
    var asked, key := Offers(run, k), KeyOf(job);
    NextAnswer(cfg, s0, run, k, job, now);
    if j: nat :| j < k && FreshOffer(cfg, s0, run, j, key, now) {
      FreshOfferIsOffer(cfg, s0, run, j, key, now);
      OfferIsQuery(run, j, k);
      FreshOfferIsQuery(cfg, s0, run, j, k, key, now);
      assert FreshWithin(asked, cfg.ttl, |Offers(run, j)|, key, now);
    }
    if i: nat :| i < |asked| && FreshWithin(asked, cfg.ttl, i, key, now) {
      var j := QueryIsOffer(run, i, k);
      FreshOfferIsQuery(cfg, s0, run, j, k, key, now);
      assert FreshOffer(cfg, s0, run, j, key, now);
    }
  }

  lemma FreshOfferIsOffer(cfg: Config, s0: System, run: seq<Action>, j: nat, key: string, now: real)
    requires Runs(cfg, s0, run) && j < |run| && FreshOffer(cfg, s0, run, j, key, now)
    ensures run[j].Enqueue?
  {
  }

  // ---- Which jobs are duplicates of each other ----

  /**
   Two jobs are one to the queue: their deduplication keys are equal, or, for a job whose key is missing or
   empty, its id takes the place of the key.
   */
  predicate Twins(a: Job, b: Job) {
    if a.dedupKey.Some? && a.dedupKey.value != "" then
      if b.dedupKey.Some? && b.dedupKey.value != "" then a.dedupKey == b.dedupKey else a.dedupKey.value == b.jobId
    else
      if b.dedupKey.Some? && b.dedupKey.value != "" then a.jobId == b.dedupKey.value else a.jobId == b.jobId
  }

  lemma TwinsShareKey(a: Job, b: Job)
    ensures KeyOf(a) == KeyOf(b) <==> Twins(a, b)
  {
  }

  /** Step `j` offered a twin of the job, not as a duplicate, at most `ttl` before `now`. */
  ghost predicate FreshTwin(cfg: Config, s0: System, run: seq<Action>, j: nat, job: Job, now: real)
    requires Runs(cfg, s0, run) && j < |run|
  {
    && run[j].Enqueue? && Twins(run[j].job, job) && now - run[j].now <= cfg.ttl as real
    && !DecisionOn(cfg, At(cfg, s0, run, j).q, run[j].job, run[j].now).Duplicate?
  }

  lemma FreshTwinIsFreshOffer(cfg: Config, s0: System, run: seq<Action>, j: nat, job: Job, now: real)
    requires Runs(cfg, s0, run) && j < |run|
    ensures FreshTwin(cfg, s0, run, j, job, now) <==> FreshOffer(cfg, s0, run, j, KeyOf(job), now)
  {
    hide KeyOf, Twins, DecisionOn, Runs, Enabled, Next;
    if run[j].Enqueue? {
      TwinsShareKey(run[j].job, job);
    }
  }

  /** The law of duplicates in terms of the jobs themselves. */
  lemma DuplicateIffTwin(cfg: Config, s0: System, run: seq<Action>, k: nat, job: Job, now: real)
    requires Reached(cfg, s0, run) && k <= |run| && now >= At(cfg, s0, run, k).q.clock
    ensures DecisionOn(cfg, At(cfg, s0, run, k).q, job, now).Duplicate?
            <==> exists j: nat :: j < k && FreshTwin(cfg, s0, run, j, job, now)
  {
    hide Runs, Initial, DecisionOn, KeyOf, FreshOffer, FreshTwin;
    DuplicateIff(cfg, s0, run, k, job, now);
    if j: nat :| j < k && FreshOffer(cfg, s0, run, j, KeyOf(job), now) {
      FreshTwinIsFreshOffer(cfg, s0, run, j, job, now);
      assert FreshTwin(cfg, s0, run, j, job, now);
    }
    if j: nat :| j < k && FreshTwin(cfg, s0, run, j, job, now) {
      FreshTwinIsFreshOffer(cfg, s0, run, j, job, now);
      assert FreshOffer(cfg, s0, run, j, KeyOf(job), now);
    }
  }

  /** The offer of step `j` was found to be new. */
  ghost predicate FoundNew(cfg: Config, s0: System, run: seq<Action>, j: nat)
    requires Runs(cfg, s0, run) && j < |run|
  {
    run[j].Enqueue? && !DecisionOn(cfg, At(cfg, s0, run, j).q, run[j].job, run[j].now).Duplicate?
  }

  /**
   When a job can be retried, above all one that was turned away because the queue was full: not within
   `ttl` of the offer that was found new, and, if no offer of its key was found new since, at any time after.
   */
  lemma RetryIsDuplicate(cfg: Config, s0: System, run: seq<Action>, k: nat, retry: Job, later: real)
    requires Reached(cfg, s0, run) && k < |run| && FoundNew(cfg, s0, run, k)
    requires KeyOf(retry) == KeyOf(run[k].job) && later >= After(cfg, s0, run).q.clock
    ensures later - run[k].now <= cfg.ttl as real ==> DecisionOn(cfg, After(cfg, s0, run).q, retry, later).Duplicate?
    ensures (forall j :: k < j < |run| && FoundNew(cfg, s0, run, j) ==> KeyOf(run[j].job) != KeyOf(retry)) ==>
              (DecisionOn(cfg, After(cfg, s0, run).q, retry, later).Duplicate? <==> later - run[k].now <= cfg.ttl as real)
  {
    hide Runs, Initial, DecisionOn, KeyOf, Enabled, Next;
    var n, key := |run|, KeyOf(retry);
    AtEnd(cfg, s0, run);
    AtNext(cfg, s0, run, k);
    OfferIsInTime(cfg, s0, run, k);
    ClockNeverGoesBack(cfg, s0, run, k + 1, n);
    DuplicateIff(cfg, s0, run, n, retry, later);
    DuplicateIff(cfg, s0, run, k, run[k].job, run[k].now);
    assert later - run[k].now <= cfg.ttl as real ==> FreshOffer(cfg, s0, run, k, key, later);
    if forall j :: k < j < |run| && FoundNew(cfg, s0, run, j) ==> KeyOf(run[j].job) != key {
      forall j: nat | j < n && j != k
        ensures !FreshOffer(cfg, s0, run, j, key, later)
      {
        if j < k {
          StaysExpired(cfg, s0, run, j, key, run[k].now, later);
        }
      }
    }
  }

  /** Step `k` is the only offer found new within `ttl` of `now`. */
  ghost predicate OnlyFresh(cfg: Config, s0: System, run: seq<Action>, k: nat, now: real)
    requires Runs(cfg, s0, run)
  {
    && k < |run| && FoundNew(cfg, s0, run, k) && now - run[k].now <= cfg.ttl as real
    && forall j :: 0 <= j < |run| && j != k && FoundNew(cfg, s0, run, j) ==> now - run[j].now > cfg.ttl as real
  }

  lemma OnlyTwinsMatter(cfg: Config, s0: System, run: seq<Action>, k: nat, job: Job, now: real)
    requires Reached(cfg, s0, run) && OnlyFresh(cfg, s0, run, k, now) && now >= After(cfg, s0, run).q.clock
    ensures DecisionOn(cfg, After(cfg, s0, run).q, job, now).Duplicate? <==> Twins(run[k].job, job)
  {
    hide Runs, Initial, DecisionOn, Twins, Next, Enabled;
    AtEnd(cfg, s0, run);
    DuplicateIffTwin(cfg, s0, run, |run|, job, now);
    forall j: nat | j < |run| && j != k
      ensures !FreshTwin(cfg, s0, run, j, job, now)
    {
      FreshTwinIsNew(cfg, s0, run, j, job, now);
    }
    assert FreshTwin(cfg, s0, run, k, job, now) <==> Twins(run[k].job, job);
  }

  lemma FreshTwinIsNew(cfg: Config, s0: System, run: seq<Action>, j: nat, job: Job, now: real)
    requires Runs(cfg, s0, run) && j < |run|
    ensures FreshTwin(cfg, s0, run, j, job, now) ==> FoundNew(cfg, s0, run, j) && now - run[j].now <= cfg.ttl as real
  {
  }

  /** Deduplication keys decide between jobs that have them, whatever the job ids. */
  lemma DedupKeysDecide(cfg: Config, s0: System, run: seq<Action>, k: nat, key1: string, job: Job, key2: string, now: real)
    requires Reached(cfg, s0, run) && OnlyFresh(cfg, s0, run, k, now) && now >= After(cfg, s0, run).q.clock
    requires run[k].job.dedupKey == Some(key1) && key1 != "" && job.dedupKey == Some(key2) && key2 != ""
    ensures DecisionOn(cfg, After(cfg, s0, run).q, job, now) == Duplicate <==> key1 == key2
  {
    hide Runs, Initial, DecisionOn, OnlyFresh;
    OnlyTwinsMatter(cfg, s0, run, k, job, now);
  }

  /** Job ids decide between jobs whose deduplication keys are missing or empty. */
  lemma JobIdsDecide(cfg: Config, s0: System, run: seq<Action>, k: nat, job: Job, now: real)
    requires Reached(cfg, s0, run) && OnlyFresh(cfg, s0, run, k, now) && now >= After(cfg, s0, run).q.clock
    requires run[k].job.dedupKey == None || run[k].job.dedupKey == Some("")
    requires job.dedupKey == None || job.dedupKey == Some("")
    ensures DecisionOn(cfg, After(cfg, s0, run).q, job, now) == Duplicate <==> run[k].job.jobId == job.jobId
  {
    hide Runs, Initial, DecisionOn, OnlyFresh;
    OnlyTwinsMatter(cfg, s0, run, k, job, now);
  }

  lemma StaysExpired(cfg: Config, s0: System, run: seq<Action>, j: nat, key: string, now: real, later: real)
    requires Runs(cfg, s0, run) && j < |run| && now <= later && !FreshOffer(cfg, s0, run, j, key, now)
    ensures !FreshOffer(cfg, s0, run, j, key, later)
  {
  }

  lemma OfferIsInTime(cfg: Config, s0: System, run: seq<Action>, k: nat)
    requires Runs(cfg, s0, run) && k < |run| && run[k].Enqueue?
    ensures run[k].now >= At(cfg, s0, run, k).q.clock
    ensures At(cfg, s0, run, k + 1).q.clock == run[k].now
  {
    hide Runs, Next;
    AtNext(cfg, s0, run, k);
    OfferMarks(cfg, At(cfg, s0, run, k), run[k]);
  }

  lemma {:induction false} ClockNeverGoesBack(cfg: Config, s0: System, run: seq<Action>, j: nat, k: nat)
    requires Reached(cfg, s0, run) && j <= k <= |run|
    ensures At(cfg, s0, run, j).q.clock <= At(cfg, s0, run, k).q.clock
  {
    hide Runs, Initial, Next, Inv, Enabled;
    if j < k {
      ClockNeverGoesBack(cfg, s0, run, j, k - 1);
      AtNext(cfg, s0, run, k - 1);
      if run[k - 1].Enqueue? {
        OfferIsInTime(cfg, s0, run, k - 1);
      } else {
        ReachedInvAt(cfg, s0, run, k - 1);
        OnlyEnqueueAccepts(cfg, At(cfg, s0, run, k - 1), run[k - 1]);
      }
    }
  }
}
