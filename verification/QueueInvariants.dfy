/**
 What every step of every interleaving of the queue and its workers keeps: where each item is, what the
 unfinished-task counters mean, what `_size` means, and what the statistics add up to.
 */
module QueueInvariants {
  import opened Basics
  import opened JobQueues
  import opened WorkerPools
  import opened StatsCollectors

  // ---- Items in the hands of the workers ----

  datatype Place = Taken | Held

  /** The item of queue `p` that a worker's getter has taken, or that the worker is handling. */
  function OwnedBy(w: Worker, place: Place, p: Priority): Option<Item> {
    match place
    case Taken => if w.phase.Waiting? && w.GetterOn(p).Done? then Some(w.GetterOn(p).item) else None
    case Held => if w.phase.Handling? && w.phase.job.priority == p then Some(Some(w.phase.job)) else None
  }

  function Bag(o: Option<Item>): multiset<Item> {
    match o
    case None => multiset{}
    case Some(x) => multiset{x}
  }

  function Gather(ws: seq<Worker>, place: Place, p: Priority): multiset<Item> {
    if ws == [] then multiset{} else Bag(OwnedBy(ws[0], place, p)) + Gather(ws[1..], place, p)
  }

  lemma {:induction false} GatherUpdate(ws: seq<Worker>, i: nat, w: Worker, place: Place, p: Priority, x: Item)
    requires i < |ws|
    ensures Gather(ws[i := w], place, p)[x] + Bag(OwnedBy(ws[i], place, p))[x]
            == Gather(ws, place, p)[x] + Bag(OwnedBy(w, place, p))[x]
  {
    if i > 0 {
      GatherUpdate(ws[1..], i - 1, w, place, p, x);
      assert ws[i := w][1..] == ws[1..][i - 1 := w];
    } else {
      assert ws[i := w][1..] == ws[1..];
    }
  }

  lemma {:induction false} GatherSizeUpdate(ws: seq<Worker>, i: nat, w: Worker, place: Place, p: Priority)
    requires i < |ws|
    ensures |Gather(ws[i := w], place, p)| + |Bag(OwnedBy(ws[i], place, p))|
            == |Gather(ws, place, p)| + |Bag(OwnedBy(w, place, p))|
  {
    if i > 0 {
      GatherSizeUpdate(ws[1..], i - 1, w, place, p);
      assert ws[i := w][1..] == ws[1..][i - 1 := w];
    } else {
      assert ws[i := w][1..] == ws[1..];
    }
  }

  lemma {:induction false} GatherNothing(ws: seq<Worker>, place: Place, p: Priority)
    requires forall i :: 0 <= i < |ws| ==> OwnedBy(ws[i], place, p).None?
    ensures Gather(ws, place, p) == multiset{}
  {
    if ws != [] {
      GatherNothing(ws[1..], place, p);
    }
  }

  function CountExited(ws: seq<Worker>): nat {
    if ws == [] then 0 else (if ws[0].phase.Exited? then 1 else 0) + CountExited(ws[1..])
  }

  lemma {:induction false} CountExitedUpdate(ws: seq<Worker>, i: nat, w: Worker)
    requires i < |ws|
    ensures CountExited(ws[i := w]) + (if ws[i].phase.Exited? then 1 else 0)
            == CountExited(ws) + if w.phase.Exited? then 1 else 0
  {
    if i > 0 {
      CountExitedUpdate(ws[1..], i - 1, w);
      assert ws[i := w][1..] == ws[1..][i - 1 := w];
    }
  }

  function CountProcessed(ws: seq<Worker>): nat {
    if ws == [] then 0 else ws[0].processed + CountProcessed(ws[1..])
  }

  lemma {:induction false} CountProcessedUpdate(ws: seq<Worker>, i: nat, w: Worker)
    requires i < |ws|
    ensures CountProcessed(ws[i := w]) + ws[i].processed == CountProcessed(ws) + w.processed
  {
    if i > 0 {
      CountProcessedUpdate(ws[1..], i - 1, w);
      assert ws[i := w][1..] == ws[1..][i - 1 := w];
    }
  }

  /** How many of the items are jobs rather than sentinels. */
  function JobCount(m: multiset<Item>): int {
    |m| - m[None]
  }

  // ---- The invariant of one queue ----

  ghost predicate Routed(p: Priority, x: Item) {
    match x
    case None => p.High?
    case Some(job) => job.priority == p
  }

  /** Every item that has left the queue has gone to exactly one place. */
  ghost predicate Accounts(log: Ledger, taken: multiset<Item>, held: multiset<Item>, x: Item) {
    multiset(log.left)[x]
    == taken[x] + held[x] + log.finished[x] + log.evicted[x] + log.drained[x] + log.abandoned[x]
  }

  ghost predicate InOrder(lane: Lane) {
    lane.log.put == lane.log.left + lane.chan.items
  }

  ghost predicate Counted(lane: Lane, taken: multiset<Item>, held: multiset<Item>) {
    lane.chan.unfinished == |lane.chan.items| + |taken| + |held| + |lane.log.abandoned|
  }

  ghost predicate LaneOk(p: Priority, lane: Lane, taken: multiset<Item>, held: multiset<Item>) {
    && InOrder(lane)
    && (forall x :: Accounts(lane.log, taken, held, x))
    && Counted(lane, taken, held)
    && AllRouted(p, lane.log.put)
  }

  ghost predicate LaneInv(s: System, p: Priority) {
    LaneOk(p, s.q.On(p), Gather(s.workers, Taken, p), Gather(s.workers, Held, p))
  }

  ghost predicate AllRouted(p: Priority, items: seq<Item>) {
    forall k :: 0 <= k < |items| ==> Routed(p, items[k])
  }

  ghost predicate WorkerInv(w: Worker) {
    && !w.phase.Crashed?
    && (w.alive <==> !w.phase.Exited?)
    && (w.phase.Waiting? && w.phase.high.Done? ==> Routed(High, w.phase.high.item))
    && (w.phase.Waiting? && w.phase.normal.Done? ==> Routed(Normal, w.phase.normal.item))
    && (w.phase.Handling? ==> w.lastQueue == Some(w.phase.job.priority))
  }

  ghost predicate AllWell(ws: seq<Worker>) {
    forall w :: 0 <= w < |ws| ==> WorkerInv(ws[w])
  }

  ghost predicate Inv(s: System) {
    && LaneInv(s, High)
    && LaneInv(s, Normal)
    && AllWell(s.workers)
    && s.q.size >= 0
    && s.q.high.log.finished[None] == CountExited(s.workers)
    && multiset(s.q.high.log.put)[None] == if s.stopped then |s.workers| else 0
  }

  lemma InitialInv(s: System)
    requires Initial(s)
    ensures Inv(s)
  {
    NobodyExited(s.workers);
    EmptyLaneOk(s.workers, High);
    EmptyLaneOk(s.workers, Normal);
  }

  lemma EmptyLaneOk(ws: seq<Worker>, p: Priority)
    requires forall w :: 0 <= w < |ws| ==> ws[w] == FRESH_WORKER
    ensures LaneOk(p, EMPTY_LANE, Gather(ws, Taken, p), Gather(ws, Held, p))
  {
    GatherNothing(ws, Taken, p);
    GatherNothing(ws, Held, p);
  }

  lemma {:induction false} NobodyExited(ws: seq<Worker>)
    requires forall w :: 0 <= w < |ws| ==> !ws[w].phase.Exited?
    ensures CountExited(ws) == 0
  {
    if ws != [] {
      NobodyExited(ws[1..]);
    }
  }

  // ---- Every step keeps the invariant ----

  lemma HeadTail(items: seq<Item>)
    requires items != []
    ensures items == [items[0]] + items[1..]
  {
  }

  lemma PutKeeps(p: Priority, lane: Lane, taken: multiset<Item>, held: multiset<Item>, x: Item)
    requires LaneOk(p, lane, taken, held) && Routed(p, x)
    ensures LaneOk(p, lane.Put(x), taken, held)
  {
    assert lane.log.left + (lane.chan.items + [x]) == lane.log.left + lane.chan.items + [x];
    forall y
      ensures Accounts(lane.Put(x).log, taken, held, y)
    {
      assert Accounts(lane.log, taken, held, y);
    }
  }

  lemma EvictKeeps(p: Priority, lane: Lane, taken: multiset<Item>, held: multiset<Item>)
    requires LaneOk(p, lane, taken, held) && lane.chan.items != []
    ensures LaneOk(p, lane.Evict(), taken, held)
  {
    var items := lane.chan.items;
    HeadTail(items);
    assert lane.log.left + items == lane.log.left + [items[0]] + items[1..];
    forall y
      ensures Accounts(lane.Evict().log, taken, held, y)
    {
      assert Accounts(lane.log, taken, held, y);
    }
  }

  lemma DrainKeeps(p: Priority, lane: Lane, taken: multiset<Item>, held: multiset<Item>)
    requires LaneOk(p, lane, taken, held)
    ensures LaneOk(p, lane.Drained(), taken, held)
  {
    forall y
      ensures Accounts(lane.Drained().log, taken, held, y)
    {
      assert Accounts(lane.log, taken, held, y);
    }
  }

  /** What a worker step does to one queue: the oldest item may leave, an item may finish or be abandoned. */
  datatype Move = Move(popped: Option<Item>, finished: Option<Item>, abandoned: Option<Item>)

  const NO_MOVE := Move(None, None, None)

  predicate CanMove(lane: Lane, m: Move) {
    && (m.popped.Some? ==> lane.chan.items != [] && m.popped.value == lane.chan.items[0])
    && (m.finished.Some? ==> lane.chan.unfinished > 0)
  }

  function Moved(lane: Lane, m: Move): Lane
    requires CanMove(lane, m)
  {
    var l1 := if m.popped.Some? then lane.Take() else lane;
    var l2 := if m.finished.Some? then l1.Finish(m.finished.value) else l1;
    if m.abandoned.Some? then l2.Abandon(m.abandoned.value) else l2
  }

  /** What the workers gave up, or the queue lost, is exactly what the workers now have, finished or abandoned. */
  ghost predicate BalancedAt(taken: multiset<Item>, held: multiset<Item>, taken': multiset<Item>, held': multiset<Item>,
                             m: Move, x: Item)
  {
    && Bag(m.popped)[x] + taken[x] + held[x] == taken'[x] + held'[x] + Bag(m.finished)[x] + Bag(m.abandoned)[x]
    && |Bag(m.popped)| + |taken| + |held| == |taken'| + |held'| + |Bag(m.finished)| + |Bag(m.abandoned)|
  }

  ghost predicate Balanced(taken: multiset<Item>, held: multiset<Item>, taken': multiset<Item>, held': multiset<Item>,
                           m: Move)
  {
    forall x: Item :: BalancedAt(taken, held, taken', held', m, x)
  }

  /** The change of one worker, as far as queue `p` is concerned. */
  ghost predicate WorkerBalanced(p: Priority, before: Worker, after: Worker, m: Move) {
    Balanced(Bag(OwnedBy(before, Taken, p)), Bag(OwnedBy(before, Held, p)),
             Bag(OwnedBy(after, Taken, p)), Bag(OwnedBy(after, Held, p)), m)
  }

  lemma MoveKeepsOrder(lane: Lane, m: Move)
    requires InOrder(lane) && CanMove(lane, m)
    ensures InOrder(Moved(lane, m)) && Moved(lane, m).log.put == lane.log.put
  {
    if m.popped.Some? {
      HeadTail(lane.chan.items);
      assert lane.log.left + lane.chan.items == lane.log.left + [lane.chan.items[0]] + lane.chan.items[1..];
    }
  }

  lemma MoveKeepsAccounts(lane: Lane, taken: multiset<Item>, held: multiset<Item>,
                          m: Move, taken': multiset<Item>, held': multiset<Item>, x: Item)
    requires Accounts(lane.log, taken, held, x) && CanMove(lane, m)
    requires BalancedAt(taken, held, taken', held', m, x)
    ensures Accounts(Moved(lane, m).log, taken', held', x)
  {
    var log := Moved(lane, m).log;
    assert multiset(log.left)[x] == multiset(lane.log.left)[x] + Bag(m.popped)[x];
    assert log.finished[x] == lane.log.finished[x] + Bag(m.finished)[x];
    assert log.abandoned[x] == lane.log.abandoned[x] + Bag(m.abandoned)[x];
  }

  lemma MoveKeepsCount(lane: Lane, taken: multiset<Item>, held: multiset<Item>,
                       m: Move, taken': multiset<Item>, held': multiset<Item>)
    requires Counted(lane, taken, held) && CanMove(lane, m)
    requires BalancedAt(taken, held, taken', held', m, None)
    ensures Counted(Moved(lane, m), taken', held')
  {
    var after := Moved(lane, m);
    assert |after.chan.items| == |lane.chan.items| - |Bag(m.popped)|;
    assert |after.log.abandoned| == |lane.log.abandoned| + |Bag(m.abandoned)|;
    assert after.chan.unfinished == lane.chan.unfinished - |Bag(m.finished)|;
  }

  lemma MoveKeeps(p: Priority, lane: Lane, taken: multiset<Item>, held: multiset<Item>,
                  m: Move, taken': multiset<Item>, held': multiset<Item>)
    requires LaneOk(p, lane, taken, held) && CanMove(lane, m)
    requires Balanced(taken, held, taken', held', m)
    ensures LaneOk(p, Moved(lane, m), taken', held')
  {
    MoveKeepsOrder(lane, m);
    forall x
      ensures Accounts(Moved(lane, m).log, taken', held', x)
    {
      assert BalancedAt(taken, held, taken', held', m, x);
      MoveKeepsAccounts(lane, taken, held, m, taken', held', x);
    }
    assert BalancedAt(taken, held, taken', held', m, None);
    MoveKeepsCount(lane, taken, held, m, taken', held');
  }

  /** A balanced change of one worker is a balanced change of the pool. */
  lemma GatherBalance(ws: seq<Worker>, i: nat, w: Worker, p: Priority, m: Move)
    requires i < |ws| && WorkerBalanced(p, ws[i], w, m)
    ensures Balanced(Gather(ws, Taken, p), Gather(ws, Held, p), Gather(ws[i := w], Taken, p), Gather(ws[i := w], Held, p), m)
  {
    var after := ws[i := w];
    forall x: Item
      ensures BalancedAt(Gather(ws, Taken, p), Gather(ws, Held, p),
                         Gather(after, Taken, p), Gather(after, Held, p), m, x)
    {
      assert BalancedAt(Bag(OwnedBy(ws[i], Taken, p)), Bag(OwnedBy(ws[i], Held, p)),
                        Bag(OwnedBy(w, Taken, p)), Bag(OwnedBy(w, Held, p)), m, x);
      GatherUpdate(ws, i, w, Taken, p, x);
      GatherUpdate(ws, i, w, Held, p, x);
      GatherSizeUpdate(ws, i, w, Taken, p);
      GatherSizeUpdate(ws, i, w, Held, p);
    }
  }

  /** The one lemma behind all worker steps, for each of the two queues. */
  lemma WorkerMoveKeeps(ws: seq<Worker>, i: nat, w: Worker, p: Priority, lane: Lane, m: Move)
    requires i < |ws| && CanMove(lane, m)
    requires LaneOk(p, lane, Gather(ws, Taken, p), Gather(ws, Held, p))
    requires WorkerBalanced(p, ws[i], w, m)
    ensures LaneOk(p, Moved(lane, m), Gather(ws[i := w], Taken, p), Gather(ws[i := w], Held, p))
  {
    hide LaneOk, Gather, Balanced, Moved;
    GatherBalance(ws, i, w, p, m);
    MoveKeeps(p, lane, Gather(ws, Taken, p), Gather(ws, Held, p), m,
              Gather(ws[i := w], Taken, p), Gather(ws[i := w], Held, p));
  }

  /** What has been put is routed, so the items in the queue are. */
  lemma QueuedIsRouted(p: Priority, lane: Lane)
    requires InOrder(lane) && AllRouted(p, lane.log.put)
    ensures AllRouted(p, lane.chan.items)
  {
    forall k | 0 <= k < |lane.chan.items|
      ensures Routed(p, lane.chan.items[k])
    {
      assert lane.log.put[|lane.log.left| + k] == lane.chan.items[k];
    }
  }

  /** An item in the hands of a worker is an unfinished task. */
  lemma {:induction false} OwnedIsGathered(ws: seq<Worker>, i: nat, place: Place, p: Priority)
    requires i < |ws|
    ensures |Bag(OwnedBy(ws[i], place, p))| <= |Gather(ws, place, p)|
  {
    if i > 0 {
      OwnedIsGathered(ws[1..], i - 1, place, p);
    }
  }

  lemma OwnedCanFinish(s: System, i: nat, place: Place, p: Priority)
    requires Inv(s) && i < |s.workers| && OwnedBy(s.workers[i], place, p).Some?
    ensures s.q.On(p).chan.unfinished > 0
  {
    hide AllRouted, InOrder, Accounts, OwnedBy;
    OwnedIsGathered(s.workers, i, place, p);
    assert LaneInv(s, p);
  }

  lemma QueuedCanFinish(s: System, p: Priority)
    requires Inv(s) && s.q.On(p).chan.items != []
    ensures s.q.On(p).chan.unfinished > 0
  {
    hide AllRouted, InOrder, Accounts, Gather;
    assert LaneInv(s, p);
  }

  lemma HeadIsRouted(s: System, p: Priority)
    requires Inv(s) && s.q.On(p).chan.items != []
    ensures Routed(p, s.q.On(p).chan.items[0])
  {
    hide Gather, CountExited;
    assert LaneInv(s, p);
    QueuedIsRouted(p, s.q.On(p));
  }

  lemma MovedLog(lane: Lane, m: Move)
    requires CanMove(lane, m)
    ensures Moved(lane, m).log.put == lane.log.put
    ensures Moved(lane, m).log.finished[None] == lane.log.finished[None] + if m.finished == Some(None) then 1 else 0
  {
  }

  /** The worker goes on with an item it got from queue `p`. */
  ghost predicate Received(before: Worker, after: Worker, p: Priority, item: Option<Item>) {
    match item
    case None => false
    case Some(None) => p.High? && after == before.(phase := Exited, alive := false, lastQueue := Some(p))
    case Some(Some(job)) => job.priority == p && after == before.(phase := Handling(job), lastQueue := Some(p))
  }

  /** The five kinds of worker step, with the items each moves on queue `p` and on the other queue. */
  ghost predicate IsStep(a: Action, before: Worker, after: Worker, p: Priority, mine: Move, others: Move) {
    match a
    case StartWait(_) => before.phase.Ready? && after.phase == Waiting(Pending, Pending) && mine == others == NO_MOVE
    case GetNow(_) =>
      && before.phase.Ready? && Received(before, after, p, mine.popped)
      && mine == Move(mine.popped, if mine.popped == Some(None) then mine.popped else None, None)
      && others == NO_MOVE
    case Take(_, lane) =>
      && p == lane && before.phase.Waiting? && before.GetterOn(p).Pending? && mine.popped.Some?
      && after == before.WithGetter(p, Done(mine.popped.value))
      && mine == Move(mine.popped, None, None) && others == NO_MOVE
    case Resume(_, lane) =>
      && p == lane && before.phase.Waiting? && before.GetterOn(p).Done? && Received(before, after, p, Some(before.GetterOn(p).item))
      && mine == Move(None, if before.GetterOn(p).item.None? then Some(None) else None, None)
      && others == Move(None, None, OwnedBy(before, Taken, Other(p)))
    case Finish(_, _, _) =>
      && before.phase.Handling? && before.phase.job.priority == p && after.phase.Ready?
      && mine == Move(None, Some(Some(before.phase.job)), None) && others == NO_MOVE
    case _ => false
  }

  function Or(a: Option<Item>, b: Option<Item>): Option<Item> {
    if a.Some? then a else b
  }

  ghost predicate OneAtMost(a: Option<Item>, b: Option<Item>) {
    a.None? || b.None?
  }

  /** At most one item is in play, and it goes from one place to one place. */
  ghost predicate OneItemMoves(p: Priority, before: Worker, after: Worker, m: Move) {
    var t, h, t', h' := OwnedBy(before, Taken, p), OwnedBy(before, Held, p), OwnedBy(after, Taken, p), OwnedBy(after, Held, p);
    && OneAtMost(t, h) && OneAtMost(m.popped, Or(t, h))
    && OneAtMost(t', h') && OneAtMost(m.finished, m.abandoned) && OneAtMost(Or(t', h'), Or(m.finished, m.abandoned))
    && Or(m.popped, Or(t, h)) == Or(Or(t', h'), Or(m.finished, m.abandoned))
  }

  lemma BagOr(a: Option<Item>, b: Option<Item>, x: Item)
    requires OneAtMost(a, b)
    ensures Bag(Or(a, b))[x] == Bag(a)[x] + Bag(b)[x]
    ensures |Bag(Or(a, b))| == |Bag(a)| + |Bag(b)|
  {
  }

  lemma OneItemBalances(p: Priority, before: Worker, after: Worker, m: Move)
    requires OneItemMoves(p, before, after, m)
    ensures WorkerBalanced(p, before, after, m)
  {
    hide OwnedBy, Bag, Or, OneAtMost;
    var t, h, t', h' := OwnedBy(before, Taken, p), OwnedBy(before, Held, p), OwnedBy(after, Taken, p), OwnedBy(after, Held, p);
    forall x: Item
      ensures BalancedAt(Bag(t), Bag(h), Bag(t'), Bag(h'), m, x)
    {
      BagOr(t, h, x);
      BagOr(m.popped, Or(t, h), x);
      BagOr(t', h', x);
      BagOr(m.finished, m.abandoned, x);
      BagOr(Or(t', h'), Or(m.finished, m.abandoned), x);
    }
  }

  /** Each kind of worker step moves items in a balanced way, on either queue. */
  lemma StepBalances(a: Action, before: Worker, after: Worker, p: Priority, mine: Move, others: Move)
    requires IsStep(a, before, after, p, mine, others)
    ensures WorkerBalanced(p, before, after, mine)
    ensures WorkerBalanced(Other(p), before, after, others)
  {
    hide WorkerBalanced;
    OneItemBalances(p, before, after, mine);
    OneItemBalances(Other(p), before, after, others);
  }

  /**
   What a worker step does to the whole system: worker `w` changes, items move on queue `p` and on the
   other queue, `_size` goes down when `get` returned, and a finished handler is reported.
   */
  ghost predicate Effect(s: System, t: System, a: Action, p: Priority, mine: Move, others: Move)
    requires a.ByWorker()
  {
    && a.w < |s.workers| == |t.workers|
    && t == System(t.q, s.workers[a.w := t.workers[a.w]], s.stopped)
    && WorkerInv(t.workers[a.w])
    && t.workers[a.w].processed == s.workers[a.w].processed + (if a.Finish? then 1 else 0)
    && IsStep(a, s.workers[a.w], t.workers[a.w], p, mine, others)
    && CanMove(s.q.On(p), mine) && CanMove(s.q.On(Other(p)), others)
    && t.q.On(p) == Moved(s.q.On(p), mine) && t.q.On(Other(p)) == Moved(s.q.On(Other(p)), others)
    && t.q == s.q.(high := t.q.high, normal := t.q.normal, size := t.q.size, stats := t.q.stats)
    && t.q.size == (if a.GetNow? || a.Resume? then Max(0, s.q.size - 1) else s.q.size)
    && t.q.stats == (if a.Finish? && s.q.stats.Some?
                     then Some(s.q.stats.value.Dispatched(a.elapsedMs, a.failed)) else s.q.stats)
    && (others.abandoned.Some? <==> FinishesBoth(s, a))
  }

  /** The worker resumes after both of its getters have completed. */
  predicate FinishesBoth(s: System, a: Action) {
    a.Resume? && a.w < |s.workers| && s.workers[a.w].phase.Waiting?
    && s.workers[a.w].phase.high.Done? && s.workers[a.w].phase.normal.Done?
  }

  lemma WorkerIsWell(s: System, w: nat)
    requires Inv(s) && w < |s.workers|
    ensures WorkerInv(s.workers[w])
  {
    hide LaneInv, CountExited, WorkerInv;
  }

  lemma FinishEffect(cfg: Config, s: System, a: Action) returns (p: Priority, mine: Move, others: Move)
    requires Inv(s) && Enabled(s, a) && a.Finish?
    ensures Effect(s, Next(cfg, s, a), a, p, mine, others)
  {
    hide Inv;
    var job := s.workers[a.w].phase.job;
    WorkerIsWell(s, a.w);
    OwnedCanFinish(s, a.w, Held, job.priority);
    p, mine, others := job.priority, Move(None, Some(Some(job)), None), NO_MOVE;
  }

  lemma StartWaitEffect(cfg: Config, s: System, a: Action) returns (p: Priority, mine: Move, others: Move)
    requires Inv(s) && Enabled(s, a) && a.StartWait?
    ensures Effect(s, Next(cfg, s, a), a, p, mine, others)
  {
    hide Inv;
    WorkerIsWell(s, a.w);
    p, mine, others := High, NO_MOVE, NO_MOVE;
  }

  lemma TakeEffect(cfg: Config, s: System, a: Action) returns (p: Priority, mine: Move, others: Move)
    requires Inv(s) && Enabled(s, a) && a.Take?
    ensures Effect(s, Next(cfg, s, a), a, p, mine, others)
  {
    hide Inv;
    p := a.lane;
    HeadIsRouted(s, p);
    WorkerIsWell(s, a.w);
    mine, others := Move(Some(s.q.On(p).chan.items[0]), None, None), NO_MOVE;
  }

  lemma GetNowEffect(cfg: Config, s: System, a: Action) returns (p: Priority, mine: Move, others: Move)
    requires Inv(s) && Enabled(s, a) && a.GetNow?
    ensures Effect(s, Next(cfg, s, a), a, p, mine, others)
  {
    hide Inv;
    p := FastLane(s.q);
    var x := s.q.On(p).chan.items[0];
    HeadIsRouted(s, p);
    QueuedCanFinish(s, p);
    WorkerIsWell(s, a.w);
    mine, others := Move(Some(x), if x.None? then Some(x) else None, None), NO_MOVE;
  }

  lemma ResumeEffect(cfg: Config, s: System, a: Action) returns (p: Priority, mine: Move, others: Move)
    requires Inv(s) && Enabled(s, a) && a.Resume?
    ensures Effect(s, Next(cfg, s, a), a, p, mine, others)
  {
    hide Inv;
    p := a.lane;
    var worker := s.workers[a.w];
    var x := worker.GetterOn(p).item;
    WorkerIsWell(s, a.w);
    OwnedCanFinish(s, a.w, Taken, p);
    mine := Move(None, if x.None? then Some(x) else None, None);
    others := Move(None, None, OwnedBy(worker, Taken, Other(p)));
  }

  lemma WorkerEffect(cfg: Config, s: System, a: Action) returns (p: Priority, mine: Move, others: Move)
    requires Inv(s) && Enabled(s, a) && a.ByWorker()
    ensures Effect(s, Next(cfg, s, a), a, p, mine, others)
  {
    hide Inv, Enabled, Next, Effect;
    match a
    case Finish(_, _, _) => p, mine, others := FinishEffect(cfg, s, a);
    case StartWait(_) => p, mine, others := StartWaitEffect(cfg, s, a);
    case Take(_, _) => p, mine, others := TakeEffect(cfg, s, a);
    case GetNow(_) => p, mine, others := GetNowEffect(cfg, s, a);
    case Resume(_, _) => p, mine, others := ResumeEffect(cfg, s, a);
  }

  lemma EffectKeepsInv(s: System, t: System, a: Action, p: Priority, mine: Move, others: Move)
    requires Inv(s) && a.ByWorker() && Effect(s, t, a, p, mine, others)
    ensures Inv(t)
  {
    hide LaneOk, Gather, CountExited, WorkerBalanced, Moved, CanMove, WorkerInv, FinishesBoth;
    var w := t.workers[a.w];
    StepBalances(a, s.workers[a.w], w, p, mine, others);
    MovedLog(s.q.On(p), mine);
    MovedLog(s.q.On(Other(p)), others);
    WorkerMoveKeeps(s.workers, a.w, w, p, s.q.On(p), mine);
    WorkerMoveKeeps(s.workers, a.w, w, Other(p), s.q.On(Other(p)), others);
    CountExitedUpdate(s.workers, a.w, w);
    assert LaneInv(t, p) && LaneInv(t, Other(p));
  }

  lemma {:induction false} SentinelsKeep(q: QState, n: nat, taken: multiset<Item>, held: multiset<Item>)
    requires LaneOk(High, q.high, taken, held)
    ensures var r := AfterSentinels(q, n);
            && r == q.(high := r.high)
            && LaneOk(High, r.high, taken, held)
            && r.high.log == q.high.log.(put := r.high.log.put)
            && multiset(r.high.log.put)[None] == multiset(q.high.log.put)[None] + n
  {
    hide LaneOk;
    if n > 0 {
      SentinelsKeep(q, n - 1, taken, held);
      PutKeeps(High, AfterSentinels(q, n - 1).high, taken, held, None);
    }
  }

  lemma DropOldestKeeps(s: System)
    requires Inv(s)
    ensures Inv(s.(q := AfterDropOldest(s.q)))
  {
    hide LaneOk, Gather, CountExited;
    if s.q.normal.chan.items != [] {
      EvictKeeps(Normal, s.q.normal, Gather(s.workers, Taken, Normal), Gather(s.workers, Held, Normal));
    } else if s.q.high.chan.items != [] {
      EvictKeeps(High, s.q.high, Gather(s.workers, Taken, High), Gather(s.workers, Held, High));
    }
  }

  lemma AcceptKeeps(s: System, job: Job, now: real)
    requires Inv(s)
    ensures Inv(s.(q := Accept(s.q, job, now)))
  {
    hide LaneOk, Gather, CountExited;
    var p := job.priority;
    PutKeeps(p, s.q.On(p), Gather(s.workers, Taken, p), Gather(s.workers, Held, p), Some(job));
    var t := s.(q := Accept(s.q, job, now));
    assert LaneInv(t, p) && LaneInv(t, Other(p));
  }

  lemma EnqueueKeeps(cfg: Config, s: System, job: Job, now: real)
    requires Inv(s)
    ensures Inv(s.(q := AfterEnqueue(cfg, s.q, job, now)))
  {
    hide LaneOk, Gather, CountExited;
    var marked := s.(q := Marked(cfg, s.q, job, now));
    assert Inv(marked);
    if DecisionOn(cfg, s.q, job, now).Enqueued? {
      if s.q.size >= cfg.maxSize {
        DropOldestKeeps(marked);
        AcceptKeeps(marked.(q := AfterDropOldest(marked.q)), job, now);
      } else {
        AcceptKeeps(marked, job, now);
      }
    }
  }

  lemma DrainAllKeeps(s: System)
    requires Inv(s)
    ensures Inv(s.(q := AfterDrain(s.q)))
  {
    hide LaneOk, Gather, CountExited;
    DrainKeeps(High, s.q.high, Gather(s.workers, Taken, High), Gather(s.workers, Held, High));
    DrainKeeps(Normal, s.q.normal, Gather(s.workers, Taken, Normal), Gather(s.workers, Held, Normal));
  }

  lemma StopKeeps(cfg: Config, s: System)
    requires Inv(s) && Enabled(s, Stop)
    ensures Inv(Next(cfg, s, Stop))
  {
    hide LaneOk, Gather, CountExited;
    SentinelsKeep(s.q, |s.workers|, Gather(s.workers, Taken, High), Gather(s.workers, Held, High));
  }

  lemma StepKeepsInv(cfg: Config, s: System, a: Action)
    requires Inv(s) && Enabled(s, a)
    ensures Inv(Next(cfg, s, a))
  {
    hide Inv, Effect, AfterEnqueue, AfterDrain, AfterSentinels, Deliver, AfterHandler;
    match a
    case Enqueue(job, now) => EnqueueKeeps(cfg, s, job, now);
    case Drain => DrainAllKeeps(s);
    case Stop => StopKeeps(cfg, s);
    case _ =>
      var p, mine, others := WorkerEffect(cfg, s, a);
      EffectKeepsInv(s, Next(cfg, s, a), a, p, mine, others);
  }

  lemma {:induction false} RunKeepsInv(cfg: Config, s: System, run: seq<Action>)
    requires Inv(s) && Runs(cfg, s, run)
    ensures Inv(After(cfg, s, run))
    decreases |run|
  {
    hide Inv, Next, Enabled;
    if run != [] {
      StepKeepsInv(cfg, s, run[0]);
      RunKeepsInv(cfg, Next(cfg, s, run[0]), run[1..]);
    }
  }
}
