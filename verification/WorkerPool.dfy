/**
 The workers of app/core/worker.py over the job queue, as a step machine. A step is what runs between two
 suspension points: `enqueue`, `drain`, `stop` and the non-waiting `get` are one step each, while a
 waiting `get` is split into starting the two getter tasks, a getter taking an item, and the worker
 resuming with a winner.
 */
module WorkerPools {
  import opened Basics
  import opened JobQueues
  import opened StatsCollectors

  /** A getter task: still waiting, or completed and holding the item it took. */
  datatype Getter = Pending | Done(item: Item)

  datatype Phase =
    | Ready                                  // about to call get
    | Waiting(high: Getter, normal: Getter)  // suspended in asyncio.wait inside get
    | Handling(job: Job)                     // suspended in the handler
    | Exited                                 // left the loop on a sentinel
    | Crashed                                // task_done raised ValueError

  /** One worker: where its coroutine stands, its view of `_last_queue`, and its status record. */
  datatype Worker = Worker(phase: Phase, lastQueue: Option<Priority>, processed: nat, alive: bool) {
    function GetterOn(p: Priority): Getter
      requires phase.Waiting?
    {
      if p.High? then phase.high else phase.normal
    }

    function WithGetter(p: Priority, g: Getter): Worker
      requires phase.Waiting?
    {
      this.(phase := if p.High? then Waiting(g, phase.normal) else Waiting(phase.high, g))
    }
  }

  const FRESH_WORKER := Worker(Ready, None, 0, true)

  function Other(p: Priority): Priority {
    if p.High? then Normal else High
  }

  datatype System = System(q: QState, workers: seq<Worker>, stopped: bool) {
    function Update(w: nat, worker: Worker): System
      requires w < |workers|
    {
      this.(workers := workers[w := worker])
    }
  }

  datatype Action =
    | Enqueue(job: Job, now: real)
    | Drain
    | Stop
    | GetNow(w: nat)
    | StartWait(w: nat)
    | Take(w: nat, lane: Priority)
    | Resume(w: nat, lane: Priority)
    | Finish(w: nat, failed: bool, elapsedMs: real)
  {
    /** A step of a worker or of one of its getter tasks. */
    predicate ByWorker() {
      GetNow? || StartWait? || Take? || Resume? || Finish?
    }
  }

  predicate Enabled(s: System, a: Action) {
    match a
    case Enqueue(_, now) => now >= s.q.clock
    case Drain => true
    case Stop => !s.stopped
    case GetNow(w) => w < |s.workers| && s.workers[w].phase.Ready? && !s.q.Idle()
    case StartWait(w) => w < |s.workers| && s.workers[w].phase.Ready? && s.q.Idle()
    case Take(w, p) =>
      && w < |s.workers| && s.workers[w].phase.Waiting?
      && s.workers[w].GetterOn(p).Pending? && s.q.On(p).chan.items != []
    case Resume(w, p) =>
      w < |s.workers| && s.workers[w].phase.Waiting? && s.workers[w].GetterOn(p).Done?
    case Finish(w, _, _) => w < |s.workers| && s.workers[w].phase.Handling?
  }

  /** `get` has returned `item`, read from queue `p`, to worker `w`. */
  function Deliver(s: System, w: nat, p: Priority, item: Item): System
    requires w < |s.workers|
  {
    var worker := s.workers[w].(lastQueue := Some(p));
    match item
    case Some(job) => s.Update(w, worker.(phase := Handling(job)))
    case None =>
      if s.q.On(p).chan.unfinished == 0 then s.Update(w, worker.(phase := Crashed))
      else s.(q := s.q.With(p, s.q.On(p).Finish(None))).Update(w, worker.(phase := Exited, alive := false))
  }

  /** The item of a getter that lost although it had completed is dropped on the floor. */
  function AbandonLoser(q: QState, loser: Priority, g: Getter): QState {
    match g
    case Pending => q
    case Done(x) => q.With(loser, q.On(loser).Abandon(x))
  }

  function AfterHandler(s: System, w: nat, job: Job, failed: bool, elapsedMs: real): System
    requires w < |s.workers|
  {
    var q := s.q.NoteDispatch(elapsedMs, failed);
    var worker := s.workers[w].(processed := s.workers[w].processed + 1);
    var p := job.priority;
    if q.On(p).chan.unfinished == 0 then s.(q := q).Update(w, worker.(phase := Crashed))
    else s.(q := q.With(p, q.On(p).Finish(Some(job)))).Update(w, worker.(phase := Ready))
  }

  function Next(cfg: Config, s: System, a: Action): System
    requires Enabled(s, a)
  {
    match a
    case Enqueue(job, now) => s.(q := AfterEnqueue(cfg, s.q, job, now))
    case Drain => s.(q := AfterDrain(s.q))
    case Stop => s.(q := AfterSentinels(s.q, |s.workers|), stopped := true)
    case GetNow(w) =>
      var p := FastLane(s.q);
      Deliver(s.(q := AfterTake(s.q, p).Shrunk()), w, p, s.q.On(p).chan.items[0])
    case StartWait(w) => s.Update(w, s.workers[w].(phase := Waiting(Pending, Pending)))
    case Take(w, p) =>
      s.(q := AfterTake(s.q, p)).Update(w, s.workers[w].WithGetter(p, Done(s.q.On(p).chan.items[0])))
    case Resume(w, p) =>
      var worker := s.workers[w];
      var q := AbandonLoser(s.q, Other(p), worker.GetterOn(Other(p))).Shrunk();
      Deliver(s.(q := q), w, p, worker.GetterOn(p).item)
    case Finish(w, failed, elapsedMs) => AfterHandler(s, w, s.workers[w].phase.job, failed, elapsedMs)
  }

  // ---- Runs ----

  ghost predicate Runs(cfg: Config, s: System, run: seq<Action>)
    decreases |run|
  {
    run == [] || (Enabled(s, run[0]) && Runs(cfg, Next(cfg, s, run[0]), run[1..]))
  }

  ghost function After(cfg: Config, s: System, run: seq<Action>): System
    requires Runs(cfg, s, run)
    decreases |run|
  {
    if run == [] then s else After(cfg, Next(cfg, s, run[0]), run[1..])
  }

  /** The state after the first `k` steps of a run. */
  ghost function At(cfg: Config, s: System, run: seq<Action>, k: nat): System
    requires Runs(cfg, s, run) && k <= |run|
    decreases k
  {
    if k == 0 then s else At(cfg, Next(cfg, s, run[0]), run[1..], k - 1)
  }

  lemma {:induction false} AtEnd(cfg: Config, s: System, run: seq<Action>)
    requires Runs(cfg, s, run)
    ensures At(cfg, s, run, |run|) == After(cfg, s, run)
    decreases |run|
  {
    hide Enabled, Next;
    if run != [] {
      AtEnd(cfg, Next(cfg, s, run[0]), run[1..]);
    }
  }

  lemma {:induction false} AtNext(cfg: Config, s: System, run: seq<Action>, k: nat)
    requires Runs(cfg, s, run) && k < |run|
    ensures Enabled(At(cfg, s, run, k), run[k])
    ensures At(cfg, s, run, k + 1) == Next(cfg, At(cfg, s, run, k), run[k])
    decreases k
  {
    hide Enabled, Next;
    if k > 0 {
      AtNext(cfg, Next(cfg, s, run[0]), run[1..], k - 1);
    }
  }

  /** A queue that nothing has been offered to, with a new deduplicator and new statistics. */
  ghost predicate Untouched(q: QState) {
    && q.high == EMPTY_LANE && q.normal == EMPTY_LANE
    && q.size == 0 && q.marks == map[] && q.accepted == [] && q.rejections == 0 && q.duplicates == 0
    && (q.stats.Some? ==> q.stats.value == ZERO_STATS)
  }

  /** The pool right after `start`, over an untouched queue. */
  ghost predicate Initial(s: System) {
    && Untouched(s.q)
    && |s.workers| >= 1 && (forall w :: 0 <= w < |s.workers| ==> s.workers[w] == FRESH_WORKER)
    && !s.stopped
  }

  // ---- The pool as an object ----

  class WorkerPool {
    const queue: JobQueue
    const concurrency: nat
    var workers: seq<Worker>
    var tasks: nat
    var stopped: bool

    ghost function View(): System
      reads this, queue, queue.deduplicator, queue.stats
    {
      System(queue.View(), workers, stopped)
    }

    /** The pool and the queue share one statistics object, as app/main.py wires them. */
    constructor (queue: JobQueue, concurrency: int)
      ensures this.queue == queue && this.concurrency == Max(1, concurrency)
      ensures workers == [] && tasks == 0 && !stopped
    {
      this.queue := queue;
      this.concurrency := Max(1, concurrency);
      workers, tasks, stopped := [], 0, false;
    }

    method Start()
      modifies this`workers, this`tasks
      ensures workers == old(workers) + seq(concurrency, _ => FRESH_WORKER)
      ensures tasks == old(tasks) + concurrency
      ensures old(workers) == [] && !stopped && concurrency >= 1 && Untouched(queue.View()) ==> Initial(View())
    {
      for idx := 0 to concurrency
        invariant workers == old(workers) + seq(idx, _ => FRESH_WORKER) && tasks == old(tasks) + idx
      {
        workers := workers + [FRESH_WORKER];
        tasks := tasks + 1;
      }
    }

    /**
     Sets the stop event and puts one sentinel per task. On a running pool that is the step `Stop`; once
     the tasks have been cleared it puts nothing. Waiting for the workers is a matter of runs.
     */
    method StopWorkers(ghost cfg: Config)
      modifies this`stopped, queue`highQueue, queue`highLog
      ensures View() == old(View()).(q := AfterSentinels(old(queue.View()), tasks), stopped := true)
      ensures old(Enabled(View(), Stop)) && tasks == |workers| ==> View() == Next(cfg, old(View()), Stop)
      ensures tasks == 0 && old(stopped) ==> View() == old(View())
    {
      stopped := true;
      for i := 0 to tasks
        invariant View() == old(View()).(q := AfterSentinels(old(queue.View()), i), stopped := true)
      {
        queue.PutRaw(None);
      }
    }

    /** The end of `stop`: every task is done, with or without an exception, and the list is cleared. */
    method ClearTasks()
      requires forall w :: 0 <= w < |workers| ==> workers[w].phase.Exited? || workers[w].phase.Crashed?
      modifies this`tasks
      ensures tasks == 0 && View() == old(View())
    {
      tasks := 0;
    }

    /** A worker calls `get` while some queue has an item. */
    method StepGetNow(ghost cfg: Config, w: nat)
      requires Enabled(View(), GetNow(w))
      modifies this`workers, queue
      ensures View() == Next(cfg, old(View()), GetNow(w))
    {
      var item, lane := queue.GetNow();
      Receive(w, lane, item);
    }

    /** A worker calls `get` while both queues are empty. */
    method StepStartWait(ghost cfg: Config, w: nat)
      requires Enabled(View(), StartWait(w))
      modifies this`workers
      ensures View() == Next(cfg, old(View()), StartWait(w))
    {
      workers := workers[w := workers[w].(phase := Waiting(Pending, Pending))];
    }

    /** A getter task of a waiting worker takes the oldest item of its queue. */
    method StepTake(ghost cfg: Config, w: nat, lane: Priority)
      requires Enabled(View(), Take(w, lane))
      modifies this`workers, queue
      ensures View() == Next(cfg, old(View()), Take(w, lane))
    {
      var item := queue.TakeFrom(lane);
      workers := workers[w := workers[w].WithGetter(lane, Done(item))];
    }

    /** A waiting worker resumes; `lane` is the completed getter it happened to pick. */
    method StepResume(ghost cfg: Config, w: nat, lane: Priority)
      requires Enabled(View(), Resume(w, lane))
      modifies this`workers, queue
      ensures View() == Next(cfg, old(View()), Resume(w, lane))
    {
      var worker := workers[w];
      var loser := worker.GetterOn(Other(lane));
      queue.ResumeGet(Other(lane), if loser.Done? then Some(loser.item) else None);
      Receive(w, lane, worker.GetterOn(lane).item);
    }

    /** The worker loop from the return of `get` to the next suspension. */
    method Receive(w: nat, lane: Priority, item: Item)
      requires w < |workers|
      modifies this`workers, queue`highQueue, queue`highLog, queue`normalQueue, queue`normalLog
      ensures View() == Deliver(old(View()), w, lane, item)
    {
      var worker := workers[w].(lastQueue := Some(lane));
      if item.Some? {
        workers := workers[w := worker.(phase := Handling(item.value))];
      } else {
        var ok := queue.TaskDone(None, worker.lastQueue);
        if ok {
          workers := workers[w := worker.(phase := Exited, alive := false)];
        } else {
          workers := workers[w := worker.(phase := Crashed)];
        }
      }
    }

    /** The handler of worker `w` returns, or raises when `failed`. */
    method StepFinish(ghost cfg: Config, w: nat, failed: bool, elapsedMs: real)
      requires Enabled(View(), Finish(w, failed, elapsedMs))
      modifies this`workers, queue, queue.stats
      ensures View() == Next(cfg, old(View()), Finish(w, failed, elapsedMs))
    {
      var worker := workers[w];
      if queue.stats != null {
        queue.stats.RecordDispatch(elapsedMs, failed);
      }
      var ok := queue.TaskDone(Some(worker.phase.job), worker.lastQueue);
      workers := workers[w := worker.(processed := worker.processed + 1, phase := if ok then Ready else Crashed)];
    }
  }
}
