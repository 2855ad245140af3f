/**
 The bounded two-priority job queue of app/core/queue.py. Each operation is specified by a function on
 `QState`, which also carries a ledger of everything that ever entered or left the two queues; the class
 performs the operations in place.
 */
module JobQueues {
  import opened Basics
  import opened Deduplicators
  import opened StatsCollectors

  datatype Priority = High | Normal

  /** A job, reduced to what the queue looks at; the payload fields play no part in queueing. */
  datatype Job = Job(jobId: string, dedupKey: Option<string>, priority: Priority)

  /** What the underlying queues hold: a job, or `None`, the sentinel that stops one worker. */
  type Item = Option<Job>

  datatype Decision = Enqueued | Duplicate | Dropped

  /** Any policy name other than "drop_oldest" rejects. */
  datatype FullPolicy = Reject | DropOldest

  datatype Config = Config(maxSize: int, policy: FullPolicy, ttl: int)

  /** `job.dedup_key or job.job_id`: an empty key counts as a missing one. */
  function KeyOf(job: Job): string {
    match job.dedupKey
    case Some(k) => if k != "" then k else job.jobId
    case None => job.jobId
  }

  // ---- One underlying queue ----

  /** An unbounded asyncio.Queue: its items and its count of unfinished tasks. */
  datatype Channel = Channel(items: seq<Item>, unfinished: nat) {
    function Put(x: Item): Channel {
      Channel(items + [x], unfinished + 1)
    }

    function Take(): Channel
      requires items != []
    {
      Channel(items[1..], unfinished)
    }

    /** asyncio raises ValueError when the count is already zero; that leaves the queue as it was. */
    function TaskDone(): Channel {
      if unfinished > 0 then this.(unfinished := unfinished - 1) else this
    }
  }

  /** What has happened to the items of one queue so far. */
  datatype Ledger = Ledger(
    put: seq<Item>,
    left: seq<Item>,
    finished: multiset<Item>,
    evicted: multiset<Item>,
    drained: multiset<Item>,
    abandoned: multiset<Item>)

  datatype Lane = Lane(chan: Channel, log: Ledger) {
    function Put(x: Item): Lane {
      Lane(chan.Put(x), log.(put := log.put + [x]))
    }

    function Take(): Lane
      requires chan.items != []
    {
      Lane(chan.Take(), log.(left := log.left + [chan.items[0]]))
    }

    function Finish(x: Item): Lane {
      Lane(chan.TaskDone(), log.(finished := log.finished + multiset{x}))
    }

    function Evict(): Lane
      requires chan.items != []
    {
      Lane(chan.Take().TaskDone(),
           log.(left := log.left + [chan.items[0]], evicted := log.evicted + multiset{chan.items[0]}))
    }

    function Abandon(x: Item): Lane {
      Lane(chan, log.(abandoned := log.abandoned + multiset{x}))
    }

    function Drained(): Lane {
      Lane(Channel([], Max(0, chan.unfinished - |chan.items|)),
           log.(left := log.left + chan.items, drained := log.drained + multiset(chan.items)))
    }
  }

  const EMPTY_LEDGER := Ledger([], [], multiset{}, multiset{}, multiset{}, multiset{})
  const EMPTY_LANE := Lane(Channel([], 0), EMPTY_LEDGER)

  // ---- The queue as a value ----

  datatype Acceptance = Acceptance(job: Job, at: real)

  datatype QState = QState(
    high: Lane,
    normal: Lane,
    size: int,
    marks: Marks,
    stats: Option<Stats>,
    accepted: seq<Acceptance>,
    rejections: nat,
    duplicates: nat,
    clock: real)
  {
    function On(p: Priority): Lane {
      if p.High? then high else normal
    }

    function With(p: Priority, lane: Lane): QState {
      if p.High? then this.(high := lane) else this.(normal := lane)
    }

    predicate Idle() {
      high.chan.items == [] && normal.chan.items == []
    }

    function Shrunk(): QState {
      this.(size := Max(0, size - 1))
    }

    function NoteDrop(): QState {
      if stats.Some? then this.(stats := Some(stats.value.Dropped())) else this
    }

    function NoteDuplicate(): QState {
      var s := this.(duplicates := duplicates + 1);
      if stats.Some? then s.(stats := Some(stats.value.Deduped())) else s
    }

    function NoteEnqueue(): QState {
      if stats.Some? then this.(stats := Some(stats.value.Enqueued(size))) else this
    }

    function NoteDispatch(elapsedMs: real, failed: bool): QState {
      if stats.Some? then this.(stats := Some(stats.value.Dispatched(elapsedMs, failed))) else this
    }
  }

  /** The victim is the oldest normal job, or the oldest high one when there is no normal job. */
  function AfterDropOldest(q: QState): QState {
    if q.normal.chan.items != [] then q.(normal := q.normal.Evict()).Shrunk().NoteDrop()
    else if q.high.chan.items != [] then q.(high := q.high.Evict()).Shrunk().NoteDrop()
    else q
  }

  function DecisionOn(cfg: Config, q: QState, job: Job, now: real): Decision {
    if SeenAnswer(q.marks, cfg.ttl, KeyOf(job), now) then Duplicate
    else if q.size >= cfg.maxSize && cfg.policy.Reject? then Dropped
    else Enqueued
  }

  function Accept(q: QState, job: Job, now: real): QState {
    q.With(job.priority, q.On(job.priority).Put(Some(job)))
     .(size := q.size + 1, accepted := q.accepted + [Acceptance(job, now)])
     .NoteEnqueue()
  }

  /** `seen` has marked the key and forgotten the expired ones. */
  function Marked(cfg: Config, q: QState, job: Job, now: real): QState {
    q.(marks := SeenMarks(q.marks, cfg.ttl, KeyOf(job), now), clock := now)
  }

  function MakeRoom(cfg: Config, q: QState): QState {
    if q.size >= cfg.maxSize then AfterDropOldest(q) else q
  }

  function AfterEnqueue(cfg: Config, q: QState, job: Job, now: real): QState {
    var marked := Marked(cfg, q, job, now);
    match DecisionOn(cfg, q, job, now)
    case Duplicate => marked.NoteDuplicate()
    case Dropped => marked.(rejections := q.rejections + 1).NoteDrop()
    case Enqueued => Accept(MakeRoom(cfg, marked), job, now)
  }

  /** The queue that a `get` call on a non-empty pair of queues reads from. */
  function FastLane(q: QState): Priority {
    if q.high.chan.items != [] then High else Normal
  }

  function AfterTake(q: QState, p: Priority): QState
    requires q.On(p).chan.items != []
  {
    q.With(p, q.On(p).Take())
  }

  function AfterSentinels(q: QState, n: nat): QState
    decreases n
  {
    if n == 0 then q
    else var rest := AfterSentinels(q, n - 1); rest.(high := rest.high.Put(None))
  }

  function AfterDrain(q: QState): QState {
    q.(high := q.high.Drained(), normal := q.normal.Drained(), size := 0)
  }

  // ---- The queue as an object ----

  class JobQueue {
    var highQueue: Channel
    var normalQueue: Channel
    var size: int
    const maxSize: int
    const fullPolicy: FullPolicy
    const deduplicator: Deduplicator
    const stats: StatsCollector?
    ghost var highLog: Ledger
    ghost var normalLog: Ledger
    ghost var accepted: seq<Acceptance>
    ghost var rejections: nat
    ghost var duplicates: nat
    ghost var clock: real

    ghost function Cfg(): Config {
      Config(maxSize, fullPolicy, deduplicator.ttlSeconds)
    }

    ghost function StatsView(): Option<Stats>
      reads stats
    {
      if stats == null then None else Some(stats.View())
    }

    ghost function View(): QState
      reads this, deduplicator, stats
    {
      QState(Lane(highQueue, highLog), Lane(normalQueue, normalLog), size, deduplicator.cache, StatsView(),
             accepted, rejections, duplicates, clock)
    }

    constructor (maxSize: int, deduplicator: Deduplicator, fullPolicy: FullPolicy, stats: StatsCollector?)
      ensures this.maxSize == maxSize && this.deduplicator == deduplicator
      ensures this.fullPolicy == fullPolicy && this.stats == stats
      ensures View() == QState(EMPTY_LANE, EMPTY_LANE, 0, deduplicator.cache, StatsView(), [], 0, 0, 0.0)
    {
      highQueue, normalQueue, size := Channel([], 0), Channel([], 0), 0;
      this.maxSize, this.fullPolicy := maxSize, fullPolicy;
      this.deduplicator, this.stats := deduplicator, stats;
      highLog, normalLog := EMPTY_LEDGER, EMPTY_LEDGER;
      accepted, rejections, duplicates, clock := [], 0, 0, 0.0;
    }

    method Enqueue(job: Job, now: real) returns (decision: Decision)
      modifies this, deduplicator, stats
      ensures decision == DecisionOn(Cfg(), old(View()), job, now)
      ensures View() == AfterEnqueue(Cfg(), old(View()), job, now)
    {
      clock := now;
      var key := if job.dedupKey.Some? && job.dedupKey.value != "" then job.dedupKey.value else job.jobId;
      var duplicate := deduplicator.Seen(Some(key), now);
      assert View() == Marked(Cfg(), old(View()), job, now);
      if duplicate {
        RecordDuplicate();
        return Duplicate;
      }
      if size >= maxSize {
        if fullPolicy.DropOldest? {
          DropOldestJob();
        } else {
          RecordRejection();
          return Dropped;
        }
      }
      Append(job, now);
      return Enqueued;
    }

    method RecordDuplicate()
      modifies this`duplicates, stats
      ensures View() == old(View()).NoteDuplicate()
    {
      duplicates := duplicates + 1;
      if stats != null {
        stats.RecordDedup();
      }
    }

    method RecordRejection()
      modifies this`rejections, stats
      ensures View() == old(View()).(rejections := old(rejections) + 1).NoteDrop()
    {
      rejections := rejections + 1;
      if stats != null {
        stats.RecordDrop();
      }
    }

    /** The tail of `enqueue` once there is room. */
    method Append(job: Job, now: real)
      modifies this`highQueue, this`highLog, this`normalQueue, this`normalLog, this`size, this`accepted, stats
      ensures View() == Accept(old(View()), job, now)
    {
      if job.priority.High? {
        highQueue, highLog := highQueue.Put(Some(job)), highLog.(put := highLog.put + [Some(job)]);
      } else {
        normalQueue, normalLog := normalQueue.Put(Some(job)), normalLog.(put := normalLog.put + [Some(job)]);
      }
      size := size + 1;
      accepted := accepted + [Acceptance(job, now)];
      if stats != null {
        stats.RecordEnqueue(size);
      }
    }

    method DropOldestJob()
      modifies this, stats
      ensures View() == AfterDropOldest(old(View()))
    {
      if normalQueue.items != [] {
        var x := normalQueue.items[0];
        normalQueue := normalQueue.Take().TaskDone();
        normalLog := normalLog.(left := normalLog.left + [x], evicted := normalLog.evicted + multiset{x});
      } else if highQueue.items != [] {
        var x := highQueue.items[0];
        highQueue := highQueue.Take().TaskDone();
        highLog := highLog.(left := highLog.left + [x], evicted := highLog.evicted + multiset{x});
      } else {
        return;
      }
      size := Max(0, size - 1);
      if stats != null {
        stats.RecordDrop();
      }
    }

    /** The part of `get` that does not suspend: some queue has an item. */
    method GetNow() returns (item: Item, lane: Priority)
      requires !View().Idle()
      modifies this
      ensures lane == FastLane(old(View()))
      ensures item == old(View()).On(lane).chan.items[0]
      ensures View() == AfterTake(old(View()), lane).Shrunk()
    {
      if highQueue.items != [] {
        lane := High;
      } else {
        lane := Normal;
      }
      item := TakeFrom(lane);
      size := Max(0, size - 1);
    }

    /** One completed `asyncio.Queue.get`: what a getter task of a waiting `get` call does. */
    method TakeFrom(lane: Priority) returns (item: Item)
      requires View().On(lane).chan.items != []
      modifies this`highQueue, this`highLog, this`normalQueue, this`normalLog
      ensures item == old(View()).On(lane).chan.items[0]
      ensures View() == AfterTake(old(View()), lane)
    {
      if lane.High? {
        item := highQueue.items[0];
        highQueue, highLog := highQueue.Take(), highLog.(left := highLog.left + [item]);
      } else {
        item := normalQueue.items[0];
        normalQueue, normalLog := normalQueue.Take(), normalLog.(left := normalLog.left + [item]);
      }
    }

    /** The end of a waiting `get`: the loser's item, if its getter finished too, is returned to nobody. */
    method ResumeGet(loser: Priority, lost: Option<Item>)
      modifies this`size, this`highLog, this`normalLog
      ensures View() == (match lost
                         case None => old(View())
                         case Some(x) => old(View()).With(loser, old(View()).On(loser).Abandon(x))).Shrunk()
    {
      if lost.Some? {
        if loser.High? {
          highLog := highLog.(abandoned := highLog.abandoned + multiset{lost.value});
        } else {
          normalLog := normalLog.(abandoned := normalLog.abandoned + multiset{lost.value});
        }
      }
      size := Max(0, size - 1);
    }

    method PutRaw(item: Item)
      modifies this`highQueue, this`highLog
      ensures View() == old(View()).(high := old(View()).high.Put(item))
    {
      highQueue, highLog := highQueue.Put(item), highLog.(put := highLog.put + [item]);
    }

    /**
     Marks one item of a queue as finished: the job's own queue, or for a sentinel the queue the calling
     task last read from (nothing happens when it never read). Returns false where asyncio raises
     ValueError because that queue has no unfinished task.
     */
    method TaskDone(job: Item, lastQueue: Option<Priority>) returns (ok: bool)
      modifies this`highQueue, this`highLog, this`normalQueue, this`normalLog
      ensures job.None? && lastQueue.None? ==> ok && View() == old(View())
      ensures job.Some? || lastQueue.Some? ==>
                var p := if job.Some? then job.value.priority else lastQueue.value;
                && ok == (old(View()).On(p).chan.unfinished > 0)
                && View() == if ok then old(View()).With(p, old(View()).On(p).Finish(job)) else old(View())
    {
      if job.None? && lastQueue.None? {
        return true;
      }
      var lane := if job.Some? then job.value.priority else lastQueue.value;
      if lane.High? {
        ok := highQueue.unfinished > 0;
        if ok {
          highQueue, highLog := highQueue.TaskDone(), highLog.(finished := highLog.finished + multiset{job});
        }
      } else {
        ok := normalQueue.unfinished > 0;
        if ok {
          normalQueue, normalLog := normalQueue.TaskDone(), normalLog.(finished := normalLog.finished + multiset{job});
        }
      }
    }

    method Drain() returns (drainedHigh: nat, drainedNormal: nat)
      modifies this`highQueue, this`highLog, this`normalQueue, this`normalLog, this`size
      ensures View() == AfterDrain(old(View()))
      ensures drainedHigh == |old(highQueue.items)| && drainedNormal == |old(normalQueue.items)|
    {
      highQueue, highLog, drainedHigh := DrainOne(highQueue, highLog);
      normalQueue, normalLog, drainedNormal := DrainOne(normalQueue, normalLog);
      size := 0;
    }

    /** The loop that `drain` runs over each of the two queues. */
    static method DrainOne(chan: Channel, ghost log: Ledger)
      returns (rest: Channel, ghost restLog: Ledger, drained: nat)
      ensures Lane(rest, restLog) == Lane(chan, log).Drained()
      ensures rest.items == [] && drained == |chan.items|
    {
      rest, restLog, drained := chan, log, 0;
      while rest.items != []
        invariant Lane(rest, restLog).Drained() == Lane(chan, log).Drained()
        invariant drained + |rest.items| == |chan.items|
        decreases |rest.items|
      {
        var x := rest.items[0];
        assert restLog.left + rest.items == (restLog.left + [x]) + rest.items[1..];
        assert rest.items == [x] + rest.items[1..];
        rest := rest.Take().TaskDone();
        restLog := restLog.(left := restLog.left + [x], drained := restLog.drained + multiset{x});
        drained := drained + 1;
      }
    }
  }
}
