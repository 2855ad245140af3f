/** The counters of app/utils/stats.py that the queue and the workers move. */
module StatsCollectors {

  datatype Stats = Stats(
    totalUpdates: nat,
    totalErrors: nat,
    totalEnqueued: nat,
    totalDropped: nat,
    totalDeduped: nat,
    totalDispatchMs: real,
    lastDispatchMs: real,
    lastQueueSize: int)
  {
    function Enqueued(queueSize: int): Stats {
      this.(lastQueueSize := queueSize, totalEnqueued := totalEnqueued + 1)
    }

    function Dropped(): Stats {
      this.(totalDropped := totalDropped + 1)
    }

    function Deduped(): Stats {
      this.(totalDeduped := totalDeduped + 1)
    }

    function Dispatched(durationMs: real, failed: bool): Stats {
      this.(totalUpdates := totalUpdates + 1,
      totalDispatchMs := totalDispatchMs + durationMs,
      lastDispatchMs := durationMs,
      totalErrors := totalErrors + if failed then 1 else 0)
    }
  }

  const ZERO_STATS := Stats(0, 0, 0, 0, 0, 0.0, 0.0, 0)

  class StatsCollector {
    var totalUpdates: nat
    var totalErrors: nat
    var totalEnqueued: nat
    var totalDropped: nat
    var totalDeduped: nat
    var totalDispatchMs: real
    var lastDispatchMs: real
    var lastQueueSize: int

    function View(): Stats
      reads this
    {
      Stats(totalUpdates, totalErrors, totalEnqueued, totalDropped, totalDeduped,
            totalDispatchMs, lastDispatchMs, lastQueueSize)
    }

    constructor ()
      ensures View() == ZERO_STATS
    {
      totalUpdates, totalErrors, totalEnqueued, totalDropped, totalDeduped := 0, 0, 0, 0, 0;
      totalDispatchMs, lastDispatchMs, lastQueueSize := 0.0, 0.0, 0;
    }

    method RecordEnqueue(queueSize: int)
      modifies this
      ensures View() == old(View()).Enqueued(queueSize)
    {
      lastQueueSize := queueSize;
      totalEnqueued := totalEnqueued + 1;
    }

    method RecordDrop()
      modifies this
      ensures View() == old(View()).Dropped()
    {
      totalDropped := totalDropped + 1;
    }

    method RecordDedup()
      modifies this
      ensures View() == old(View()).Deduped()
    {
      totalDeduped := totalDeduped + 1;
    }

    method RecordDispatch(durationMs: real, failed: bool)
      modifies this
      ensures View() == old(View()).Dispatched(durationMs, failed)
    {
      totalUpdates := totalUpdates + 1;
      totalDispatchMs := totalDispatchMs + durationMs;
      lastDispatchMs := durationMs;
      if failed {
        totalErrors := totalErrors + 1;
      }
    }
  }
}
