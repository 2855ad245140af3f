/** The /del command of app/services/handlers.py. */
module DeleteHandlers {
  import opened Basics
  import opened Messages

  /** The first argument of the command, as `int` takes it. */
  datatype Argument = Missing | Number(value: int) | NotANumber

  datatype Answer = Nothing | BadNumber | NothingChosen | NothingFound | Report(deleted: nat, failed: nat)

  /** What one deletion comes to; `Refused` is a reply whose "ok" is false. */
  datatype Deletion = Done | Refused | Raised

  const MOST_DELETED := 10000

  function Clamped(arg: Argument): nat
    requires !arg.NotANumber?
  {
    Max(0, Min(if arg.Number? then arg.value else 100, MOST_DELETED))
  }

  function CountDone(outcome: nat -> Deletion, n: nat): (done: nat)
    ensures done <= n
  {
    if n == 0 then 0 else CountDone(outcome, n - 1) + if outcome(n - 1).Done? then 1 else 0
  }

  /**
   Deletes the newest messages of the chat, one call each, newest first, pausing after every 25th, and
   reports how many calls worked; `calls` lists the ids in the order of the calls.
   */
  method DeleteRecent(chatId: Option<string>, arg: Argument, store: MessageStore, outcome: nat -> Deletion)
    returns (answer: Answer, calls: seq<string>, pauses: nat)
    requires store.Valid()
    ensures chatId.None? || chatId.value == "" ==> answer == Nothing && calls == []
    ensures chatId.Some? && chatId.value != "" && arg.NotANumber? ==> answer == BadNumber && calls == []
    ensures chatId.Some? && chatId.value != "" && !arg.NotANumber? ==>
              && calls == (if Clamped(arg) == 0 then [] else RecentIds(store.rows, chatId.value, Clamped(arg)))
              && answer == (if Clamped(arg) == 0 then NothingChosen
                            else if calls == [] then NothingFound
                            else Report(CountDone(outcome, |calls|), |calls| - CountDone(outcome, |calls|)))
    ensures |calls| <= 10000 && pauses == |calls| / 25
    ensures chatId.Some? && chatId.value != "" && !arg.NotANumber? ==>
              var limit := if arg.Missing? then 100 else Max(0, Min(arg.value, 10000));
              && |calls| == Min(limit, ChatSize(store.rows, chatId.value))
              && (forall k :: 0 <= k < |calls| ==> IsNewest(store.rows, chatId.value, k, calls[k]))
              && (limit == 0 ==> answer == NothingChosen)
              && (limit > 0 && calls == [] ==> answer == NothingFound)
              && (calls != [] ==> answer.Report? && answer.deleted + answer.failed == |calls|
                                  && answer.deleted == |set k: nat | k < |calls| && outcome(k).Done?|)
  {
    hide RecentIds, IsNewest, ChatSize;
    if chatId.Some? && !arg.NotANumber? {
      RecentIdsAreNewest(store.rows, chatId.value, Clamped(arg));
    }
    calls, pauses := [], 0;
    if chatId.None? || chatId.value == "" {
      return Nothing, calls, pauses;
    }
    if arg.NotANumber? {
      return BadNumber, calls, pauses;
    }
    var limit := if arg.Number? then arg.value else 100;
    limit := Max(0, Min(limit, MOST_DELETED));
    if limit == 0 {
      return NothingChosen, calls, pauses;
    }
    AtMostLimit(store.rows, chatId.value, limit);
    var ids := store.FetchRecentMessageIds(chatId.value, limit);
    if ids == [] {
      return NothingFound, calls, pauses;
    }
    var deleted, failed := 0, 0;
    for i := 0 to |ids|
      invariant calls == ids[..i]
      invariant deleted == CountDone(outcome, i) && deleted + failed == i
      invariant pauses == i / 25
    {
      calls := calls + [ids[i]];
      if outcome(i).Done? {
        deleted := deleted + 1;
      } else {
        failed := failed + 1;
      }
      if (i + 1) % 25 == 0 {
        pauses := pauses + 1;
      }
    }
    answer := Report(deleted, failed);
    DoneAreCounted(outcome, |calls|);
  }

  lemma {:induction false} DoneAreCounted(outcome: nat -> Deletion, n: nat)
    ensures CountDone(outcome, n) == |set k: nat | k < n && outcome(k).Done?|
  {
    var done := set k: nat | k < n && outcome(k).Done?;
    if n == 0 {
      assert done == {};
    } else {
      var before := set k: nat | k < n - 1 && outcome(k).Done?;
      DoneAreCounted(outcome, n - 1);
      assert done == before + if outcome(n - 1).Done? then {n - 1} else {};
    }
  }

  lemma AtMostLimit(rows: seq<Message>, chatId: string, limit: nat)
    ensures |RecentIds(rows, chatId, limit)| <= limit
  {
  }

  /** As long as every trim keeps at least 10000 messages, /del sees the ids it would see without trimming. */
  lemma DelSeesUntrimmedHistory(events: seq<Event>, arg: Argument, chatId: string)
    requires !arg.NotANumber?
    requires forall i :: 0 <= i < |events| && events[i].Janitor? ==> events[i].limit < 0 || events[i].limit >= MOST_DELETED
    ensures RecentIds(LogAfter(events).rows, chatId, Clamped(arg)) == RecentIds(FullLog(events).rows, chatId, Clamped(arg))
  {
    assert AllCover(events, Clamped(arg));
    TrimmingIsInvisible(events, Clamped(arg), chatId);
  }
}
