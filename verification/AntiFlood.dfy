/**
 The flood plugin of app/services/plugins/anti_flood.py: a window of recent messages per chat and sender,
 kept under the text key "chat:sender".
 */
module AntiFlood {
  import opened Basics
  import opened SlidingWindow

  /** What the plugin reads from an update, the group's settings and the admin table. */
  datatype Update = Update(
    chatId: Option<string>,
    senderId: Option<string>,
    messageId: Option<string>,
    antiFlood: bool,
    isAdmin: bool,
    floodLimit: int,
    now: real)

  datatype Punishment = DeleteMessage(chatId: string, messageId: string) | Ban(chatId: string, senderId: string)

  /** Missing and empty ids are both falsy. */
  predicate Present(id: Option<string>) {
    id.Some? && id.value != ""
  }

  /** The update gets as far as the window: it has both ids, the plugin is on, and the sender is no admin. */
  predicate IsCounted(u: Update) {
    Present(u.chatId) && Present(u.senderId) && u.antiFlood && !u.isAdmin
  }

  function Key(chatId: string, senderId: string): string {
    chatId + ":" + senderId
  }

  function WindowOf(events: map<string, seq<real>>, key: string): seq<real> {
    if key in events then events[key] else []
  }

  function EventsAfter(events: map<string, seq<real>>, u: Update, window: int): map<string, seq<real>> {
    if IsCounted(u) then
      var key := Key(u.chatId.value, u.senderId.value);
      events[key := Prune(WindowOf(events, key), u.now, window) + [u.now]]
    else events
  }

  predicate Fires(events: map<string, seq<real>>, u: Update, window: int) {
    IsCounted(u) && |WindowOf(EventsAfter(events, u, window), Key(u.chatId.value, u.senderId.value))| > u.floodLimit
  }

  class AntiFloodPlugin {
    const windowSeconds: int
    var events: map<string, seq<real>>

    constructor (windowSeconds: int)
      ensures this.windowSeconds == windowSeconds && events == map[]
    {
      this.windowSeconds := windowSeconds;
      events := map[];
    }

    method Handle(u: Update) returns (fired: bool, actions: seq<Punishment>)
      modifies this`events
      ensures events == EventsAfter(old(events), u, windowSeconds)
      ensures fired == Fires(old(events), u, windowSeconds)
      ensures !fired ==> actions == []
      ensures fired ==> actions == (if Present(u.messageId) then [DeleteMessage(u.chatId.value, u.messageId.value)] else [])
                                   + [Ban(u.chatId.value, u.senderId.value)]
      ensures u.isAdmin || !u.antiFlood || u.chatId == None || u.chatId == Some("") || u.senderId == None || u.senderId == Some("")
              ==> !fired && actions == [] && events == old(events)
      ensures !u.isAdmin && u.antiFlood && u.chatId.Some? && u.chatId.value != "" && u.senderId.Some? && u.senderId.value != ""
              ==> var key := u.chatId.value + ":" + u.senderId.value;
                  && key in events && events == old(events)[key := events[key]]
                  && exists kept :: IsSuffix(kept, WindowOf(old(events), key)) && events[key] == kept + [u.now]
    {
      if IsCounted(u) {
        PruneIsSuffix(WindowOf(events, Key(u.chatId.value, u.senderId.value)), u.now, windowSeconds);
      }
      actions := [];
      if !Present(u.chatId) || !Present(u.senderId) {
        return false, actions;
      }
      if !u.antiFlood {
        return false, actions;
      }
      if u.isAdmin {
        return false, actions;
      }
      var key := Key(u.chatId.value, u.senderId.value);
      var window := PruneLoop(if key in events then events[key] else [], u.now, windowSeconds);
      window := window + [u.now];
      events := events[key := window];
      if |window| > u.floodLimit {
        if Present(u.messageId) {
          actions := actions + [DeleteMessage(u.chatId.value, u.messageId.value)];
        }
        actions := actions + [Ban(u.chatId.value, u.senderId.value)];
        return true, actions;
      }
      return false, actions;
    }
  }

  // ---- The full history ----

  function EventsOf(updates: seq<Update>, window: int): map<string, seq<real>> {
    if updates == [] then map[]
    else var n := |updates| - 1; EventsAfter(EventsOf(updates[..n], window), updates[n], window)
  }

  /** The times of all counted messages kept under one key. */
  function KeyTimes(updates: seq<Update>, key: string): seq<real> {
    if updates == [] then []
    else
      var n := |updates| - 1;
      var u := updates[n];
      KeyTimes(updates[..n], key) + if IsCounted(u) && Key(u.chatId.value, u.senderId.value) == key then [u.now] else []
  }

  /** How many counted messages a sender posted to a chat from `lo` to `hi`. */
  function SenderCount(updates: seq<Update>, chatId: string, senderId: string, lo: real, hi: real): nat {
    if updates == [] then 0
    else
      var n := |updates| - 1;
      var u := updates[n];
      SenderCount(updates[..n], chatId, senderId, lo, hi)
      + if IsCounted(u) && u.chatId.value == chatId && u.senderId.value == senderId && lo <= u.now <= hi then 1 else 0
  }

  ghost predicate InOrder(updates: seq<Update>) {
    forall i, j :: 0 <= i < j < |updates| ==> updates[i].now <= updates[j].now
  }

  lemma {:induction false} KeyTimesOrdered(updates: seq<Update>, key: string, now: real)
    requires InOrder(updates) && (forall i :: 0 <= i < |updates| ==> updates[i].now <= now)
    ensures var times := KeyTimes(updates, key);
            Nondecreasing(times) && (forall i :: 0 <= i < |times| ==> times[i] <= now)
  {
    if updates != [] {
      KeyTimesOrdered(updates[..|updates| - 1], key, updates[|updates| - 1].now);
    }
  }

  /** Each pruned deque agrees with the full history of its key, as far as any later message can tell. */
  lemma {:induction false} DequeIsPrunedHistory(updates: seq<Update>, window: int, key: string, now: real)
    requires InOrder(updates) && (forall i :: 0 <= i < |updates| ==> updates[i].now <= now)
    ensures Prune(WindowOf(EventsOf(updates, window), key), now, window) == Prune(KeyTimes(updates, key), now, window)
  {
    hide Prune;
    if updates != [] {
      var n := |updates| - 1;
      var u := updates[n];
      if IsCounted(u) && Key(u.chatId.value, u.senderId.value) == key {
        DequeIsPrunedHistory(updates[..n], window, key, u.now);
        PruneTwice(WindowOf(EventsOf(updates[..n], window), key), u.now, now, window);
        PruneTwice(KeyTimes(updates[..n], key), u.now, now, window);
      } else {
        DequeIsPrunedHistory(updates[..n], window, key, now);
        assert KeyTimes(updates, key) == KeyTimes(updates[..n], key) + [] == KeyTimes(updates[..n], key);
      }
    }
  }

  /**
   The plugin fires on a counted message exactly when the messages kept under its key within the window
   that ends with it, itself included, exceed the limit.
   */
  lemma FiresOnKeyCount(updates: seq<Update>, u: Update, window: int)
    requires IsCounted(u) && InOrder(updates) && (forall i :: 0 <= i < |updates| ==> updates[i].now <= u.now)
    ensures var key := Key(u.chatId.value, u.senderId.value);
            Fires(EventsOf(updates, window), u, window)
            <==> CountWithin(KeyTimes(updates, key), u.now - window as real, u.now) + 1 > u.floodLimit
  {
    hide EventsOf, KeyTimes, CountWithin, Prune, InOrder;
    var key := Key(u.chatId.value, u.senderId.value);
    DequeIsPrunedHistory(updates, window, key, u.now);
    KeyTimesOrdered(updates, key, u.now);
    PruneIsWindow(KeyTimes(updates, key), u.now, window);
  }

  // ---- Keys of different senders ----

  /** One chat id is the other followed by a colon and whatever else. */
  predicate Collide(chat1: string, chat2: string) {
    chat1 + ":" <= chat2 || chat2 + ":" <= chat1
  }

  lemma LongerChatCollides(chat1: string, sender1: string, chat2: string, sender2: string)
    requires Key(chat1, sender1) == Key(chat2, sender2) && |chat1| < |chat2|
    ensures chat1 + ":" <= chat2
  {
    var k := Key(chat1, sender1);
    assert chat1 + ":" == k[..|chat1| + 1];
    assert chat2 == Key(chat2, sender2)[..|chat2|];
  }

  /** Two senders share a key only if they are the same one, or their chat ids collide. */
  lemma KeysAreIndependent(chat1: string, sender1: string, chat2: string, sender2: string)
    requires Key(chat1, sender1) == Key(chat2, sender2) && !Collide(chat1, chat2)
    ensures chat1 == chat2 && sender1 == sender2
  {
    hide Key;
    if |chat1| < |chat2| {
      LongerChatCollides(chat1, sender1, chat2, sender2);
    } else if |chat2| < |chat1| {
      LongerChatCollides(chat2, sender2, chat1, sender1);
    } else {
      SameLengthKeys(chat1, sender1, chat2, sender2);
    }
  }

  lemma SameLengthKeys(chat1: string, sender1: string, chat2: string, sender2: string)
    requires Key(chat1, sender1) == Key(chat2, sender2) && |chat1| == |chat2|
    ensures chat1 == chat2 && sender1 == sender2
  {
    var k := Key(chat1, sender1);
    assert chat1 == k[..|chat1|] && chat2 == Key(chat2, sender2)[..|chat2|];
    assert sender1 == k[|chat1| + 1..] && sender2 == Key(chat2, sender2)[|chat2| + 1..];
  }

  ghost predicate ShareKey(chat1: string, chat2: string) {
    exists sender1, sender2 :: sender1 != "" && sender2 != "" && Key(chat1, sender1) == Key(chat2, sender2)
  }

  lemma CollidingChatsShare(chat1: string, chat2: string)
    requires chat1 + ":" <= chat2
    ensures ShareKey(chat1, chat2) && ShareKey(chat2, chat1)
  {
    var rest := chat2[|chat1| + 1..];
    assert chat2 == chat1 + ":" + rest;
    assert Key(chat1, rest + ":x") == Key(chat2, "x");
  }

  /** Exactly which two chats can have senders with one key. */
  lemma KeysCollideIff(chat1: string, chat2: string)
    requires chat1 != chat2
    ensures ShareKey(chat1, chat2) <==> Collide(chat1, chat2)
  {
    if chat1 + ":" <= chat2 {
      CollidingChatsShare(chat1, chat2);
    } else if chat2 + ":" <= chat1 {
      CollidingChatsShare(chat2, chat1);
    } else {
      forall sender1, sender2 | sender1 != "" && sender2 != ""
        ensures Key(chat1, sender1) != Key(chat2, sender2)
      {
        KeysDiffer(chat1, sender1, chat2, sender2);
      }
    }
  }

  lemma KeysDiffer(chat1: string, sender1: string, chat2: string, sender2: string)
    requires chat1 != chat2 && !Collide(chat1, chat2)
    ensures Key(chat1, sender1) != Key(chat2, sender2)
  {
    if Key(chat1, sender1) == Key(chat2, sender2) {
      KeysAreIndependent(chat1, sender1, chat2, sender2);
    }
  }

  /** No chat with counted messages in the history collides with this one. */
  ghost predicate Unmixed(updates: seq<Update>, chatId: string) {
    forall i :: 0 <= i < |updates| && IsCounted(updates[i]) ==> !Collide(updates[i].chatId.value, chatId)
  }

  lemma {:induction false} KeyCountIsSenderCount(updates: seq<Update>, chatId: string, senderId: string, lo: real, hi: real)
    requires Unmixed(updates, chatId)
    ensures CountWithin(KeyTimes(updates, Key(chatId, senderId)), lo, hi) == SenderCount(updates, chatId, senderId, lo, hi)
  {
    hide Collide;
    if updates != [] {
      var n := |updates| - 1;
      var u := updates[n];
      var key := Key(chatId, senderId);
      KeyCountIsSenderCount(updates[..n], chatId, senderId, lo, hi);
      if IsCounted(u) && Key(u.chatId.value, u.senderId.value) == key {
        KeysAreIndependent(u.chatId.value, u.senderId.value, chatId, senderId);
        CountConcat(KeyTimes(updates[..n], key), [u.now], lo, hi);
        assert CountWithin([u.now][1..], lo, hi) == 0;
      } else {
        assert KeyTimes(updates, key) == KeyTimes(updates[..n], key) + [] == KeyTimes(updates[..n], key);
      }
    }
  }

  /** The message comes after the history. */
  ghost predicate Follows(updates: seq<Update>, u: Update) {
    IsCounted(u) && InOrder(updates) && forall i :: 0 <= i < |updates| ==> updates[i].now <= u.now
  }

  /** The sender's counted messages in the chat within the window that ends with this one, itself included. */
  function OwnCount(updates: seq<Update>, u: Update, window: int): nat
    requires IsCounted(u)
  {
    SenderCount(updates, u.chatId.value, u.senderId.value, u.now - window as real, u.now) + 1
  }

  /**
   The promise to users: a counted message is punished exactly when its sender's counted messages in that
   chat within the last `window` seconds, this one included, exceed the limit, as long as the chats of the
   history do not collide with this one.
   */
  lemma FiresOnSenderCount(updates: seq<Update>, u: Update, window: int)
    requires Follows(updates, u) && Unmixed(updates, u.chatId.value)
    ensures Fires(EventsOf(updates, window), u, window) <==> OwnCount(updates, u, window) > u.floodLimit
  {
    hide Fires, EventsOf, KeyTimes, SenderCount, CountWithin;
    FiresOnKeyCount(updates, u, window);
    KeyCountIsSenderCount(updates, u.chatId.value, u.senderId.value, u.now - window as real, u.now);
  }

  lemma {:induction false} RepeatedKeyTimes(theirs: Update, key: string, n: nat)
    requires IsCounted(theirs) && Key(theirs.chatId.value, theirs.senderId.value) == key
    ensures KeyTimes(seq(n, _ => theirs), key) == seq(n, _ => theirs.now)
  {
    if n > 0 {
      RepeatedKeyTimes(theirs, key, n - 1);
      assert seq(n, _ => theirs)[..n - 1] == seq(n - 1, _ => theirs);
      assert seq(n, _ => theirs.now) == seq(n - 1, _ => theirs.now) + [theirs.now];
    }
  }

  lemma {:induction false} OthersDoNotCount(theirs: Update, n: nat, chatId: string, senderId: string, lo: real, hi: real)
    requires theirs.chatId.Some? && theirs.chatId.value != chatId
    ensures SenderCount(seq(n, _ => theirs), chatId, senderId, lo, hi) == 0
  {
    if n > 0 {
      OthersDoNotCount(theirs, n - 1, chatId, senderId, lo, hi);
      assert seq(n, _ => theirs)[..n - 1] == seq(n - 1, _ => theirs);
    }
  }

  /**
   Punished for another: with a shared key, as many messages of a sender in another chat as the limit allows
   get the first message of this sender punished.
   */
  lemma PunishedForAnother(theirs: Update, mine: Update, n: nat, window: int)
    requires IsCounted(theirs) && IsCounted(mine) && theirs.chatId != mine.chatId
    requires Key(theirs.chatId.value, theirs.senderId.value) == Key(mine.chatId.value, mine.senderId.value)
    requires mine.now - window as real <= theirs.now <= mine.now && mine.floodLimit == n
    ensures var updates := seq(n, _ => theirs);
            && Follows(updates, mine) && OwnCount(updates, mine, window) == 1
            && Fires(EventsOf(updates, window), mine, window)
  {
    hide Fires, EventsOf, KeyTimes, SenderCount, Key, CountWithin;
    var updates := seq(n, _ => theirs);
    var key := Key(mine.chatId.value, mine.senderId.value);
    FiresOnKeyCount(updates, mine, window);
    RepeatedKeyTimes(theirs, key, n);
    AllWithin(KeyTimes(updates, key), mine.now - window as real, mine.now);
    OthersDoNotCount(theirs, n, mine.chatId.value, mine.senderId.value, mine.now - window as real, mine.now);
  }

  lemma {:induction false} NothingInEmptyWindow(updates: seq<Update>, times: seq<real>, chatId: string, senderId: string,
                                                lo: real, hi: real)
    requires lo > hi
    ensures SenderCount(updates, chatId, senderId, lo, hi) == 0 == CountWithin(times, lo, hi)
    decreases |updates| + |times|
  {
    if updates != [] {
      NothingInEmptyWindow(updates[..|updates| - 1], times, chatId, senderId, lo, hi);
    } else if times != [] {
      NothingInEmptyWindow(updates, times[1..], chatId, senderId, lo, hi);
    }
  }

  /** A history of two chats, and a message in one of them that is judged otherwise than by its sender's own messages. */
  ghost predicate Misjudged(updates: seq<Update>, u: Update, chat1: string, chat2: string, window: int) {
    && Follows(updates, u) && u.chatId.value in {chat1, chat2}
    && (forall i :: 0 <= i < |updates| && IsCounted(updates[i]) ==> updates[i].chatId.value in {chat1, chat2})
    && (Fires(EventsOf(updates, window), u, window) <==> OwnCount(updates, u, window) <= u.floodLimit)
  }

  lemma NotMisjudged(updates: seq<Update>, u: Update, chat1: string, chat2: string, window: int)
    requires window < 0 || !Collide(chat1, chat2)
    ensures !Misjudged(updates, u, chat1, chat2, window)
  {
    hide Fires, EventsOf, KeyTimes, SenderCount, CountWithin, InOrder;
    if Follows(updates, u) && u.chatId.value in {chat1, chat2} {
      if window < 0 {
        FiresOnKeyCount(updates, u, window);
        NothingInEmptyWindow(updates, KeyTimes(updates, Key(u.chatId.value, u.senderId.value)),
                             u.chatId.value, u.senderId.value, u.now - window as real, u.now);
      } else if Unmixed(updates, u.chatId.value) {
        FiresOnSenderCount(updates, u, window);
      }
    }
  }

  /**
   Exactly when two chats can get into each other's way: some history makes the plugin misjudge a message in
   one of them if and only if their ids collide (and the window is not empty).
   */
  lemma SendersAreMixedIff(chat1: string, chat2: string, window: int)
    requires chat1 != "" && chat2 != "" && chat1 != chat2
    ensures (exists updates, u :: Misjudged(updates, u, chat1, chat2, window)) <==> window >= 0 && Collide(chat1, chat2)
  {
    hide Misjudged, Collide, ShareKey;
    if window >= 0 && Collide(chat1, chat2) {
      var updates, u := MixedHistory(chat1, chat2, window);
    } else {
      forall updates, u
        ensures !Misjudged(updates, u, chat1, chat2, window)
      {
        NotMisjudged(updates, u, chat1, chat2, window);
      }
    }
  }

  lemma MixedHistory(chat1: string, chat2: string, window: int) returns (updates: seq<Update>, u: Update)
    requires chat1 != "" && chat2 != "" && chat1 != chat2 && window >= 0 && Collide(chat1, chat2)
    ensures Misjudged(updates, u, chat1, chat2, window)
  {
    hide Fires, EventsOf, Key, Collide;
    KeysCollideIff(chat1, chat2);
    var sender1, sender2 :| sender1 != "" && sender2 != "" && Key(chat1, sender1) == Key(chat2, sender2);
    u := Update(Some(chat1), Some(sender1), None, true, false, 1, 0.0);
    var theirs := Update(Some(chat2), Some(sender2), None, true, false, 1, 0.0);
    updates := seq(1, _ => theirs);
    PunishedForAnother(theirs, u, 1, window);
  }

  // ---- Which updates count ----

  /**
   An update from an admin, of a group with the plugin off, or without a chat or sender id never fires and can
   be struck from any history.
   */
  lemma LeftOutUpdates(before: seq<Update>, u: Update, after: seq<Update>, window: int)
    requires u.isAdmin || !u.antiFlood || u.chatId == None || u.chatId == Some("") || u.senderId == None || u.senderId == Some("")
    ensures !Fires(EventsOf(before, window), u, window)
    ensures EventsOf(before + [u] + after, window) == EventsOf(before + after, window)
  {
    hide EventsOf;
    UncountedChangesNothing(before, u, after, window);
  }

  /** Every other update adds exactly its time to its sender's history, and to no other one's. */
  lemma OtherUpdatesCount(updates: seq<Update>, u: Update, chatId: string, senderId: string, lo: real, hi: real)
    requires !u.isAdmin && u.antiFlood
    requires u.chatId.Some? && u.chatId.value != "" && u.senderId.Some? && u.senderId.value != ""
    ensures KeyTimes(updates + [u], u.chatId.value + ":" + u.senderId.value)
            == KeyTimes(updates, u.chatId.value + ":" + u.senderId.value) + [u.now]
    ensures SenderCount(updates + [u], chatId, senderId, lo, hi)
            == SenderCount(updates, chatId, senderId, lo, hi)
               + if Some(chatId) == u.chatId && Some(senderId) == u.senderId && lo <= u.now <= hi then 1 else 0
  {
    assert (updates + [u])[..|updates|] == updates;
  }

  lemma EventsOfSnoc(updates: seq<Update>, u: Update, window: int)
    ensures EventsOf(updates + [u], window) == EventsAfter(EventsOf(updates, window), u, window)
  {
    assert (updates + [u])[..|updates|] == updates;
  }

  /** An update that is not counted changes no window, for good: all later updates are judged without it. */
  lemma {:induction false} UncountedChangesNothing(before: seq<Update>, u: Update, after: seq<Update>, window: int)
    requires !IsCounted(u)
    ensures EventsOf(before + [u] + after, window) == EventsOf(before + after, window)
  {
    hide EventsOf;
    if after == [] {
      assert before + [u] + after == before + [u] && before + after == before;
      EventsOfSnoc(before, u, window);
    } else {
      hide EventsAfter;
      var rest, last := after[..|after| - 1], after[|after| - 1];
      UncountedChangesNothing(before, u, rest, window);
      assert before + [u] + after == before + [u] + rest + [last] && before + after == before + rest + [last];
      EventsOfSnoc(before + [u] + rest, last, window);
      EventsOfSnoc(before + rest, last, window);
    }
  }
}
