/**
 The message log of app/db/repository.py: what trimming keeps, and that it cannot be noticed by queries
 for at most as many recent messages as were kept.
 */
module Messages {
  import opened Basics

  datatype Message = Message(
    id: nat,
    chatId: string,
    messageId: string,
    senderId: Option<string>,
    text: Option<string>)

  /** The table and its AUTOINCREMENT counter, which never goes back. */
  datatype Log = Log(rows: seq<Message>, nextId: nat)

  const EMPTY_LOG := Log([], 1)

  /** Rows are listed by id. */
  ghost predicate Sorted(rows: seq<Message>) {
    forall i, j :: 0 <= i < j < |rows| ==> rows[i].id < rows[j].id
  }

  ghost predicate ValidLog(log: Log) {
    Sorted(log.rows) && forall i :: 0 <= i < |log.rows| ==> log.rows[i].id < log.nextId
  }

  // ---- Queries ----

  function ChatRows(rows: seq<Message>, chatId: string): seq<Message> {
    if rows == [] then []
    else
      var n := |rows| - 1;
      var before := ChatRows(rows[..n], chatId);
      if rows[n].chatId == chatId then before + [rows[n]] else before
  }

  /** LIMIT on a descending order keeps the newest; a negative LIMIT is no limit. */
  function Newest<T>(rows: seq<T>, limit: int): seq<T> {
    if limit < 0 then rows else LastN(rows, limit)
  }

  function Reversed<T>(s: seq<T>): (r: seq<T>)
    ensures |r| == |s| && forall i :: 0 <= i < |s| ==> r[i] == s[|s| - 1 - i]
  {
    seq(|s|, i requires 0 <= i < |s| => s[|s| - 1 - i])
  }

  function MessageIds(rows: seq<Message>): (ids: seq<string>)
    ensures |ids| == |rows| && forall i :: 0 <= i < |rows| ==> ids[i] == rows[i].messageId
  {
    seq(|rows|, i requires 0 <= i < |rows| => rows[i].messageId)
  }

  /** The ids of the newest messages of a chat, newest first. */
  function RecentIds(rows: seq<Message>, chatId: string, limit: int): seq<string> {
    MessageIds(Reversed(Newest(ChatRows(rows, chatId), limit)))
  }

  /** The first `limit` of a list, or all of it for a negative limit. */
  function Top(ids: seq<string>, limit: int): seq<string> {
    if limit < 0 || |ids| <= limit then ids else ids[..limit]
  }

  /** The ids of the chat's rows that are newer than row `id`. */
  function NewerIds(rows: seq<Message>, chatId: string, id: int): set<nat> {
    set i | 0 <= i < |rows| && rows[i].chatId == chatId && rows[i].id > id :: rows[i].id
  }

  function ChatSize(rows: seq<Message>, chatId: string): nat {
    |NewerIds(rows, chatId, -1)|
  }

  /** `messageId` belongs to the row of the chat that exactly `k` of its rows are newer than. */
  ghost predicate IsNewest(rows: seq<Message>, chatId: string, k: nat, messageId: string) {
    exists i :: 0 <= i < |rows| && rows[i].chatId == chatId && rows[i].messageId == messageId
                && |NewerIds(rows, chatId, rows[i].id)| == k
  }

  // ---- Trimming ----

  function IdsOf(rows: seq<Message>): set<nat> {
    set i | 0 <= i < |rows| :: rows[i].id
  }

  /** DELETE ... WHERE chat_id = `chatId` AND id NOT IN `kept`. */
  function DeleteExcept(rows: seq<Message>, chatId: string, kept: set<nat>): seq<Message> {
    if rows == [] then []
    else
      var n := |rows| - 1;
      var before := DeleteExcept(rows[..n], chatId, kept);
      if rows[n].chatId == chatId && rows[n].id !in kept then before else before + [rows[n]]
  }

  function TrimChat(rows: seq<Message>, chatId: string, limit: int): seq<Message> {
    DeleteExcept(rows, chatId, IdsOf(Newest(ChatRows(rows, chatId), limit)))
  }

  function TrimChats(rows: seq<Message>, chats: seq<string>, limit: int): seq<Message> {
    if chats == [] then rows
    else TrimChat(TrimChats(rows, chats[..|chats| - 1], limit), chats[|chats| - 1], limit)
  }

  /** SELECT DISTINCT chat_id. */
  function Chats(rows: seq<Message>): seq<string> {
    if rows == [] then []
    else
      var n := |rows| - 1;
      var before := Chats(rows[..n]);
      if rows[n].chatId in before then before else before + [rows[n].chatId]
  }

  function Trim(rows: seq<Message>, limit: int): seq<Message> {
    TrimChats(rows, Chats(rows), limit)
  }

  class MessageStore {
    var rows: seq<Message>
    var nextId: nat

    ghost predicate Valid()
      reads this
    {
      ValidLog(View())
    }

    ghost function View(): Log
      reads this
    {
      Log(rows, nextId)
    }

    constructor ()
      ensures Valid() && View() == EMPTY_LOG
    {
      rows, nextId := [], 1;
    }

    method SaveMessage(chatId: string, messageId: string, senderId: Option<string>, text: Option<string>)
      requires Valid()
      modifies this
      ensures Valid() && View() == Saved(old(View()), chatId, messageId, senderId, text)
      ensures |rows| == |old(rows)| + 1 && rows[..|old(rows)|] == old(rows)
      ensures var r := rows[|old(rows)|];
              && r.chatId == chatId && r.messageId == messageId && r.senderId == senderId && r.text == text
              && forall i :: 0 <= i < |old(rows)| ==> old(rows)[i].id < r.id
      ensures forall l :: RecentIds(rows, chatId, l) == Top([messageId] + RecentIds(old(rows), chatId, -1), l)
      ensures forall c, l :: c != chatId ==> RecentIds(rows, c, l) == RecentIds(old(rows), c, l)
    {
      hide RecentIds, Top;
      ListedAfterSave(View(), chatId, messageId, senderId, text);
      rows := rows + [Message(nextId, chatId, messageId, senderId, text)];
      nextId := nextId + 1;
    }

    /** Lists the chat's rows from the largest id down, as many as the limit allows. */
    method FetchRecentMessageIds(chatId: string, limit: int) returns (ids: seq<string>)
      requires Valid()
      ensures |ids| == if limit < 0 then ChatSize(rows, chatId) else Min(limit, ChatSize(rows, chatId))
      ensures forall k :: 0 <= k < |ids| ==> IsNewest(rows, chatId, k, ids[k])
      ensures ids == RecentIds(rows, chatId, limit)
    {
      var chat := ChatRows(rows, chatId);
      var most := if limit < 0 then |chat| else Min(limit, |chat|);
      ids := [];
      for k := 0 to most
        invariant ids == MessageIds(Reversed(chat[|chat| - k..]))
      {
        ids := ids + [chat[|chat| - 1 - k].messageId];
      }
      RecentIdsAreNewest(rows, chatId, limit);
    }

    method TrimMessagesPerChat(limitPerChat: int) returns (totalDeleted: nat)
      requires Valid()
      modifies this`rows
      ensures Valid()
      ensures rows == Trim(old(rows), limitPerChat)
      ensures totalDeleted == |old(rows)| - |rows|
      ensures forall c :: ChatRows(rows, c) == Newest(ChatRows(old(rows), c), limitPerChat)
    {
      totalDeleted := 0;
      var chats := Chats(rows);
      for i := 0 to |chats|
        invariant rows == TrimChats(old(rows), chats[..i], limitPerChat)
        invariant totalDeleted == |old(rows)| - |rows|
      {
        ghost var before := rows;
        var kept := IdsOf(Newest(ChatRows(rows, chats[i]), limitPerChat));
        var after := DeleteExcept(rows, chats[i], kept);
        DeleteShrinks(rows, chats[i], kept);
        totalDeleted := totalDeleted + (|rows| - |after|);
        rows := after;
        assert chats[..i + 1][..i] == chats[..i];
      }
      assert chats[..|chats|] == chats;
      TrimIsSorted(old(View()), limitPerChat);
      forall c
        ensures ChatRows(rows, c) == Newest(ChatRows(old(rows), c), limitPerChat)
      {
        TrimKeepsNewest(old(View()), limitPerChat, c);
      }
    }
  }

  function Saved(log: Log, chatId: string, messageId: string, senderId: Option<string>, text: Option<string>): Log {
    Log(log.rows + [Message(log.nextId, chatId, messageId, senderId, text)], log.nextId + 1)
  }

  /** A list of recent ids is the beginning of the list of all of them. */
  lemma RecentIsTop(rows: seq<Message>, chatId: string, limit: int)
    ensures RecentIds(rows, chatId, limit) == Top(RecentIds(rows, chatId, -1), limit)
  {
    hide ChatRows;
    RecentIdsListed(rows, chatId, limit);
    RecentIdsListed(rows, chatId, -1);
  }

  lemma AllIdsOfAppend(rows: seq<Message>, r: Message, chatId: string)
    ensures RecentIds(rows + [r], chatId, -1)
            == (if r.chatId == chatId then [r.messageId] else []) + RecentIds(rows, chatId, -1)
  {
    hide ChatRows;
    ChatRowsAppend(rows, r, chatId);
    RecentIdsListed(rows + [r], chatId, -1);
    RecentIdsListed(rows, chatId, -1);
  }

  /** A saved message is listed first in its chat, and in no other. */
  lemma SaveIsListed(log: Log, chatId: string, messageId: string, senderId: Option<string>, text: Option<string>,
                     c: string, limit: int)
    ensures RecentIds(Saved(log, chatId, messageId, senderId, text).rows, c, limit)
            == if c == chatId then Top([messageId] + RecentIds(log.rows, c, -1), limit) else RecentIds(log.rows, c, limit)
  {
    hide RecentIds;
    var rows := Saved(log, chatId, messageId, senderId, text).rows;
    AllIdsOfAppend(log.rows, rows[|log.rows|], c);
    RecentIsTop(rows, c, limit);
    RecentIsTop(log.rows, c, limit);
    assert [] + RecentIds(log.rows, c, -1) == RecentIds(log.rows, c, -1);
  }

  lemma ListedAfterSave(log: Log, chatId: string, messageId: string, senderId: Option<string>, text: Option<string>)
    ensures var rows := Saved(log, chatId, messageId, senderId, text).rows;
            && (forall l :: RecentIds(rows, chatId, l) == Top([messageId] + RecentIds(log.rows, chatId, -1), l))
            && (forall c, l :: c != chatId ==> RecentIds(rows, c, l) == RecentIds(log.rows, c, l))
  {
    hide RecentIds, Top, Saved;
    forall c, l
      ensures RecentIds(Saved(log, chatId, messageId, senderId, text).rows, c, l)
              == if c == chatId then Top([messageId] + RecentIds(log.rows, c, -1), l) else RecentIds(log.rows, c, l)
    {
      SaveIsListed(log, chatId, messageId, senderId, text, c, l);
    }
  }

  lemma {:induction false} DeleteShrinks(rows: seq<Message>, chatId: string, kept: set<nat>)
    ensures |DeleteExcept(rows, chatId, kept)| <= |rows|
    ensures forall r :: r in DeleteExcept(rows, chatId, kept) ==> r in rows
  {
    if rows != [] {
      DeleteShrinks(rows[..|rows| - 1], chatId, kept);
    }
  }

  lemma {:induction false} DeleteIsSorted(rows: seq<Message>, chatId: string, kept: set<nat>)
    requires Sorted(rows)
    ensures Sorted(DeleteExcept(rows, chatId, kept))
  {
    if rows != [] {
      var n := |rows| - 1;
      DeleteIsSorted(rows[..n], chatId, kept);
      DeleteShrinks(rows[..n], chatId, kept);
      var rest := DeleteExcept(rows[..n], chatId, kept);
      forall i | 0 <= i < |rest|
        ensures rest[i].id < rows[n].id
      {
        assert rest[i] in rows[..n];
      }
    }
  }

  lemma {:induction false} TrimChatsIsSorted(rows: seq<Message>, chats: seq<string>, limit: int)
    requires Sorted(rows)
    ensures Sorted(TrimChats(rows, chats, limit))
    ensures forall r :: r in TrimChats(rows, chats, limit) ==> r in rows
  {
    if chats != [] {
      var n := |chats| - 1;
      var before := TrimChats(rows, chats[..n], limit);
      TrimChatsIsSorted(rows, chats[..n], limit);
      DeleteIsSorted(before, chats[n], IdsOf(Newest(ChatRows(before, chats[n]), limit)));
      DeleteShrinks(before, chats[n], IdsOf(Newest(ChatRows(before, chats[n]), limit)));
    }
  }

  lemma TrimIsSorted(log: Log, limit: int)
    requires ValidLog(log)
    ensures ValidLog(log.(rows := Trim(log.rows, limit)))
  {
    TrimChatsIsSorted(log.rows, Chats(log.rows), limit);
    var after := Trim(log.rows, limit);
    forall i | 0 <= i < |after|
      ensures after[i].id < log.nextId
    {
      assert after[i] in log.rows;
    }
  }

  // ---- What trimming keeps ----

  /** Deleting from one chat leaves the rows of the others. */
  lemma {:induction false} OtherChatsUntouched(rows: seq<Message>, chatId: string, kept: set<nat>, other: string)
    requires other != chatId
    ensures ChatRows(DeleteExcept(rows, chatId, kept), other) == ChatRows(rows, other)
  {
    if rows != [] {
      var n := |rows| - 1;
      OtherChatsUntouched(rows[..n], chatId, kept, other);
      ChatRowsAppend(DeleteExcept(rows[..n], chatId, kept), rows[n], other);
    }
  }

  lemma ChatRowsAppend(rows: seq<Message>, r: Message, chatId: string)
    ensures ChatRows(rows + [r], chatId) == ChatRows(rows, chatId) + if r.chatId == chatId then [r] else []
  {
    assert (rows + [r])[..|rows|] == rows;
  }

  /** The rows of a sequence with an id in `kept`. */
  function WithIds(rows: seq<Message>, kept: set<nat>): seq<Message> {
    if rows == [] then []
    else
      var n := |rows| - 1;
      var before := WithIds(rows[..n], kept);
      if rows[n].id in kept then before + [rows[n]] else before
  }

  lemma WithIdsAppend(rows: seq<Message>, r: Message, kept: set<nat>)
    ensures WithIds(rows + [r], kept) == if r.id in kept then WithIds(rows, kept) + [r] else WithIds(rows, kept)
  {
    assert (rows + [r])[..|rows|] == rows;
  }

  lemma {:induction false} DeleteKeepsIds(rows: seq<Message>, chatId: string, kept: set<nat>)
    ensures ChatRows(DeleteExcept(rows, chatId, kept), chatId) == WithIds(ChatRows(rows, chatId), kept)
  {
    if rows != [] {
      var n := |rows| - 1;
      DeleteKeepsIds(rows[..n], chatId, kept);
      ChatRowsAppend(DeleteExcept(rows[..n], chatId, kept), rows[n], chatId);
      if rows[n].chatId == chatId {
        WithIdsAppend(ChatRows(rows[..n], chatId), rows[n], kept);
      }
    }
  }

  lemma {:induction false} ChatRowsSorted(rows: seq<Message>, chatId: string)
    requires Sorted(rows)
    ensures Sorted(ChatRows(rows, chatId)) && forall r :: r in ChatRows(rows, chatId) ==> r in rows && r.chatId == chatId
  {
    if rows != [] {
      var n := |rows| - 1;
      ChatRowsSorted(rows[..n], chatId);
      var rest := ChatRows(rows[..n], chatId);
      forall i | 0 <= i < |rest|
        ensures rest[i].id < rows[n].id
      {
        assert rest[i] in rows[..n];
      }
    }
  }

  lemma {:induction false} RowsOfChat(rows: seq<Message>, chatId: string, r: Message)
    requires r in rows && r.chatId == chatId
    ensures r in ChatRows(rows, chatId)
  {
    var n := |rows| - 1;
    if r != rows[n] {
      RowsOfChat(rows[..n], chatId, r);
    }
  }

  lemma NewerIsBehind(rows: seq<Message>, chatId: string, id: int, m: nat, x: nat)
    requires m <= |ChatRows(rows, chatId)| && x in NewerIds(rows, chatId, id)
    requires forall i :: 0 <= i < |ChatRows(rows, chatId)| ==> (ChatRows(rows, chatId)[i].id > id <==> i >= m)
    ensures x in IdsOf(ChatRows(rows, chatId)[m..])
  {
    hide ChatRows;
    var chat := ChatRows(rows, chatId);
    var i :| 0 <= i < |rows| && rows[i].chatId == chatId && rows[i].id > id && rows[i].id == x;
    RowsOfChat(rows, chatId, rows[i]);
    var j :| 0 <= j < |chat| && chat[j] == rows[i];
    assert chat[m..][j - m] == chat[j];
  }

  lemma BehindIsNewer(rows: seq<Message>, chatId: string, id: int, m: nat, x: nat)
    requires Sorted(rows) && m <= |ChatRows(rows, chatId)| && x in IdsOf(ChatRows(rows, chatId)[m..])
    requires forall i :: 0 <= i < |ChatRows(rows, chatId)| ==> (ChatRows(rows, chatId)[i].id > id <==> i >= m)
    ensures x in NewerIds(rows, chatId, id)
  {
    hide ChatRows, Sorted;
    var chat := ChatRows(rows, chatId);
    ChatRowsSorted(rows, chatId);
    var j :| 0 <= j < |chat[m..]| && chat[m..][j].id == x;
    assert chat[m + j] in chat;
  }

  /** The newer rows of a chat are the ones behind in the listing by id. */
  lemma NewerAreBehind(rows: seq<Message>, chatId: string, id: int, m: nat)
    requires Sorted(rows) && m <= |ChatRows(rows, chatId)|
    requires forall i :: 0 <= i < |ChatRows(rows, chatId)| ==> (ChatRows(rows, chatId)[i].id > id <==> i >= m)
    ensures NewerIds(rows, chatId, id) == IdsOf(ChatRows(rows, chatId)[m..])
  {
    hide ChatRows, Sorted, NewerIds, IdsOf;
    forall x | x in NewerIds(rows, chatId, id)
      ensures x in IdsOf(ChatRows(rows, chatId)[m..])
    {
      NewerIsBehind(rows, chatId, id, m, x);
    }
    forall x | x in IdsOf(ChatRows(rows, chatId)[m..])
      ensures x in NewerIds(rows, chatId, id)
    {
      BehindIsNewer(rows, chatId, id, m, x);
    }
  }

  /** The last row brings a new id. */
  lemma LastIdIsNew(rows: seq<Message>)
    requires Sorted(rows) && rows != []
    ensures var n := |rows| - 1; IdsOf(rows) == IdsOf(rows[..n]) + {rows[n].id} && rows[n].id !in IdsOf(rows[..n])
  {
    var n := |rows| - 1;
    assert rows == rows[..n] + [rows[n]];
    forall x | x in IdsOf(rows)
      ensures x in IdsOf(rows[..n]) + {rows[n].id}
    {
      var i :| 0 <= i < |rows| && rows[i].id == x;
      assert i < n ==> rows[..n][i].id == x;
    }
    forall x | x in IdsOf(rows[..n])
      ensures x in IdsOf(rows) && x != rows[n].id
    {
      var i :| 0 <= i < n && rows[..n][i].id == x;
      assert rows[i].id == x;
    }
  }

  lemma {:induction false} DistinctIds(rows: seq<Message>)
    requires Sorted(rows)
    ensures |IdsOf(rows)| == |rows|
  {
    if rows == [] {
      assert IdsOf(rows) == {};
    } else {
      DistinctIds(rows[..|rows| - 1]);
      LastIdIsNew(rows);
      hide IdsOf, Sorted;
      assert |IdsOf(rows)| == |IdsOf(rows[..|rows| - 1])| + 1;
    }
  }

  lemma CountNewer(rows: seq<Message>, chatId: string, id: int, m: nat)
    requires Sorted(rows) && m <= |ChatRows(rows, chatId)|
    requires forall i :: 0 <= i < |ChatRows(rows, chatId)| ==> (ChatRows(rows, chatId)[i].id > id <==> i >= m)
    ensures |NewerIds(rows, chatId, id)| == |ChatRows(rows, chatId)| - m
  {
    hide ChatRows, IdsOf, NewerIds;
    var chat := ChatRows(rows, chatId);
    NewerAreBehind(rows, chatId, id, m);
    ChatRowsSorted(rows, chatId);
    assert Sorted(chat[m..]);
    DistinctIds(chat[m..]);
  }

  lemma NewestAt(rows: seq<Message>, chatId: string, k: nat)
    requires Sorted(rows) && k < |ChatRows(rows, chatId)|
    ensures var chat := ChatRows(rows, chatId); IsNewest(rows, chatId, k, chat[|chat| - 1 - k].messageId)
  {
    hide ChatRows, NewerIds;
    var chat := ChatRows(rows, chatId);
    var r := chat[|chat| - 1 - k];
    ChatRowsSorted(rows, chatId);
    CountNewer(rows, chatId, r.id, |chat| - k);
    assert r in chat;
    var i :| 0 <= i < |rows| && rows[i] == r;
  }

  lemma RecentIdsListed(rows: seq<Message>, chatId: string, limit: int)
    ensures var chat, ids := ChatRows(rows, chatId), RecentIds(rows, chatId, limit);
            && |ids| == (if limit < 0 then |chat| else Min(limit, |chat|))
            && forall k :: 0 <= k < |ids| ==> ids[k] == chat[|chat| - 1 - k].messageId
  {
    hide ChatRows;
  }

  /** The query by id: as many ids as the limit allows, the k-th being that of the row with the k-th largest id. */
  lemma RecentIdsAreNewest(rows: seq<Message>, chatId: string, limit: int)
    requires Sorted(rows)
    ensures var ids := RecentIds(rows, chatId, limit);
            && |ids| == (if limit < 0 then ChatSize(rows, chatId) else Min(limit, ChatSize(rows, chatId)))
            && forall k :: 0 <= k < |ids| ==> IsNewest(rows, chatId, k, ids[k])
  {
    hide ChatRows, NewerIds, RecentIds, IsNewest, Sorted;
    RecentIdsListed(rows, chatId, limit);
    CountNewer(rows, chatId, -1, 0);
    var ids := RecentIds(rows, chatId, limit);
    forall k | 0 <= k < |ids|
      ensures IsNewest(rows, chatId, k, ids[k])
    {
      NewestAt(rows, chatId, k);
    }
  }

  lemma IdIsNewest(rows: seq<Message>, m: nat, k: nat)
    requires Sorted(rows) && m <= |rows| && k < |rows|
    ensures rows[k].id in IdsOf(rows[m..]) <==> k >= m
  {
    var newest := rows[m..];
    if k >= m {
      assert newest[k - m] == rows[k];
    } else {
      assert forall i :: 0 <= i < |newest| ==> newest[i] == rows[m + i] && newest[i].id > rows[k].id;
    }
  }

  lemma NoRowsNoIds(kept: set<nat>)
    ensures WithIds([], kept) == []
  {
  }

  /** Of sorted rows, those whose id is among the newest are the newest themselves. */
  lemma {:induction false} WithNewestIds(rows: seq<Message>, m: nat, upTo: nat)
    requires Sorted(rows) && m <= |rows| && upTo <= |rows|
    ensures WithIds(rows[..upTo], IdsOf(rows[m..])) == if upTo <= m then [] else rows[m..upTo]
  {
    hide WithIds, IdsOf, Sorted;
    NoRowsNoIds(IdsOf(rows[m..]));
    if upTo > 0 {
      WithNewestIds(rows, m, upTo - 1);
      IdIsNewest(rows, m, upTo - 1);
      WithIdsAppend(rows[..upTo - 1], rows[upTo - 1], IdsOf(rows[m..]));
      assert rows[..upTo] == rows[..upTo - 1] + [rows[upTo - 1]];
    } else {
      assert rows[..upTo] == [];
    }
  }

  lemma TrimChatKeepsNewest(rows: seq<Message>, chatId: string, limit: int)
    requires Sorted(rows)
    ensures ChatRows(TrimChat(rows, chatId, limit), chatId) == Newest(ChatRows(rows, chatId), limit)
  {
    hide ChatRows, DeleteExcept, WithIds, IdsOf, Sorted, Newest;
    var c := ChatRows(rows, chatId);
    var kept := Newest(c, limit);
    DeleteKeepsIds(rows, chatId, IdsOf(kept));
    ChatRowsSorted(rows, chatId);
    NewestIsSuffix(c, limit);
    WithNewestIds(c, |c| - |kept|, |c|);
    assert c[..|c|] == c;
    assert kept == [] ==> c[|c|..|c|] == [];
  }

  lemma NewestIsSuffix<T>(rows: seq<T>, limit: int)
    ensures |Newest(rows, limit)| <= |rows| && Newest(rows, limit) == rows[|rows| - |Newest(rows, limit)|..]
  {
  }

  lemma NewestTwice<T>(rows: seq<T>, a: int, b: int)
    requires 0 <= b && (a < 0 || b <= a)
    ensures Newest(Newest(rows, a), b) == Newest(rows, b)
  {
  }

  lemma NewestAgain<T>(rows: seq<T>, limit: int)
    ensures Newest(Newest(rows, limit), limit) == Newest(rows, limit)
  {
  }

  /** What trimming one chat does to the rows of any chat. */
  lemma TrimChatRows(rows: seq<Message>, trimmed: string, limit: int, chatId: string)
    requires Sorted(rows)
    ensures ChatRows(TrimChat(rows, trimmed, limit), chatId)
            == if trimmed == chatId then Newest(ChatRows(rows, chatId), limit) else ChatRows(rows, chatId)
  {
    hide ChatRows, Newest, DeleteExcept, IdsOf, Sorted;
    if trimmed == chatId {
      TrimChatKeepsNewest(rows, chatId, limit);
    } else {
      OtherChatsUntouched(rows, trimmed, IdsOf(Newest(ChatRows(rows, trimmed), limit)), chatId);
    }
  }

  lemma InOneMore(chats: seq<string>, chatId: string)
    requires chats != []
    ensures chatId in chats <==> chatId in chats[..|chats| - 1] || chatId == chats[|chats| - 1]
  {
    assert chats == chats[..|chats| - 1] + [chats[|chats| - 1]];
  }

  lemma {:induction false} TrimChatsKeepsNewest(rows: seq<Message>, chats: seq<string>, limit: int, chatId: string)
    requires Sorted(rows)
    ensures ChatRows(TrimChats(rows, chats, limit), chatId)
            == if chatId in chats then Newest(ChatRows(rows, chatId), limit) else ChatRows(rows, chatId)
  {
    hide ChatRows, Newest, TrimChat, Sorted;
    if chats != [] {
      var n := |chats| - 1;
      TrimChatsKeepsNewest(rows, chats[..n], limit, chatId);
      TrimChatsIsSorted(rows, chats[..n], limit);
      TrimChatRows(TrimChats(rows, chats[..n], limit), chats[n], limit, chatId);
      NewestAgain(ChatRows(rows, chatId), limit);
      InOneMore(chats, chatId);
    }
  }

  lemma {:induction false} ChatsAreAll(rows: seq<Message>, chatId: string)
    ensures chatId in Chats(rows) <==> ChatRows(rows, chatId) != []
  {
    if rows != [] {
      ChatsAreAll(rows[..|rows| - 1], chatId);
    }
  }

  /** Each trim keeps exactly the newest min(count, limit) rows of every chat. */
  lemma TrimKeepsNewest(log: Log, limit: int, chatId: string)
    requires ValidLog(log)
    ensures ChatRows(Trim(log.rows, limit), chatId) == Newest(ChatRows(log.rows, chatId), limit)
  {
    TrimChatsKeepsNewest(log.rows, Chats(log.rows), limit, chatId);
    ChatsAreAll(log.rows, chatId);
  }

  lemma {:induction false} NothingToDelete(rows: seq<Message>, chatId: string, kept: set<nat>)
    requires forall r :: r in rows && r.chatId == chatId ==> r.id in kept
    ensures DeleteExcept(rows, chatId, kept) == rows
  {
    if rows != [] {
      var n := |rows| - 1;
      NothingToDelete(rows[..n], chatId, kept);
      assert rows[n] in rows;
    }
  }

  lemma {:induction false} SmallChatsStay(rows: seq<Message>, chats: seq<string>, limit: int)
    requires forall c :: Newest(ChatRows(rows, c), limit) == ChatRows(rows, c)
    ensures TrimChats(rows, chats, limit) == rows
  {
    if chats != [] {
      var c := chats[|chats| - 1];
      SmallChatsStay(rows, chats[..|chats| - 1], limit);
      forall r | r in rows && r.chatId == c
        ensures r.id in IdsOf(Newest(ChatRows(rows, c), limit))
      {
        RowsOfChat(rows, c, r);
        var i :| 0 <= i < |ChatRows(rows, c)| && ChatRows(rows, c)[i] == r;
      }
      NothingToDelete(rows, c, IdsOf(Newest(ChatRows(rows, c), limit)));
    }
  }

  /** A second trim deletes nothing. */
  lemma TrimIsIdempotent(log: Log, limit: int)
    requires ValidLog(log)
    ensures Trim(Trim(log.rows, limit), limit) == Trim(log.rows, limit)
  {
    var once := Trim(log.rows, limit);
    forall c
      ensures Newest(ChatRows(once, c), limit) == ChatRows(once, c)
    {
      TrimKeepsNewest(log, limit, c);
    }
    SmallChatsStay(once, Chats(once), limit);
  }

  // ---- Trimming cannot be noticed ----

  datatype Event =
    | Save(chatId: string, messageId: string, senderId: Option<string>, text: Option<string>)
    | Janitor(limit: int)

  function LogAfter(events: seq<Event>): Log {
    if events == [] then EMPTY_LOG
    else
      var n := |events| - 1;
      var before := LogAfter(events[..n]);
      match events[n]
      case Save(chatId, messageId, senderId, text) => Saved(before, chatId, messageId, senderId, text)
      case Janitor(limit) => before.(rows := Trim(before.rows, limit))
  }

  /** The log as it would be had it never been trimmed. */
  function FullLog(events: seq<Event>): Log {
    if events == [] then EMPTY_LOG
    else
      var n := |events| - 1;
      var before := FullLog(events[..n]);
      match events[n]
      case Save(chatId, messageId, senderId, text) => Saved(before, chatId, messageId, senderId, text)
      case Janitor(_) => before
  }

  /** A trim at `limit` leaves a query for `l` messages alone. */
  predicate Covers(limit: int, l: int) {
    limit < 0 || 0 <= l <= limit
  }

  ghost predicate AllCover(events: seq<Event>, l: int) {
    forall i :: 0 <= i < |events| && events[i].Janitor? ==> Covers(events[i].limit, l)
  }

  lemma {:induction false} LogIsValid(events: seq<Event>)
    ensures ValidLog(LogAfter(events)) && LogAfter(events).nextId == FullLog(events).nextId
  {
    if events != [] {
      var n := |events| - 1;
      LogIsValid(events[..n]);
      if events[n].Janitor? {
        TrimIsSorted(LogAfter(events[..n]), events[n].limit);
      }
    }
  }

  lemma NewestOfAppend<T>(a: seq<T>, b: seq<T>, x: seq<T>, l: nat)
    requires Newest(a, l) == Newest(b, l)
    ensures Newest(a + x, l) == Newest(b + x, l)
  {
    var p, q := LastN(a, l), LastN(b, l);
    assert |a| == |b| || (|a| >= l && |b| >= l);
    assert LastN(a + x, l) == LastN(p + x, l);
    assert LastN(b + x, l) == LastN(q + x, l);
  }

  lemma {:induction false} NewestRowsAgree(events: seq<Event>, l: nat, chatId: string)
    requires AllCover(events, l)
    ensures Newest(ChatRows(LogAfter(events).rows, chatId), l) == Newest(ChatRows(FullLog(events).rows, chatId), l)
  {
    if events != [] {
      var n := |events| - 1;
      NewestRowsAgree(events[..n], l, chatId);
      LogIsValid(events[..n]);
      var before, full := LogAfter(events[..n]), FullLog(events[..n]);
      match events[n]
      case Save(c, m, senderId, text) =>
        var r := Message(before.nextId, c, m, senderId, text);
        ChatRowsAppend(before.rows, r, chatId);
        ChatRowsAppend(full.rows, r, chatId);
        NewestOfAppend(ChatRows(before.rows, chatId), ChatRows(full.rows, chatId), if c == chatId then [r] else [], l);
      case Janitor(limit) =>
        TrimKeepsNewest(before, limit, chatId);
        assert Covers(limit, l);
        NewestTwice(ChatRows(before.rows, chatId), limit, l);
    }
  }

  /**
   Any interleaving of saves and trims answers a query for `l` recent messages as if nothing had ever been
   trimmed, when every trim kept at least `l` messages or had no limit.
   */
  lemma TrimmingIsInvisible(events: seq<Event>, l: int, chatId: string)
    requires AllCover(events, l)
    ensures RecentIds(LogAfter(events).rows, chatId, l) == RecentIds(FullLog(events).rows, chatId, l)
  {
    if l >= 0 {
      NewestRowsAgree(events, l, chatId);
    } else {
      UnlimitedTrimsDoNothing(events);
    }
  }

  /** The message ids that a history saved for a chat, newest first. */
  function SavedIds(events: seq<Event>, chatId: string): seq<string> {
    if events == [] then []
    else
      var n := |events| - 1;
      var e := events[n];
      (if e.Save? && e.chatId == chatId then [e.messageId] else []) + SavedIds(events[..n], chatId)
  }

  lemma {:induction false} FullLogListsSaves(events: seq<Event>, chatId: string)
    ensures RecentIds(FullLog(events).rows, chatId, -1) == SavedIds(events, chatId)
  {
    hide RecentIds;
    if events == [] {
      NothingListed(chatId);
    } else {
      var n := |events| - 1;
      FullLogListsSaves(events[..n], chatId);
      match events[n]
      case Save(c, m, senderId, text) =>
        SaveIsListed(FullLog(events[..n]), c, m, senderId, text, chatId, -1);
      case Janitor(_) =>
    }
  }

  lemma NothingListed(chatId: string)
    ensures RecentIds([], chatId, -1) == []
  {
  }

  /**
   What a query for `l` recent messages answers after any history whose trims all keep at least `l` messages:
   the ids that the history saved for that chat, newest first, cut to `l` (all of them for a negative limit).
   */
  lemma QueryListsSaves(events: seq<Event>, l: int, chatId: string)
    requires AllCover(events, l)
    ensures RecentIds(LogAfter(events).rows, chatId, l) == Top(SavedIds(events, chatId), l)
  {
    hide RecentIds, AllCover;
    TrimmingIsInvisible(events, l, chatId);
    FullLogListsSaves(events, chatId);
    RecentIsTop(FullLog(events).rows, chatId, l);
  }

  lemma {:induction false} UnlimitedTrimsDoNothing(events: seq<Event>)
    requires forall i :: 0 <= i < |events| && events[i].Janitor? ==> events[i].limit < 0
    ensures LogAfter(events) == FullLog(events)
  {
    if events != [] {
      var n := |events| - 1;
      UnlimitedTrimsDoNothing(events[..n]);
      if events[n].Janitor? {
        var rows := LogAfter(events[..n]).rows;
        SmallChatsStay(rows, Chats(rows), events[n].limit);
      }
    }
  }

  function Saves(chatId: string, n: nat): seq<Event> {
    seq(n, _ => Save(chatId, "m", None, None))
  }

  lemma OneMoreSave(chatId: string, n: nat)
    requires n > 0
    ensures var before, full := LogAfter(Saves(chatId, n - 1)), FullLog(Saves(chatId, n - 1));
            && LogAfter(Saves(chatId, n)) == Saved(before, chatId, "m", None, None)
            && FullLog(Saves(chatId, n)) == Saved(full, chatId, "m", None, None)
  {
    assert Saves(chatId, n)[..n - 1] == Saves(chatId, n - 1);
  }

  lemma NoSaves(chatId: string)
    ensures LogAfter(Saves(chatId, 0)) == FullLog(Saves(chatId, 0)) == EMPTY_LOG
    ensures ChatRows([], chatId) == []
  {
  }

  lemma {:induction false} SavesFill(chatId: string, n: nat)
    ensures LogAfter(Saves(chatId, n)) == FullLog(Saves(chatId, n))
    ensures |ChatRows(LogAfter(Saves(chatId, n)).rows, chatId)| == n
  {
    hide LogAfter, FullLog, Saves, ChatRows;
    if n > 0 {
      SavesFill(chatId, n - 1);
      OneMoreSave(chatId, n);
      var before := LogAfter(Saves(chatId, n - 1));
      ChatRowsAppend(before.rows, Message(before.nextId, chatId, "m", None, None), chatId);
    } else {
      NoSaves(chatId);
    }
  }

  /** Otherwise it can be noticed: some history trimmed at `limit` answers a query for `l` messages differently. */
  lemma TrimmingIsVisibleOtherwise(limit: int, l: int, chatId: string)
    requires !Covers(limit, l)
    ensures var events := Saves(chatId, limit + 1) + [Janitor(limit)];
            RecentIds(LogAfter(events).rows, chatId, l) != RecentIds(FullLog(events).rows, chatId, l)
  {
    var saves := Saves(chatId, limit + 1);
    var events := saves + [Janitor(limit)];
    assert events[..|saves|] == saves;
    SavesFill(chatId, limit + 1);
    LogIsValid(saves);
    TrimKeepsNewest(LogAfter(saves), limit, chatId);
    assert |RecentIds(LogAfter(events).rows, chatId, l)| <= limit;
  }
}
