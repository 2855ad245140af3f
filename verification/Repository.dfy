/**
 The group settings of app/db/repository.py: a table, and a cache in front of it that every write through
 the repository invalidates.
 */
module Repositories {
  import opened Basics
  import opened LruTtlCaches

  datatype GroupSettings = GroupSettings(
    chatId: string,
    title: Option<string>,
    antiLink: bool,
    antiFlood: bool,
    antiSpam: bool,
    antiBadwords: bool,
    antiForward: bool,
    floodLimit: int)

  /** The columns of a row of the groups table, apart from its key and its time stamps. */
  datatype Row = Row(
    title: Option<string>,
    antiLink: bool,
    antiFlood: bool,
    antiSpam: bool,
    antiBadwords: bool,
    antiForward: bool,
    floodLimit: int)

  type Table = map<string, Row>

  datatype Flag = AntiLink | AntiFlood | AntiSpam | AntiBadwords | AntiForward

  /** The column defaults of the schema. */
  function InsertedRow(title: Option<string>): Row {
    Row(title, true, false, false, false, false, 6)
  }

  /** What the code answers for a group without a row. */
  function MissingRow(chatId: string): GroupSettings {
    GroupSettings(chatId, None, true, false, false, false, false, 6)
  }

  /** The settings the table stands for. */
  function SettingsOf(table: Table, chatId: string): GroupSettings {
    if chatId in table then
      var row := table[chatId];
      GroupSettings(chatId, row.title, row.antiLink, row.antiFlood, row.antiSpam, row.antiBadwords,
                    row.antiForward, row.floodLimit)
    else MissingRow(chatId)
  }

  function WithFlag(row: Row, flag: Flag, value: bool): Row {
    match flag
    case AntiLink => row.(antiLink := value)
    case AntiFlood => row.(antiFlood := value)
    case AntiSpam => row.(antiSpam := value)
    case AntiBadwords => row.(antiBadwords := value)
    case AntiForward => row.(antiForward := value)
  }

  function Upserted(table: Table, chatId: string, title: Option<string>): Table {
    table[chatId := if chatId in table then table[chatId].(title := title) else InsertedRow(title)]
  }

  /** An UPDATE of a missing row changes nothing. */
  function Flagged(table: Table, chatId: string, flag: Flag, value: bool): Table {
    if chatId in table then table[chatId := WithFlag(table[chatId], flag, value)] else table
  }

  // ---- The repository as a value ----

  type Cached = Entries<string, GroupSettings>

  datatype State = State(table: Table, cache: Cached)

  function Lookup(s: State, chatId: string, now: real, ttl: int): GroupSettings {
    if Hit(s.cache, chatId, now, ttl) then s.cache[IndexOf(s.cache, chatId)].value else SettingsOf(s.table, chatId)
  }

  function AfterLookup(s: State, chatId: string, now: real, maxSize: nat, ttl: int): State {
    var got := AfterGet(s.cache, chatId, now, ttl);
    if Hit(s.cache, chatId, now, ttl) then s.(cache := got)
    else s.(cache := AfterSet(got, chatId, SettingsOf(s.table, chatId), now, maxSize))
  }

  class Repository {
    var groups: Table
    const groupCache: LruTtlCache<string, GroupSettings>

    ghost function View(): State
      reads this, groupCache
    {
      State(groups, groupCache.data)
    }

    ghost predicate Valid()
      reads groupCache
    {
      groupCache.Valid()
    }

    constructor (cacheSize: int, cacheTtlSeconds: int, groups: Table)
      ensures Valid() && fresh(groupCache) && View() == State(groups, [])
      ensures groupCache.maxSize == Max(1, cacheSize) && groupCache.ttlSeconds == Max(1, cacheTtlSeconds)
    {
      this.groups := groups;
      groupCache := new LruTtlCache(cacheSize, cacheTtlSeconds);
    }

    method GetGroup(chatId: string, now: real) returns (settings: GroupSettings)
      requires Valid()
      modifies groupCache
      ensures Valid()
      ensures settings == Lookup(old(View()), chatId, now, groupCache.ttlSeconds)
      ensures View() == AfterLookup(old(View()), chatId, now, groupCache.maxSize, groupCache.ttlSeconds)
    {
      var cached := groupCache.Get(chatId, now);
      if cached.Some? {
        return cached.value;
      }
      if chatId !in groups {
        settings := MissingRow(chatId);
        groupCache.Set(chatId, settings, now);
        return;
      }
      var row := groups[chatId];
      settings := GroupSettings(chatId, row.title, row.antiLink, row.antiFlood, row.antiSpam, row.antiBadwords,
                                row.antiForward, row.floodLimit);
      groupCache.Set(chatId, settings, now);
    }

    method UpsertGroup(chatId: string, title: Option<string>, now: real) returns (settings: GroupSettings)
      requires Valid()
      modifies this`groups, groupCache
      ensures Valid()
      ensures var s := State(Upserted(old(groups), chatId, title), Without(old(groupCache.data), chatId));
              && settings == Lookup(s, chatId, now, groupCache.ttlSeconds)
              && View() == AfterLookup(s, chatId, now, groupCache.maxSize, groupCache.ttlSeconds)
    {
      groups := groups[chatId := if chatId in groups then groups[chatId].(title := title) else InsertedRow(title)];
      groupCache.Invalidate(chatId);
      settings := GetGroup(chatId, now);
    }

    method SetGroupFlag(chatId: string, key: Flag, value: bool)
      requires Valid()
      modifies this`groups, groupCache
      ensures Valid()
      ensures View() == State(Flagged(old(groups), chatId, key, value), Without(old(groupCache.data), chatId))
    {
      if chatId in groups {
        groups := groups[chatId := WithFlag(groups[chatId], key, value)];
      }
      groupCache.Invalidate(chatId);
    }
  }

  // ---- Histories ----

  /** What happens to a repository; `Outside` is a write by another process, to any new contents. */
  datatype Event =
    | Get(chatId: string, now: real)
    | Upsert(chatId: string, title: Option<string>, now: real)
    | SetFlag(chatId: string, flag: Flag, value: bool, now: real)
    | Outside(table: Table, now: real)

  function TableStep(table: Table, e: Event): Table {
    match e
    case Get(_, _) => table
    case Upsert(chatId, title, _) => Upserted(table, chatId, title)
    case SetFlag(chatId, flag, value, _) => Flagged(table, chatId, flag, value)
    case Outside(contents, _) => contents
  }

  /** The state in which the lookup of a `Get` or an `Upsert` is made. */
  function Prepared(s: State, e: Event): State {
    match e
    case Upsert(chatId, title, _) => State(Upserted(s.table, chatId, title), Without(s.cache, chatId))
    case _ => s
  }

  function StateStep(s: State, e: Event, maxSize: nat, ttl: int): State {
    match e
    case Get(chatId, now) => AfterLookup(Prepared(s, e), chatId, now, maxSize, ttl)
    case Upsert(chatId, _, now) => AfterLookup(Prepared(s, e), chatId, now, maxSize, ttl)
    case SetFlag(chatId, _, _, _) => State(TableStep(s.table, e), Without(s.cache, chatId))
    case Outside(_, _) => State(TableStep(s.table, e), s.cache)
  }

  function TableAfter(t0: Table, events: seq<Event>): Table {
    if events == [] then t0
    else var n := |events| - 1; TableStep(TableAfter(t0, events[..n]), events[n])
  }

  function StateAfter(t0: Table, events: seq<Event>, maxSize: nat, ttl: int): State {
    if events == [] then State(t0, [])
    else var n := |events| - 1; StateStep(StateAfter(t0, events[..n], maxSize, ttl), events[n], maxSize, ttl)
  }

  /** The settings returned by event number `n`, when it returns any. */
  function Reply(t0: Table, events: seq<Event>, maxSize: nat, ttl: int, n: nat): Option<GroupSettings>
    requires n < |events|
  {
    var s := StateAfter(t0, events[..n], maxSize, ttl);
    var e := events[n];
    if e.Get? || e.Upsert? then Some(Lookup(Prepared(s, e), e.chatId, e.now, ttl)) else None
  }

  /** What a repository without a cache would return. */
  function UncachedReply(t0: Table, events: seq<Event>, n: nat): Option<GroupSettings>
    requires n < |events|
  {
    var e := events[n];
    if e.Get? || e.Upsert? then Some(SettingsOf(TableAfter(t0, events[..n + 1]), e.chatId)) else None
  }

  lemma {:induction false} TableIsTheTable(t0: Table, events: seq<Event>, maxSize: nat, ttl: int)
    ensures StateAfter(t0, events, maxSize, ttl).table == TableAfter(t0, events)
  {
    if events != [] {
      TableIsTheTable(t0, events[..|events| - 1], maxSize, ttl);
    }
  }

  lemma TableAfterOne(t0: Table, events: seq<Event>, n: nat)
    requires n < |events|
    ensures TableAfter(t0, events[..n + 1]) == TableStep(TableAfter(t0, events[..n]), events[n])
  {
    assert events[..n + 1][..n] == events[..n];
  }

  // ---- Cached entries ----

  lemma WithoutIsSublist(data: Cached, chatId: string, i: nat)
    requires i < |Without(data, chatId)|
    ensures Without(data, chatId)[i] in data
  {
    hide Has, IndexOf;
    var d := if Has(data, chatId) then IndexOf(data, chatId) else |data|;
    assert Without(data, chatId)[i] == data[if i < d then i else i + 1];
  }

  /** After a lookup every entry is an old one, or the one just read from the table at this moment. */
  lemma LookupEntries(s: State, chatId: string, now: real, maxSize: nat, ttl: int, x: Entry<string, GroupSettings>)
    requires x in AfterLookup(s, chatId, now, maxSize, ttl).cache
    ensures x in s.cache || x == Entry(chatId, now, SettingsOf(s.table, chatId))
  {
    var got := AfterGet(s.cache, chatId, now, ttl);
    forall y | y in Without(s.cache, chatId)
      ensures y in s.cache
    {
      var i :| 0 <= i < |Without(s.cache, chatId)| && Without(s.cache, chatId)[i] == y;
      WithoutIsSublist(s.cache, chatId, i);
    }
    forall y | y in Without(got, chatId)
      ensures y in got
    {
      var i :| 0 <= i < |Without(got, chatId)| && Without(got, chatId)[i] == y;
      WithoutIsSublist(got, chatId, i);
    }
  }

  // ---- Transparency ----

  ghost predicate Agrees(s: State) {
    && Distinct(KeysOf(s.cache))
    && (forall x :: x in s.cache ==> x.value == SettingsOf(s.table, x.key))
  }

  lemma WithoutAgrees(s: State, table: Table, chatId: string)
    requires Agrees(s)
    requires forall c :: c != chatId ==> SettingsOf(table, c) == SettingsOf(s.table, c)
    ensures Agrees(State(table, Without(s.cache, chatId)))
  {
    WithoutKeeps(s.cache, chatId);
    var rest := Without(s.cache, chatId);
    forall x | x in rest
      ensures x.value == SettingsOf(table, x.key)
    {
      var i :| 0 <= i < |rest| && rest[i] == x;
      WithoutIsSublist(s.cache, chatId, i);
    }
  }

  lemma LookupKeepsDistinct(s: State, chatId: string, now: real, maxSize: nat, ttl: int)
    requires Distinct(KeysOf(s.cache))
    ensures Distinct(KeysOf(AfterLookup(s, chatId, now, maxSize, ttl).cache))
  {
    var got := AfterGet(s.cache, chatId, now, ttl);
    WithoutKeeps(s.cache, chatId);
    if Hit(s.cache, chatId, now, ttl) {
      AppendKeeps(Without(s.cache, chatId), s.cache[IndexOf(s.cache, chatId)]);
    } else {
      var e := Entry(chatId, now, SettingsOf(s.table, chatId));
      WithoutKeeps(got, chatId);
      AppendKeeps(Without(got, chatId), e);
      SuffixKeeps(Without(got, chatId) + [e], LastN(Without(got, chatId) + [e], maxSize));
    }
  }

  lemma LookupAgrees(s: State, chatId: string, now: real, maxSize: nat, ttl: int)
    requires Agrees(s)
    ensures Agrees(AfterLookup(s, chatId, now, maxSize, ttl))
    ensures Lookup(s, chatId, now, ttl) == SettingsOf(s.table, chatId)
  {
    var t := AfterLookup(s, chatId, now, maxSize, ttl);
    LookupKeepsDistinct(s, chatId, now, maxSize, ttl);
    forall x | x in t.cache
      ensures x.value == SettingsOf(t.table, x.key)
    {
      LookupEntries(s, chatId, now, maxSize, ttl, x);
    }
  }

  lemma PreparedAgrees(s: State, e: Event)
    requires Agrees(s) && !e.Outside?
    ensures Agrees(Prepared(s, e))
  {
    if e.Upsert? {
      WithoutAgrees(s, Upserted(s.table, e.chatId, e.title), e.chatId);
    }
  }

  ghost predicate NoOutsideWrites(events: seq<Event>) {
    forall i :: 0 <= i < |events| ==> !events[i].Outside?
  }

  lemma {:induction false} CacheAgrees(t0: Table, events: seq<Event>, maxSize: nat, ttl: int)
    requires NoOutsideWrites(events)
    ensures Agrees(StateAfter(t0, events, maxSize, ttl))
  {
    if events != [] {
      var n := |events| - 1;
      var s := StateAfter(t0, events[..n], maxSize, ttl);
      CacheAgrees(t0, events[..n], maxSize, ttl);
      PreparedAgrees(s, events[n]);
      match events[n]
      case Get(chatId, now) => LookupAgrees(s, chatId, now, maxSize, ttl);
      case Upsert(chatId, _, now) => LookupAgrees(Prepared(s, events[n]), chatId, now, maxSize, ttl);
      case SetFlag(chatId, flag, value, _) => WithoutAgrees(s, Flagged(s.table, chatId, flag, value), chatId);
    }
  }

  /**
   Transparency: as long as all writes go through the repository, every reply is the one a repository
   without a cache gives, whatever the cache size, the time-to-live and the times of the calls.
   */
  lemma CacheIsTransparent(t0: Table, events: seq<Event>, maxSize: nat, ttl: int, n: nat)
    requires NoOutsideWrites(events) && n < |events|
    ensures Reply(t0, events, maxSize, ttl, n) == UncachedReply(t0, events, n)
  {
    hide Without, Agrees, SettingsOf, Lookup, StateAfter;
    var e := events[n];
    var s := StateAfter(t0, events[..n], maxSize, ttl);
    CacheAgrees(t0, events[..n], maxSize, ttl);
    TableIsTheTable(t0, events[..n], maxSize, ttl);
    TableAfterOne(t0, events, n);
    if e.Get? || e.Upsert? {
      PreparedAgrees(s, e);
      LookupAgrees(Prepared(s, e), e.chatId, e.now, maxSize, ttl);
    }
  }

  /** Inserting a missing group changes only its title: the schema's defaults are those of the code. */
  lemma InsertChangesOnlyTitle(table: Table, chatId: string, title: Option<string>, other: string)
    ensures SettingsOf(Upserted(table, chatId, title), chatId) == SettingsOf(table, chatId).(title := title)
    ensures other != chatId ==> SettingsOf(Upserted(table, chatId, title), other) == SettingsOf(table, other)
  {
  }

  // ---- What the settings say ----

  /** The settings of a group with a row are its columns, and those of one without are the defaults. */
  lemma SettingsAreColumns(table: Table, chatId: string)
    ensures chatId in table ==>
              var s, row := SettingsOf(table, chatId), table[chatId];
              && s.chatId == chatId && s.title == row.title && s.floodLimit == row.floodLimit
              && s.antiLink == row.antiLink && s.antiFlood == row.antiFlood && s.antiSpam == row.antiSpam
              && s.antiBadwords == row.antiBadwords && s.antiForward == row.antiForward
    ensures chatId !in table ==>
              var s := SettingsOf(table, chatId);
              && s.chatId == chatId && s.title == None && s.floodLimit == 6
              && s.antiLink && !s.antiFlood && !s.antiSpam && !s.antiBadwords && !s.antiForward
  {
  }

  lemma FlaggedSettings(table: Table, chatId: string, flag: Flag, value: bool)
    requires chatId in table
    ensures var s, t := SettingsOf(table, chatId), SettingsOf(Flagged(table, chatId, flag, value), chatId);
            && (flag.AntiLink? ==> t == s.(antiLink := value))
            && (flag.AntiFlood? ==> t == s.(antiFlood := value))
            && (flag.AntiSpam? ==> t == s.(antiSpam := value))
            && (flag.AntiBadwords? ==> t == s.(antiBadwords := value))
            && (flag.AntiForward? ==> t == s.(antiForward := value))
  {
  }

  /** Setting a flag changes that setting of a group with a row, and nothing else; a missing row stays missing. */
  lemma FlagChangesItsSetting(table: Table, chatId: string, value: bool, other: string, flag: Flag)
    ensures chatId in table ==>
              var s := SettingsOf(table, chatId);
              && SettingsOf(Flagged(table, chatId, AntiLink, value), chatId) == s.(antiLink := value)
              && SettingsOf(Flagged(table, chatId, AntiFlood, value), chatId) == s.(antiFlood := value)
              && SettingsOf(Flagged(table, chatId, AntiSpam, value), chatId) == s.(antiSpam := value)
              && SettingsOf(Flagged(table, chatId, AntiBadwords, value), chatId) == s.(antiBadwords := value)
              && SettingsOf(Flagged(table, chatId, AntiForward, value), chatId) == s.(antiForward := value)
    ensures other != chatId || chatId !in table ==>
              SettingsOf(Flagged(table, chatId, flag, value), other) == SettingsOf(table, other)
    ensures Flagged(table, chatId, flag, value).Keys == table.Keys
  {
    FlaggedElsewhere(table, chatId, flag, value, other);
    hide SettingsOf, Flagged;
    if chatId in table {
      forall f
        ensures var s, t := SettingsOf(table, chatId), SettingsOf(Flagged(table, chatId, f, value), chatId);
                && (f.AntiLink? ==> t == s.(antiLink := value))
                && (f.AntiFlood? ==> t == s.(antiFlood := value))
                && (f.AntiSpam? ==> t == s.(antiSpam := value))
                && (f.AntiBadwords? ==> t == s.(antiBadwords := value))
                && (f.AntiForward? ==> t == s.(antiForward := value))
      {
        FlaggedSettings(table, chatId, f, value);
      }
    }
  }

  lemma FlaggedElsewhere(table: Table, chatId: string, flag: Flag, value: bool, other: string)
    ensures other != chatId || chatId !in table ==>
              SettingsOf(Flagged(table, chatId, flag, value), other) == SettingsOf(table, other)
    ensures Flagged(table, chatId, flag, value).Keys == table.Keys
  {
    hide WithFlag;
  }

  /** The setting that a flag names has this value. */
  ghost predicate HasFlag(s: GroupSettings, flag: Flag, value: bool) {
    && (flag.AntiLink? ==> s.antiLink == value)
    && (flag.AntiFlood? ==> s.antiFlood == value)
    && (flag.AntiSpam? ==> s.antiSpam == value)
    && (flag.AntiBadwords? ==> s.antiBadwords == value)
    && (flag.AntiForward? ==> s.antiForward == value)
  }

  lemma OtherFlagStays(row: Row, other: Flag, v: bool, chatId: string, flag: Flag, value: bool)
    requires other != flag && HasFlag(SettingsOf(map[chatId := row], chatId), flag, value)
    ensures HasFlag(SettingsOf(map[chatId := WithFlag(row, other, v)], chatId), flag, value)
  {
  }

  /** The settings of a group with a row depend on that row alone. */
  lemma SameRow(t1: Table, t2: Table, chatId: string)
    requires chatId in t1 && chatId in t2 && t1[chatId] == t2[chatId]
    ensures SettingsOf(t1, chatId) == SettingsOf(t2, chatId)
  {
  }

  lemma UpsertKeepsFlags(table: Table, chatId: string, title: Option<string>, flag: Flag, value: bool)
    requires HasFlag(SettingsOf(table, chatId), flag, value)
    ensures HasFlag(SettingsOf(Upserted(table, chatId, title), chatId), flag, value)
  {
    hide SettingsOf, Upserted;
    InsertChangesOnlyTitle(table, chatId, title, chatId);
  }

  /** Upserts, lookups and changes of other flags leave a flag as it was. */
  lemma FlagStays(table: Table, e: Event, chatId: string, flag: Flag, value: bool)
    requires chatId in table && HasFlag(SettingsOf(table, chatId), flag, value) && !e.Outside?
    requires e.SetFlag? && e.chatId == chatId ==> e.flag != flag
    ensures chatId in TableStep(table, e) && HasFlag(SettingsOf(TableStep(table, e), chatId), flag, value)
  {
    hide SettingsOf, HasFlag, WithFlag;
    if e.chatId != chatId || e.Get? {
      SameRow(table, TableStep(table, e), chatId);
    } else if e.Upsert? {
      UpsertKeepsFlags(table, chatId, e.title, flag, value);
    } else {
      SameRow(table, map[chatId := table[chatId]], chatId);
      OtherFlagStays(table[chatId], e.flag, e.value, chatId, flag, value);
      SameRow(TableStep(table, e), map[chatId := WithFlag(table[chatId], e.flag, e.value)], chatId);
    }
  }

  lemma FlagIsSet(table: Table, e: Event)
    requires e.SetFlag? && e.chatId in table
    ensures e.chatId in TableStep(table, e) && HasFlag(SettingsOf(TableStep(table, e), e.chatId), e.flag, e.value)
  {
    hide SettingsOf, Flagged;
    FlagChangesItsSetting(table, e.chatId, e.value, e.chatId, e.flag);
  }

  lemma {:induction false} FlagLasts(t0: Table, events: seq<Event>, n: nat, m: nat)
    requires NoOutsideWrites(events) && n < m <= |events| && events[n].SetFlag?
    requires events[n].chatId in TableAfter(t0, events[..n])
    requires forall i :: n < i < m && events[i].SetFlag? && events[i].chatId == events[n].chatId ==> events[i].flag != events[n].flag
    ensures var e := events[n];
            && e.chatId in TableAfter(t0, events[..m])
            && HasFlag(SettingsOf(TableAfter(t0, events[..m]), e.chatId), e.flag, e.value)
  {
    hide TableAfter, TableStep, HasFlag, SettingsOf;
    var e := events[n];
    TableAfterOne(t0, events, m - 1);
    if m == n + 1 {
      FlagIsSet(TableAfter(t0, events[..n]), e);
    } else {
      FlagLasts(t0, events, n, m - 1);
      FlagStays(TableAfter(t0, events[..m - 1]), events[m - 1], e.chatId, e.flag, e.value);
    }
  }

  /**
   A flag set through the repository is what every later `get_group` of that group answers, until the same flag
   of the group is set again, whatever else happens in between and whatever the cache holds.
   */
  lemma FlagIsAnswered(t0: Table, events: seq<Event>, maxSize: nat, ttl: int, n: nat, m: nat)
    requires NoOutsideWrites(events) && n < m < |events| && events[n].SetFlag?
    requires events[m].Get? && events[m].chatId == events[n].chatId && events[n].chatId in TableAfter(t0, events[..n])
    requires forall i :: n < i < m && events[i].SetFlag? && events[i].chatId == events[n].chatId ==> events[i].flag != events[n].flag
    ensures var e, reply := events[n], Reply(t0, events, maxSize, ttl, m);
            && reply.Some? && reply.value.chatId == e.chatId
            && (e.flag == AntiLink ==> reply.value.antiLink == e.value)
            && (e.flag == AntiFlood ==> reply.value.antiFlood == e.value)
            && (e.flag == AntiSpam ==> reply.value.antiSpam == e.value)
            && (e.flag == AntiBadwords ==> reply.value.antiBadwords == e.value)
            && (e.flag == AntiForward ==> reply.value.antiForward == e.value)
  {
    hide TableAfter, Reply;
    CacheIsTransparent(t0, events, maxSize, ttl, m);
    TableAfterOne(t0, events, m);
    FlagLasts(t0, events, n, m);
  }

  // ---- Bounded staleness ----

  ghost predicate InOrder(events: seq<Event>) {
    forall i, j :: 0 <= i < j < |events| ==> events[i].now <= events[j].now
  }

  /** The entry was read from the table by event `i`, at that event's time. */
  ghost predicate ReadAt(t0: Table, events: seq<Event>, x: Entry<string, GroupSettings>, i: nat) {
    i < |events| && events[i].now == x.at && x.value == SettingsOf(TableAfter(t0, events[..i + 1]), x.key)
  }

  lemma ReadStays(t0: Table, events: seq<Event>, x: Entry<string, GroupSettings>, n: nat, i: nat)
    requires n <= |events| && ReadAt(t0, events[..n], x, i)
    ensures ReadAt(t0, events, x, i)
  {
    assert events[..n][..i + 1] == events[..i + 1];
  }

  /** Every cached entry, renewed by hits or not, still is what the table said at the time in its stamp. */
  lemma {:induction false} EntriesWereRead(t0: Table, events: seq<Event>, maxSize: nat, ttl: int,
                                           x: Entry<string, GroupSettings>)
    requires x in StateAfter(t0, events, maxSize, ttl).cache
    ensures exists i: nat :: ReadAt(t0, events, x, i)
  {
    var n := |events| - 1;
    var e := events[n];
    var s := StateAfter(t0, events[..n], maxSize, ttl);
    if x in s.cache {
      EntriesWereRead(t0, events[..n], maxSize, ttl, x);
      var i: nat :| ReadAt(t0, events[..n], x, i);
      ReadStays(t0, events, x, n, i);
    } else {
      TableIsTheTable(t0, events[..n], maxSize, ttl);
      TableAfterOne(t0, events, n);
      NewEntryIsRead(s, e, maxSize, ttl, x);
      assert ReadAt(t0, events, x, n);
    }
  }

  lemma NewEntryIsRead(s: State, e: Event, maxSize: nat, ttl: int, x: Entry<string, GroupSettings>)
    requires x in StateStep(s, e, maxSize, ttl).cache && x !in s.cache
    ensures x.at == e.now && x.value == SettingsOf(TableStep(s.table, e), x.key)
  {
    if e.Upsert? || e.SetFlag? {
      forall y | y in Without(s.cache, e.chatId)
        ensures y in s.cache
      {
        var i :| 0 <= i < |Without(s.cache, e.chatId)| && Without(s.cache, e.chatId)[i] == y;
        WithoutIsSublist(s.cache, e.chatId, i);
      }
    }
    if e.Get? || e.Upsert? {
      LookupEntries(Prepared(s, e), e.chatId, e.now, maxSize, ttl, x);
    }
  }

  /**
   Bounded staleness: with arbitrary outside writes in between, a reply given at time `t` is what the table
   said about that group at some event no earlier than `t - ttl`.
   */
  lemma StalenessIsBounded(t0: Table, events: seq<Event>, maxSize: nat, ttl: int, n: nat)
    requires n < |events| && ttl >= 0 && InOrder(events)
    requires Reply(t0, events, maxSize, ttl, n).Some?
    ensures exists i: nat :: i <= n && events[n].now - ttl as real <= events[i].now <= events[n].now
              && Reply(t0, events, maxSize, ttl, n).value == SettingsOf(TableAfter(t0, events[..i + 1]), events[n].chatId)
  {
    var e := events[n];
    var s := StateAfter(t0, events[..n], maxSize, ttl);
    var p := Prepared(s, e);
    TableIsTheTable(t0, events[..n], maxSize, ttl);
    TableAfterOne(t0, events, n);
    if Hit(p.cache, e.chatId, e.now, ttl) {
      var x := p.cache[IndexOf(p.cache, e.chatId)];
      if e.Upsert? {
        WithoutIsSublist(s.cache, e.chatId, IndexOf(p.cache, e.chatId));
      }
      EntriesWereRead(t0, events[..n], maxSize, ttl, x);
      var i: nat :| ReadAt(t0, events[..n], x, i);
      ReadStays(t0, events, x, n, i);
      assert i <= n && events[n].now - ttl as real <= events[i].now <= events[n].now;
    } else {
      assert n <= n && events[n].now - ttl as real <= events[n].now <= events[n].now;
    }
  }
}
