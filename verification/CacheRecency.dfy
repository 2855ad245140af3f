/**
 Which groups are cached: under the repository's traffic the cached keys are a suffix of the full recency
 order, so a larger cache always holds whatever a smaller one holds.
 */
module CacheRecency {
  import opened Basics
  import opened LruTtlCaches
  import opened Repositories

  /** All groups ever looked up, from the least to the most recent; a changed flag forgets the group. */
  function Recency(events: seq<Event>): seq<string> {
    if events == [] then []
    else
      var n := |events| - 1;
      var before := Recency(events[..n]);
      match events[n]
      case Get(chatId, _) => Dropped(before, chatId) + [chatId]
      case Upsert(chatId, _, _) => Dropped(before, chatId) + [chatId]
      case SetFlag(chatId, _, _, _) => Dropped(before, chatId)
      case Outside(_, _) => before
  }

  /** The cached keys as a function of the traffic alone: times and values do not matter. */
  function CachedKeys(events: seq<Event>, maxSize: nat): seq<string> {
    if events == [] then []
    else
      var n := |events| - 1;
      var before := CachedKeys(events[..n], maxSize);
      match events[n]
      case Get(chatId, _) => LastN(Dropped(before, chatId) + [chatId], maxSize)
      case Upsert(chatId, _, _) => LastN(Dropped(before, chatId) + [chatId], maxSize)
      case SetFlag(chatId, _, _, _) => Dropped(before, chatId)
      case Outside(_, _) => before
  }

  // ---- The cache has those keys ----

  lemma KeysWithout(data: Cached, key: string)
    requires Distinct(KeysOf(data))
    ensures KeysOf(Without(data, key)) == Dropped(KeysOf(data), key)
    ensures Has(data, key) == (key in KeysOf(data))
  {
    if Has(data, key) {
      assert KeysOf(data)[IndexOf(data, key)] == key;
      var i, j := IndexOf(data, key), Position(KeysOf(data), key);
      assert i == j;
    } else {
      assert forall i :: 0 <= i < |data| ==> data[i].key != key;
    }
  }

  lemma KeysOfAppend(data: Cached, e: Entry<string, GroupSettings>)
    ensures KeysOf(data + [e]) == KeysOf(data) + [e.key]
  {
  }

  lemma KeysOfLastN(data: Cached, n: nat)
    ensures KeysOf(LastN(data, n)) == LastN(KeysOf(data), n)
  {
  }

  lemma WithoutTwice(data: Cached, key: string)
    requires Distinct(KeysOf(data))
    ensures Without(Without(data, key), key) == Without(data, key)
  {
    hide Distinct, IndexOf, Has;
    WithoutKeeps(data, key);
  }

  /** Without a key that was there, there is room for it at the end. */
  lemma LookedUpFits(data: Cached, key: string, maxSize: nat)
    requires Distinct(KeysOf(data)) && |data| <= maxSize && Has(data, key)
    ensures LastN(KeysOf(Without(data, key)) + [key], maxSize) == KeysOf(Without(data, key)) + [key]
  {
    hide Distinct, Has, IndexOf, Without;
    WithoutKeeps(data, key);
  }

  lemma KeysAfterLookup(s: State, key: string, now: real, maxSize: nat, ttl: int)
    requires Distinct(KeysOf(s.cache)) && 1 <= maxSize && |s.cache| <= maxSize
    ensures KeysOf(AfterLookup(s, key, now, maxSize, ttl).cache) == LastN(Dropped(KeysOf(s.cache), key) + [key], maxSize)
  {
    hide Distinct, Has, IndexOf, Dropped, KeysOf, LastN, Without;
    KeysWithout(s.cache, key);
    WithoutTwice(s.cache, key);
    var rest := Without(s.cache, key);
    if Hit(s.cache, key, now, ttl) {
      KeysOfAppend(rest, s.cache[IndexOf(s.cache, key)]);
      LookedUpFits(s.cache, key, maxSize);
    } else {
      var e := Entry(key, now, SettingsOf(s.table, key));
      KeysOfAppend(rest, e);
      KeysOfLastN(rest + [e], maxSize);
    }
  }

  lemma {:induction false} CacheHoldsCachedKeys(t0: Table, events: seq<Event>, maxSize: nat, ttl: int)
    requires maxSize >= 1
    ensures var data := StateAfter(t0, events, maxSize, ttl).cache;
            && KeysOf(data) == CachedKeys(events, maxSize)
            && Distinct(KeysOf(data)) && |data| <= maxSize
  {
    if events != [] {
      var n := |events| - 1;
      var s := StateAfter(t0, events[..n], maxSize, ttl);
      CacheHoldsCachedKeys(t0, events[..n], maxSize, ttl);
      match events[n]
      case Get(chatId, now) =>
        KeysAfterLookup(s, chatId, now, maxSize, ttl);
        LookupKeepsDistinct(s, chatId, now, maxSize, ttl);
      case Upsert(chatId, _, now) =>
        KeysWithout(s.cache, chatId);
        WithoutKeeps(s.cache, chatId);
        var p := Prepared(s, events[n]);
        KeysWithout(p.cache, chatId);
        KeysAfterLookup(p, chatId, now, maxSize, ttl);
        LookupKeepsDistinct(p, chatId, now, maxSize, ttl);
        assert Dropped(Dropped(KeysOf(s.cache), chatId), chatId) == Dropped(KeysOf(s.cache), chatId);
      case SetFlag(chatId, _, _, _) =>
        KeysWithout(s.cache, chatId);
        WithoutKeeps(s.cache, chatId);
      case Outside(_, _) =>
    }
  }

  // ---- Suffixes ----

  lemma DroppedStaysDistinct(keys: seq<string>, key: string)
    requires Distinct(keys)
    ensures Distinct(Dropped(keys, key)) && key !in Dropped(keys, key)
  {
    var rest := Dropped(keys, key);
    if key in keys {
      var p := Position(keys, key);
      assert forall i :: 0 <= i < p ==> rest[i] == keys[i];
      assert forall i :: p <= i < |rest| ==> rest[i] == keys[i + 1];
    }
  }

  lemma DroppedFromSuffix(short: seq<string>, long: seq<string>, key: string)
    requires IsSuffix(short, long) && Distinct(long)
    ensures IsSuffix(Dropped(short, key), Dropped(long, key))
    ensures key in short ==> key in long
  {
    hide Position, Distinct, Cut, IsSuffix;
    SuffixHas(short, long, key);
    if key in long {
      var d, p := |long| - |short|, Position(long, key);
      assert d >= 0 && short == long[d..] by {
        SuffixIsDrop(short, long);
      }
      if p < d {
        SuffixMisses(short, long, key);
        CutBefore(long, p, d);
      } else {
        SuffixPosition(short, long, key);
        CutAfter(long, p, d);
      }
    }
  }

  lemma SuffixIsDrop(short: seq<string>, long: seq<string>)
    requires IsSuffix(short, long)
    ensures |short| <= |long| && short == long[|long| - |short|..]
  {
  }

  lemma SuffixHas(short: seq<string>, long: seq<string>, key: string)
    requires IsSuffix(short, long)
    ensures key in short ==> key in long
  {
    assert forall i :: 0 <= i < |short| ==> short[i] == long[|long| - |short| + i];
  }

  lemma CutBefore(s: seq<string>, p: nat, d: nat)
    requires p < d <= |s|
    ensures IsSuffix(s[d..], Cut(s, p))
  {
    assert Cut(s, p)[d - 1..] == s[d..];
  }

  lemma CutAfter(s: seq<string>, p: nat, d: nat)
    requires d <= p < |s|
    ensures IsSuffix(Cut(s[d..], p - d), Cut(s, p))
  {
    assert Cut(s, p)[d..] == Cut(s[d..], p - d);
  }

  lemma SuffixMisses(short: seq<string>, long: seq<string>, key: string)
    requires IsSuffix(short, long) && Distinct(long) && key in long && Position(long, key) < |long| - |short|
    ensures key !in short
  {
    var d, p := |long| - |short|, Position(long, key);
    forall i | 0 <= i < |short|
      ensures short[i] != key
    {
      assert long[p] != long[d + i];
    }
  }

  lemma SuffixPosition(short: seq<string>, long: seq<string>, key: string)
    requires IsSuffix(short, long) && Distinct(long) && key in long && Position(long, key) >= |long| - |short|
    ensures key in short && Position(short, key) == Position(long, key) - (|long| - |short|)
  {
    var d, p := |long| - |short|, Position(long, key);
    assert short[p - d] == long[p];
    var q := Position(short, key);
    assert long[d + q] == key;
  }

  lemma LastNOfSuffix(short: seq<string>, long: seq<string>, n: nat, m: nat)
    requires IsSuffix(short, long) && n <= m
    ensures IsSuffix(LastN(short, n), LastN(long, m))
    ensures IsSuffix(LastN(short, n), long)
  {
    var a, b := LastN(short, n), LastN(long, m);
    assert forall i :: 0 <= i < |a| ==> a[i] == long[|long| - |a| + i];
    assert forall i :: 0 <= i < |a| ==> a[i] == b[|b| - |a| + i];
  }

  lemma AppendToSuffix(short: seq<string>, long: seq<string>, key: string, n: nat, m: nat)
    requires IsSuffix(short, long) && n <= m
    ensures IsSuffix(LastN(short + [key], n), LastN(long + [key], m))
    ensures IsSuffix(LastN(short + [key], n), long + [key])
  {
    hide LastN;
    assert short + [key] == (long + [key])[|long| - |short|..];
    LastNOfSuffix(short + [key], long + [key], n, m);
  }

  lemma AppendStaysDistinct(keys: seq<string>, key: string)
    requires Distinct(keys) && key !in keys
    ensures Distinct(keys + [key])
  {
  }

  lemma {:induction false} KeysAreRecent(events: seq<Event>, maxSize: nat)
    requires maxSize >= 1
    ensures Distinct(Recency(events)) && IsSuffix(CachedKeys(events, maxSize), Recency(events))
  {
    if events != [] {
      var n := |events| - 1;
      var e := events[n];
      KeysAreRecent(events[..n], maxSize);
      if !e.Outside? {
        hide Dropped, LastN, Distinct, IsSuffix;
        var short, long := CachedKeys(events[..n], maxSize), Recency(events[..n]);
        DroppedFromSuffix(short, long, e.chatId);
        DroppedStaysDistinct(long, e.chatId);
        AppendStaysDistinct(Dropped(long, e.chatId), e.chatId);
        AppendToSuffix(Dropped(short, e.chatId), Dropped(long, e.chatId), e.chatId, maxSize, maxSize);
      }
    }
  }

  ghost predicate NoFlagChanges(events: seq<Event>) {
    forall i :: 0 <= i < |events| ==> !events[i].SetFlag?
  }

  lemma DroppedLength(keys: seq<string>, key: string)
    ensures |keys| - 1 <= |Dropped(keys, key)| <= |keys|
  {
  }

  /** One lookup on the newest `m` keys leaves what it leaves on all keys, cut to the newest `m`. */
  lemma LookupOnNewest(long: seq<string>, key: string, m: nat)
    requires Distinct(long) && m >= 1
    ensures LastN(Dropped(LastN(long, m), key) + [key], m) == LastN(Dropped(long, key) + [key], m)
  {
    hide Dropped, Distinct, LastN;
    var short := LastN(long, m);
    LastNIsSuffix(long, m);
    assert |short| == |long| ==> short == long;
    DroppedFromSuffix(short, long, key);
    DroppedLength(short, key);
    DroppedLength(long, key);
    AppendToSuffix(Dropped(short, key), Dropped(long, key), key, m, m);
    assert short != long ==> |LastN(Dropped(short, key) + [key], m)| == m == |LastN(Dropped(long, key) + [key], m)|;
  }

  /** Under lookups alone nothing but eviction removes a key, so the cache is exactly the newest end of the order. */
  lemma {:induction false} LookupsKeepTheNewest(events: seq<Event>, maxSize: nat)
    requires maxSize >= 1 && NoFlagChanges(events)
    ensures CachedKeys(events, maxSize) == LastN(Recency(events), maxSize)
  {
    if events != [] {
      var n := |events| - 1;
      var e := events[n];
      LookupsKeepTheNewest(events[..n], maxSize);
      KeysAreRecent(events[..n], maxSize);
      if !e.Outside? {
        hide Dropped, LastN, Distinct, IsSuffix;
        LookupOnNewest(Recency(events[..n]), e.chatId, maxSize);
      }
    }
  }

  lemma CachedKeysAreDistinct(events: seq<Event>, maxSize: nat)
    requires maxSize >= 1
    ensures Distinct(CachedKeys(events, maxSize))
  {
    hide Recency, CachedKeys;
    KeysAreRecent(events, maxSize);
  }

  lemma {:induction false} SmallerIsSuffix(events: seq<Event>, small: nat, large: nat)
    requires 1 <= small <= large
    ensures IsSuffix(CachedKeys(events, small), CachedKeys(events, large))
  {
    hide Recency, Dropped, LastN, Distinct;
    if events != [] {
      var n := |events| - 1;
      var e := events[n];
      SmallerIsSuffix(events[..n], small, large);
      CachedKeysAreDistinct(events[..n], large);
      if !e.Outside? {
        var a, b := CachedKeys(events[..n], small), CachedKeys(events[..n], large);
        DroppedFromSuffix(a, b, e.chatId);
        AppendToSuffix(Dropped(a, e.chatId), Dropped(b, e.chatId), e.chatId, small, large);
      }
    }
  }

  /**
   Under any traffic, outside writes included, the cached groups are the most recent ones of the full
   recency order, each once and at most `maxSize` of them.
   */
  lemma CacheHoldsTheMostRecent(t0: Table, events: seq<Event>, maxSize: nat, ttl: int)
    requires maxSize >= 1
    ensures var keys := KeysOf(StateAfter(t0, events, maxSize, ttl).cache);
            && IsSuffix(keys, Recency(events))
            && Distinct(keys) && |keys| <= maxSize
  {
    hide StateAfter, CachedKeys, Recency, Distinct, IsSuffix;
    CacheHoldsCachedKeys(t0, events, maxSize, ttl);
    KeysAreRecent(events, maxSize);
  }

  /** A larger cache holds every group a smaller one holds, whatever the times to live of the two. */
  lemma LargerCacheHoldsMore(t0: Table, events: seq<Event>, small: nat, large: nat, ttl1: int, ttl2: int, key: string)
    requires 1 <= small <= large && Has(StateAfter(t0, events, small, ttl1).cache, key)
    ensures Has(StateAfter(t0, events, large, ttl2).cache, key)
  {
    hide StateAfter, CachedKeys, KeysOf, Distinct, IsSuffix;
    CacheHoldsCachedKeys(t0, events, small, ttl1);
    CacheHoldsCachedKeys(t0, events, large, ttl2);
    SmallerIsSuffix(events, small, large);
    SuffixHas(CachedKeys(events, small), CachedKeys(events, large), key);
  }
}
