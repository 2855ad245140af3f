/**
 The bounded cache of app/utils/cache.py: an ordered dictionary whose oldest end is the least recently
 touched key, with a time-to-live that only `set` renews.
 */
module LruTtlCaches {
  import opened Basics

  datatype Entry<K, V> = Entry(key: K, at: real, value: V)

  /** The entries from the least to the most recently touched. */
  type Entries<K, V> = seq<Entry<K, V>>

  function KeysOf<K, V>(data: Entries<K, V>): (keys: seq<K>)
    ensures |keys| == |data| && forall i :: 0 <= i < |data| ==> keys[i] == data[i].key
  {
    seq(|data|, i requires 0 <= i < |data| => data[i].key)
  }

  predicate Has<K(==), V>(data: Entries<K, V>, key: K): (found: bool)
    ensures found <==> exists i :: 0 <= i < |data| && data[i].key == key
  {
    key in KeysOf(data)
  }

  function IndexOf<K(==), V>(data: Entries<K, V>, key: K): (i: nat)
    requires Has(data, key)
    ensures i < |data| && data[i].key == key
    ensures forall j :: 0 <= j < i ==> data[j].key != key
  {
    Position(KeysOf(data), key)
  }

  /** The entries without the one for `key`. */
  function Without<K(==), V>(data: Entries<K, V>, key: K): Entries<K, V> {
    if Has(data, key) then data[..IndexOf(data, key)] + data[IndexOf(data, key) + 1..] else data
  }

  // ---- The operations on values ----

  predicate Hit<K(==), V>(data: Entries<K, V>, key: K, now: real, ttl: int) {
    Has(data, key) && now - data[IndexOf(data, key)].at <= ttl as real
  }

  function AfterGet<K(==), V>(data: Entries<K, V>, key: K, now: real, ttl: int): Entries<K, V> {
    if Hit(data, key, now, ttl) then Without(data, key) + [data[IndexOf(data, key)]] else Without(data, key)
  }

  function AfterSet<K(==), V>(data: Entries<K, V>, key: K, value: V, now: real, maxSize: nat): Entries<K, V> {
    LastN(Without(data, key) + [Entry(key, now, value)], maxSize)
  }

  class LruTtlCache<K(==), V> {
    const maxSize: nat
    const ttlSeconds: int
    var data: Entries<K, V>

    ghost predicate Valid()
      reads this
    {
      maxSize >= 1 && ttlSeconds >= 1 && |data| <= maxSize && Distinct(KeysOf(data))
    }

    constructor (maxSize: int, ttlSeconds: int)
      ensures Valid() && data == []
      ensures this.maxSize == Max(1, maxSize) && this.ttlSeconds == Max(1, ttlSeconds)
    {
      this.maxSize, this.ttlSeconds := Max(1, maxSize), Max(1, ttlSeconds);
      data := [];
    }

    method Get(key: K, now: real) returns (found: Option<V>)
      requires Valid()
      modifies this`data
      ensures Valid()
      ensures found.Some? == Hit(old(data), key, now, ttlSeconds)
      ensures found.Some? ==> found.value == old(data)[IndexOf(old(data), key)].value
      ensures data == AfterGet(old(data), key, now, ttlSeconds)
    {
      if !Has(data, key) {
        return None;
      }
      var i := IndexOf(data, key);
      var entry := data[i];
      WithoutKeeps(data, key);
      if now - entry.at > ttlSeconds as real {
        data := data[..i] + data[i + 1..];
        return None;
      }
      AppendKeeps(Without(data, key), entry);
      data := data[..i] + data[i + 1..] + [entry];
      return Some(entry.value);
    }

    method Set(key: K, value: V, now: real)
      requires Valid()
      modifies this`data
      ensures Valid()
      ensures data == AfterSet(old(data), key, value, now, maxSize)
    {
      WithoutKeeps(data, key);
      AppendKeeps(Without(data, key), Entry(key, now, value));
      data := Without(data, key) + [Entry(key, now, value)];
      ghost var full := data;
      while |data| > maxSize
        invariant maxSize <= |data| <= |full| || data == full
        invariant data == full[|full| - |data|..]
        decreases |data|
      {
        data := data[1..];
      }
      SuffixKeeps(full, data);
    }

    method Invalidate(key: K)
      requires Valid()
      modifies this`data
      ensures Valid()
      ensures data == Without(old(data), key)
    {
      WithoutKeeps(data, key);
      if Has(data, key) {
        var i := IndexOf(data, key);
        data := data[..i] + data[i + 1..];
      }
    }

    method Clear()
      requires Valid()
      modifies this`data
      ensures Valid() && data == []
    {
      data := [];
    }
  }

  // ---- Entries and keys ----

  lemma WithoutKeeps<K, V>(data: Entries<K, V>, key: K)
    requires Distinct(KeysOf(data))
    ensures Distinct(KeysOf(Without(data, key))) && !Has(Without(data, key), key)
    ensures |Without(data, key)| == |data| - if Has(data, key) then 1 else 0
  {
    var rest := Without(data, key);
    if Has(data, key) {
      var i := IndexOf(data, key);
      forall j, k | 0 <= j < k < |rest|
        ensures rest[j].key != rest[k].key && rest[k].key != key && rest[j].key != key
      {
        var j', k' := if j < i then j else j + 1, if k < i then k else k + 1;
        assert KeysOf(data)[j'] != KeysOf(data)[k'];
        assert KeysOf(data)[i] == key;
      }
      forall j | 0 <= j < |rest|
        ensures rest[j].key != key
      {
        assert KeysOf(data)[if j < i then j else j + 1] != KeysOf(data)[i];
      }
    }
  }

  lemma AppendKeeps<K, V>(data: Entries<K, V>, e: Entry<K, V>)
    requires Distinct(KeysOf(data)) && !Has(data, e.key)
    ensures Distinct(KeysOf(data + [e]))
  {
  }

  lemma SuffixKeeps<K, V>(data: Entries<K, V>, rest: Entries<K, V>)
    requires IsSuffix(rest, data) && Distinct(KeysOf(data))
    ensures Distinct(KeysOf(rest))
  {
    forall i, j | 0 <= i < j < |rest|
      ensures KeysOf(rest)[i] != KeysOf(rest)[j]
    {
      var d := |data| - |rest|;
      assert KeysOf(data)[d + i] != KeysOf(data)[d + j];
    }
  }
}
