/**
 The cache over a whole history of operations: its entries are ordered by last touch, and a key that is
 fresh and has not been crowded out is always a hit.
 */
module LruHistory {
  import opened Basics
  import opened LruTtlCaches

  datatype Op<K, V> = GetOp(key: K, now: real) | SetOp(key: K, now: real, value: V) | InvalidateOp(key: K, now: real)

  function Step<K(==), V>(data: Entries<K, V>, op: Op<K, V>, maxSize: nat, ttl: int): Entries<K, V> {
    match op
    case GetOp(key, now) => AfterGet(data, key, now, ttl)
    case SetOp(key, now, value) => AfterSet(data, key, value, now, maxSize)
    case InvalidateOp(key, _) => Without(data, key)
  }

  function DataAfter<K(==), V>(ops: seq<Op<K, V>>, maxSize: nat, ttl: int): Entries<K, V> {
    if ops == [] then []
    else var n := |ops| - 1; Step(DataAfter(ops[..n], maxSize, ttl), ops[n], maxSize, ttl)
  }

  /** The operation, done on `data`, is a set or a successful get of `key`. */
  predicate Touches<K(==), V>(data: Entries<K, V>, op: Op<K, V>, ttl: int, key: K) {
    op.key == key && (op.SetOp? || (op.GetOp? && Hit(data, key, op.now, ttl)))
  }

  /** The position of the last operation that touched `key`, or -1. */
  function LastTouch<K(==), V>(ops: seq<Op<K, V>>, maxSize: nat, ttl: int, key: K): (i: int)
    ensures -1 <= i < |ops|
  {
    if ops == [] then -1
    else
      var n := |ops| - 1;
      if Touches(DataAfter(ops[..n], maxSize, ttl), ops[n], ttl, key) then n
      else LastTouch(ops[..n], maxSize, ttl, key)
  }

  /** The time of the last set of `key`. */
  function SetTime<K(==), V>(ops: seq<Op<K, V>>, key: K): Option<real> {
    if ops == [] then None
    else
      var n := |ops| - 1;
      if ops[n].SetOp? && ops[n].key == key then Some(ops[n].now) else SetTime(ops[..n], key)
  }

  /** The value of the last set of `key`. */
  function SetValue<K(==), V>(ops: seq<Op<K, V>>, key: K): Option<V> {
    if ops == [] then None
    else
      var n := |ops| - 1;
      if ops[n].SetOp? && ops[n].key == key then Some(ops[n].value) else SetValue(ops[..n], key)
  }

  /** Keys other than `key` touched after its own last touch. */
  function TouchedSince<K(==), V>(ops: seq<Op<K, V>>, maxSize: nat, ttl: int, key: K): set<K> {
    if ops == [] then {}
    else
      var n := |ops| - 1;
      var before := DataAfter(ops[..n], maxSize, ttl);
      if Touches(before, ops[n], ttl, key) then {}
      else TouchedSince(ops[..n], maxSize, ttl, key)
           + if Touches(before, ops[n], ttl, ops[n].key) then {ops[n].key} else {}
  }

  predicate InvalidatedSince<K(==), V>(ops: seq<Op<K, V>>, maxSize: nat, ttl: int, key: K) {
    if ops == [] then false
    else
      var n := |ops| - 1;
      !Touches(DataAfter(ops[..n], maxSize, ttl), ops[n], ttl, key)
      && ((ops[n].InvalidateOp? && ops[n].key == key) || InvalidatedSince(ops[..n], maxSize, ttl, key))
  }

  ghost predicate Timely<K, V>(ops: seq<Op<K, V>>, now: real) {
    && (forall i, j :: 0 <= i < j < |ops| ==> ops[i].now <= ops[j].now)
    && (forall i :: 0 <= i < |ops| ==> ops[i].now <= now)
  }

  // ---- The shape of one step ----

  lemma GetKeepsDistinct<K, V>(data: Entries<K, V>, key: K, now: real, ttl: int)
    requires Distinct(KeysOf(data))
    ensures Distinct(KeysOf(AfterGet(data, key, now, ttl))) && |AfterGet(data, key, now, ttl)| <= |data|
  {
    hide Without, IndexOf, Has, Distinct, KeysOf;
    WithoutKeeps(data, key);
    if Hit(data, key, now, ttl) {
      AppendKeeps(Without(data, key), data[IndexOf(data, key)]);
    }
  }

  lemma SetKeepsDistinct<K, V>(data: Entries<K, V>, key: K, value: V, now: real, maxSize: nat)
    requires Distinct(KeysOf(data))
    ensures Distinct(KeysOf(AfterSet(data, key, value, now, maxSize))) && |AfterSet(data, key, value, now, maxSize)| <= maxSize
  {
    hide Without, Has, Distinct, KeysOf, LastN, IsSuffix;
    WithoutKeeps(data, key);
    var full := Without(data, key) + [Entry(key, now, value)];
    AppendKeeps(Without(data, key), Entry(key, now, value));
    LastNIsSuffix(full, maxSize);
    SuffixKeeps(full, LastN(full, maxSize));
  }

  /** No step makes a key occur twice or the cache too large. */
  lemma StepKeepsDistinct<K, V>(data: Entries<K, V>, op: Op<K, V>, maxSize: nat, ttl: int)
    requires Distinct(KeysOf(data))
    ensures Distinct(KeysOf(Step(data, op, maxSize, ttl)))
    ensures |data| <= maxSize ==> |Step(data, op, maxSize, ttl)| <= maxSize
  {
    hide Without, Distinct, KeysOf, AfterGet, AfterSet;
    match op
    case GetOp(key, now) => GetKeepsDistinct(data, key, now, ttl);
    case SetOp(key, now, value) => SetKeepsDistinct(data, key, value, now, maxSize);
    case InvalidateOp(key, _) => WithoutKeeps(data, key);
  }

  lemma {:induction false} DataIsDistinct<K, V>(ops: seq<Op<K, V>>, maxSize: nat, ttl: int)
    ensures Distinct(KeysOf(DataAfter(ops, maxSize, ttl))) && |DataAfter(ops, maxSize, ttl)| <= maxSize
  {
    if ops != [] {
      var n := |ops| - 1;
      DataIsDistinct(ops[..n], maxSize, ttl);
      StepKeepsDistinct(DataAfter(ops[..n], maxSize, ttl), ops[n], maxSize, ttl);
    }
  }

  // ---- Order ----

  /** Every entry was touched, and the entries stand in the order of their last touch. */
  ghost predicate OrderedByTouch<K, V>(ops: seq<Op<K, V>>, maxSize: nat, ttl: int, data: Entries<K, V>) {
    && (forall i :: 0 <= i < |data| ==> 0 <= LastTouch(ops, maxSize, ttl, data[i].key))
    && (forall i, j :: 0 <= i < j < |data| ==>
          LastTouch(ops, maxSize, ttl, data[i].key) < LastTouch(ops, maxSize, ttl, data[j].key))
  }

  lemma WithoutStaysOrdered<K, V>(ops: seq<Op<K, V>>, maxSize: nat, ttl: int, data: Entries<K, V>, key: K)
    requires OrderedByTouch(ops, maxSize, ttl, data)
    ensures OrderedByTouch(ops, maxSize, ttl, Without(data, key))
  {
    hide LastTouch;
    var rest := Without(data, key);
    if Has(data, key) {
      var d := IndexOf(data, key);
      assert forall i :: 0 <= i < d ==> rest[i] == data[i];
      assert forall i :: d <= i < |rest| ==> rest[i] == data[i + 1];
    }
  }

  lemma SuffixStaysOrdered<K, V>(ops: seq<Op<K, V>>, maxSize: nat, ttl: int, data: Entries<K, V>, rest: Entries<K, V>)
    requires OrderedByTouch(ops, maxSize, ttl, data) && IsSuffix(rest, data)
    ensures OrderedByTouch(ops, maxSize, ttl, rest)
  {
    hide LastTouch;
    var d := |data| - |rest|;
    assert forall i :: 0 <= i < |rest| ==> rest[i] == data[d + i];
  }

  /** A further operation on another key leaves the touches of the entries alone. */
  lemma OthersStayOrdered<K, V>(ops: seq<Op<K, V>>, maxSize: nat, ttl: int, rest: Entries<K, V>)
    requires ops != [] && OrderedByTouch(ops[..|ops| - 1], maxSize, ttl, rest) && !Has(rest, ops[|ops| - 1].key)
    ensures OrderedByTouch(ops, maxSize, ttl, rest)
    ensures forall i :: 0 <= i < |rest| ==> LastTouch(ops, maxSize, ttl, rest[i].key) < |ops| - 1
  {
    var n := |ops| - 1;
    forall i | 0 <= i < |rest|
      ensures LastTouch(ops, maxSize, ttl, rest[i].key) == LastTouch(ops[..n], maxSize, ttl, rest[i].key)
    {
      assert rest[i].key != ops[n].key;
    }
  }

  /** A set leaves the entries in order even before it evicts. */
  lemma SetStaysOrdered<K, V>(ops: seq<Op<K, V>>, maxSize: nat, ttl: int, data: Entries<K, V>)
    requires ops != [] && data == DataAfter(ops[..|ops| - 1], maxSize, ttl) && Distinct(KeysOf(data))
    requires OrderedByTouch(ops[..|ops| - 1], maxSize, ttl, data) && ops[|ops| - 1].SetOp?
    ensures var op := ops[|ops| - 1];
            OrderedByTouch(ops, maxSize, ttl, Without(data, op.key) + [Entry(op.key, op.now, op.value)])
  {
    hide DataAfter, Without;
    var op := ops[|ops| - 1];
    WithoutStaysOrdered(ops[..|ops| - 1], maxSize, ttl, data, op.key);
    WithoutKeeps(data, op.key);
    OthersStayOrdered(ops, maxSize, ttl, Without(data, op.key));
    assert LastTouch(ops, maxSize, ttl, op.key) == |ops| - 1;
  }

  lemma StepStaysOrdered<K, V>(ops: seq<Op<K, V>>, maxSize: nat, ttl: int, data: Entries<K, V>)
    requires ops != [] && data == DataAfter(ops[..|ops| - 1], maxSize, ttl) && Distinct(KeysOf(data))
    requires OrderedByTouch(ops[..|ops| - 1], maxSize, ttl, data)
    ensures OrderedByTouch(ops, maxSize, ttl, Step(data, ops[|ops| - 1], maxSize, ttl))
  {
    hide DataAfter, Without;
    var op := ops[|ops| - 1];
    var rest := Without(data, op.key);
    WithoutStaysOrdered(ops[..|ops| - 1], maxSize, ttl, data, op.key);
    WithoutKeeps(data, op.key);
    OthersStayOrdered(ops, maxSize, ttl, rest);
    if op.SetOp? {
      var full := rest + [Entry(op.key, op.now, op.value)];
      SetStaysOrdered(ops, maxSize, ttl, data);
      SuffixStaysOrdered(ops, maxSize, ttl, full, LastN(full, maxSize));
    } else if op.GetOp? && Hit(data, op.key, op.now, ttl) {
      assert LastTouch(ops, maxSize, ttl, op.key) == |ops| - 1;
    }
  }

  lemma {:induction false} CacheIsLruOrdered<K, V>(ops: seq<Op<K, V>>, maxSize: nat, ttl: int)
    ensures var data := DataAfter(ops, maxSize, ttl);
            && OrderedByTouch(ops, maxSize, ttl, data)
            && Distinct(KeysOf(data)) && |data| <= maxSize
  {
    hide Step;
    DataIsDistinct(ops, maxSize, ttl);
    if ops != [] {
      var n := |ops| - 1;
      CacheIsLruOrdered(ops[..n], maxSize, ttl);
      StepStaysOrdered(ops, maxSize, ttl, DataAfter(ops[..n], maxSize, ttl));
    }
  }

  // ---- The hit guarantee ----

  /** An entry carries the time and the value of the last set of its key: hits do not renew it. */
  lemma {:induction false} EntriesCarrySetTime<K, V>(ops: seq<Op<K, V>>, maxSize: nat, ttl: int, i: nat)
    requires i < |DataAfter(ops, maxSize, ttl)|
    ensures var e := DataAfter(ops, maxSize, ttl)[i]; SetTime(ops, e.key) == Some(e.at) && SetValue(ops, e.key) == Some(e.value)
  {
    var n := |ops| - 1;
    var op := ops[n];
    var data := DataAfter(ops[..n], maxSize, ttl);
    var e := DataAfter(ops, maxSize, ttl)[i];
    DataIsDistinct(ops[..n], maxSize, ttl);
    WithoutKeeps(data, op.key);
    if !(op.SetOp? && e.key == op.key) {
      OldEntry(data, op, maxSize, ttl, i);
      var j :| 0 <= j < |data| && data[j] == e;
      EntriesCarrySetTime(ops[..n], maxSize, ttl, j);
    } else {
      NewEntry(data, op, maxSize, ttl, i);
    }
  }

  lemma OldEntry<K, V>(data: Entries<K, V>, op: Op<K, V>, maxSize: nat, ttl: int, i: nat)
    requires i < |Step(data, op, maxSize, ttl)|
    requires !(op.SetOp? && Step(data, op, maxSize, ttl)[i].key == op.key)
    ensures exists j :: 0 <= j < |data| && data[j] == Step(data, op, maxSize, ttl)[i]
  {
    var rest := Without(data, op.key);
    forall k | 0 <= k < |rest|
      ensures rest[k] in data
    {
      assert rest[k] == data[if Has(data, op.key) && k >= IndexOf(data, op.key) then k + 1 else k];
    }
    assert Step(data, op, maxSize, ttl)[i] in data;
  }

  lemma NewEntry<K, V>(data: Entries<K, V>, op: Op<K, V>, maxSize: nat, ttl: int, i: nat)
    requires op.SetOp? && Distinct(KeysOf(data)) && i < |Step(data, op, maxSize, ttl)|
    requires Step(data, op, maxSize, ttl)[i].key == op.key
    ensures Step(data, op, maxSize, ttl)[i].at == op.now && Step(data, op, maxSize, ttl)[i].value == op.value
  {
    WithoutKeeps(data, op.key);
  }

  /** The keys after position `i` of the cache. */
  ghost function KeysAfter<K, V>(data: Entries<K, V>, i: nat): set<K>
    requires i < |data|
  {
    set j | i < j < |data| :: data[j].key
  }

  lemma {:induction false} DistinctKeysCount<K, V>(data: Entries<K, V>, i: nat)
    requires i < |data| && Distinct(KeysOf(data))
    ensures |KeysAfter(data, i)| == |data| - 1 - i
    decreases |data| - i
  {
    if i == |data| - 1 {
      assert KeysAfter(data, i) == {};
    } else {
      DistinctKeysCount(data, i + 1);
      assert KeysAfter(data, i) == {data[i + 1].key} + KeysAfter(data, i + 1);
      assert forall j :: i + 1 < j < |data| ==> KeysOf(data)[j] != KeysOf(data)[i + 1];
    }
  }

  /** Whatever was last touched after `key` is among the keys touched since. */
  lemma {:induction false} LaterTouchesCount<K, V>(ops: seq<Op<K, V>>, maxSize: nat, ttl: int, key: K, other: K)
    requires 0 <= LastTouch(ops, maxSize, ttl, key) < LastTouch(ops, maxSize, ttl, other)
    ensures other in TouchedSince(ops, maxSize, ttl, key)
  {
    hide DataAfter, Hit;
    var n := |ops| - 1;
    if LastTouch(ops, maxSize, ttl, other) < n {
      LaterTouchesCount(ops[..n], maxSize, ttl, key, other);
    }
  }

  lemma {:induction false} TouchedSinceGrows<K, V>(ops: seq<Op<K, V>>, maxSize: nat, ttl: int, key: K)
    requires ops != [] && !Touches(DataAfter(ops[..|ops| - 1], maxSize, ttl), ops[|ops| - 1], ttl, key)
    ensures TouchedSince(ops[..|ops| - 1], maxSize, ttl, key) <= TouchedSince(ops, maxSize, ttl, key)
    ensures |TouchedSince(ops[..|ops| - 1], maxSize, ttl, key)| <= |TouchedSince(ops, maxSize, ttl, key)|
  {
    SubsetSize(TouchedSince(ops[..|ops| - 1], maxSize, ttl, key), TouchedSince(ops, maxSize, ttl, key));
  }

  lemma {:induction false} SubsetSize<K>(a: set<K>, b: set<K>)
    requires a <= b
    ensures |a| <= |b|
    decreases a
  {
    if a != {} {
      var x :| x in a;
      SubsetSize(a - {x}, b - {x});
    }
  }

  /** A key behind `key` in the cache was touched after it. */
  lemma BehindIsTouched<K, V>(ops: seq<Op<K, V>>, maxSize: nat, ttl: int, full: Entries<K, V>, i: nat, other: K)
    requires OrderedByTouch(ops, maxSize, ttl, full) && i < |full| && other in KeysAfter(full, i)
    ensures other in TouchedSince(ops, maxSize, ttl, full[i].key)
  {
    hide LastTouch, TouchedSince;
    var j :| i < j < |full| && full[j].key == other;
    LaterTouchesCount(ops, maxSize, ttl, full[i].key, other);
  }

  lemma StaysWhenFewBehind<K, V>(full: Entries<K, V>, maxSize: nat, i: nat)
    requires i < |full| && |full| - 1 - i < maxSize
    ensures Has(LastN(full, maxSize), full[i].key)
  {
    hide KeysOf, Has;
    var kept := LastN(full, maxSize);
    assert kept[i - (|full| - |kept|)] == full[i];
  }

  /** With fewer than `maxSize` other keys touched since, a set does not push `key` out. */
  lemma NotCrowdedOut<K, V>(ops: seq<Op<K, V>>, maxSize: nat, ttl: int, full: Entries<K, V>, key: K)
    requires Distinct(KeysOf(full)) && OrderedByTouch(ops, maxSize, ttl, full) && Has(full, key)
    requires |TouchedSince(ops, maxSize, ttl, key)| < maxSize
    ensures Has(LastN(full, maxSize), key)
  {
    hide LastTouch, TouchedSince, OrderedByTouch, KeysAfter, Has, IndexOf, LastN, Distinct, KeysOf;
    var i := IndexOf(full, key);
    DistinctKeysCount(full, i);
    var later := KeysAfter(full, i);
    forall other | other in later
      ensures other in TouchedSince(ops, maxSize, ttl, key)
    {
      BehindIsTouched(ops, maxSize, ttl, full, i, other);
    }
    SubsetSize(later, TouchedSince(ops, maxSize, ttl, key));
    StaysWhenFewBehind(full, maxSize, i);
  }

  lemma OthersStillThere<K, V>(data: Entries<K, V>, key: K, other: K)
    requires Has(data, key) && key != other
    ensures Has(Without(data, other), key)
  {
    if Has(data, other) {
      var i, d := IndexOf(data, key), IndexOf(data, other);
      hide IndexOf;
      CutKeeps(data, i, d);
    }
  }

  lemma CutKeeps<K, V>(data: Entries<K, V>, i: nat, d: nat)
    requires i < |data| && d < |data| && i != d
    ensures Has(data[..d] + data[d + 1..], data[i].key)
  {
    var rest := data[..d] + data[d + 1..];
    if i < d {
      assert rest[i] == data[i];
    } else {
      assert rest[i - 1] == data[i];
    }
  }

  lemma SetTimeIsTouch<K, V>(ops: seq<Op<K, V>>, maxSize: nat, ttl: int, key: K)
    requires Has(DataAfter(ops, maxSize, ttl), key)
    ensures var data := DataAfter(ops, maxSize, ttl);
            SetTime(ops, key) == Some(data[IndexOf(data, key)].at) && SetValue(ops, key) == Some(data[IndexOf(data, key)].value)
  {
    EntriesCarrySetTime(ops, maxSize, ttl, IndexOf(DataAfter(ops, maxSize, ttl), key));
  }

  /** The key that a step touches is the last one in the cache. */
  lemma TouchedIsPresent<K, V>(data: Entries<K, V>, op: Op<K, V>, maxSize: nat, ttl: int, key: K)
    requires maxSize >= 1 && Touches(data, op, ttl, key)
    ensures Has(Step(data, op, maxSize, ttl), key)
  {
    hide Has, KeysOf, IndexOf, Without;
    var after := Step(data, op, maxSize, ttl);
    assert after[|after| - 1].key == key;
  }

  /** A set of another key leaves a key that fewer than `maxSize` others were touched after. */
  lemma SetLeavesPresent<K, V>(ops: seq<Op<K, V>>, maxSize: nat, ttl: int, data: Entries<K, V>, key: K)
    requires ops != [] && data == DataAfter(ops[..|ops| - 1], maxSize, ttl) && ops[|ops| - 1].SetOp?
    requires Has(data, key) && key != ops[|ops| - 1].key
    requires |TouchedSince(ops, maxSize, ttl, key)| < maxSize
    ensures var op := ops[|ops| - 1]; Has(AfterSet(data, op.key, op.value, op.now, maxSize), key)
  {
    hide DataAfter, TouchedSince, OrderedByTouch, Has, IndexOf, Without, LastN, Distinct, KeysOf;
    var op := ops[|ops| - 1];
    var rest, e := Without(data, op.key), Entry(op.key, op.now, op.value);
    CacheIsLruOrdered(ops[..|ops| - 1], maxSize, ttl);
    WithoutKeeps(data, op.key);
    AppendKeeps(rest, e);
    SetStaysOrdered(ops, maxSize, ttl, data);
    OthersStillThere(data, key, op.key);
    AppendHas(rest, e, key);
    NotCrowdedOut(ops, maxSize, ttl, rest + [e], key);
  }

  lemma AppendHas<K, V>(data: Entries<K, V>, e: Entry<K, V>, key: K)
    requires Has(data, key)
    ensures Has(data + [e], key)
  {
    hide Has, KeysOf;
    var i :| 0 <= i < |data| && data[i].key == key;
    assert (data + [e])[i].key == key;
  }

  lemma {:induction false} FreshKeyIsPresent<K, V>(ops: seq<Op<K, V>>, maxSize: nat, ttl: int, key: K, now: real)
    requires maxSize >= 1 && Timely(ops, now)
    requires SetTime(ops, key).Some? && now - SetTime(ops, key).value <= ttl as real
    requires !InvalidatedSince(ops, maxSize, ttl, key)
    requires |TouchedSince(ops, maxSize, ttl, key)| < maxSize
    ensures Has(DataAfter(ops, maxSize, ttl), key)
  {
    var n := |ops| - 1;
    var op := ops[n];
    var data := DataAfter(ops[..n], maxSize, ttl);
    hide Has, KeysOf, IndexOf, Without, LastN, TouchedSince;
    if Touches(data, op, ttl, key) {
      hide Touches, SetTime, InvalidatedSince;
      TouchedIsPresent(data, op, maxSize, ttl, key);
    } else {
      TouchedSinceGrows(ops, maxSize, ttl, key);
      FreshKeyIsPresent(ops[..n], maxSize, ttl, key, now);
      SetTimeIsTouch(ops[..n], maxSize, ttl, key);
      assert op.GetOp? && op.key == key ==> Hit(data, key, op.now, ttl);
      assert op.key != key;
      hide Touches, SetTime, InvalidatedSince, Timely;
      if op.SetOp? {
        SetLeavesPresent(ops, maxSize, ttl, data, key);
      } else {
        OthersStillThere(data, key, op.key);
        StillAtIndex(data, op, maxSize, ttl, key);
      }
    }
  }

  lemma StillAtIndex<K, V>(data: Entries<K, V>, op: Op<K, V>, maxSize: nat, ttl: int, key: K)
    requires !op.SetOp? && Has(Without(data, op.key), key)
    ensures Has(Step(data, op, maxSize, ttl), key)
  {
    hide Has, KeysOf, IndexOf, Without;
    var rest := Without(data, op.key);
    assert Step(data, op, maxSize, ttl)[IndexOf(rest, key)] == rest[IndexOf(rest, key)];
  }

  /**
   The hit guarantee: a key set at most `ttl` seconds ago, not invalidated since it was last touched, with
   fewer than `maxSize` other keys touched since then, is found by a get, with the value last set.
   */
  lemma FreshKeyIsHit<K, V>(ops: seq<Op<K, V>>, maxSize: nat, ttl: int, key: K, now: real)
    requires maxSize >= 1 && Timely(ops, now)
    requires SetTime(ops, key).Some? && now - SetTime(ops, key).value <= ttl as real
    requires !InvalidatedSince(ops, maxSize, ttl, key)
    requires |TouchedSince(ops, maxSize, ttl, key)| < maxSize
    ensures var data := DataAfter(ops, maxSize, ttl);
            Hit(data, key, now, ttl) && SetValue(ops, key) == Some(data[IndexOf(data, key)].value)
  {
    FreshKeyIsPresent(ops, maxSize, ttl, key, now);
    SetTimeIsTouch(ops, maxSize, ttl, key);
  }
}
