/**
 The time-to-live duplicate filter of app/utils/dedup.py, and its agreement with a specification
 that remembers every query ever asked.
 */
module Deduplicators {
  import opened Basics

  type Marks = map<string, real>

  /** The marks that survive the clean-up at time `now`. */
  function Unexpired(marks: Marks, ttl: int, now: real): Marks {
    map k | k in marks && !(now - marks[k] > ttl as real) :: marks[k]
  }

  function SeenAnswer(marks: Marks, ttl: int, key: string, now: real): bool {
    key in Unexpired(marks, ttl, now)
  }

  function SeenMarks(marks: Marks, ttl: int, key: string, now: real): Marks {
    var kept := Unexpired(marks, ttl, now);
    if key in kept then kept else kept[key := now]
  }

  class Deduplicator {
    const ttlSeconds: int
    var cache: Marks

    constructor (ttlSeconds: int)
      ensures this.ttlSeconds == ttlSeconds && cache == map[]
    {
      this.ttlSeconds := ttlSeconds;
      cache := map[];
    }

    /** A missing key is never a duplicate and leaves no mark. */
    method Seen(key: Option<string>, now: real) returns (duplicate: bool)
      modifies this
      ensures key.None? ==> !duplicate && cache == old(cache)
      ensures key.Some? ==> duplicate == SeenAnswer(old(cache), ttlSeconds, key.value, now)
      ensures key.Some? ==> cache == SeenMarks(old(cache), ttlSeconds, key.value, now)
    {
      if key.None? {
        return false;
      }
      var expired := set k | k in cache && now - cache[k] > ttlSeconds as real;
      while expired != {}
        invariant expired == set k | k in cache && now - cache[k] > ttlSeconds as real
        invariant Unexpired(cache, ttlSeconds, now) == Unexpired(old(cache), ttlSeconds, now)
        decreases |expired|
      {
        var k :| k in expired;
        cache := cache - {k};
        expired := expired - {k};
      }
      assert forall k :: k in cache && now - cache[k] > ttlSeconds as real ==> k in expired;
      assert cache == Unexpired(cache, ttlSeconds, now);
      if key.value in cache {
        return true;
      }
      cache := cache[key.value := now];
      return false;
    }
  }

  // ---- The full-history specification ----

  datatype Query = Query(key: string, at: real)

  ghost predicate InOrder(queries: seq<Query>) {
    forall i, j :: 0 <= i < j < |queries| ==> queries[i].at <= queries[j].at
  }

  /** The marks held after a sequence of queries, starting from none. */
  function MarksAfter(queries: seq<Query>, ttl: int): Marks {
    if queries == [] then map[]
    else
      var n := |queries| - 1;
      SeenMarks(MarksAfter(queries[..n], ttl), ttl, queries[n].key, queries[n].at)
  }

  /** What the filter answers to query number `i` of the sequence. */
  function Answer(queries: seq<Query>, ttl: int, i: nat): bool
    requires i < |queries|
  {
    SeenAnswer(MarksAfter(queries[..i], ttl), ttl, queries[i].key, queries[i].at)
  }

  /** Query `i` was answered "new", for the same key as `key`, at most `ttl` before `now`. */
  ghost predicate FreshWithin(queries: seq<Query>, ttl: int, i: nat, key: string, now: real)
    requires i < |queries|
  {
    queries[i].key == key && !Answer(queries, ttl, i) && !(now - queries[i].at > ttl as real)
  }

  lemma AnswerOfPrefix(queries: seq<Query>, ttl: int, n: nat, i: nat)
    requires i < n <= |queries|
    ensures Answer(queries[..n], ttl, i) == Answer(queries, ttl, i)
  {
    assert queries[..n][..i] == queries[..i];
  }

  /** Every mark was left by a query answered "new", at exactly the recorded time. */
  lemma {:induction false} MarksAreFreshQueries(queries: seq<Query>, ttl: int, key: string)
    requires key in MarksAfter(queries, ttl)
    ensures exists i: nat :: i < |queries| && queries[i].key == key && !Answer(queries, ttl, i)
                             && queries[i].at == MarksAfter(queries, ttl)[key]
  {
    var n := |queries| - 1;
    var before := MarksAfter(queries[..n], ttl);
    if key == queries[n].key && !SeenAnswer(before, ttl, key, queries[n].at) {
      assert !Answer(queries, ttl, n);
    } else {
      MarksAreFreshQueries(queries[..n], ttl, key);
      var i: nat :| i < n && queries[..n][i].key == key && !Answer(queries[..n], ttl, i)
                    && queries[..n][i].at == before[key];
      AnswerOfPrefix(queries, ttl, n, i);
    }
  }

  /** A query answered "new" is still marked, or has expired by the time of the last query. */
  lemma {:induction false} FreshQueriesStayMarked(queries: seq<Query>, ttl: int, i: nat)
    requires InOrder(queries)
    requires i < |queries| && !Answer(queries, ttl, i)
    ensures var marks := MarksAfter(queries, ttl);
            var q := queries[i];
            || (q.key in marks && marks[q.key] >= q.at)
            || queries[|queries| - 1].at - q.at > ttl as real
  {
    var n := |queries| - 1;
    if i < n {
      AnswerOfPrefix(queries, ttl, n, i);
      FreshQueriesStayMarked(queries[..n], ttl, i);
    }
  }

  /**
   The pruned map agrees with the full history: a query is answered "duplicate" exactly when the
   same key was answered "new" at most `ttl` seconds earlier. Duplicates never extend the window,
   because only "new" answers appear on the right-hand side.
   */
  lemma SeenMatchesHistory(queries: seq<Query>, ttl: int, n: nat)
    requires InOrder(queries) && n < |queries|
    ensures Answer(queries, ttl, n)
            <==> exists i: nat :: i < n && FreshWithin(queries, ttl, i, queries[n].key, queries[n].at)
  {
    var past := queries[..n];
    var key, now := queries[n].key, queries[n].at;
    if Answer(queries, ttl, n) {
      MarksAreFreshQueries(past, ttl, key);
      var i: nat :| i < |past| && past[i].key == key && !Answer(past, ttl, i)
                    && past[i].at == MarksAfter(past, ttl)[key];
      AnswerOfPrefix(queries, ttl, n, i);
      assert FreshWithin(queries, ttl, i, key, now);
    }
    if i: nat :| i < n && FreshWithin(queries, ttl, i, key, now) {
      AnswerOfPrefix(queries, ttl, n, i);
      FreshQueriesStayMarked(past, ttl, i);
    }
  }

  /** Two queries answered "new" for one key are more than `ttl` seconds apart. */
  lemma FreshAnswersAreSpaced(queries: seq<Query>, ttl: int, i: nat, j: nat)
    requires InOrder(queries) && i < j < |queries|
    requires queries[i].key == queries[j].key
    requires !Answer(queries, ttl, i) && !Answer(queries, ttl, j)
    ensures queries[j].at - queries[i].at > ttl as real
  {
    SeenMatchesHistory(queries, ttl, j);
    assert !FreshWithin(queries, ttl, i, queries[j].key, queries[j].at);
  }

  /**
   After the last query the surviving marks are exactly the keys answered "new" that have not
   expired, together with the one the last query itself may have added.
   */
  lemma MarksAreTheUnexpired(queries: seq<Query>, ttl: int, key: string)
    requires InOrder(queries) && queries != []
    ensures key in MarksAfter(queries, ttl) <==>
            exists i: nat :: i < |queries| && queries[i].key == key && !Answer(queries, ttl, i)
                             && (i == |queries| - 1 || FreshWithin(queries, ttl, i, key, queries[|queries| - 1].at))
  {
    var n := |queries| - 1;
    var now := queries[n].at;
    var marks := MarksAfter(queries, ttl);
    if key in marks {
      MarksAreFreshQueries(queries, ttl, key);
      var i: nat :| i < |queries| && queries[i].key == key && !Answer(queries, ttl, i)
                    && queries[i].at == marks[key];
      if i < n && now - marks[key] > ttl as real {
        // Only the last query can have left a mark that is expired already.
        assert !Answer(queries, ttl, n) && key == queries[n].key;
        assert n == |queries| - 1;
      } else {
        assert i == n || FreshWithin(queries, ttl, i, key, now);
      }
    }
    if i: nat :| i < |queries| && queries[i].key == key && !Answer(queries, ttl, i)
                 && (i == n || FreshWithin(queries, ttl, i, key, now)) {
      FreshQueriesStayMarked(queries, ttl, i);
    }
  }
}
