/** The pruned event log behind the request limiter and the flood plugin. */
module SlidingWindow {
  import opened Basics

  /** Drops the leading events that are more than `window` seconds old. */
  function Prune(events: seq<real>, now: real, window: int): seq<real> {
    if events != [] && now - events[0] > window as real then Prune(events[1..], now, window) else events
  }

  /** The deque loop of the source. */
  method PruneLoop(events: seq<real>, now: real, window: int) returns (kept: seq<real>)
    ensures kept == Prune(events, now, window)
  {
    kept := events;
    while kept != [] && now - kept[0] > window as real
      invariant Prune(kept, now, window) == Prune(events, now, window)
      decreases |kept|
    {
      kept := kept[1..];
    }
  }

  /** The number of events in the closed interval from `lo` to `hi`. */
  function CountWithin(events: seq<real>, lo: real, hi: real): nat {
    if events == [] then 0
    else (if lo <= events[0] <= hi then 1 else 0) + CountWithin(events[1..], lo, hi)
  }

  lemma SortedTail(events: seq<real>)
    requires Nondecreasing(events) && events != []
    ensures Nondecreasing(events[1..])
  {
  }

  lemma {:induction false} PruneIsSuffix(events: seq<real>, now: real, window: int)
    ensures IsSuffix(Prune(events, now, window), events)
  {
    if events != [] && now - events[0] > window as real {
      PruneIsSuffix(events[1..], now, window);
    }
  }

  /** On an ordered log the pruned events are exactly those inside the window that ends now. */
  lemma {:induction false} PruneIsWindow(events: seq<real>, now: real, window: int)
    requires Nondecreasing(events) && (forall i :: 0 <= i < |events| ==> events[i] <= now)
    ensures var dropped := |events| - |Prune(events, now, window)|;
            && dropped >= 0
            && (forall i :: 0 <= i < dropped ==> now - events[i] > window as real)
            && (forall i :: dropped <= i < |events| ==> now - events[i] <= window as real)
    ensures |Prune(events, now, window)| == CountWithin(events, now - window as real, now)
  {
    if events != [] {
      SortedTail(events);
      if now - events[0] > window as real {
        PruneIsSuffix(events[1..], now, window);
        PruneIsWindow(events[1..], now, window);
        var dropped := |events[1..]| - |Prune(events[1..], now, window)|;
        forall i | 0 <= i <= dropped
          ensures now - events[i] > window as real
        {
          assert i == 0 || events[i] == events[1..][i - 1];
        }
        forall i | dropped < i < |events|
          ensures now - events[i] <= window as real
        {
          assert events[i] == events[1..][i - 1];
        }
      } else {
        AllWithin(events, now - window as real, now);
      }
    }
  }

  lemma {:induction false} AllWithin(events: seq<real>, lo: real, hi: real)
    requires forall i :: 0 <= i < |events| ==> lo <= events[i] <= hi
    ensures CountWithin(events, lo, hi) == |events|
  {
    if events != [] {
      AllWithin(events[1..], lo, hi);
    }
  }

  /** Forgetting expired events early makes no difference to what is kept later. */
  lemma {:induction false} PruneTwice(events: seq<real>, t: real, now: real, window: int)
    requires t <= now
    ensures Prune(Prune(events, t, window) + [t], now, window) == Prune(events + [t], now, window)
  {
    if events != [] && t - events[0] > window as real {
      PruneTwice(events[1..], t, now, window);
      assert now - (events + [t])[0] > window as real;
      PruneHead(events, t, window);
      PruneHead(events + [t], now, window);
      assert (events + [t])[1..] == events[1..] + [t];
    } else {
      assert Prune(events, t, window) == events;
    }
  }

  lemma PruneHead(events: seq<real>, now: real, window: int)
    requires events != [] && now - events[0] > window as real
    ensures Prune(events, now, window) == Prune(events[1..], now, window)
  {
  }

  lemma {:induction false} CountConcat(a: seq<real>, b: seq<real>, lo: real, hi: real)
    ensures CountWithin(a + b, lo, hi) == CountWithin(a, lo, hi) + CountWithin(b, lo, hi)
  {
    if a == [] {
      assert a + b == b;
    } else {
      CountConcat(a[1..], b, lo, hi);
      assert (a + b)[1..] == a[1..] + b;
    }
  }

  /** Events that lie in the interval are counted. */
  lemma CountAtLeast(events: seq<real>, i: nat, j: nat, lo: real, hi: real)
    requires i <= j <= |events| && forall k :: i <= k < j ==> lo <= events[k] <= hi
    ensures CountWithin(events, lo, hi) >= j - i
  {
    assert events == events[..i] + (events[i..j] + events[j..]);
    CountConcat(events[..i], events[i..j] + events[j..], lo, hi);
    CountConcat(events[i..j], events[j..], lo, hi);
    AllWithin(events[i..j], lo, hi);
  }

  /** The number of events in the closed interval of the window's length that starts at `lo`. */
  function CountFrom(events: seq<real>, lo: real, window: int): nat {
    CountWithin(events, lo, lo + window as real)
  }

  /** No closed interval as long as the window holds more than `n` events. */
  ghost predicate WindowBound(events: seq<real>, n: nat, window: int) {
    forall lo: real :: CountFrom(events, lo, window) <= n
  }

  /** `n + 1` events in a row always take longer than the window. */
  ghost predicate Spaced(events: seq<real>, n: nat, window: int) {
    forall i, j :: 0 <= i && j == i + n && j < |events| ==> events[j] - events[i] > window as real
  }

  lemma {:induction false} SpacedBoundsCount(events: seq<real>, n: nat, window: int, lo: real)
    requires Nondecreasing(events) && Spaced(events, n, window)
    ensures CountWithin(events, lo, lo + window as real) <= n
  {
    var hi := lo + window as real;
    if events != [] {
      SortedTail(events);
      assert Spaced(events[1..], n, window) by {
        forall i, j | 0 <= i && j == i + n && j < |events[1..]|
          ensures events[1..][j] - events[1..][i] > window as real
        {
          assert events[j + 1] - events[i + 1] > window as real;
        }
      }
      SpacedBoundsCount(events[1..], n, window, lo);
      if lo <= events[0] <= hi {
        if n < |events| {
          assert events[0 + n] - events[0] > window as real;
          NoneWithin(events[n..], lo, hi);
          CountConcat(events[..n], events[n..], lo, hi);
          assert events == events[..n] + events[n..];
        }
        CountAtMostLength(if n < |events| then events[..n] else events, lo, hi);
      }
    }
  }

  lemma {:induction false} NoneWithin(events: seq<real>, lo: real, hi: real)
    requires forall i :: 0 <= i < |events| ==> events[i] > hi
    ensures CountWithin(events, lo, hi) == 0
  {
    if events != [] {
      NoneWithin(events[1..], lo, hi);
    }
  }

  lemma {:induction false} CountAtMostLength(events: seq<real>, lo: real, hi: real)
    ensures CountWithin(events, lo, hi) <= |events|
  {
    if events != [] {
      CountAtMostLength(events[1..], lo, hi);
    }
  }

  /** Both forms of the bound say the same of an ordered log. */
  lemma BoundIsSpacing(events: seq<real>, n: nat, window: int)
    requires Nondecreasing(events) && (window >= 0 || n > 0)
    ensures WindowBound(events, n, window) <==> Spaced(events, n, window)
  {
    if Spaced(events, n, window) {
      forall lo: real
        ensures CountFrom(events, lo, window) <= n
      {
        SpacedBoundsCount(events, n, window, lo);
      }
    }
    if WindowBound(events, n, window) {
      forall i, j | 0 <= i && j == i + n && j < |events|
        ensures events[j] - events[i] > window as real
      {
        assert CountFrom(events, events[i], window) <= n;
        if events[j] <= events[i] + window as real {
          CountAtLeast(events, i, j + 1, events[i], events[i] + window as real);
        }
      }
    }
  }
}
