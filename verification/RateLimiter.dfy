/**
 The request limiter of app/utils/rate_limiter.py: a log of admitted requests that never holds more than
 `max_requests` in any window, and that admits as many requests as any schedule under the same bound.
 */
module RateLimiters {
  import opened Basics
  import opened SlidingWindow

  class RateLimiter {
    const maxRequests: int
    const windowSeconds: int
    var events: seq<real>

    constructor (maxRequests: int, windowSeconds: int)
      ensures this.maxRequests == maxRequests && this.windowSeconds == windowSeconds && events == []
    {
      this.maxRequests, this.windowSeconds := maxRequests, windowSeconds;
      events := [];
    }

    method Allow(now: real) returns (allowed: bool)
      modifies this`events
      ensures allowed == Admits(old(events), now, maxRequests, windowSeconds)
      ensures events == EventsAfter(old(events), now, maxRequests, windowSeconds)
    {
      events := PruneLoop(events, now, windowSeconds);
      if |events| >= maxRequests {
        return false;
      }
      events := events + [now];
      return true;
    }
  }

  predicate Admits(events: seq<real>, now: real, max: int, window: int) {
    |Prune(events, now, window)| < max
  }

  function EventsAfter(events: seq<real>, now: real, max: int, window: int): seq<real> {
    Prune(events, now, window) + if Admits(events, now, max, window) then [now] else []
  }

  // ---- A whole sequence of requests ----

  /** The log after the given arrivals. */
  function LogAfter(arrivals: seq<real>, max: int, window: int): seq<real> {
    if arrivals == [] then []
    else
      var n := |arrivals| - 1;
      EventsAfter(LogAfter(arrivals[..n], max, window), arrivals[n], max, window)
  }

  /** The times at which a request was admitted. */
  function Admitted(arrivals: seq<real>, max: int, window: int): seq<real> {
    if arrivals == [] then []
    else
      var n := |arrivals| - 1;
      Admitted(arrivals[..n], max, window)
      + if Admits(LogAfter(arrivals[..n], max, window), arrivals[n], max, window) then [arrivals[n]] else []
  }

  /** Any other choice of which arrivals to admit. */
  function Chosen(arrivals: seq<real>, choice: seq<bool>): seq<real>
    requires |choice| == |arrivals|
  {
    if arrivals == [] then []
    else
      var n := |arrivals| - 1;
      Chosen(arrivals[..n], choice[..n]) + if choice[n] then [arrivals[n]] else []
  }

  lemma {:induction false} AdmittedIsOrdered(arrivals: seq<real>, max: int, window: int, now: real)
    requires Nondecreasing(arrivals) && (forall i :: 0 <= i < |arrivals| ==> arrivals[i] <= now)
    ensures var all := Admitted(arrivals, max, window);
            Nondecreasing(all) && (forall i :: 0 <= i < |all| ==> all[i] <= now)
  {
    if arrivals != [] {
      var n := |arrivals| - 1;
      AdmittedIsOrdered(arrivals[..n], max, window, arrivals[n]);
    }
  }

  /** The log is the part of the admission history that the last arrival could still see. */
  lemma {:induction false} LogIsPrunedHistory(arrivals: seq<real>, max: int, window: int, now: real)
    requires Nondecreasing(arrivals) && (forall i :: 0 <= i < |arrivals| ==> arrivals[i] <= now)
    ensures Prune(LogAfter(arrivals, max, window), now, window) == Prune(Admitted(arrivals, max, window), now, window)
  {
    hide Prune;
    if arrivals != [] {
      var n := |arrivals| - 1;
      var t := arrivals[n];
      LogIsPrunedHistory(arrivals[..n], max, window, t);
      var log := LogAfter(arrivals[..n], max, window);
      var all := Admitted(arrivals[..n], max, window);
      if Admits(log, t, max, window) {
        PruneTwice(log, t, now, window);
        PruneTwice(all, t, now, window);
      } else {
        PruneAgain(log, t, now, window);
        PruneAgain(all, t, now, window);
        assert LogAfter(arrivals, max, window) == Prune(log, t, window) + [] == Prune(log, t, window);
        assert Admitted(arrivals, max, window) == all + [] == all;
      }
    }
  }

  lemma {:induction false} PruneAgain(events: seq<real>, t: real, now: real, window: int)
    requires t <= now
    ensures Prune(Prune(events, t, window), now, window) == Prune(events, now, window)
  {
    if events != [] && t - events[0] > window as real {
      PruneAgain(events[1..], t, now, window);
    }
  }

  /** A request is refused exactly when the window that ends now already holds `max` admitted ones. */
  lemma AdmitsIffRoom(arrivals: seq<real>, max: int, window: int, now: real)
    requires Nondecreasing(arrivals) && (forall i :: 0 <= i < |arrivals| ==> arrivals[i] <= now)
    ensures Admits(LogAfter(arrivals, max, window), now, max, window)
            <==> CountWithin(Admitted(arrivals, max, window), now - window as real, now) < max
  {
    LogIsPrunedHistory(arrivals, max, window, now);
    AdmittedIsOrdered(arrivals, max, window, now);
    PruneIsWindow(Admitted(arrivals, max, window), now, window);
  }

  lemma SpacedStep(all: seq<real>, t: real, inWindow: nat, max: nat, window: int)
    requires Spaced(all, max, window) && inWindow < max && inWindow <= |all|
    requires forall i :: 0 <= i < |all| - inWindow ==> t - all[i] > window as real
    ensures Spaced(all + [t], max, window)
  {
  }

  lemma AdmittedOneMore(arrivals: seq<real>, max: int, window: int)
    requires arrivals != [] && Nondecreasing(arrivals)
    ensures var n := |arrivals| - 1;
            var ours := Admitted(arrivals[..n], max, window);
            Admitted(arrivals, max, window)
            == if |Prune(ours, arrivals[n], window)| < max then ours + [arrivals[n]] else ours
  {
    hide Prune;
    var n := |arrivals| - 1;
    LogIsPrunedHistory(arrivals[..n], max, window, arrivals[n]);
    assert Admitted(arrivals[..n], max, window) + [] == Admitted(arrivals[..n], max, window);
  }

  lemma {:induction false} AdmittedIsSpaced(arrivals: seq<real>, max: int, window: int)
    requires Nondecreasing(arrivals) && max >= 0
    ensures Spaced(Admitted(arrivals, max, window), max, window)
  {
    if arrivals != [] {
      var n := |arrivals| - 1;
      var t := arrivals[n];
      AdmittedIsSpaced(arrivals[..n], max, window);
      AdmittedOneMore(arrivals, max, window);
      AdmittedIsOrdered(arrivals[..n], max, window, t);
      var all := Admitted(arrivals[..n], max, window);
      hide Spaced, Prune, Admitted;
      PruneIsWindow(all, t, window);
      if |Prune(all, t, window)| < max {
        SpacedStep(all, t, |Prune(all, t, window)|, max, window);
      }
    }
  }

  /** No closed window of `window` seconds ever holds more than `max` admitted requests. */
  lemma NeverTooMany(arrivals: seq<real>, max: int, window: int)
    requires Nondecreasing(arrivals)
    ensures WindowBound(Admitted(arrivals, max, window), Max(0, max), window)
  {
    if max < 0 {
      NegativeAdmitsNone(arrivals, max, window);
    } else {
      if arrivals != [] {
        AdmittedIsOrdered(arrivals, max, window, arrivals[|arrivals| - 1]);
      }
      AdmittedIsSpaced(arrivals, max, window);
      forall lo: real
        ensures CountFrom(Admitted(arrivals, max, window), lo, window) <= max
      {
        SpacedBoundsCount(Admitted(arrivals, max, window), max, window, lo);
      }
    }
  }

  lemma {:induction false} NegativeAdmitsNone(arrivals: seq<real>, max: int, window: int)
    requires max <= 0
    ensures Admitted(arrivals, max, window) == []
  {
    if arrivals != [] {
      NegativeAdmitsNone(arrivals[..|arrivals| - 1], max, window);
    }
  }

  // ---- Greedy is optimal ----

  /** `a` has at least as many entries as `b`, and its k-th entry never comes after that of `b`. */
  ghost predicate Ahead(a: seq<real>, b: seq<real>) {
    |b| <= |a| && forall i :: 0 <= i < |b| ==> a[i] <= b[i]
  }

  lemma {:induction false} ChosenIsOrdered(arrivals: seq<real>, choice: seq<bool>, now: real)
    requires |choice| == |arrivals| && Nondecreasing(arrivals)
    requires forall i :: 0 <= i < |arrivals| ==> arrivals[i] <= now
    ensures var c := Chosen(arrivals, choice);
            Nondecreasing(c) && (forall i :: 0 <= i < |c| ==> c[i] <= now)
  {
    if arrivals != [] {
      var n := |arrivals| - 1;
      ChosenIsOrdered(arrivals[..n], choice[..n], arrivals[n]);
    }
  }

  /** One more arrival: if the other schedule admits it and is level with ours, we must have room for it too. */
  lemma AheadStep(ours: seq<real>, theirs: seq<real>, t: real, inWindow: nat, max: nat, window: int)
    requires Ahead(ours, theirs) && inWindow <= |ours|
    requires forall i :: 0 <= i < |ours| ==> ours[i] <= t
    requires forall i :: |ours| - inWindow <= i < |ours| ==> t - ours[i] <= window as real
    requires Spaced(theirs + [t], max, window) && (window >= 0 || max > 0)
    ensures Ahead(if inWindow < max then ours + [t] else ours, theirs + [t])
  {
    if |theirs| == |ours| && |ours| >= max {
      var c := theirs + [t];
      var n := |ours|;
      assert c[n] - c[n - max] > window as real;
      assert max > 0 ==> t - ours[n - max] > window as real;
      assert inWindow < max;
    }
  }

  lemma SpacedPrefix(events: seq<real>, n: nat, max: nat, window: int)
    requires n <= |events| && Spaced(events, max, window)
    ensures Spaced(events[..n], max, window)
  {
    forall i, j | 0 <= i && j == i + max && j < n
      ensures events[..n][j] - events[..n][i] > window as real
    {
      assert events[j] - events[i] > window as real;
    }
  }

  lemma {:induction false} GreedyStaysAhead(arrivals: seq<real>, choice: seq<bool>, max: nat, window: int)
    requires |choice| == |arrivals| && Nondecreasing(arrivals)
    requires Spaced(Chosen(arrivals, choice), max, window)
    requires window >= 0 || max > 0
    ensures Ahead(Admitted(arrivals, max, window), Chosen(arrivals, choice))
  {
    if arrivals != [] {
      var n := |arrivals| - 1;
      var t := arrivals[n];
      var ours := Admitted(arrivals[..n], max, window);
      var theirs := Chosen(arrivals[..n], choice[..n]);
      ChosenOneMore(arrivals, choice);
      AdmittedOneMore(arrivals, max, window);
      hide Spaced, Prune, Admitted, Chosen;
      SpacedPrefix(Chosen(arrivals, choice), |theirs|, max, window);
      assert Chosen(arrivals, choice)[..|theirs|] == theirs;
      GreedyStaysAhead(arrivals[..n], choice[..n], max, window);
      AdmittedIsOrdered(arrivals[..n], max, window, t);
      PruneIsWindow(ours, t, window);
      if choice[n] {
        AheadStep(ours, theirs, t, |Prune(ours, t, window)|, max, window);
      }
    }
  }

  lemma ChosenOneMore(arrivals: seq<real>, choice: seq<bool>)
    requires |choice| == |arrivals| && arrivals != []
    ensures var n := |arrivals| - 1;
            var theirs := Chosen(arrivals[..n], choice[..n]);
            Chosen(arrivals, choice) == if choice[n] then theirs + [arrivals[n]] else theirs
  {
    var n := |arrivals| - 1;
    assert Chosen(arrivals[..n], choice[..n]) + [] == Chosen(arrivals[..n], choice[..n]);
  }

  /**
   The greedy rule is optimal: after every prefix of the arrivals it has admitted at least as many
   requests as any choice of arrivals that respects the same window bound.
   */
  lemma GreedyIsOptimal(arrivals: seq<real>, choice: seq<bool>, max: int, window: int, k: nat)
    requires |choice| == |arrivals| && k <= |arrivals| && Nondecreasing(arrivals)
    requires window >= 0 || max > 0
    requires WindowBound(Chosen(arrivals[..k], choice[..k]), Max(0, max), window)
    ensures |Chosen(arrivals[..k], choice[..k])| <= |Admitted(arrivals[..k], max, window)|
  {
    var prefix := arrivals[..k];
    assert Nondecreasing(prefix);
    if k > 0 {
      ChosenIsOrdered(prefix, choice[..k], prefix[k - 1]);
    }
    BoundIsSpacing(Chosen(prefix, choice[..k]), Max(0, max), window);
    GreedyStaysAhead(prefix, choice[..k], Max(0, max), window);
    if max < 0 {
      NegativeAdmitsNone(prefix, max, window);
      NegativeAdmitsNone(prefix, 0, window);
    }
  }

  /**
   In every case left out there, no allowance and a negative window, the bound is empty and refusing
   everything is not optimal: so greedy is optimal if and only if `window >= 0 || max > 0`.
   */
  lemma NegativeWindowIsNotOptimal(now: real, max: int, window: int)
    requires max <= 0 && window < 0
    ensures WindowBound(Chosen([now], [true]), Max(0, max), window)
    ensures |Admitted([now], max, window)| == 0 < |Chosen([now], [true])|
  {
    assert Chosen([now], [true]) == [now];
    assert [now][..0] == [];
    forall lo: real
      ensures CountFrom([now], lo, window) <= 0
    {
      assert CountWithin([now][1..], lo, lo + window as real) == 0;
    }
  }

  /** A choice of arrivals that respects the window bound. */
  ghost predicate Competes(arrivals: seq<real>, choice: seq<bool>, max: int, window: int) {
    && |choice| == |arrivals| && Nondecreasing(arrivals)
    && WindowBound(Chosen(arrivals, choice), Max(0, max), window)
  }

  /** For every allowance and window, greedy is optimal on all arrivals if and only if it is not that case. */
  lemma GreedyIsOptimalIff(max: int, window: int)
    ensures window >= 0 || max > 0
            <==> forall arrivals, choice :: Competes(arrivals, choice, max, window) ==>
                   |Chosen(arrivals, choice)| <= |Admitted(arrivals, max, window)|
  {
    if window >= 0 || max > 0 {
      forall arrivals, choice | Competes(arrivals, choice, max, window)
        ensures |Chosen(arrivals, choice)| <= |Admitted(arrivals, max, window)|
      {
        assert arrivals[..|arrivals|] == arrivals && choice[..|arrivals|] == choice;
        GreedyIsOptimal(arrivals, choice, max, window, |arrivals|);
      }
    } else {
      NegativeWindowIsNotOptimal(0.0, max, window);
      assert Competes([0.0], [true], max, window);
    }
  }
}
