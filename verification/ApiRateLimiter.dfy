/**
 The token bucket of app/core/rubika_client.py. A grant that had to wait empties the bucket and is then
 charged once more, so the balance can be -1 and a waited grant costs two tokens.
 */
module ApiRateLimiters {
  import opened Basics

  datatype Bucket = Bucket(rate: real, capacity: int, tokens: real, lastRefill: real)

  datatype Grant = Grant(at: real, waited: bool)

  function NewBucket(ratePerSecond: real, burst: int, now: real): Bucket {
    Bucket(MaxReal(ratePerSecond, 0.1), Max(burst, 1), Max(burst, 1) as real, now)
  }

  function Refilled(b: Bucket, now: real): real {
    MinReal(b.capacity as real, b.tokens + (now - b.lastRefill) * b.rate)
  }

  /** When the request made at `now` is granted; a sleep lasts `overshoot` longer than asked. */
  function GrantOf(b: Bucket, now: real, overshoot: real): Grant
    requires b.rate > 0.0
  {
    var tokens := Refilled(b, now);
    if tokens < 1.0 then Grant(now + MaxReal((1.0 - tokens) / b.rate, 0.0) + overshoot, true) else Grant(now, false)
  }

  function BucketOf(b: Bucket, now: real, overshoot: real): Bucket
    requires b.rate > 0.0
  {
    var grant := GrantOf(b, now, overshoot);
    b.(tokens := (if grant.waited then 0.0 else Refilled(b, now)) - 1.0, lastRefill := grant.at)
  }

  class ApiRateLimiter {
    const ratePerSecond: real
    const capacity: int
    var tokens: real
    var lastRefill: real
    ghost var granted: nat

    ghost predicate Valid() {
      ratePerSecond >= 0.1 && capacity >= 1
    }

    ghost function View(): Bucket
      reads this
    {
      Bucket(ratePerSecond, capacity, tokens, lastRefill)
    }

    constructor (ratePerSecond: real, burst: int, now: real)
      ensures Valid() && View() == NewBucket(ratePerSecond, burst, now) && granted == 0
    {
      this.ratePerSecond := MaxReal(ratePerSecond, 0.1);
      this.capacity := Max(burst, 1);
      tokens := Max(burst, 1) as real;
      lastRefill := now;
      granted := 0;
    }

    method Acquire(now: real, overshoot: real) returns (grantedAt: real)
      requires Valid()
      modifies this
      ensures View() == BucketOf(old(View()), now, overshoot)
      ensures grantedAt == GrantOf(old(View()), now, overshoot).at
      ensures granted == old(granted) + 1
    {
      grantedAt := now;
      var elapsed := now - lastRefill;
      tokens := MinReal(capacity as real, tokens + elapsed * ratePerSecond);
      assert tokens == Refilled(old(View()), now);
      lastRefill := now;
      if tokens < 1.0 {
        var waitFor := (1.0 - tokens) / ratePerSecond;
        grantedAt := now + MaxReal(waitFor, 0.0) + overshoot;
        tokens := 0.0;
        lastRefill := grantedAt;
      }
      tokens := tokens - 1.0;
      granted := granted + 1;
    }
  }

  // ---- One grant ----

  ghost predicate Sound(b: Bucket) {
    b.rate >= 0.1 && b.capacity >= 1 && -1.0 <= b.tokens <= b.capacity as real
  }

  lemma TimesQuotient(r: real, x: real)
    requires r > 0.0
    ensures r * (x / r) == x
  {
  }

  lemma TimesSum(r: real, a: real, b: real)
    ensures r * (a + b) == r * a + r * b
  {
  }

  lemma TimesNonNegative(r: real, a: real)
    requires r >= 0.0 && a >= 0.0
    ensures r * a >= 0.0
  {
  }

  /** The balance after a grant: a waited grant costs two tokens of what the elapsed time brought in. */
  lemma GrantCosts(b: Bucket, now: real, overshoot: real)
    requires Sound(b) && now >= b.lastRefill && overshoot >= 0.0
    ensures var g := GrantOf(b, now, overshoot);
            var c := BucketOf(b, now, overshoot);
            && Sound(c) && c.rate == b.rate && c.capacity == b.capacity
            && g.at >= now && c.lastRefill == g.at
            && c.tokens <= (b.capacity - 1) as real
            && (if g.waited then c.tokens == -1.0 else c.tokens >= 0.0)
            && c.tokens <= b.tokens + b.rate * (g.at - b.lastRefill) - if g.waited then 2.0 else 1.0
  {
    var g := GrantOf(b, now, overshoot);
    var gap := now - b.lastRefill;
    TimesNonNegative(b.rate, gap);
    assert gap * b.rate == b.rate * gap;
    if g.waited {
      var tokens := Refilled(b, now);
      var wait := (1.0 - tokens) / b.rate;
      TimesQuotient(b.rate, 1.0 - tokens);
      assert wait > 0.0;
      assert g.at - b.lastRefill == gap + (wait + overshoot);
      TimesSum(b.rate, gap, wait + overshoot);
      TimesSum(b.rate, wait, overshoot);
      TimesNonNegative(b.rate, overshoot);
    }
  }

  // ---- The requests made of one limiter, by whichever calls share it ----

  /** The lock lets requests in one by one; `now` is the time at which a request gets the lock. */
  datatype Request = Request(now: real, overshoot: real)

  ghost function BucketAfter(b: Bucket, requests: seq<Request>): (c: Bucket)
    requires b.rate > 0.0
    ensures c.rate == b.rate
  {
    if requests == [] then b
    else
      var n := |requests| - 1;
      BucketOf(BucketAfter(b, requests[..n]), requests[n].now, requests[n].overshoot)
  }

  lemma {:induction false} BucketAfterMore(b: Bucket, first: seq<Request>, more: seq<Request>)
    requires b.rate > 0.0
    ensures BucketAfter(b, first + more) == BucketAfter(BucketAfter(b, first), more)
  {
    hide BucketOf;
    if more == [] {
      assert first + more == first;
    } else {
      var n := |more| - 1;
      BucketAfterMore(b, first, more[..n]);
      assert (first + more)[..|first| + n] == first + more[..n];
    }
  }

  /** The clock does not go back: no request gets the lock before the grant of the one before it. */
  ghost predicate Timely(b: Bucket, requests: seq<Request>)
    requires b.rate > 0.0
  {
    forall i :: 0 <= i < |requests| ==> TimelyAt(b, requests, i)
  }

  ghost predicate TimelyAt(b: Bucket, requests: seq<Request>, i: nat)
    requires b.rate > 0.0 && i < |requests|
  {
    requests[i].now >= BucketAfter(b, requests[..i]).lastRefill && requests[i].overshoot >= 0.0
  }

  lemma TimelyPrefix(b: Bucket, requests: seq<Request>, n: nat)
    requires b.rate > 0.0 && n <= |requests| && Timely(b, requests)
    ensures Timely(b, requests[..n])
  {
    hide BucketAfter;
    forall i | 0 <= i < n
      ensures TimelyAt(b, requests[..n], i)
    {
      assert TimelyAt(b, requests, i);
      assert requests[..n][..i] == requests[..i];
    }
  }

  ghost function GrantNo(b: Bucket, requests: seq<Request>, i: nat): Grant
    requires b.rate > 0.0 && i < |requests|
  {
    GrantOf(BucketAfter(b, requests[..i]), requests[i].now, requests[i].overshoot)
  }

  lemma GrantOfPrefix(b: Bucket, requests: seq<Request>, n: nat, i: nat)
    requires b.rate > 0.0 && i < n <= |requests|
    ensures GrantNo(b, requests[..n], i) == GrantNo(b, requests, i)
  {
    hide BucketAfter, GrantOf;
    assert requests[..n][..i] == requests[..i];
  }

  /** How many of the grants `i`, ..., `j - 1` had to wait. */
  ghost function Waits(b: Bucket, requests: seq<Request>, i: nat, j: nat): nat
    requires b.rate > 0.0 && j <= |requests|
    decreases j
  {
    if j <= i then 0 else Waits(b, requests, i, j - 1) + if GrantNo(b, requests, j - 1).waited then 1 else 0
  }

  /** The balance stays between -1 and the capacity, and time between refills only advances. */
  lemma {:induction false} BalanceBounds(b: Bucket, requests: seq<Request>)
    requires Sound(b) && Timely(b, requests)
    ensures var c := BucketAfter(b, requests);
            && Sound(c) && c.rate == b.rate && c.capacity == b.capacity
            && (requests != [] ==>
                  && c.lastRefill == GrantNo(b, requests, |requests| - 1).at
                  && c.tokens <= (b.capacity - 1) as real
                  && (if GrantNo(b, requests, |requests| - 1).waited then c.tokens == -1.0 else c.tokens >= 0.0))
  {
    hide BucketOf, GrantOf;
    if requests != [] {
      var n := |requests| - 1;
      TimelyPrefix(b, requests, n);
      BalanceBounds(b, requests[..n]);
      assert TimelyAt(b, requests, n);
      GrantCosts(BucketAfter(b, requests[..n]), requests[n].now, requests[n].overshoot);
    }
  }

  lemma RequestAfter(b: Bucket, requests: seq<Request>, j: nat)
    requires Sound(b) && Timely(b, requests) && 1 <= j < |requests|
    ensures var before := BucketAfter(b, requests[..j]);
            && Sound(before) && before.rate == b.rate
            && requests[j].now >= before.lastRefill == GrantNo(b, requests, j - 1).at && requests[j].overshoot >= 0.0
            && GrantNo(b, requests, j) == GrantOf(before, requests[j].now, requests[j].overshoot)
            && BucketAfter(b, requests[..j + 1]) == BucketOf(before, requests[j].now, requests[j].overshoot)
  {
    hide BucketOf, GrantOf;
    var upTo := requests[..j];
    TimelyPrefix(b, requests, j);
    BalanceBounds(b, upTo);
    assert TimelyAt(b, requests, j);
    assert upTo[..j - 1] == requests[..j - 1];
    assert requests[..j + 1][..j] == upTo;
  }

  /** What the bucket gains in a stretch of time. */
  ghost function Gain(r: real, from: real, to: real): real {
    r * (to - from)
  }

  lemma GainIs(r: real, from: real, to: real, time: real)
    requires time == to - from
    ensures Gain(r, from, to) == r * time
  {
  }

  lemma GainAtLeast(r: real, from: real, to: real, least: real, x: real)
    requires r >= 0.0 && to - from >= least && r * least == x
    ensures Gain(r, from, to) >= x
  {
    hide Gain;
    var time := to - from;
    GainIs(r, from, to, time);
    TimesMonotone(r, least, time);
  }

  lemma GainsAdd(r: real, t0: real, t1: real, t2: real)
    ensures Gain(r, t0, t1) + Gain(r, t1, t2) == Gain(r, t0, t2)
  {
    TimesSum(r, t1 - t0, t2 - t1);
    assert (t1 - t0) + (t2 - t1) == t2 - t0;
  }

  /** The balance after one grant in terms of the balance after the previous one. */
  lemma BalanceStep(b: Bucket, requests: seq<Request>, j: nat)
    requires Sound(b) && Timely(b, requests) && 1 <= j < |requests|
    ensures BucketAfter(b, requests[..j + 1]).tokens
            <= BucketAfter(b, requests[..j]).tokens
               + Gain(b.rate, GrantNo(b, requests, j - 1).at, GrantNo(b, requests, j).at)
               - if GrantNo(b, requests, j).waited then 2.0 else 1.0
  {
    hide BucketOf, GrantOf, BucketAfter, GrantNo, Timely;
    RequestAfter(b, requests, j);
    var before := BucketAfter(b, requests[..j]);
    GrantCosts(before, requests[j].now, requests[j].overshoot);
  }

  /** The balance after grant `j` in terms of the balance after grant `i`. */
  lemma {:induction false} BalanceAlong(b: Bucket, requests: seq<Request>, i: nat, j: nat)
    requires Sound(b) && Timely(b, requests) && i <= j < |requests|
    ensures BucketAfter(b, requests[..j + 1]).tokens
            <= BucketAfter(b, requests[..i + 1]).tokens
               + Gain(b.rate, GrantNo(b, requests, i).at, GrantNo(b, requests, j).at)
               - (j - i) as real - Waits(b, requests, i + 1, j + 1) as real
    decreases j
  {
    hide BucketOf, GrantOf, BucketAfter, GrantNo, Timely, Gain;
    if i < j {
      BalanceAlong(b, requests, i, j - 1);
      BalanceStep(b, requests, j);
      GainsAdd(b.rate, GrantNo(b, requests, i).at, GrantNo(b, requests, j - 1).at, GrantNo(b, requests, j).at);
      var waits := Waits(b, requests, i + 1, j);
      var cost := if GrantNo(b, requests, j).waited then 2 else 1;
      assert Waits(b, requests, i + 1, j + 1) == waits + cost - 1;
      hide Waits;
      CostsAdd(j - 1 - i, waits, cost);
    } else {
      NoGain(b.rate, GrantNo(b, requests, i).at);
    }
  }

  lemma NoGain(r: real, t: real)
    ensures Gain(r, t, t) == 0.0
  {
  }

  lemma CostsAdd(n: int, w: int, cost: int)
    ensures n as real + w as real + cost as real == (n + 1) as real + (w + cost - 1) as real
  {
  }

  lemma BalanceAfterGrant(b: Bucket, requests: seq<Request>, i: nat)
    requires Sound(b) && Timely(b, requests) && i < |requests|
    ensures var c := BucketAfter(b, requests[..i + 1]);
            && c.tokens <= (b.capacity - 1) as real
            && (if GrantNo(b, requests, i).waited then c.tokens == -1.0 else c.tokens >= 0.0)
  {
    hide BucketOf, GrantOf;
    TimelyPrefix(b, requests, i + 1);
    BalanceBounds(b, requests[..i + 1]);
    assert requests[..i + 1][..i] == requests[..i];
  }

  lemma WaitsOfLast(b: Bucket, requests: seq<Request>, i: nat, j: nat)
    requires b.rate > 0.0 && i <= j < |requests|
    ensures Waits(b, requests, i + 1, j + 1)
            == Waits(b, requests, i + 1, j) + if i < j && GrantNo(b, requests, j).waited then 1 else 0
  {
    hide GrantNo;
  }

  /** Grants `i` to `j`, waited ones in between counted twice, against what the bucket gains. */
  lemma GrantsFit(b: Bucket, requests: seq<Request>, i: nat, j: nat)
    requires Sound(b) && Timely(b, requests) && i <= j < |requests|
    ensures var gain := Gain(b.rate, GrantNo(b, requests, i).at, GrantNo(b, requests, j).at);
            && (j - i + 1 + Waits(b, requests, i + 1, j)) as real <= b.capacity as real + gain
            && (i < j && GrantNo(b, requests, i).waited ==> (j - i + 1 + Waits(b, requests, i + 1, j)) as real <= gain)
  {
    hide BucketOf, GrantOf, BucketAfter, GrantNo, Timely, Gain, Waits;
    BalanceAlong(b, requests, i, j);
    BalanceAfterGrant(b, requests, i);
    BalanceAfterGrant(b, requests, j);
    WaitsOfLast(b, requests, i, j);
  }

  /**
   The rate bound: grants `i` to `j`, with one more for every grant in between that had to wait, number
   at most the capacity plus what the bucket gains from grant `i` to grant `j`.
   */
  lemma GrantsAreBounded(b: Bucket, requests: seq<Request>, i: nat, j: nat)
    requires Sound(b) && Timely(b, requests) && i <= j < |requests|
    ensures (j - i + 1 + Waits(b, requests, i + 1, j)) as real
            <= b.capacity as real + b.rate * (GrantNo(b, requests, j).at - GrantNo(b, requests, i).at)
  {
    hide BucketAfter, GrantNo, Timely, Gain, Waits;
    GrantsFit(b, requests, i, j);
    WithinGain(j - i + 1 + Waits(b, requests, i + 1, j), b.capacity, b.rate,
               GrantNo(b, requests, i).at, GrantNo(b, requests, j).at);
  }

  lemma WithinGain(n: int, capacity: int, r: real, from: real, to: real)
    requires n as real <= capacity as real + Gain(r, from, to)
    ensures n as real <= capacity as real + r * (to - from)
  {
  }

  /**
   From a waited grant on there is no burst left and every waited grant counts twice. In particular the
   very next grant comes at least 2/rate later, and under saturation only half of `rate` is granted.
   */
  lemma WaitedGrantsCountTwice(b: Bucket, requests: seq<Request>, i: nat, j: nat)
    requires Sound(b) && Timely(b, requests) && i < j < |requests|
    requires GrantNo(b, requests, i).waited
    ensures (j - i + 1 + Waits(b, requests, i + 1, j)) as real
            <= b.rate * (GrantNo(b, requests, j).at - GrantNo(b, requests, i).at)
  {
    hide BucketAfter, GrantNo, Timely, Gain, Waits;
    GrantsFit(b, requests, i, j);
    WithinGain(j - i + 1 + Waits(b, requests, i + 1, j), 0, b.rate,
               GrantNo(b, requests, i).at, GrantNo(b, requests, j).at);
  }

  lemma NextAfterWait(b: Bucket, requests: seq<Request>, i: nat)
    requires Sound(b) && Timely(b, requests) && i + 1 < |requests|
    requires GrantNo(b, requests, i).waited
    ensures GrantNo(b, requests, i + 1).at - GrantNo(b, requests, i).at >= 2.0 / b.rate
  {
    hide BucketOf, GrantOf, BucketAfter, GrantNo, Timely;
    WaitedGrantsCountTwice(b, requests, i, i + 1);
    DivideBy(b.rate, GrantNo(b, requests, i + 1).at - GrantNo(b, requests, i).at, 2.0);
  }

  lemma DivideBy(r: real, d: real, x: real)
    requires r > 0.0 && x <= r * d
    ensures d >= x / r
  {
    TimesQuotient(r, x);
    assert r * (d - x / r) == r * d - r * (x / r) by {
      TimesSum(r, d - x / r, x / r);
    }
  }

  lemma NewBucketIsSound(ratePerSecond: real, burst: int, now: real)
    ensures var b := NewBucket(ratePerSecond, burst, now);
            Sound(b) && b.rate == MaxReal(ratePerSecond, 0.1) && b.capacity == Max(burst, 1)
  {
  }

  /**
   From the moment a limiter is made, whatever its two settings: grants `i` to `j` are at most as many as
   the burst (at least one) plus the rate (at least 0.1) times the time between them.
   */
  lemma NewLimiterIsBounded(ratePerSecond: real, burst: int, now: real, requests: seq<Request>, i: nat, j: nat)
    requires i <= j < |requests| && Timely(NewBucket(ratePerSecond, burst, now), requests)
    ensures var b := NewBucket(ratePerSecond, burst, now);
            (j - i + 1) as real
            <= Max(burst, 1) as real + MaxReal(ratePerSecond, 0.1) * (GrantNo(b, requests, j).at - GrantNo(b, requests, i).at)
  {
    hide BucketAfter, GrantNo, Timely, NewBucket, Max, MaxReal;
    var b := NewBucket(ratePerSecond, burst, now);
    NewBucketIsSound(ratePerSecond, burst, now);
    GrantsAreFew(b, requests, i, j);
    SameBound(j - i + 1, b.capacity, b.rate, Max(burst, 1), MaxReal(ratePerSecond, 0.1),
              GrantNo(b, requests, j).at - GrantNo(b, requests, i).at);
  }

  /** The bound without the waits. */
  lemma GrantsAreFew(b: Bucket, requests: seq<Request>, i: nat, j: nat)
    requires Sound(b) && Timely(b, requests) && i <= j < |requests|
    ensures (j - i + 1) as real
            <= b.capacity as real + b.rate * (GrantNo(b, requests, j).at - GrantNo(b, requests, i).at)
  {
    hide BucketAfter, GrantNo, Timely, Waits;
    GrantsAreBounded(b, requests, i, j);
    WithoutExtra(j - i + 1, Waits(b, requests, i + 1, j),
                 b.capacity as real + b.rate * (GrantNo(b, requests, j).at - GrantNo(b, requests, i).at));
  }

  lemma SameBound(n: nat, capacity: int, rate: real, capacity': int, rate': real, time: real)
    requires n as real <= capacity as real + rate * time && capacity == capacity' && rate == rate'
    ensures n as real <= capacity' as real + rate' * time
  {
  }

  lemma WithoutExtra(n: nat, extra: nat, bound: real)
    requires (n + extra) as real <= bound
    ensures n as real <= bound
  {
  }

  // ---- How soon a request is granted ----

  /** The balance and what the elapsed time has brought in, before the capacity cuts it. */
  ghost function Level(b: Bucket, now: real): real {
    b.tokens + Gain(b.rate, b.lastRefill, now)
  }

  /** A request waits exactly when the balance and what the elapsed time brought in make less than one token. */
  lemma WaitsIff(b: Bucket, now: real, overshoot: real)
    requires Sound(b) && now >= b.lastRefill
    ensures var g, level := GrantOf(b, now, overshoot), Level(b, now);
            && (g.waited <==> level < 1.0)
            && (g.waited ==> g.at == now + (1.0 - level) / b.rate + overshoot)
            && (!g.waited ==> g.at == now
                              && BucketOf(b, now, overshoot).tokens == MinReal(b.capacity as real, level) - 1.0)
  {
    var level := Level(b, now);
    assert Refilled(b, now) == MinReal(b.capacity as real, level);
    if level < 1.0 {
      PositiveQuotient(1.0 - level, b.rate);
    }
  }

  lemma PositiveQuotient(x: real, r: real)
    requires x > 0.0 && r > 0.0
    ensures x / r > 0.0
  {
  }

  /** The bucket that a request finds, and the clock. */
  lemma BeforeRequest(b: Bucket, requests: seq<Request>, i: nat)
    requires Sound(b) && Timely(b, requests) && i < |requests|
    ensures var before := BucketAfter(b, requests[..i]);
            && Sound(before) && before.rate == b.rate && before.capacity == b.capacity
            && requests[i].now >= before.lastRefill && requests[i].overshoot >= 0.0
            && GrantNo(b, requests, i) == GrantOf(before, requests[i].now, requests[i].overshoot)
            && BucketAfter(b, requests[..i + 1]) == BucketOf(before, requests[i].now, requests[i].overshoot)
    ensures i > 0 ==> BucketAfter(b, requests[..i]).lastRefill == GrantNo(b, requests, i - 1).at
  {
    hide BucketOf, GrantOf;
    TimelyPrefix(b, requests, i);
    BalanceBounds(b, requests[..i]);
    assert TimelyAt(b, requests, i);
    assert requests[..i + 1][..i] == requests[..i];
    if i > 0 {
      RequestAfter(b, requests, i);
    }
  }

  lemma GrantIsSoon(b: Bucket, now: real, overshoot: real)
    requires Sound(b) && now >= b.lastRefill && overshoot >= 0.0
    ensures var g := GrantOf(b, now, overshoot);
            now <= g.at <= now + 2.0 / b.rate + overshoot && (!g.waited ==> g.at == now)
  {
    hide GrantOf, BucketOf, Level;
    WaitsIff(b, now, overshoot);
    TimeOnlyAdds(b, now);
    SoonFrom(GrantOf(b, now, overshoot), Level(b, now), b.rate, now, overshoot);
  }

  lemma TimeOnlyAdds(b: Bucket, now: real)
    requires Sound(b) && now >= b.lastRefill
    ensures Level(b, now) >= b.tokens
  {
    hide Gain;
    GainAtLeast(b.rate, b.lastRefill, now, 0.0, 0.0);
  }

  lemma SoonFrom(g: Grant, level: real, r: real, now: real, overshoot: real)
    requires r > 0.0 && level >= -1.0 && overshoot >= 0.0
    requires if level < 1.0 then g.at == now + (1.0 - level) / r + overshoot else g.at == now
    ensures now <= g.at <= now + 2.0 / r + overshoot
  {
    PositiveQuotient(2.0, r);
    if level < 1.0 {
      PositiveQuotient(1.0 - level, r);
      QuotientOrder(1.0 - level, 2.0, r);
    }
  }

  lemma QuotientOrder(x: real, y: real, r: real)
    requires r > 0.0 && x <= y
    ensures x / r <= y / r
  {
  }

  /** A sleep is never longer than 2/rate, apart from its overshoot. */
  lemma SleepIsShort(b: Bucket, requests: seq<Request>, i: nat)
    requires Sound(b) && Timely(b, requests) && i < |requests|
    ensures requests[i].now <= GrantNo(b, requests, i).at <= requests[i].now + 2.0 / b.rate + requests[i].overshoot
    ensures !GrantNo(b, requests, i).waited ==> GrantNo(b, requests, i).at == requests[i].now
  {
    hide BucketOf, GrantOf, BucketAfter, GrantNo, Timely;
    BeforeRequest(b, requests, i);
    GrantIsSoon(BucketAfter(b, requests[..i]), requests[i].now, requests[i].overshoot);
  }

  lemma EnoughForOne(b: Bucket, now: real, overshoot: real, n: nat)
    requires Sound(b) && now >= b.lastRefill && 1 <= n <= b.capacity
    requires b.tokens >= n as real || Level(b, now) >= n as real
    ensures var g := GrantOf(b, now, overshoot); !g.waited && g.at == now
    ensures BucketOf(b, now, overshoot).tokens >= (n - 1) as real
  {
    hide GrantOf, BucketOf, Level;
    WaitsIff(b, now, overshoot);
    TimeOnlyAdds(b, now);
  }

  /** From a request on that finds `n` tokens, within the capacity, `n` requests in a row do not wait. */
  lemma {:induction false} EnoughForAll(b: Bucket, requests: seq<Request>, i: nat, n: nat, k: nat)
    requires Sound(b) && Timely(b, requests) && i + k < |requests| && k < n <= b.capacity
    requires var before := BucketAfter(b, requests[..i]);
             before.tokens >= n as real || Level(before, requests[i].now) >= n as real
    ensures !GrantNo(b, requests, i + k).waited && GrantNo(b, requests, i + k).at == requests[i + k].now
    ensures BucketAfter(b, requests[..i + k + 1]).tokens >= (n - k - 1) as real
    decreases k
  {
    hide BucketOf, GrantOf, BucketAfter, GrantNo, Timely, Level;
    BeforeRequest(b, requests, i + k);
    if k > 0 {
      EnoughForAll(b, requests, i, n, k - 1);
    }
    EnoughForOne(BucketAfter(b, requests[..i + k]), requests[i + k].now, requests[i + k].overshoot, n - k);
  }

  /** The first requests of a new limiter, as many as the burst (at least one), do not wait, whenever they come. */
  lemma NewLimiterGrantsBurst(ratePerSecond: real, burst: int, now: real, requests: seq<Request>, k: nat)
    requires k < |requests| && k < Max(burst, 1) && Timely(NewBucket(ratePerSecond, burst, now), requests)
    ensures var g := GrantNo(NewBucket(ratePerSecond, burst, now), requests, k); !g.waited && g.at == requests[k].now
  {
    hide BucketOf, GrantOf, GrantNo, Timely;
    var b := NewBucket(ratePerSecond, burst, now);
    NewBucketIsSound(ratePerSecond, burst, now);
    assert BucketAfter(b, requests[..0]) == b;
    EnoughForAll(b, requests, 0, Max(burst, 1), k);
  }

  lemma LevelAfterIdle(b: Bucket, now: real, least: real, x: real)
    requires Sound(b) && now - b.lastRefill >= least && b.rate * least == x
    ensures Level(b, now) >= x - 1.0
  {
    hide Gain;
    GainAtLeast(b.rate, b.lastRefill, now, least, x);
  }

  lemma TimesMonotone(r: real, a: real, b: real)
    requires r >= 0.0 && a <= b
    ensures r * a <= r * b
  {
    var d := b - a;
    TimesNonNegative(r, d);
    TimesSum(r, a, d);
    assert a + d == b;
  }

  /**
   After an idle time of (m + 1)/rate, for any `m` up to the capacity, the next `m` requests do not wait. With
   `m` the capacity, that is the whole burst again.
   */
  lemma IdleTimeRefills(b: Bucket, requests: seq<Request>, i: nat, m: nat, k: nat)
    requires Sound(b) && Timely(b, requests) && 1 <= i && i + k < |requests| && k < m <= b.capacity
    requires requests[i].now >= GrantNo(b, requests, i - 1).at + (m + 1) as real / b.rate
    ensures !GrantNo(b, requests, i + k).waited && GrantNo(b, requests, i + k).at == requests[i + k].now
  {
    hide BucketOf, GrantOf, BucketAfter, GrantNo, Timely, Level;
    BeforeRequest(b, requests, i);
    var before := BucketAfter(b, requests[..i]);
    TimesQuotient(b.rate, (m + 1) as real);
    LevelAfterIdle(before, requests[i].now, (m + 1) as real / b.rate, (m + 1) as real);
    EnoughForAll(b, requests, i, m, k);
  }

  /** In particular a request made at least 2/rate after the previous grant is granted at once. */
  lemma IdleRequestIsGranted(b: Bucket, requests: seq<Request>, i: nat)
    requires Sound(b) && Timely(b, requests) && 1 <= i < |requests|
    requires requests[i].now >= GrantNo(b, requests, i - 1).at + 2.0 / b.rate
    ensures !GrantNo(b, requests, i).waited && GrantNo(b, requests, i).at == requests[i].now
  {
    hide BucketOf, GrantOf, BucketAfter, GrantNo, Timely;
    IdleTimeRefills(b, requests, i, 1, 0);
  }
}
