/** The retry loop of `api_call` in app/core/rubika_client.py, over an arbitrary network. */
module RubikaClients {
  import opened Basics
  import opened ApiRateLimiters

  /** What one POST comes to: a timeout or transport error, or a response, whose body may not be JSON. */
  datatype Outcome = TransportFailure(error: string) | Response(status: int, body: Option<string>)

  datatype Reply = CallFailed(error: string, apiMethod: string) | InvalidJson | Data(body: string)

  /**
   The surroundings of a call: the time at which its limiter would be created, and for the n-th attempt
   its outcome, the requests that other calls of the same API method get in before it, the clock when it
   gets the limiter, the overshoot of the limiter's sleep, and the jitter drawn.
   */
  datatype Network = Network(
    created: real,
    outcome: nat -> Outcome,
    others: nat -> seq<Request>,
    now: nat -> real,
    overshoot: nat -> real,
    jitter: nat -> real)

  predicate Retryable(o: Outcome) {
    match o
    case TransportFailure(_) => true
    case Response(status, _) => status == 408 || status == 429 || status >= 500
  }

  /** The reply made from the outcome of the last attempt. */
  function ReplyTo(o: Outcome, apiMethod: string): Reply {
    match o
    case TransportFailure(error) => CallFailed(error, apiMethod)
    case Response(_, None) => InvalidJson
    case Response(_, Some(body)) => Data(body)
  }

  function Pow2(n: nat): nat {
    if n == 0 then 1 else 2 * Pow2(n - 1)
  }

  /** `random.uniform(0, b)` is `b` times a number drawn between 0 and 1. */
  function Backoff(b: real, attempt: nat, fraction: real): real
    requires attempt >= 1
  {
    b * Pow2(attempt - 1) as real + b * fraction
  }

  function Jitters(jitter: nat -> real, k: nat): real {
    if k == 0 then 0.0 else Jitters(jitter, k - 1) + jitter(k - 1)
  }

  /** What its limiter is asked for, by this call and by others, up to the n-th post of this call. */
  function RequestsOf(net: Network, n: nat): seq<Request> {
    if n == 0 then []
    else RequestsOf(net, n - 1) + net.others(n - 1) + [Request(net.now(n - 1), net.overshoot(n - 1))]
  }

  /**
   What a call comes to: every post but the last had a retryable outcome; the last one had not, or was
   attempt number max(retries, 0) + 1; and the reply is made from the last outcome.
   */
  ghost predicate CallResult(retries: int, backoff: real, name: string, net: Network,
                             reply: Reply, posts: nat, slept: real)
  {
    && 1 <= posts <= Max(retries, 0) + 1
    && (forall i: nat :: i < posts - 1 ==> Retryable(net.outcome(i)))
    && (!Retryable(net.outcome(posts - 1)) || posts == Max(retries, 0) + 1)
    && reply == ReplyTo(net.outcome(posts - 1), name)
    && slept == backoff * ((Pow2(posts - 1) - 1) as real + Jitters(net.jitter, posts - 1))
  }

  /** A transport failure and the statuses 408, 429 and from 500 on are retried while attempts are left; nothing else is. */
  lemma ResultInWords(retries: int, backoff: real, name: string, net: Network, reply: Reply, posts: nat, slept: real)
    requires CallResult(retries, backoff, name, net, reply, posts, slept)
    ensures forall i: nat :: i + 1 < posts ==>
              match net.outcome(i)
              case TransportFailure(_) => true
              case Response(status, _) => status == 408 || status == 429 || status >= 500
    ensures match net.outcome(posts - 1)
            case TransportFailure(error) => posts == Max(retries, 0) + 1 && reply == CallFailed(error, name)
            case Response(status, body) =>
              && (status == 408 || status == 429 || status >= 500 ==> posts == Max(retries, 0) + 1)
              && reply == if body.Some? then Data(body.value) else InvalidJson
  {
    forall i: nat | i + 1 < posts
      ensures match net.outcome(i)
              case TransportFailure(_) => true
              case Response(status, _) => status == 408 || status == 429 || status >= 500
    {
      assert Retryable(net.outcome(i));
    }
  }

  class RubikaClient {
    const retryAttempts: int
    const retryBackoff: real
    const rateLimitPerSecond: int
    var rateLimiters: map<string, ApiRateLimiter>

    ghost predicate Valid()
      reads this
    {
      && (forall m :: m in rateLimiters ==> rateLimiters[m].Valid())
      && (forall m, m' :: m in rateLimiters && m' in rateLimiters && m != m' ==> rateLimiters[m] != rateLimiters[m'])
    }

    constructor (retryAttempts: int, retryBackoff: real, rateLimitPerSecond: int)
      ensures Valid() && rateLimiters == map[]
      ensures this.retryAttempts == retryAttempts && this.retryBackoff == retryBackoff
      ensures this.rateLimitPerSecond == rateLimitPerSecond
    {
      this.retryAttempts, this.retryBackoff := retryAttempts, retryBackoff;
      this.rateLimitPerSecond := rateLimitPerSecond;
      rateLimiters := map[];
    }

    /** The limiter of an API method; the first call for a method creates it with a burst of five. */
    method LimiterOf(name: string, now: real) returns (limiter: ApiRateLimiter)
      requires Valid()
      modifies this`rateLimiters
      ensures Valid() && name in rateLimiters && rateLimiters[name] == limiter
      ensures name in old(rateLimiters) ==> rateLimiters == old(rateLimiters)
      ensures name !in old(rateLimiters) ==>
                && fresh(limiter) && rateLimiters == old(rateLimiters)[name := limiter]
                && limiter.View() == NewBucket(Max(rateLimitPerSecond, 1) as real, 5, now)
    {
      if name !in rateLimiters {
        limiter := new ApiRateLimiter(Max(rateLimitPerSecond, 1) as real, 5, now);
        rateLimiters := rateLimiters[name := limiter];
      } else {
        limiter := rateLimiters[name];
      }
    }

    /** A call uses the limiter of its API method, made on first use, and no other. */
    method ApiCall(name: string, net: Network) returns (reply: Reply, posts: nat, slept: real)
      requires Valid()
      modifies this`rateLimiters, if name in rateLimiters then {rateLimiters[name]} else {}
      ensures Valid() && name in rateLimiters
      ensures forall m :: m in old(rateLimiters) && m != name ==>
                m in rateLimiters && rateLimiters[m] == old(rateLimiters[m])
                && rateLimiters[m].View() == old(rateLimiters[m].View())
      ensures CallResult(retryAttempts, retryBackoff, name, net, reply, posts, slept)
      ensures forall i: nat :: i + 1 < posts ==>
                match net.outcome(i)
                case TransportFailure(_) => true
                case Response(status, _) => status == 408 || status == 429 || status >= 500
      ensures match net.outcome(posts - 1)
              case TransportFailure(error) => posts == Max(retryAttempts, 0) + 1 && reply == CallFailed(error, name)
              case Response(status, body) =>
                && (status == 408 || status == 429 || status >= 500 ==> posts == Max(retryAttempts, 0) + 1)
                && reply == if body.Some? then Data(body.value) else InvalidJson
      ensures name in old(rateLimiters) ==>
                && rateLimiters == old(rateLimiters)
                && rateLimiters[name].View() == BucketAfter(old(rateLimiters[name].View()), RequestsOf(net, posts))
      ensures name !in old(rateLimiters) ==>
                && rateLimiters == old(rateLimiters)[name := rateLimiters[name]]
                && rateLimiters[name].View()
                   == BucketAfter(NewBucket(Max(rateLimitPerSecond, 1) as real, 5, net.created), RequestsOf(net, posts))
    {
      var limiter := LimiterOf(name, net.created);
      reply, posts, slept := CallWith(name, limiter, net);
      ResultInWords(retryAttempts, retryBackoff, name, net, reply, posts, slept);
    }

    /**
     Posts until an outcome is not worth retrying or the attempts are used up, taking one grant of the
     limiter before each post and sleeping before each further attempt. While it waits, other calls may use
     the limiter. The call also reports how often it posted and how much sleep it asked for.
     */
    method CallWith(name: string, limiter: ApiRateLimiter, net: Network)
      returns (reply: Reply, posts: nat, slept: real)
      requires limiter.Valid()
      modifies limiter
      ensures CallResult(retryAttempts, retryBackoff, name, net, reply, posts, slept)
      ensures limiter.granted == old(limiter.granted) + |RequestsOf(net, posts)|
      ensures limiter.View() == BucketAfter(old(limiter.View()), RequestsOf(net, posts))
    {
      hide BucketAfter, RequestsOf, Pow2, Jitters, Backoff, Retryable, ReplyTo;
      var attempt := 0;
      posts, slept := 0, 0.0;
      NoSleepYet(retryBackoff, net.jitter);
      NoRequestYet(limiter.View(), net);
      while true
        invariant posts == attempt <= Max(retryAttempts, 0)
        invariant forall i: nat :: i < attempt ==> Retryable(net.outcome(i))
        invariant slept == retryBackoff * ((Pow2(attempt) - 1) as real + Jitters(net.jitter, attempt))
        invariant limiter.granted == old(limiter.granted) + |RequestsOf(net, attempt)|
        invariant limiter.View() == BucketAfter(old(limiter.View()), RequestsOf(net, attempt))
        decreases Max(retryAttempts, 0) + 1 - attempt
      {
        attempt := attempt + 1;
        TakeTurn(limiter, old(limiter.View()), net, attempt);
        var outcome := net.outcome(attempt - 1);
        posts := posts + 1;
        if Retryable(outcome) && attempt <= retryAttempts {
          SleepGrows(retryBackoff, net.jitter, attempt);
          slept := slept + Backoff(retryBackoff, attempt, net.jitter(attempt - 1));
          continue;
        }
        return ReplyTo(outcome, name), posts, slept;
      }
    }
  }

  /** Other calls take their turns at the limiter. */
  method Meanwhile(limiter: ApiRateLimiter, others: seq<Request>)
    requires limiter.Valid()
    modifies limiter
    ensures limiter.View() == BucketAfter(old(limiter.View()), others)
    ensures limiter.granted == old(limiter.granted) + |others|
  {
    hide BucketOf;
    for i := 0 to |others|
      invariant limiter.View() == BucketAfter(old(limiter.View()), others[..i])
      invariant limiter.granted == old(limiter.granted) + i
    {
      assert others[..i + 1][..i] == others[..i];
      var at := limiter.Acquire(others[i].now, others[i].overshoot);
    }
    assert others[..|others|] == others;
  }

  /** The limiter lets this call in for post `n`, after the others that come before it. */
  method TakeTurn(limiter: ApiRateLimiter, ghost b: Bucket, net: Network, n: nat)
    requires limiter.Valid() && n > 0 && b.rate > 0.0
    requires limiter.View() == BucketAfter(b, RequestsOf(net, n - 1))
    modifies limiter
    ensures limiter.View() == BucketAfter(b, RequestsOf(net, n))
    ensures limiter.granted == old(limiter.granted) + |RequestsOf(net, n)| - |RequestsOf(net, n - 1)|
  {
    hide BucketOf, BucketAfter, RequestsOf;
    Meanwhile(limiter, net.others(n - 1));
    OneMorePost(b, net, n);
    var at := limiter.Acquire(net.now(n - 1), net.overshoot(n - 1));
  }

  lemma NoRequestYet(b: Bucket, net: Network)
    requires b.rate > 0.0
    ensures RequestsOf(net, 0) == [] && BucketAfter(b, RequestsOf(net, 0)) == b
  {
  }

  lemma OneMorePost(b: Bucket, net: Network, n: nat)
    requires b.rate > 0.0 && n > 0
    ensures |RequestsOf(net, n)| == |RequestsOf(net, n - 1)| + |net.others(n - 1)| + 1
    ensures BucketAfter(b, RequestsOf(net, n))
            == BucketOf(BucketAfter(BucketAfter(b, RequestsOf(net, n - 1)), net.others(n - 1)),
                        net.now(n - 1), net.overshoot(n - 1))
  {
    hide BucketOf;
    var before := RequestsOf(net, n - 1) + net.others(n - 1);
    BucketAfterMore(b, RequestsOf(net, n - 1), net.others(n - 1));
    assert RequestsOf(net, n)[..|before|] == before;
  }

  lemma NoSleepYet(b: real, jitter: nat -> real)
    ensures 0.0 == b * ((Pow2(0) - 1) as real + Jitters(jitter, 0))
  {
  }

  /** One more backoff doubles the deterministic part and adds one jitter. */
  lemma SleepGrows(b: real, jitter: nat -> real, attempt: nat)
    requires attempt >= 1
    ensures b * ((Pow2(attempt - 1) - 1) as real + Jitters(jitter, attempt - 1)) + Backoff(b, attempt, jitter(attempt - 1))
            == b * ((Pow2(attempt) - 1) as real + Jitters(jitter, attempt))
  {
    var p, j, f := Pow2(attempt - 1) as real, Jitters(jitter, attempt - 1), jitter(attempt - 1);
    assert (Pow2(attempt) - 1) as real + Jitters(jitter, attempt) == (p - 1.0 + j) + (p + f);
    TimesSum(b, p - 1.0 + j, p + f);
    TimesSum(b, p, f);
  }

  lemma {:induction false} JittersBetween(jitter: nat -> real, k: nat)
    requires forall i: nat :: i < k ==> 0.0 <= jitter(i) <= 1.0
    ensures 0.0 <= Jitters(jitter, k) <= k as real
  {
    if k > 0 {
      JittersBetween(jitter, k - 1);
    }
  }

  /** After `k` retries the requested sleep is between b(2^k - 1) and b(2^k - 1 + k). */
  lemma SleepBounds(b: real, jitter: nat -> real, k: nat)
    requires b >= 0.0 && forall i: nat :: i < k ==> 0.0 <= jitter(i) <= 1.0
    ensures var slept := b * ((Pow2(k) - 1) as real + Jitters(jitter, k));
            b * (Pow2(k) - 1) as real <= slept <= b * (Pow2(k) - 1 + k) as real
  {
    JittersBetween(jitter, k);
    TimesSum(b, (Pow2(k) - 1) as real, Jitters(jitter, k));
    TimesNonNegative(b, Jitters(jitter, k));
    TimesSum(b, (Pow2(k) - 1) as real + Jitters(jitter, k), k as real - Jitters(jitter, k));
    TimesNonNegative(b, k as real - Jitters(jitter, k));
  }

  // ---- The posts of a call among all requests ----

  /** The position of post `i` among the requests. */
  function PostNo(net: Network, i: nat): (n: nat)
    ensures n < |RequestsOf(net, i + 1)|
  {
    |RequestsOf(net, i)| + |net.others(i)|
  }

  /** When post `i` was granted. */
  ghost function PostedAt(b: Bucket, net: Network, i: nat): real
    requires b.rate > 0.0
  {
    GrantNo(b, RequestsOf(net, i + 1), PostNo(net, i)).at
  }

  lemma {:induction false} RequestsPrefix(net: Network, n: nat, i: nat)
    requires i <= n
    ensures |RequestsOf(net, i)| <= |RequestsOf(net, n)|
    ensures RequestsOf(net, n)[..|RequestsOf(net, i)|] == RequestsOf(net, i)
    ensures |RequestsOf(net, n)| - |RequestsOf(net, i)| >= n - i
  {
    if i < n {
      RequestsPrefix(net, n - 1, i);
      assert RequestsOf(net, n)[..|RequestsOf(net, i)|] == RequestsOf(net, n - 1)[..|RequestsOf(net, i)|];
    }
  }

  lemma PostIsGranted(b: Bucket, net: Network, n: nat, i: nat)
    requires b.rate > 0.0 && i < n
    ensures PostNo(net, i) < |RequestsOf(net, n)|
    ensures PostedAt(b, net, i) == GrantNo(b, RequestsOf(net, n), PostNo(net, i)).at
  {
    hide GrantNo, RequestsOf;
    RequestsPrefix(net, n, i + 1);
    GrantOfPrefix(b, RequestsOf(net, n), |RequestsOf(net, i + 1)|, PostNo(net, i));
  }

  lemma PostsAreInOrder(net: Network, i: nat, j: nat)
    requires i <= j
    ensures PostNo(net, j) - PostNo(net, i) >= j - i
  {
    if i < j {
      RequestsPrefix(net, j, i + 1);
    }
  }

  /**
   The posts of a call keep the limiter's promise in any interleaving with other calls of the same method:
   on a clock that does not go back, posts `i` to `j`, and whatever the others were granted in between, are
   at most as many as the capacity plus what the bucket gains between the two.
   */
  lemma PostsAreRateLimited(b: Bucket, net: Network, i: nat, j: nat)
    requires Sound(b) && i <= j && Timely(b, RequestsOf(net, j + 1))
    ensures PostNo(net, j) - PostNo(net, i) >= j - i
    ensures (PostNo(net, j) - PostNo(net, i) + 1) as real
            <= b.capacity as real + b.rate * (PostedAt(b, net, j) - PostedAt(b, net, i))
  {
    hide GrantNo, RequestsOf, Waits, Timely, PostNo, PostedAt;
    var requests := RequestsOf(net, j + 1);
    PostsAreInOrder(net, i, j);
    PostIsGranted(b, net, j + 1, i);
    PostIsGranted(b, net, j + 1, j);
    GrantsAreBounded(b, requests, PostNo(net, i), PostNo(net, j));
    WithoutExtra(PostNo(net, j) - PostNo(net, i) + 1, Waits(b, requests, PostNo(net, i) + 1, PostNo(net, j)),
                 b.capacity as real + b.rate * (PostedAt(b, net, j) - PostedAt(b, net, i)));
  }
}
