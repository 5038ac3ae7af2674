/** The token bucket of middleware/ratelimit.go: the local map of buckets and the Redis script.

    Times are nanoseconds, tokens are reals. A run is the sequence of times at which one client calls;
    calls reach the bucket in the order of their times. */
module RateLimit {
  import opened Wrappers

  const SECOND: int := 1_000_000_000
  const EXPIRY: int := 300 * SECOND
  const MAX_BUCKETS: nat := 100000

  datatype Bucket = Bucket(tokens: real, last: int)

  /** `capacity` and `refill` come from the configuration, which replaces values that are not positive. */
  datatype Limit = Limit(capacity: real, refill: real) {
    predicate Valid() { capacity > 0.0 && refill > 0.0 }
  }

  /** The tokens that arrive in d nanoseconds. */
  function Gain(c: Limit, d: int): real {
    d as real / SECOND as real * c.refill
  }

  function MinReal(a: real, b: real): real {
    if a <= b then a else b
  }

  /** The tokens in a bucket when a call arrives, before the call takes one. */
  function Available(c: Limit, b: Bucket, now: int): real {
    if now - b.last > 0 then MinReal(c.capacity, b.tokens + Gain(c, now - b.last)) else b.tokens
  }

  function Full(c: Limit, now: int): Bucket {
    Bucket(c.capacity, now)
  }

  /** One call on a bucket: what is left, and whether the call is allowed. */
  function Take(c: Limit, b: Bucket, now: int): (Bucket, bool) {
    var tokens := Available(c, b, now);
    if tokens >= 1.0 then (Bucket(tokens - 1.0, now), true) else (Bucket(tokens, now), false)
  }

  /** One call, with what is stored for the client. */
  function LocalCall(c: Limit, stored: Option<Bucket>, now: int): (Bucket, bool) {
    Take(c, match stored case None => Full(c, now) case Some(b) => b, now)
  }

  /** The script: a key that has not been written for 300 seconds is gone. */
  function RedisCall(c: Limit, stored: Option<Bucket>, now: int): (Bucket, bool) {
    match stored
    case Some(b) => if now - b.last >= EXPIRY then Take(c, Full(c, now), now) else Take(c, b, now)
    case None => Take(c, Full(c, now), now)
  }

  ghost predicate Ordered(times: seq<int>) {
    forall i, j :: 0 <= i <= j < |times| ==> times[i] <= times[j]
  }

  /** What the local bucket holds after the first n calls. */
  function Local(c: Limit, times: seq<int>, n: nat): Option<Bucket>
    requires n <= |times|
  {
    if n == 0 then None else Some(LocalCall(c, Local(c, times, n - 1), times[n-1]).0)
  }

  function Redis(c: Limit, times: seq<int>, n: nat): Option<Bucket>
    requires n <= |times|
  {
    if n == 0 then None else Some(RedisCall(c, Redis(c, times, n - 1), times[n-1]).0)
  }

  /** Whether call n is allowed. */
  predicate LocalAllows(c: Limit, times: seq<int>, n: nat)
    requires n < |times|
  {
    LocalCall(c, Local(c, times, n), times[n]).1
  }

  predicate RedisAllows(c: Limit, times: seq<int>, n: nat)
    requires n < |times|
  {
    RedisCall(c, Redis(c, times, n), times[n]).1
  }

  /** The number of calls i .. j-1 that were allowed. */
  function Allowed(c: Limit, times: seq<int>, i: nat, j: nat): nat
    requires i <= j <= |times|
  {
    if i == j then 0 else Allowed(c, times, i, j - 1) + (if LocalAllows(c, times, j - 1) then 1 else 0)
  }

  // ------------------------------------------------------------------ gains

  lemma GainAdds(c: Limit, a: int, b: int)
    ensures Gain(c, a + b) == Gain(c, a) + Gain(c, b)
  {
    assert (a + b) as real / SECOND as real == a as real / SECOND as real + b as real / SECOND as real;
  }

  lemma GainGrows(c: Limit, a: int, b: int)
    requires c.refill >= 0.0 && a <= b
    ensures Gain(c, a) <= Gain(c, b)
    ensures Gain(c, 0) == 0.0
  {
    var x, y := a as real / SECOND as real, b as real / SECOND as real;
    assert x <= y;
    Monotone(x, y, c.refill);
  }

  lemma Monotone(x: real, y: real, r: real)
    requires x <= y && r >= 0.0
    ensures x * r <= y * r
  {
  }

  lemma GainSeconds(c: Limit, seconds: int)
    ensures Gain(c, seconds * SECOND) == seconds as real * c.refill
  {
    assert (seconds * SECOND) as real / SECOND as real == seconds as real;
  }

  // ------------------------------------------------------------------ tokens stay in range

  lemma {:induction false} TokensInRange(c: Limit, times: seq<int>, n: nat)
    requires c.Valid() && Ordered(times) && 0 < n <= |times|
    ensures Local(c, times, n).Some? && Local(c, times, n).value.last == times[n-1]
    ensures 0.0 <= Local(c, times, n).value.tokens <= c.capacity
  {
    if n > 1 {
      TokensInRange(c, times, n - 1);
      GainGrows(c, 0, times[n-1] - times[n-2]);
    }
  }

  /** The tokens call n finds in the bucket. */
  function Found(c: Limit, times: seq<int>, n: nat): real
    requires n < |times|
  {
    match Local(c, times, n) case None => c.capacity case Some(b) => Available(c, b, times[n])
  }

  lemma FoundDecides(c: Limit, times: seq<int>, n: nat)
    requires n < |times|
    ensures LocalAllows(c, times, n) <==> Found(c, times, n) >= 1.0
  {
  }

  lemma FoundNext(c: Limit, times: seq<int>, n: nat)
    requires c.Valid() && Ordered(times) && n + 1 < |times|
    ensures Found(c, times, n + 1) ==
            MinReal(c.capacity, Found(c, times, n) - (if LocalAllows(c, times, n) then 1.0 else 0.0)
                                + Gain(c, times[n+1] - times[n]))
  {
    TokensInRange(c, times, n + 1);
    GainGrows(c, 0, 0);
  }

  // ------------------------------------------------------------------ exactly which calls are allowed

  /** The room left for call n in the window that opened with call j. */
  function Room(c: Limit, times: seq<int>, j: nat, n: nat): real
    requires j <= n < |times|
  {
    c.capacity + Gain(c, times[n] - times[j]) - Allowed(c, times, j, n) as real
  }

  lemma RoomNext(c: Limit, times: seq<int>, j: nat, n: nat)
    requires j <= n && n + 1 < |times|
    ensures Room(c, times, j, n + 1) ==
            Room(c, times, j, n) - (if LocalAllows(c, times, n) then 1.0 else 0.0) + Gain(c, times[n+1] - times[n])
  {
    GainAdds(c, times[n] - times[j], times[n+1] - times[n]);
    assert times[n] - times[j] + (times[n+1] - times[n]) == times[n+1] - times[j];
  }

  /** The bucket never holds more than the room of any window that is open ... */
  lemma {:induction false} FoundWithinRoom(c: Limit, times: seq<int>, i: nat, n: nat)
    requires c.Valid() && Ordered(times) && i <= n < |times|
    ensures Found(c, times, n) <= Room(c, times, i, n)
  {
    GainGrows(c, 0, 0);
    if n > 0 {
      FoundNext(c, times, n - 1);
      if i < n {
        FoundWithinRoom(c, times, i, n - 1);
        RoomNext(c, times, i, n - 1);
      }
    }
  }

  /** ... and exactly the room of one of them. */
  lemma {:induction false} FoundIsSomeRoom(c: Limit, times: seq<int>, n: nat) returns (j: nat)
    requires c.Valid() && Ordered(times) && n < |times|
    ensures j <= n && Found(c, times, n) == Room(c, times, j, n)
  {
    GainGrows(c, 0, 0);
    j := n;
    if n > 0 {
      FoundNext(c, times, n - 1);
      if Found(c, times, n) != c.capacity {
        j := FoundIsSomeRoom(c, times, n - 1);
        RoomNext(c, times, j, n - 1);
      }
    }
  }

  /** A call is allowed if and only if, with it, no window that ends with it and opens at an earlier call (or at itself)
      contains more than the capacity plus what has been refilled since the window opened. */
  lemma AllowedExactlyWithinEveryWindow(c: Limit, times: seq<int>, n: nat)
    requires c.Valid() && Ordered(times) && n < |times|
    ensures LocalAllows(c, times, n) <==>
            forall j :: 0 <= j <= n ==>
              Allowed(c, times, j, n) as real + 1.0 <= c.capacity + Gain(c, times[n] - times[j])
  {
    FoundDecides(c, times, n);
    var j := FoundIsSomeRoom(c, times, n);
    forall i | 0 <= i <= n { FoundWithinRoom(c, times, i, n); }
    assert forall i :: 0 <= i <= n ==>
      (Allowed(c, times, i, n) as real + 1.0 <= c.capacity + Gain(c, times[n] - times[i]) <==>
          Room(c, times, i, n) >= 1.0);
  }

  /** No window of d nanoseconds, wherever it lies, sees more than the capacity plus the refill of d allowed. */
  lemma {:induction false} WindowBound(c: Limit, times: seq<int>, i: nat, j: nat, d: int)
    requires c.Valid() && Ordered(times) && i < j <= |times| && times[j-1] - times[i] <= d
    ensures Allowed(c, times, i, j) as real <= c.capacity + Gain(c, d)
    decreases j
  {
    GainGrows(c, times[j-1] - times[i], d);
    GainGrows(c, 0, times[j-1] - times[i]);
    if LocalAllows(c, times, j - 1) {
      AllowedExactlyWithinEveryWindow(c, times, j - 1);
    } else if i < j - 1 {
      WindowBound(c, times, i, j - 1, d);
    }
  }

  /** A client that leaves enough time for a whole token between its calls is never refused. */
  lemma {:induction false} PatientClientNeverRefused(c: Limit, times: seq<int>, n: nat)
    requires c.Valid() && c.capacity >= 1.0 && Ordered(times) && n < |times|
    requires forall k :: 0 < k < |times| ==> Gain(c, times[k] - times[k-1]) >= 1.0
    ensures Found(c, times, n) == c.capacity && LocalAllows(c, times, n)
  {
    if n > 0 {
      PatientClientNeverRefused(c, times, n - 1);
      FoundNext(c, times, n - 1);
    }
    FoundDecides(c, times, n);
  }

  // ------------------------------------------------------------------ Redis against the local bucket

  /** When a bucket is full again within the expiry, losing it makes no difference, ever. */
  lemma {:induction false} RedisAgrees(c: Limit, times: seq<int>, n: nat)
    requires c.Valid() && Ordered(times) && n <= |times|
    requires c.capacity <= 300.0 * c.refill
    ensures Redis(c, times, n) == Local(c, times, n)
  {
    if n > 0 {
      RedisAgrees(c, times, n - 1);
      if n > 1 {
        TokensInRange(c, times, n - 1);
        var b, d := Local(c, times, n - 1).value, times[n-1] - times[n-2];
        if d >= EXPIRY {
          GainSeconds(c, 300);
          GainGrows(c, EXPIRY, d);
          assert Available(c, b, times[n-1]) == c.capacity;
        }
      }
    }
  }

  function Repeat(n: nat, t: int): (r: seq<int>)
    ensures |r| == n && forall i :: 0 <= i < n ==> r[i] == t
  {
    if n == 0 then [] else Repeat(n - 1, t) + [t]
  }

  /** A burst that empties a full bucket, and a second one as large when the key has just expired. */
  function TwoBursts(size: nat): seq<int> {
    Repeat(size, 0) + Repeat(size, EXPIRY)
  }

  lemma {:induction false} FirstBurst(c: Limit, size: nat, n: nat)
    requires c.Valid() && size as real <= c.capacity && n <= size
    ensures n > 0 ==> Local(c, TwoBursts(size), n) == Some(Bucket(c.capacity - n as real, 0))
    ensures n > 0 ==> Redis(c, TwoBursts(size), n) == Some(Bucket(c.capacity - n as real, 0))
  {
    if n > 0 {
      FirstBurst(c, size, n - 1);
      assert TwoBursts(size)[n-1] == 0;
    }
  }

  /** What a bucket holds when it has been emptied as far as whole tokens go and then left alone until the key
      expires. */
  function Refilled(c: Limit): real {
    c.capacity - c.capacity.Floor as real + 300.0 * c.refill
  }

  /** In the second burst the local bucket has only what was refilled, Redis starts from a full one. */
  lemma {:induction false} SecondBurst(c: Limit, size: nat, n: nat)
    requires c.Valid() && c.capacity.Floor == size && Refilled(c) < size as real
    requires 0 < n <= size && (n - 1) as real <= Refilled(c)
    ensures Found(c, TwoBursts(size), size + n - 1) == Refilled(c) - (n - 1) as real
    ensures n == 1 || Redis(c, TwoBursts(size), size + n - 1) == Some(Bucket(c.capacity - (n - 1) as real, EXPIRY))
    ensures RedisAllows(c, TwoBursts(size), size + n - 1)
  {
    var times := TwoBursts(size);
    assert times[size + n - 1] == EXPIRY;
    if n == 1 {
      FirstBurst(c, size, size);
      GainSeconds(c, 300);
    } else {
      SecondBurst(c, size, n - 1);
      assert times[size + n - 2] == EXPIRY;
    }
  }

  lemma TwoBurstsOrdered(size: nat)
    ensures Ordered(TwoBursts(size))
  {
  }

  /** If the tokens refilled within the expiry leave fewer than the whole tokens of a full bucket, there is a run in
      which the script allows a call that the local bucket refuses. */
  lemma RedisForgetsTooSoon(c: Limit)
    requires c.Valid() && Refilled(c) < c.capacity.Floor as real
    ensures var times := TwoBursts(c.capacity.Floor);
            Ordered(times) && exists n :: 0 <= n < |times| && RedisAllows(c, times, n) && !LocalAllows(c, times, n)
  {
    var size: nat := c.capacity.Floor;
    var times := TwoBursts(size);
    TwoBurstsOrdered(size);
    var whole := Refilled(c).Floor;
    assert 0 <= whole < size;
    SecondBurst(c, size, whole + 1);
    FoundDecides(c, times, size + whole);
    assert RedisAllows(c, times, size + whole) && !LocalAllows(c, times, size + whole);
  }

  /** A bucket that cannot hold a whole token refuses every call, in either place. */
  lemma {:induction false} TinyBucketRefuses(c: Limit, times: seq<int>, n: nat)
    requires c.Valid() && c.capacity < 1.0 && n < |times|
    ensures !LocalAllows(c, times, n) && !RedisAllows(c, times, n)
    ensures Local(c, times, n + 1).value.tokens <= c.capacity && Redis(c, times, n + 1).value.tokens <= c.capacity
  {
    if n > 0 { TinyBucketRefuses(c, times, n - 1); }
  }

  ghost predicate DecideAlike(c: Limit) {
    forall times, n :: Ordered(times) && 0 <= n < |times| ==> (RedisAllows(c, times, n) <==> LocalAllows(c, times, n))
  }

  // -- From a state in which both hold the same

  /** After the calls at `times`, the last of them at t, the local bucket holds l tokens and the script's r. */
  ghost predicate Holds(c: Limit, times: seq<int>, t: int, l: real, r: real) {
    && times != [] && Ordered(times) && times[|times|-1] == t
    && Local(c, times, |times|) == Some(Bucket(l, t)) && Redis(c, times, |times|) == Some(Bucket(r, t))
  }

  lemma {:induction false} SamePrefix(c: Limit, a: seq<int>, b: seq<int>, n: nat)
    requires n <= |a| && n <= |b| && a[..n] == b[..n]
    ensures Local(c, a, n) == Local(c, b, n) && Redis(c, a, n) == Redis(c, b, n)
  {
    if n > 0 {
      assert a[..n-1] == a[..n][..n-1] && b[..n-1] == b[..n][..n-1];
      assert a[n-1] == a[..n][n-1] == b[..n][n-1] == b[n-1];
      SamePrefix(c, a, b, n - 1);
    }
  }

  /** One more call. */
  lemma OneMoreCall(c: Limit, times: seq<int>, t: int, l: real, r: real, now: int)
    requires Holds(c, times, t, l, r) && t <= now
    ensures var (local, redis) := (LocalCall(c, Some(Bucket(l, t)), now), RedisCall(c, Some(Bucket(r, t)), now));
            && Holds(c, times + [now], now, local.0.tokens, redis.0.tokens)
            && (DecideAlike(c) ==> local.1 == redis.1)
  {
    var longer, n := times + [now], |times|;
    assert longer[..n] == times[..n];
    SamePrefix(c, longer, times, n);
    assert longer[n] == now && longer[|longer|-1] == now;
    assert DecideAlike(c) && Ordered(longer) ==> (RedisAllows(c, longer, n) <==> LocalAllows(c, longer, n));
  }

  lemma GainTimes(c: Limit, d: int)
    ensures Gain(c, d) == d as real * Gain(c, 1)
  {
  }

  /** The least number of nanoseconds in which x tokens become one. */
  lemma UntilOneToken(c: Limit, x: real) returns (d: int)
    requires c.Valid() && 0.0 <= x < 1.0
    ensures d > 0 && x + Gain(c, d - 1) < 1.0 <= x + Gain(c, d) < 1.0 + Gain(c, 1)
  {
    hide Gain;
    var g := Gain(c, 1);
    GainPositive(c);
    var q := (1.0 - x) / g;
    assert q * g == 1.0 - x && q > 0.0;
    d := CeilingOf(q);
    GainTimes(c, d);
    GainTimes(c, d - 1);
    Bracket((d - 1) as real, q, d as real, g, 1.0 - x);
  }

  lemma Bracket(a: real, q: real, b: real, g: real, y: real)
    requires g > 0.0 && a < q <= b && b == a + 1.0 && q * g == y
    ensures a * g < y
    ensures y <= b * g
    ensures b * g < y + g
  {
    Below(a, q, g, y);
    Above(b, q, g, y);
    Successor(a, b, g);
  }

  lemma ProductSign(x: real, g: real)
    requires g > 0.0
    ensures x > 0.0 ==> x * g > 0.0
    ensures x >= 0.0 ==> x * g >= 0.0
  {
  }

  lemma Below(a: real, q: real, g: real, y: real)
    requires g > 0.0 && a < q && q * g == y
    ensures a * g < y
  {
    ProductSign(q - a, g);
  }

  lemma Above(b: real, q: real, g: real, y: real)
    requires g > 0.0 && q <= b && q * g == y
    ensures y <= b * g
  {
    ProductSign(b - q, g);
  }

  lemma Successor(a: real, b: real, g: real)
    requires b == a + 1.0
    ensures b * g == a * g + g
  {
  }

  lemma GainPositive(c: Limit)
    requires c.Valid()
    ensures Gain(c, 1) > 0.0
  {
  }

  lemma CeilingOf(q: real) returns (d: int)
    requires q > 0.0
    ensures d > 0 && (d - 1) as real < q <= d as real
  {
    d := if q == q.Floor as real then q.Floor else q.Floor + 1;
  }

  /** When the script is ahead by what arrives in a nanosecond, there is a call at which it has a token and the local
      bucket has none. */
  lemma {:induction false} AheadMeansDifferent(c: Limit, times: seq<int>, t: int, l: real, r: real)
    requires c.Valid() && c.capacity >= 1.0 && Holds(c, times, t, l, r) && 0.0 <= l && l + Gain(c, 1) <= r
    ensures !DecideAlike(c)
    decreases l.Floor
  {
    if r >= 1.0 {
      OneMoreCall(c, times, t, l, r, t);
      if l >= 1.0 { AheadMeansDifferent(c, times + [t], t, l - 1.0, r - 1.0); }
    } else {
      GainTimes(c, 1);
      var d := UntilOneToken(c, r);
      var wait := if d < EXPIRY then d else EXPIRY;
      GainGrows(c, wait, d);
      OneMoreCall(c, times, t, l, r, t + wait);
    }
  }

  /** From x tokens on either side, waiting for the key to expire puts the script ahead, if x is small enough. */
  lemma ExpiryPutsAhead(c: Limit, times: seq<int>, t: int, x: real)
    requires c.Valid() && c.capacity >= 1.0 && Holds(c, times, t, x, x) && 0.0 <= x
    requires x + 300.0 * c.refill + Gain(c, 1) <= c.capacity
    ensures !DecideAlike(c)
  {
    GainSeconds(c, 300);
    var l := x + 300.0 * c.refill;
    OneMoreCall(c, times, t, x, x, t + EXPIRY);
    if l >= 1.0 { AheadMeansDifferent(c, times + [t + EXPIRY], t + EXPIRY, l - 1.0, c.capacity - 1.0); }
  }

  /** A burst of n calls on a full bucket. */
  lemma {:induction false} Burst(c: Limit, n: nat)
    requires c.Valid() && 0 < n && n as real <= c.capacity
    ensures Holds(c, Repeat(n, 0), 0, c.capacity - n as real, c.capacity - n as real)
  {
    if n > 1 {
      Burst(c, n - 1);
      OneMoreCall(c, Repeat(n - 1, 0), 0, c.capacity - (n - 1) as real, c.capacity - (n - 1) as real, 0);
    }
  }

  /** A bucket that takes longer than the expiry to fill, by two nanoseconds' worth of tokens, is told apart: a burst of
      all whole tokens, if need be one more call as soon as there is a token again, and then the expiry. */
  lemma SlowBucketsDiffer(c: Limit)
    requires c.Valid() && c.capacity >= 1.0 && c.capacity >= 300.0 * c.refill + 2.0 * Gain(c, 1)
    ensures !DecideAlike(c)
  {
    var size: nat := c.capacity.Floor;
    var rest := c.capacity - size as real;
    Burst(c, size);
    if size as real - 300.0 * c.refill >= Gain(c, 1) {
      ExpiryPutsAhead(c, Repeat(size, 0), 0, rest);
    } else {
      OneTokenLater(c, size, rest);
    }
  }

  /** The leftover of the burst is brought below what arrives in a nanosecond; a refused call keeps the key. */
  lemma OneTokenLater(c: Limit, size: nat, rest: real)
    requires c.Valid() && size >= 1 && 0.0 <= rest < 1.0 && c.capacity == size as real + rest
    requires c.capacity >= 300.0 * c.refill + 2.0 * Gain(c, 1) && size as real - 300.0 * c.refill < Gain(c, 1)
    requires Holds(c, Repeat(size, 0), 0, rest, rest)
    ensures !DecideAlike(c)
  {
    var g := Gain(c, 1);
    var d := UntilOneToken(c, rest);
    var y := rest + Gain(c, d);
    if d == 1 {
      OneMoreCall(c, Repeat(size, 0), 0, rest, rest, 1);
      ExpiryPutsAhead(c, Repeat(size, 0) + [1], 1, y - 1.0);
    } else {
      GainGrows(c, 1, d - 1);
      GainAdds(c, 1, d - 1);
      OneMoreCall(c, Repeat(size, 0), 0, rest, rest, 1);
      NotExpired(c, d, rest);
      TokenAfterRefusal(c, Repeat(size, 0) + [1], rest + g, d, y);
    }
  }

  lemma TokenAfterRefusal(c: Limit, times: seq<int>, x: real, d: int, y: real)
    requires c.Valid() && c.capacity >= y && Holds(c, times, 1, x, x) && 1 < d && d - 1 < EXPIRY
    requires y == x + Gain(c, d - 1) && 1.0 <= y < 1.0 + Gain(c, 1)
    requires c.capacity >= 300.0 * c.refill + 2.0 * Gain(c, 1) && c.capacity >= 1.0
    ensures !DecideAlike(c)
  {
    OneMoreCall(c, times, 1, x, x, d);
    ExpiryPutsAhead(c, times + [d], d, y - 1.0);
  }

  lemma NotExpired(c: Limit, d: int, rest: real)
    requires c.Valid() && rest >= Gain(c, 1) && rest + Gain(c, d - 1) < 1.0
    requires 1.0 - 300.0 * c.refill < Gain(c, 1)
    ensures d - 1 < EXPIRY
  {
    GainSeconds(c, 300);
    if d - 1 >= EXPIRY { GainGrows(c, EXPIRY, d - 1); }
  }

  /** Capacities for which the argument does not decide: reached within two nanoseconds after the expiry, and as far as
      whole tokens go already at the expiry. */
  predicate Marginal(c: Limit) {
    && c.capacity >= 1.0 && 300.0 * c.refill < c.capacity < 300.0 * c.refill + 2.0 * Gain(c, 1)
    && Refilled(c) >= c.capacity.Floor as real
  }

  /** The script and the local bucket decide alike on every run exactly when a bucket fills within the expiry, or cannot
      hold a token at all. */
  lemma RedisAgreesExactlyWhen(c: Limit)
    requires c.Valid() && !Marginal(c)
    ensures DecideAlike(c) <==> c.capacity <= 300.0 * c.refill || c.capacity < 1.0
  {
    if c.capacity < 1.0 {
      forall times, n | Ordered(times) && 0 <= n < |times|
        ensures RedisAllows(c, times, n) <==> LocalAllows(c, times, n)
      {
        TinyBucketRefuses(c, times, n);
      }
    } else if c.capacity <= 300.0 * c.refill {
      forall times, n | Ordered(times) && 0 <= n < |times|
        ensures RedisAllows(c, times, n) <==> LocalAllows(c, times, n)
      {
        RedisAgrees(c, times, n);
        RedisAgrees(c, times, n + 1);
        SameDecision(c, times, n);
      }
    } else if Refilled(c) < c.capacity.Floor as real {
      RedisForgetsTooSoon(c);
    } else {
      SlowBucketsDiffer(c);
    }
  }

  /** For whole capacities the condition is exact as it stands. */
  lemma RedisAgreesForWholeCapacities(c: Limit, size: nat)
    requires c.Valid() && c.capacity == size as real
    ensures DecideAlike(c) <==> c.capacity <= 300.0 * c.refill
  {
    RedisAgreesExactlyWhen(c);
  }

  lemma SameDecision(c: Limit, times: seq<int>, n: nat)
    requires c.Valid() && Ordered(times) && n < |times| && c.capacity <= 300.0 * c.refill
    requires Redis(c, times, n) == Local(c, times, n)
    ensures RedisAllows(c, times, n) <==> LocalAllows(c, times, n)
  {
    if n > 0 {
      TokensInRange(c, times, n);
      var b, d := Local(c, times, n).value, times[n] - times[n-1];
      if d >= EXPIRY {
        GainSeconds(c, 300);
        GainGrows(c, EXPIRY, d);
        assert Available(c, b, times[n]) == c.capacity;
      }
    }
  }

  // ------------------------------------------------------------------ the map of buckets

  datatype Request = Request(key: string, now: int)

  function StoredFor(store: map<string, Bucket>, key: string): Option<Bucket> {
    if key in store then Some(store[key]) else None
  }

  /** The map before a call looks into it. */
  function Kept(store: map<string, Bucket>): map<string, Bucket> {
    if |store| > MAX_BUCKETS then map[] else store
  }

  function StoreAfter(c: Limit, store: map<string, Bucket>, q: Request): map<string, Bucket> {
    Kept(store)[q.key := LocalCall(c, StoredFor(Kept(store), q.key), q.now).0]
  }

  /** What a call finds: a full bucket for a new client; else what the last call left and, if time has passed since, the
      refill of that time up to the capacity. */
  function FoundIn(c: Limit, store: map<string, Bucket>, key: string, now: int): real {
    if key !in store then c.capacity
    else if now <= store[key].last then store[key].tokens
    else
      var more := store[key].tokens + (now - store[key].last) as real / 1000000000.0 * c.refill;
      if more > c.capacity then c.capacity else more
  }

  lemma CallFinds(c: Limit, store: map<string, Bucket>, key: string, now: int)
    ensures var found := FoundIn(c, store, key, now);
            LocalCall(c, StoredFor(store, key), now) ==
            (Bucket(if found >= 1.0 then found - 1.0 else found, now), found >= 1.0)
  {
    if key in store && now > store[key].last {
      assert Gain(c, now - store[key].last) == (now - store[key].last) as real / 1000000000.0 * c.refill;
    }
  }

  class TokenBucket {
    const limit: Limit
    var localStore: map<string, Bucket>

    constructor (capacity: real, refill: real)
      ensures limit == Limit(capacity, refill) && localStore == map[]
    {
      limit := Limit(capacity, refill);
      localStore := map[];
    }

    method LocalTokenBucket(key: string, now: int) returns (allowed: bool)
      modifies this
      ensures localStore == StoreAfter(limit, old(localStore), Request(key, now))
      ensures allowed == LocalCall(limit, StoredFor(Kept(old(localStore)), key), now).1
      ensures var was := if |old(localStore)| > 100000 then map[] else old(localStore);
        var found := FoundIn(limit, was, key, now);
        && (allowed <==> found >= 1.0)
        && localStore == was[key := Bucket(if allowed then found - 1.0 else found, now)]
    {
      if |localStore| > MAX_BUCKETS {
        localStore := map[];
      }
      ghost var stored := StoredFor(localStore, key);
      CallFinds(limit, localStore, key, now);
      var state := if key in localStore then localStore[key] else Bucket(limit.capacity, now);
      var elapsed := (now - state.last) as real / SECOND as real;
      if elapsed > 0.0 {
        state := state.(tokens := state.tokens + elapsed * limit.refill);
        if state.tokens > limit.capacity {
          state := state.(tokens := limit.capacity);
        }
      }
      state := state.(last := now);
      ghost var bucket := if stored.None? then Full(limit, now) else stored.value;
      assert state.tokens == Available(limit, bucket, now);
      assert LocalCall(limit, stored, now) == Take(limit, bucket, now);
      if state.tokens >= 1.0 {
        state := state.(tokens := state.tokens - 1.0);
        localStore := localStore[key := state];
        return true;
      }
      localStore := localStore[key := state];
      return false;
    }
  }

  /** The map after a run of calls by all clients. */
  function StoreRun(c: Limit, calls: seq<Request>): map<string, Bucket> {
    if calls == [] then map[] else StoreAfter(c, StoreRun(c, calls[..|calls|-1]), calls[|calls|-1])
  }

  /** The times at which one client called. */
  function TimesOf(calls: seq<Request>, key: string): seq<int> {
    if calls == [] then []
    else TimesOf(calls[..|calls|-1], key) + (if calls[|calls|-1].key == key then [calls[|calls|-1].now] else [])
  }

  lemma {:induction false} PrefixState(c: Limit, a: seq<int>, b: seq<int>, n: nat)
    requires n <= |a| && n <= |b| && a[..n] == b[..n]
    ensures Local(c, a, n) == Local(c, b, n)
  {
    if n > 0 {
      assert a[..n-1] == a[..n][..n-1] && b[..n-1] == b[..n][..n-1];
      assert a[n-1] == a[..n][n-1] && b[n-1] == b[..n][n-1];
      PrefixState(c, a, b, n - 1);
    }
  }

  ghost predicate NeverReset(c: Limit, calls: seq<Request>) {
    forall n :: 0 <= n <= |calls| ==> |StoreRun(c, calls[..n])| <= MAX_BUCKETS
  }

  /** As long as the map is not reset, every client has a bucket of its own: what is stored for it
      depends on its own calls only, whatever the others do in between. */
  lemma {:induction false} ClientsAreIndependent(c: Limit, calls: seq<Request>, key: string)
    requires NeverReset(c, calls)
    ensures StoredFor(StoreRun(c, calls), key) == Local(c, TimesOf(calls, key), |TimesOf(calls, key)|)
  {
    if calls != [] {
      var before, last := calls[..|calls|-1], calls[|calls|-1];
      assert forall n :: 0 <= n <= |before| ==> before[..n] == calls[..n];
      assert |StoreRun(c, calls[..|before|])| <= MAX_BUCKETS;
      ClientsAreIndependent(c, before, key);
      var times, times' := TimesOf(before, key), TimesOf(calls, key);
      if last.key == key {
        assert times' == times + [last.now];
        PrefixState(c, times, times', |times|);
        assert Local(c, times', |times'|) == Some(LocalCall(c, Local(c, times', |times|), last.now).0);
      } else {
        assert times' == times;
      }
    }
  }
}
