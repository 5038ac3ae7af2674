/** Answers found by the similarity of questions (internal/cache/semantic.go).

    Vectors are sequences of reals. The square root is a parameter of which only its square is known. */
module SemanticCache {
  import opened Wrappers

  type Vector = seq<real>

  function Dot(a: Vector, b: Vector): real
    requires |a| == |b|
  {
    if a == [] then 0.0 else Dot(a[..|a|-1], b[..|b|-1]) + a[|a|-1] * b[|b|-1]
  }

  ghost predicate IsRoot(root: real -> real) {
    forall x :: x >= 0.0 ==> root(x) >= 0.0 && root(x) * root(x) == x
  }

  /** Minus one for vectors that cannot be compared: of different lengths, empty or zero. */
  function Cosine(root: real -> real, a: Vector, b: Vector): real
    requires IsRoot(root)
  {
    if |a| != |b| || |a| == 0 then -1.0
    else if Dot(a, a) == 0.0 || Dot(b, b) == 0.0 then -1.0
    else
      NormPositive(root, a);
      NormPositive(root, b);
      ProductPositive(root(Dot(a, a)), root(Dot(b, b)));
      Dot(a, b) / (root(Dot(a, a)) * root(Dot(b, b)))
  }

  lemma {:induction false} DotSelf(a: Vector)
    ensures Dot(a, a) >= 0.0
  {
    if a != [] { DotSelf(a[..|a|-1]); }
  }

  // ------------------------------------------------------------------ the inner product

  function Plus(a: Vector, b: Vector): (c: Vector)
    requires |a| == |b|
  {
    seq(|a|, i requires 0 <= i < |a| => a[i] + b[i])
  }

  function Scaled(x: real, a: Vector): Vector {
    seq(|a|, i requires 0 <= i < |a| => x * a[i])
  }

  /** The i-th vector of the standard basis. */
  function Unit(n: nat, i: nat): Vector {
    seq(n, j => if i == j then 1.0 else 0.0)
  }

  lemma {:induction false} DotSymmetric(a: Vector, b: Vector)
    requires |a| == |b|
    ensures Dot(a, b) == Dot(b, a)
  {
    if a != [] { DotSymmetric(a[..|a|-1], b[..|b|-1]); }
  }

  lemma PlusUpTo(a: Vector, b: Vector, n: nat)
    requires |a| == |b| && n <= |a|
    ensures Plus(a, b)[..n] == Plus(a[..n], b[..n])
  {
  }

  lemma ScaledUpTo(x: real, a: Vector, n: nat)
    requires n <= |a|
    ensures Scaled(x, a)[..n] == Scaled(x, a[..n])
  {
    forall i | 0 <= i < n ensures Scaled(x, a)[..n][i] == Scaled(x, a[..n])[i] {
      assert Scaled(x, a)[i] == x * a[i];
      assert a[..n][i] == a[i];
    }
  }

  /** The inner product is linear. */
  lemma {:induction false} DotLinear(x: real, a: Vector, b: Vector, c: Vector)
    requires |a| == |b| == |c|
    ensures Dot(Plus(Scaled(x, a), b), c) == x * Dot(a, c) + Dot(b, c)
  {
    if a != [] {
      var n := |a| - 1;
      DotLinear(x, a[..n], b[..n], c[..n]);
      PlusUpTo(Scaled(x, a), b, n);
      ScaledUpTo(x, a, n);
      Distribute(x, a[n], b[n], c[n]);
      Factor(x, Dot(a[..n], c[..n]), a[n] * c[n]);
    }
  }

  lemma Distribute(x: real, p: real, q: real, r: real)
    ensures (x * p + q) * r == x * (p * r) + q * r
  {
  }

  lemma Factor(x: real, p: real, q: real)
    ensures x * (p + q) == x * p + x * q
  {
  }

  /** Against the i-th basis vector it is the i-th coordinate. */
  lemma {:induction false} DotUnit(a: Vector, i: nat)
    requires i < |a|
    ensures Dot(a, Unit(|a|, i)) == a[i]
  {
    var n := |a| - 1;
    assert Unit(|a|, i)[..n] == Unit(n, i);
    if i < n { DotUnit(a[..n], i); } else { DotBeyond(a[..n], i); }
  }

  lemma {:induction false} DotBeyond(a: Vector, i: nat)
    requires i >= |a|
    ensures Dot(a, Unit(|a|, i)) == 0.0
  {
    if a != [] {
      assert Unit(|a|, i)[..|a|-1] == Unit(|a| - 1, i);
      DotBeyond(a[..|a|-1], i);
    }
  }

  lemma NormPositive(root: real -> real, a: Vector)
    requires IsRoot(root) && Dot(a, a) != 0.0
    ensures root(Dot(a, a)) > 0.0 && root(Dot(a, a)) * root(Dot(a, a)) == Dot(a, a)
  {
    DotSelf(a);
  }

  lemma ProductPositive(x: real, y: real)
    requires x > 0.0 && y > 0.0
    ensures x * y > 0.0
  {
  }

  // ------------------------------------------------------------------ the range of the cosine

  lemma Square(x: real)
    ensures x * x >= 0.0
  {
  }

  /** Adding one coordinate to vectors with inner product d and squared lengths p and q. */
  lemma OneCoordinate(d: real, p: real, q: real, x: real, y: real)
    requires p >= 0.0 && q >= 0.0 && d * d <= p * q
    ensures (d + x * y) * (d + x * y) <= (p + x * x) * (q + y * y)
  {
    var u, v := p * (y * y), q * (x * x);
    var w := d * (x * y);
    CrossTerms(d, p, q, x, y);
    assert (d + x * y) * (d + x * y) == d * d + 2.0 * w + (x * y) * (x * y);
    assert (p + x * x) * (q + y * y) == p * q + u + v + (x * x) * (y * y);
    assert (x * y) * (x * y) == (x * x) * (y * y);
  }

  /** Twice d x y is at most p y y + q x x. */
  lemma CrossTerms(d: real, p: real, q: real, x: real, y: real)
    requires p >= 0.0 && q >= 0.0 && d * d <= p * q
    ensures 2.0 * (d * (x * y)) <= p * (y * y) + q * (x * x)
  {
    var u, v, w := p * (y * y), q * (x * x), d * (x * y);
    Square(x); Square(y); Square(x * y);
    NonNegative(p, y * y);
    NonNegative(q, x * x);
    assert w * w == (d * d) * ((x * y) * (x * y));
    assert u * v == (p * q) * ((x * y) * (x * y));
    Scale(d * d, p * q, (x * y) * (x * y));
    TwiceMean(u, v, w);
  }

  lemma NonNegative(a: real, b: real)
    requires a >= 0.0 && b >= 0.0
    ensures a * b >= 0.0
  {
  }

  lemma Scale(a: real, b: real, c: real)
    requires a <= b && c >= 0.0
    ensures a * c <= b * c
  {
  }

  lemma TwiceMean(u: real, v: real, w: real)
    requires u >= 0.0 && v >= 0.0 && w * w <= u * v
    ensures 2.0 * w <= u + v
  {
    Square(u - v);
    assert (u + v) * (u + v) == (u - v) * (u - v) + 4.0 * (u * v);
    if 2.0 * w > u + v {
      assert (2.0 * w) * (2.0 * w) == 4.0 * (w * w);
      Bigger(2.0 * w, u + v);
    }
  }

  lemma Bigger(a: real, b: real)
    requires a > b >= 0.0
    ensures a * a > b * b
  {
    assert a * a - b * b == (a - b) * (a + b);
    ProductPositive(a - b, a + b);
  }

  lemma {:induction false} CauchySchwarz(a: Vector, b: Vector)
    requires |a| == |b|
    ensures Dot(a, b) * Dot(a, b) <= Dot(a, a) * Dot(b, b)
  {
    if a != [] {
      var a', b' := a[..|a|-1], b[..|b|-1];
      CauchySchwarz(a', b');
      DotSelf(a');
      DotSelf(b');
      OneCoordinate(Dot(a', b'), Dot(a', a'), Dot(b', b'), a[|a|-1], b[|b|-1]);
    }
  }

  /** A cosine lies between minus one and one. */
  lemma CosineInRange(root: real -> real, a: Vector, b: Vector)
    requires IsRoot(root)
    ensures -1.0 <= Cosine(root, a, b) <= 1.0
  {
    hide Dot;
    if |a| == |b| && |a| > 0 && Dot(a, a) != 0.0 && Dot(b, b) != 0.0 {
      NormPositive(root, a);
      NormPositive(root, b);
      CauchySchwarz(a, b);
      var ra, rb, d := root(Dot(a, a)), root(Dot(b, b)), Dot(a, b);
      Quotient(d, ra, rb, Dot(a, a), Dot(b, b));
    }
  }

  lemma Quotient(d: real, ra: real, rb: real, p: real, q: real)
    requires ra > 0.0 && rb > 0.0 && ra * ra == p && rb * rb == q && d * d <= p * q
    ensures ra * rb > 0.0 && -1.0 <= d / (ra * rb) <= 1.0
  {
    ProductPositive(ra, rb);
    var n := ra * rb;
    assert n * n == p * q;
    if d > n { Bigger(d, n); }
    if -d > n { Bigger(-d, n); }
    InUnit(d, n);
  }

  lemma InUnit(d: real, n: real)
    requires n > 0.0 && -n <= d <= n
    ensures -1.0 <= d / n <= 1.0
  {
    var r := d / n;
    assert r * n == d;
    Cancel(r, 1.0, n);
    Cancel(-1.0, r, n);
  }

  lemma Cancel(a: real, b: real, n: real)
    requires n > 0.0 && a * n <= b * n
    ensures a <= b
  {
    assert (b - a) * n >= 0.0;
  }

  /** The cosine of a vector that is not zero with itself is one. */
  lemma CosineOfSelf(root: real -> real, a: Vector)
    requires IsRoot(root) && a != [] && Dot(a, a) != 0.0
    ensures Cosine(root, a, a) == 1.0
  {
    NormPositive(root, a);
    DotSelf(a);
    SelfQuotient(Dot(a, a), root(Dot(a, a)) * root(Dot(a, a)));
  }

  lemma SelfQuotient(n: real, m: real)
    requires n > 0.0 && m == n
    ensures n / m == 1.0
  {
  }

  method ComputeCosine(root: real -> real, a: Vector, b: Vector) returns (r: real)
    requires IsRoot(root)
    ensures r == Cosine(root, a, b)
  {
    if |a| != |b| || |a| == 0 {
      return -1.0;
    }
    var dot, na, nb := 0.0, 0.0, 0.0;
    for i := 0 to |a|
      invariant dot == Dot(a[..i], b[..i]) && na == Dot(a[..i], a[..i]) && nb == Dot(b[..i], b[..i])
    {
      assert a[..i+1][..i] == a[..i] && b[..i+1][..i] == b[..i];
      dot := dot + a[i] * b[i];
      na := na + a[i] * a[i];
      nb := nb + b[i] * b[i];
    }
    assert a[..|a|] == a && b[..|b|] == b;
    if na == 0.0 || nb == 0.0 {
      return -1.0;
    }
    NormPositive(root, a);
    NormPositive(root, b);
    ProductPositive(root(na), root(nb));
    return dot / (root(na) * root(nb));
  }

  // ------------------------------------------------------------------ looking up

  datatype Entry = Entry(question: string, answer: string, vector: Vector, model: string, created: int,
                         tokens: int, cost: int)

  predicate Alive(e: Entry, now: int, ttl: int) {
    now - e.created <= ttl
  }

  predicate Candidate(e: Entry, model: string, now: int, ttl: int) {
    e.model == model && Alive(e, now, ttl)
  }

  /** The i-th entry is the first of the most similar candidates. */
  ghost predicate MostSimilar(root: real -> real, entries: seq<Entry>, v: Vector, model: string, now: int,
                              ttl: int, i: int)
    requires IsRoot(root)
  {
    && 0 <= i < |entries| && Candidate(entries[i], model, now, ttl)
    && (forall j :: 0 <= j < |entries| && Candidate(entries[j], model, now, ttl) ==>
          Cosine(root, v, entries[j].vector) <= Cosine(root, v, entries[i].vector))
    && (forall j :: 0 <= j < i && Candidate(entries[j], model, now, ttl) ==>
          Cosine(root, v, entries[j].vector) < Cosine(root, v, entries[i].vector))
  }

  /** What a lookup must return: a most similar candidate if one reaches the threshold, and nothing otherwise. */
  ghost predicate IsAnswer(root: real -> real, entries: seq<Entry>, v: Vector, model: string, now: int, ttl: int,
                           threshold: real, hit: Option<Entry>)
    requires IsRoot(root)
  {
    match hit
    case Some(e) => exists i :: MostSimilar(root, entries, v, model, now, ttl, i)
                                && entries[i] == e && Cosine(root, v, e.vector) >= threshold
    case None => forall j :: 0 <= j < |entries| && Candidate(entries[j], model, now, ttl) ==>
                               Cosine(root, v, entries[j].vector) < threshold
  }

  /** An answer is of the model asked for, in its life and as similar as is required, and none such is more similar;
      where nothing is answered, nothing such is similar enough. */
  lemma AnswerMeans(root: real -> real, entries: seq<Entry>, v: Vector, model: string, now: int, ttl: int,
                    threshold: real, hit: Option<Entry>)
    requires IsRoot(root) && IsAnswer(root, entries, v, model, now, ttl, threshold, hit)
    ensures hit.Some? ==>
      && hit.value in entries && hit.value.model == model && now - hit.value.created <= ttl
      && Cosine(root, v, hit.value.vector) >= threshold
      && forall e :: e in entries && e.model == model && now - e.created <= ttl ==>
           Cosine(root, v, e.vector) <= Cosine(root, v, hit.value.vector)
    ensures hit == None ==>
      forall e :: e in entries && e.model == model && now - e.created <= ttl ==>
        Cosine(root, v, e.vector) < threshold
  {
    hide Cosine;
    forall e | e in entries && e.model == model && now - e.created <= ttl
      ensures if hit == None then Cosine(root, v, e.vector) < threshold
              else Cosine(root, v, e.vector) <= Cosine(root, v, hit.value.vector)
    {
      var j :| 0 <= j < |entries| && entries[j] == e;
      assert Candidate(entries[j], model, now, ttl);
    }
  }

  /** The similarity that is asked for, the life of an entry and the size of the cache, with the values used
      when the configuration leaves them out. */
  datatype Config = Config(enabled: bool, rawThreshold: real, ttlSeconds: int, rawMaxEntries: int) {
    function Threshold(): real {
      if rawThreshold <= 0.0 || rawThreshold > 1.0 then 0.92 else rawThreshold
    }

    function Ttl(): int {
      if ttlSeconds <= 0 then 3600 else ttlSeconds
    }

    function MaxEntries(): nat {
      if rawMaxEntries <= 0 then 500 else rawMaxEntries
    }
  }

  /** A question asked again, with the same vector, is always answered while its entry lives: by an entry
      that is just as similar. */
  lemma SameQuestionHits(root: real -> real, entries: seq<Entry>, v: Vector, model: string, now: int, c: Config,
                         hit: Option<Entry>, k: nat)
    requires IsRoot(root) && IsAnswer(root, entries, v, model, now, c.Ttl(), c.Threshold(), hit)
    requires k < |entries| && Candidate(entries[k], model, now, c.Ttl()) && entries[k].vector == v
    requires v != [] && Dot(v, v) != 0.0
    ensures hit.Some? && hit.value.model == model && Cosine(root, v, hit.value.vector) == 1.0
  {
    CosineOfSelf(root, v);
    if hit.Some? {
      CosineInRange(root, v, hit.value.vector);
    }
  }

  // ------------------------------------------------------------------ storing

  /** The entries that have not expired, in order. */
  function Survivors(entries: seq<Entry>, now: int, ttl: int): seq<Entry> {
    if entries == [] then []
    else Survivors(entries[..|entries|-1], now, ttl)
         + (if Alive(entries[|entries|-1], now, ttl) then [entries[|entries|-1]] else [])
  }

  /** Storing drops what has expired, then the oldest if there is no room, and appends. */
  function Stored(entries: seq<Entry>, e: Entry, now: int, ttl: int, max: nat): seq<Entry>
    requires max > 0
  {
    var alive := Survivors(entries, now, ttl);
    (if |alive| >= max then alive[1..] else alive) + [e]
  }

  lemma {:induction false} SurvivorsLength(entries: seq<Entry>, now: int, ttl: int)
    ensures |Survivors(entries, now, ttl)| <= |entries|
  {
    if entries != [] { SurvivorsLength(entries[..|entries|-1], now, ttl); }
  }

  /** What survives is what is no older than its life. */
  lemma {:induction false} SurvivorsAre(entries: seq<Entry>, e: Entry, now: int, ttl: int)
    ensures e in Survivors(entries, now, ttl) <==> e in entries && now - e.created <= ttl
  {
    if entries != [] {
      var first, last := entries[..|entries|-1], entries[|entries|-1];
      SurvivorsAre(first, e, now, ttl);
      assert entries == first + [last];
    }
  }

  /** After a store everything but the new entry was there before and is alive, and if there was room for all that was
      alive, all of it is still there. */
  lemma StoredHolds(entries: seq<Entry>, e: Entry, now: int, ttl: int, max: nat)
    requires max > 0
    ensures var after := Stored(entries, e, now, ttl, max);
      && after != [] && after[|after|-1] == e
      && (forall x :: x in after[..|after|-1] ==> x in entries && now - x.created <= ttl)
      && (|entries| < max ==> forall x :: x in entries && now - x.created <= ttl ==> x in after)
  {
    SurvivorsLength(entries, now, ttl);
    forall x ensures x in Survivors(entries, now, ttl) <==> x in entries && now - x.created <= ttl {
      SurvivorsAre(entries, x, now, ttl);
    }
  }

  lemma SurvivorsNext(was: seq<Entry>, lo: nat, i: nat, now: int, ttl: int)
    requires lo <= i < |was|
    ensures Survivors(was[lo..i+1], now, ttl) ==
            if Alive(was[i], now, ttl) then Survivors(was[lo..i], now, ttl) + [was[i]]
            else Survivors(was[lo..i], now, ttl)
  {
    assert was[lo..i+1] == was[lo..i] + [was[i]];
  }

  /** Storing keeps to the limit; a cache that holds more, because the limit was lowered, does not grow. */
  lemma StoredSize(entries: seq<Entry>, e: Entry, now: int, ttl: int, max: nat)
    requires max > 0
    ensures |Stored(entries, e, now, ttl, max)| <= Max(max, |entries|)
    ensures |Survivors(entries, now, ttl)| <= max ==> |Stored(entries, e, now, ttl, max)| <= max
  {
    SurvivorsLength(entries, now, ttl);
  }

  /** An entry still alive survives with at most as many entries behind it as before. */
  lemma {:induction false} SurvivorPlace(entries: seq<Entry>, now: int, ttl: int, behind: nat) returns (behind': nat)
    requires behind < |entries| && Alive(entries[|entries|-1-behind], now, ttl)
    ensures behind' <= behind && behind' < |Survivors(entries, now, ttl)|
    ensures Survivors(entries, now, ttl)[|Survivors(entries, now, ttl)|-1-behind'] == entries[|entries|-1-behind]
  {
    var last := |entries| - 1;
    if behind == 0 {
      behind' := 0;
    } else {
      behind' := SurvivorPlace(entries[..last], now, ttl, behind - 1);
      if Alive(entries[last], now, ttl) { behind' := behind' + 1; }
    }
  }

  /** The entry that a store just appended is not evicted before `max` more entries have been stored. */
  lemma {:induction false} StaysUntilMaxMore(entries: seq<Entry>, e: Entry, more: seq<(Entry, int)>, ttl: int, max: nat)
    returns (behind: nat)
    requires max > 0 && |more| < max && entries != [] && entries[|entries|-1] == e
    requires forall i :: 0 <= i < |more| ==> Alive(e, more[i].1, ttl)
    ensures var after := StoredAll(entries, more, ttl, max);
            behind <= |more| && behind < |after| && after[|after|-1-behind] == e
  {
    if more == [] {
      behind := 0;
    } else {
      var last := |more| - 1;
      var before := StoredAll(entries, more[..last], ttl, max);
      var b := StaysUntilMaxMore(entries, e, more[..last], ttl, max);
      var b' := SurvivorPlace(before, more[last].1, ttl, b);
      behind := b' + 1;
      StoredBehind(before, more[last].0, more[last].1, ttl, max, b');
    }
  }

  lemma StoredBehind(before: seq<Entry>, x: Entry, now: int, ttl: int, max: nat, b: nat)
    requires max > 0 && b + 1 < max
    requires b < |Survivors(before, now, ttl)|
    ensures var alive, after := Survivors(before, now, ttl), Stored(before, x, now, ttl, max);
            b + 1 < |after| && after[|after|-2-b] == alive[|alive|-1-b]
  {
  }

  function StoredAll(entries: seq<Entry>, more: seq<(Entry, int)>, ttl: int, max: nat): seq<Entry>
    requires max > 0
  {
    if more == [] then entries
    else Stored(StoredAll(entries, more[..|more|-1], ttl, max), more[|more|-1].0, more[|more|-1].1, ttl, max)
  }

  // ------------------------------------------------------------------ the cache itself

  /** The entries are a slice of a buffer; storing compacts the slice where it stands. */
  class SemanticCache {
    const config: Config
    var buffer: array<Entry>
    var lo: nat
    var hi: nat

    ghost predicate Valid()
      reads this
    {
      lo <= hi <= buffer.Length
    }

    ghost function Entries(): seq<Entry>
      requires Valid()
      reads this, buffer
    {
      buffer[lo..hi]
    }

    constructor (config: Config)
      ensures Valid() && Entries() == [] && this.config == config && fresh(buffer)
    {
      this.config := config;
      buffer := new Entry[0];
      lo, hi := 0, 0;
    }

    /** `vector` is the embedding of the question, None when it could not be computed. */
    method Lookup(root: real -> real, vector: Option<Vector>, model: string, now: int) returns (hit: Option<Entry>)
      requires Valid() && IsRoot(root)
      ensures !config.enabled || vector == None ==> hit == None
      ensures config.enabled && vector.Some? ==>
                IsAnswer(root, Entries(), vector.value, model, now, config.Ttl(), config.Threshold(), hit)
      ensures hit.Some? ==>
        && vector.Some? && hit.value in Entries() && hit.value.model == model && now - hit.value.created <= config.Ttl()
        && Cosine(root, vector.value, hit.value.vector) >= config.Threshold()
        && forall e :: e in Entries() && e.model == model && now - e.created <= config.Ttl() ==>
             Cosine(root, vector.value, e.vector) <= Cosine(root, vector.value, hit.value.vector)
      ensures hit == None && config.enabled && vector.Some? ==>
        forall e :: e in Entries() && e.model == model && now - e.created <= config.Ttl() ==>
          Cosine(root, vector.value, e.vector) < config.Threshold()
    {
      if !config.enabled || vector == None {
        return None;
      }
      var v, ttl, entries := vector.value, config.Ttl(), buffer[lo..hi];
      var best, at := -1.0, -1;
      for i := 0 to |entries|
        invariant -1 <= at < i
        invariant at == -1 ==> best == -1.0
        invariant at != -1 ==> Candidate(entries[at], model, now, ttl) && best == Cosine(root, v, entries[at].vector)
        invariant forall j :: 0 <= j < i && Candidate(entries[j], model, now, ttl) ==>
                    Cosine(root, v, entries[j].vector) <= best
        invariant forall j :: 0 <= j < at && Candidate(entries[j], model, now, ttl) ==>
                    Cosine(root, v, entries[j].vector) < best
      {
        if entries[i].model == model && now - entries[i].created <= ttl {
          var sim := ComputeCosine(root, v, entries[i].vector);
          CosineInRange(root, v, entries[i].vector);
          if sim > best {
            best, at := sim, i;
          }
        }
      }
      if at != -1 && best >= config.Threshold() {
        assert MostSimilar(root, entries, v, model, now, ttl, at);
        AnswerMeans(root, entries, v, model, now, ttl, config.Threshold(), Some(entries[at]));
        return Some(entries[at]);
      }
      AnswerMeans(root, entries, v, model, now, ttl, config.Threshold(), None);
      return None;
    }

    /** Overwrites the slice with its survivors: the place written never gets ahead of the place read. */
    method Compact(now: int, ttl: int)
      requires Valid()
      modifies this`hi, buffer
      ensures Valid() && Entries() == Survivors(old(Entries()), now, ttl)
    {
      ghost var was := buffer[..];
      ghost var kept: seq<Entry> := [];
      var end := lo;
      for i := lo to hi
        invariant lo <= end <= i && hi == old(hi)
        invariant kept == Survivors(was[lo..i], now, ttl)
        invariant buffer[lo..end] == kept
        invariant forall j :: i <= j < hi ==> buffer[j] == was[j]
      {
        var e := buffer[i];
        SurvivorsNext(was, lo, i, now, ttl);
        if now - e.created <= ttl {
          buffer[end] := e;
          end := end + 1;
          assert buffer[lo..end] == buffer[lo..end-1] + [e];
          kept := kept + [e];
        }
      }
      assert was[lo..hi] == old(Entries());
      hi := end;
    }

    /** Go's append: in place while the buffer has room, into a larger one otherwise. */
    method Append(e: Entry)
      requires Valid()
      modifies this, buffer
      ensures Valid() && Entries() == old(Entries()) + [e]
      ensures buffer == old(buffer) || fresh(buffer)
    {
      if hi == buffer.Length {
        var larger := new Entry[2 * (hi - lo) + 1];
        for i := lo to hi
          invariant lo == old(lo) && hi == old(hi) && buffer == old(buffer)
          invariant larger[..i-lo] == buffer[lo..i]
          invariant buffer[..] == old(buffer[..])
        {
          larger[i-lo] := buffer[i];
          assert larger[..i+1-lo] == larger[..i-lo] + [buffer[i]];
        }
        buffer, lo, hi := larger, 0, hi - lo;
      }
      buffer[hi] := e;
      hi := hi + 1;
      assert buffer[lo..hi] == buffer[lo..hi-1] + [e];
    }

    /** Stores an entry made from the question's embedding; without one, or for an empty answer, nothing is stored. */
    method Store(vector: Option<Vector>, model: string, question: string, answer: string, tokens: int, cost: int,
                 now: int)
      requires Valid()
      modifies this, buffer
      ensures Valid() && (buffer == old(buffer) || fresh(buffer))
      ensures Entries() == if !config.enabled || answer == "" || vector == None then old(Entries())
                           else Stored(old(Entries()), Entry(question, answer, vector.value, model, now, tokens, cost),
                                       now, config.Ttl(), config.MaxEntries())
    {
      if !config.enabled || answer == "" || vector == None {
        return;
      }
      Compact(now, config.Ttl());
      if hi - lo >= config.MaxEntries() {
        lo := lo + 1;
      }
      Append(Entry(question, answer, vector.value, model, now, tokens, cost));
    }

    method Purge()
      modifies this
      ensures Valid() && Entries() == [] && fresh(buffer)
    {
      buffer := new Entry[0];
      lo, hi := 0, 0;
    }
  }
}
