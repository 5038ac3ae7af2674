/** Smooth weighted round robin over the instances of a model (internal/inference/balancer.go).

    One pick adds every weight to its instance's current value, chooses the largest (the first of equals)
    and takes the total off it. The lemmas follow the current values through any number of picks. */
module Balancer {
  import opened Wrappers

  function Sum(a: seq<int>): int {
    if a == [] then 0 else a[0] + Sum(a[1..])
  }

  function Raised(current: seq<int>, w: seq<int>): (r: seq<int>)
    requires |current| == |w|
    ensures |r| == |w|
  {
    if w == [] then [] else [current[0] + w[0]] + Raised(current[1..], w[1..])
  }

  lemma {:induction false} RaisedAt(current: seq<int>, w: seq<int>, i: nat)
    requires |current| == |w| && i < |w|
    ensures Raised(current, w)[i] == current[i] + w[i]
  {
    if i > 0 { RaisedAt(current[1..], w[1..], i - 1); }
  }

  function Zeros(n: nat): (r: seq<int>)
    ensures |r| == n
  {
    if n == 0 then [] else [0] + Zeros(n - 1)
  }

  lemma {:induction false} ZerosAt(n: nat, i: nat)
    requires i < n
    ensures Zeros(n)[i] == 0
  {
    if i > 0 { ZerosAt(n - 1, i - 1); }
  }

  /** Who is picked from the given current values. */
  function Choice(current: seq<int>, w: seq<int>): (b: nat)
    requires |current| == |w| > 0
    ensures b < |w|
  {
    FirstLargest(Raised(current, w))
  }

  function After(current: seq<int>, w: seq<int>): (r: seq<int>)
    requires |current| == |w| > 0
    ensures |r| == |w|
  {
    var b := Choice(current, w);
    Raised(current, w)[b := Charged(Raised(current, w)[b], Sum(w))]
  }

  /** What is left of a current value once the total has been taken off. */
  function Charged(value: int, total: int): int {
    value - total
  }

  /** The current values after k picks of a new balancer. */
  function Currents(w: seq<int>, k: nat): (r: seq<int>)
    requires w != []
    ensures |r| == |w|
  {
    if k == 0 then Zeros(|w|) else After(Currents(w, k - 1), w)
  }

  /** How often instance i was chosen in the first k picks. */
  function Count(w: seq<int>, k: nat, i: nat): nat
    requires w != [] && i < |w|
  {
    if k == 0 then 0
    else Count(w, k - 1, i) + (if Choice(Currents(w, k - 1), w) == i then 1 else 0)
  }

  ghost predicate Positive(w: seq<int>) {
    w != [] && forall i :: 0 <= i < |w| ==> w[i] >= 1
  }

  /** n times x, added up one by one: the proofs below follow the picks this way and multiply only at the end. */
  function Times(n: nat, x: int): int {
    if n == 0 then 0 else Times(n - 1, x) + x
  }

  lemma {:induction false} TimesIsProduct(n: nat, x: int)
    ensures Times(n, x) == n * x
  {
    if n > 0 {
      TimesIsProduct(n - 1, x);
      assert n * x == (n - 1) * x + x;
    }
  }

  // ------------------------------------------------------------------ sums

  lemma {:induction false} SumConcat(a: seq<int>, b: seq<int>)
    ensures Sum(a + b) == Sum(a) + Sum(b)
  {
    if a == [] {
      assert a + b == b;
    } else {
      SumConcat(a[1..], b);
      assert (a + b)[1..] == a[1..] + b;
    }
  }

  lemma SumUpdate(a: seq<int>, i: nat, x: int)
    requires i < |a|
    ensures Sum(a[i := x]) == Sum(a) - a[i] + x
  {
    assert a == a[..i] + ([a[i]] + a[i+1..]);
    assert a[i := x] == a[..i] + ([x] + a[i+1..]);
    SumConcat(a[..i], [a[i]] + a[i+1..]);
    SumConcat(a[..i], [x] + a[i+1..]);
  }

  lemma {:induction false} SumRaised(a: seq<int>, w: seq<int>)
    requires |a| == |w|
    ensures Sum(Raised(a, w)) == Sum(a) + Sum(w)
  {
    if a != [] {
      SumRaised(a[1..], w[1..]);
      assert Raised(a, w)[1..] == Raised(a[1..], w[1..]);
    }
  }

  lemma {:induction false} SumZeros(n: nat)
    ensures Sum(Zeros(n)) == 0
  {
    if n > 0 {
      SumZeros(n - 1);
      assert Zeros(n)[1..] == Zeros(n - 1);
    }
  }

  /** A positive sum has a positive term. */
  lemma {:induction false} PositiveTerm(a: seq<int>)
    requires Sum(a) > 0
    ensures exists i :: 0 <= i < |a| && a[i] > 0
  {
    if a[0] <= 0 {
      PositiveTerm(a[1..]);
      var i :| 0 <= i < |a[1..]| && a[1..][i] > 0;
      assert a[i+1] > 0;
    }
  }

  /** Terms bounded below bound each other above when the sum is fixed. */
  lemma {:induction false} SumAbove(a: seq<int>, low: int)
    requires forall i :: 0 <= i < |a| ==> a[i] >= low
    ensures Sum(a) >= Times(|a|, low)
  {
    if a != [] {
      SumAbove(a[1..], low);
    }
  }

  lemma {:induction false} SumBelow(a: seq<int>, high: int)
    requires forall i :: 0 <= i < |a| ==> a[i] <= high
    ensures Sum(a) <= Times(|a|, high)
  {
    if a != [] {
      SumBelow(a[1..], high);
    }
  }

  lemma OneTermAbove(a: seq<int>, low: int, i: nat)
    requires i < |a| && forall j :: 0 <= j < |a| ==> a[j] >= low
    ensures a[i] <= Sum(a) - Times(|a| - 1, low)
  {
    var rest := a[..i] + a[i+1..];
    assert a == a[..i] + ([a[i]] + a[i+1..]);
    SumConcat(a[..i], [a[i]] + a[i+1..]);
    SumConcat(a[..i], a[i+1..]);
    SumAbove(rest, low);
    assert |rest| == |a| - 1;
  }

  // ------------------------------------------------------------------ after every pick

  lemma AfterAt(current: seq<int>, w: seq<int>, i: nat)
    requires |current| == |w| && i < |w|
    ensures After(current, w)[i] == current[i] + w[i] - (if Choice(current, w) == i then Sum(w) else 0)
  {
    RaisedAt(current, w, i);
  }

  /** One pick keeps the sum at zero and every current value above minus the total. */
  lemma PickKeepsBalance(current: seq<int>, w: seq<int>)
    requires Positive(w) && |current| == |w|
    requires Sum(current) == 0 && forall i :: 0 <= i < |w| ==> current[i] > -Sum(w)
    ensures Sum(After(current, w)) == 0
    ensures forall i :: 0 <= i < |w| ==> After(current, w)[i] > -Sum(w)
  {
    SumAfter(current, w, Raised(current, w), Choice(current, w), After(current, w));
    forall i | 0 <= i < |w| ensures After(current, w)[i] > -Sum(w) {
      AboveAfter(current, w, i);
    }
  }

  lemma AboveAfter(current: seq<int>, w: seq<int>, i: nat)
    requires Positive(w) && |current| == |w| && i < |w| && Sum(current) == 0 && current[i] > -Sum(w)
    ensures After(current, w)[i] > -Sum(w)
  {
    AfterAt(current, w, i);
    if Choice(current, w) == i { BestIsPositive(current, w); }
  }

  lemma SumAfter(current: seq<int>, w: seq<int>, raised: seq<int>, b: nat, after: seq<int>)
    requires |current| == |w| && raised == Raised(current, w) && b < |w|
        && after == raised[b := Charged(raised[b], Sum(w))]
    ensures Sum(after) == Sum(current)
  {
    SumRaised(current, w);
    SumUpdate(raised, b, Charged(raised[b], Sum(w)));
  }

  lemma BestIsPositive(current: seq<int>, w: seq<int>)
    requires Positive(w) && |current| == |w| && Sum(current) == 0
    ensures current[Choice(current, w)] + w[Choice(current, w)] > 0
  {
    var raised, b := Raised(current, w), Choice(current, w);
    SumRaised(current, w);
    TotalPositive(w);
    PositiveTerm(raised);
    FirstLargestIs(raised);
    RaisedAt(current, w, b);
  }

  lemma TotalPositive(w: seq<int>)
    requires Positive(w)
    ensures Sum(w) >= |w| > 0
  {
    SumAbove(w, 1);
    TimesIsProduct(|w|, 1);
  }

  lemma {:induction false} AlwaysBalanced(w: seq<int>, k: nat)
    requires Positive(w)
    ensures Sum(Currents(w, k)) == 0
    ensures forall i :: 0 <= i < |w| ==> Currents(w, k)[i] > -Sum(w)
  {
    if k == 0 {
      SumZeros(|w|);
      TotalPositive(w);
      forall i | 0 <= i < |w| { ZerosAt(|w|, i); }
    } else {
      AlwaysBalanced(w, k - 1);
      PickKeepsBalance(Currents(w, k - 1), w);
    }
  }

  /** What an instance is owed: its share of k picks, less what it got. */
  lemma {:induction false} CurrentIsDebt(w: seq<int>, k: nat, i: nat, share: int, total: int)
    requires w != [] && i < |w| && share == w[i] && total == Sum(w)
    ensures Currents(w, k)[i] == Times(k, share) - Times(Count(w, k, i), total)
  {
    hide After, Choice;
    if k > 0 {
      CurrentIsDebt(w, k - 1, i, share, total);
      PickSettles(w, k, i, share, total);
      DebtGrows(k, share, total, Currents(w, k - 1)[i], Count(w, k - 1, i), Currents(w, k)[i], Count(w, k, i));
    } else {
      ZerosAt(|w|, i);
    }
  }

  /** The k-th pick either takes the total off an instance and counts it, or does neither. */
  lemma PickSettles(w: seq<int>, k: nat, i: nat, share: int, total: int)
    requires w != [] && i < |w| && share == w[i] && total == Sum(w) && k > 0
    ensures || (Currents(w, k)[i] == Currents(w, k - 1)[i] + share && Count(w, k, i) == Count(w, k - 1, i))
            || (Currents(w, k)[i] == Currents(w, k - 1)[i] + share - total && Count(w, k, i) == Count(w, k - 1, i) + 1)
  {
    AfterAt(Currents(w, k - 1), w, i);
  }

  lemma DebtGrows(k: nat, share: int, total: int, debt: int, n: nat, debt': int, n': nat)
    requires k > 0 && debt == Times(k - 1, share) - Times(n, total)
    requires (debt' == debt + share && n' == n) || (debt' == debt + share - total && n' == n + 1)
    ensures debt' == Times(k, share) - Times(n', total)
  {
  }

  lemma DebtAsProduct(w: seq<int>, k: nat, i: nat)
    requires w != [] && i < |w|
    ensures Currents(w, k)[i] == k * w[i] - Count(w, k, i) * Sum(w)
  {
    CurrentIsDebt(w, k, i, w[i], Sum(w));
    TimesIsProduct(k, w[i]);
    TimesIsProduct(Count(w, k, i), Sum(w));
  }

  /** After any number of picks the count of an instance is less than one pick above its share,
      and less than n - 1 picks below it. */
  lemma ShareOfPicks(w: seq<int>, k: nat, i: nat)
    requires Positive(w) && i < |w|
    ensures Count(w, k, i) * Sum(w) < k * w[i] + Sum(w)
    ensures Count(w, k, i) * Sum(w) >= k * w[i] - (|w| - 1) * (Sum(w) - 1)
  {
    DebtAsProduct(w, k, i);
    CurrentBounds(w, k, i);
  }

  lemma CurrentBounds(w: seq<int>, k: nat, i: nat)
    requires Positive(w) && i < |w|
    ensures -Sum(w) < Currents(w, k)[i] <= (|w| - 1) * (Sum(w) - 1)
  {
    AlwaysBalanced(w, k);
    OneTermAbove(Currents(w, k), 1 - Sum(w), i);
    TimesNegated(|w| - 1, Sum(w) - 1);
  }

  // ------------------------------------------------------------------ the largest goes first

  /** One pick, told without the loops: instance i had the largest current value once the weights were added, the first
      of them, and is the only one that pays the total. */
  ghost predicate IsPick(current: seq<int>, w: seq<int>, i: int, after: seq<int>) {
    && |current| == |w| == |after| && 0 <= i < |w|
    && (forall j :: 0 <= j < |w| ==> current[j] + w[j] <= current[i] + w[i])
    && (forall j :: 0 <= j < i ==> current[j] + w[j] < current[i] + w[i])
    && (forall j :: 0 <= j < |w| ==> after[j] == current[j] + w[j] - (if j == i then Sum(w) else 0))
  }

  lemma ChoiceIsPick(current: seq<int>, w: seq<int>)
    requires |current| == |w| > 0
    ensures IsPick(current, w, Choice(current, w), After(current, w))
  {
    var raised, b := Raised(current, w), Choice(current, w);
    FirstLargestIs(raised);
    forall j | 0 <= j < |w|
      ensures raised[j] == current[j] + w[j] && After(current, w)[j] == raised[j] - (if j == b then Sum(w) else 0)
    {
      RaisedAt(current, w, j);
      AfterAt(current, w, j);
    }
  }

  /** Every pick of a run takes the first of the largest, and counts for that instance alone. */
  lemma EveryPickIsTheLargest(w: seq<int>, k: nat) returns (i: nat)
    requires w != []
    ensures IsPick(Currents(w, k), w, i, Currents(w, k + 1))
    ensures forall j :: 0 <= j < |w| ==> Count(w, k + 1, j) == Count(w, k, j) + (if j == i then 1 else 0)
  {
    i := Choice(Currents(w, k), w);
    ChoiceIsPick(Currents(w, k), w);
  }

  /** The largest value is at least the mean. */
  lemma PickAboveMean(current: seq<int>, w: seq<int>, i: nat, after: seq<int>)
    requires Positive(w) && IsPick(current, w, i, after) && Sum(current) == 0
    ensures |w| * after[i] >= Sum(w) - |w| * Sum(w)
  {
    var raised := Raised(current, w);
    forall j | 0 <= j < |w| ensures raised[j] <= current[i] + w[i] { RaisedAt(current, w, j); }
    SumRaised(current, w);
    SumBelow(raised, current[i] + w[i]);
    TimesIsProduct(|w|, current[i] + w[i]);
    Spread(|w|, current[i] + w[i], Sum(w), after[i]);
  }

  lemma Spread(n: nat, value: int, total: int, left: int)
    requires n * value >= total && left == value - total
    ensures n * left >= total - n * total
  {
  }

  /** No current value ever falls more than (n - 1) / n of the total below zero. */
  lemma {:induction false} NeverFarBelow(w: seq<int>, k: nat, j: nat)
    requires Positive(w) && j < |w|
    ensures |w| * Currents(w, k)[j] >= Sum(w) - |w| * Sum(w)
  {
    hide After, Choice;
    if k == 0 {
      ZerosAt(|w|, j);
      TotalPositive(w);
      AtLeastOneEach(|w|, Sum(w));
    } else {
      var i := EveryPickIsTheLargest(w, k - 1);
      AlwaysBalanced(w, k - 1);
      if j == i {
        PickAboveMean(Currents(w, k - 1), w, i, Currents(w, k));
      } else {
        NeverFarBelow(w, k - 1, j);
        Grows(|w|, Currents(w, k - 1)[j], Currents(w, k)[j]);
      }
    }
  }

  lemma AtLeastOneEach(n: nat, total: int)
    requires n >= 1 && total >= 0
    ensures n * total >= total
  {
  }

  lemma Grows(n: nat, a: int, b: int)
    requires a <= b
    ensures n * a <= n * b
  {
  }

  /** Picks are not bunched: after any number of them no instance is ahead of its share by more than (n - 1) / n of a
      pick. With two instances, by half a pick. */
  lemma NeverFarAhead(w: seq<int>, k: nat, i: nat)
    requires Positive(w) && i < |w|
    ensures |w| * (Count(w, k, i) * Sum(w) - k * w[i]) <= (|w| - 1) * Sum(w)
  {
    NeverFarBelow(w, k, i);
    DebtAsProduct(w, k, i);
    Ahead(|w|, Currents(w, k)[i], Count(w, k, i) * Sum(w) - k * w[i], Sum(w));
  }

  lemma Ahead(n: nat, owed: int, ahead: int, total: int)
    requires owed == -ahead && n * owed >= total - n * total
    ensures n * ahead <= (n - 1) * total
  {
  }

  lemma TimesNegated(n: nat, x: int)
    ensures Times(n, -x) == -(n * x)
  {
    TimesIsProduct(n, -x);
    assert n * -x == -(n * x);
  }

  // ------------------------------------------------------------------ a full cycle

  lemma MultipleAbove(total: int, share: int, got: int)
    requires total > 0 && total * share - got * total > -total
    ensures total * share - got * total >= 0
  {
    assert total * share - got * total == total * (share - got);
    AboveMinusOne(total, share - got);
  }

  lemma AboveMinusOne(total: int, x: int)
    requires total > 0 && total * x > -total
    ensures total * x >= 0
  {
    assert x <= -1 ==> total * x <= -total;
  }

  lemma {:induction false} ZeroSum(a: seq<int>, i: nat)
    requires i < |a| && Sum(a) == 0 && forall j :: 0 <= j < |a| ==> a[j] >= 0
    ensures a[i] == 0
  {
    OneTermAbove(a, 0, i);
    TimesIsProduct(|a| - 1, 0);
  }

  /** After as many picks as the weights add up to, everything is as it was at the start. */
  lemma CycleReturns(w: seq<int>)
    requires Positive(w)
    ensures Sum(w) > 0 && Currents(w, Sum(w)) == Currents(w, 0)
  {
    TotalPositive(w);
    var total := Sum(w);
    AlwaysBalanced(w, total);
    forall i | 0 <= i < |w| ensures Currents(w, total)[i] >= 0 {
      DebtAsProduct(w, total, i);
      MultipleAbove(total, w[i], Count(w, total, i));
    }
    forall i | 0 <= i < |w| ensures Currents(w, total)[i] == Zeros(|w|)[i] {
      ZeroSum(Currents(w, total), i);
      ZerosAt(|w|, i);
    }
  }

  lemma {:induction false} Periodic(w: seq<int>, k: nat)
    requires Positive(w)
    ensures Sum(w) > 0 && Currents(w, k + Sum(w)) == Currents(w, k)
  {
    hide After;
    CycleReturns(w);
    if k > 0 {
      Periodic(w, k - 1);
      assert Currents(w, k + Sum(w)) == After(Currents(w, k - 1 + Sum(w)), w);
    }
  }

  /** Any window of as many consecutive picks as the weights add up to, wherever it starts,
      chooses every instance exactly as often as its weight says. */
  lemma AnyWindowIsExact(w: seq<int>, k: nat, i: nat)
    requires Positive(w) && i < |w|
    ensures Sum(w) > 0 && Count(w, k + Sum(w), i) - Count(w, k, i) == w[i]
  {
    Periodic(w, k);
    CurrentIsDebt(w, k, i, w[i], Sum(w));
    CurrentIsDebt(w, k + Sum(w), i, w[i], Sum(w));
    ReturnsMeansExact(k, Sum(w), w[i], Currents(w, k)[i], Count(w, k, i), Count(w, k + Sum(w), i));
  }

  lemma ReturnsMeansExact(k: nat, total: nat, share: int, owed: int, before: nat, after: nat)
    requires total > 0 && owed == Times(k, share) - Times(before, total)
    requires owed == Times(k + total, share) - Times(after, total)
    ensures after - before == share
  {
    TimesAdd(k, total, share);
    ExactWindow(total, share, before, after);
  }

  lemma {:induction false} TimesAdd(a: nat, b: nat, x: int)
    ensures Times(a + b, x) == Times(a, x) + Times(b, x)
  {
    if b > 0 {
      TimesAdd(a, b - 1, x);
    }
  }

  lemma ExactWindow(total: nat, share: int, before: nat, after: nat)
    requires total > 0 && Times(total, share) == Times(after, total) - Times(before, total)
    ensures after - before == share
  {
    TimesIsProduct(total, share);
    TimesIsProduct(after, total);
    TimesIsProduct(before, total);
    NoRest(total, share, before, after);
  }

  lemma NoRest(total: int, share: int, before: int, after: int)
    requires total > 0 && total * share == after * total - before * total
    ensures after - before == share
  {
    assert total * (share - (after - before)) == total * share - after * total + before * total;
    ZeroFactor(total, share - (after - before));
  }

  lemma ZeroFactor(total: int, x: int)
    requires total > 0 && total * x == 0
    ensures x == 0
  {
  }

  // ------------------------------------------------------------------ the balancer

  class Instance {
    const id: string
    var weight: int
    var inflight: int

    constructor (id: string, weight: int)
      ensures this.id == id && this.weight == weight && inflight == 0
    {
      this.id := id;
      this.weight := weight;
      inflight := 0;
    }
  }

  function WeightsOf(instances: seq<Instance>): (w: seq<int>)
    reads instances
    ensures |w| == |instances| && forall i :: 0 <= i < |w| ==> w[i] == instances[i].weight
  {
    seq(|instances|, i requires 0 <= i < |instances| reads instances => instances[i].weight)
  }

  class SmoothWRR {
    const instances: seq<Instance>
    const current: array<int>

    ghost predicate Valid()
      reads this, current, instances
    {
      current.Length == |instances| && (instances != [] ==> Positive(WeightsOf(instances)))
    }

    constructor (instances: seq<Instance>)
      requires instances != [] ==> Positive(WeightsOf(instances))
      ensures Valid() && this.instances == instances && fresh(current)
      ensures instances != [] ==> current[..] == Currents(WeightsOf(instances), 0)
    {
      this.instances := instances;
      current := new int[|instances|](_ => 0);
      new;
      forall i | 0 <= i < |instances| { ZerosAt(|instances|, i); }
      assert current[..] == Zeros(|instances|);
    }

    /** Picks an instance and takes a place on it; None when there is none. */
    method Pick() returns (picked: Option<Instance>, ghost b: nat)
      requires Valid()
      modifies current, instances`inflight
      ensures Valid()
      ensures picked == None <==> instances == []
      ensures picked.Some? ==> current[..] == After(old(current[..]), WeightsOf(instances))
      // the first of those with the largest current value, once the weights are added
      ensures picked.Some? ==>
                && b < |instances| && picked.value == instances[b]
                && (forall j :: 0 <= j < |instances| ==>
                      old(current[j]) + instances[j].weight <= old(current[b]) + instances[b].weight)
                && (forall j :: 0 <= j < b ==>
                      old(current[j]) + instances[j].weight < old(current[b]) + instances[b].weight)
      // it alone pays the total, and it alone gets a call
      ensures picked.Some? ==>
                && (forall j :: 0 <= j < |instances| ==>
                      current[j] == old(current[j]) + instances[j].weight
                                    - (if j == b then Sum(WeightsOf(instances)) else 0))
                && picked.value.inflight == old(picked.value.inflight) + 1
                && forall x :: x in instances && x != picked.value ==> x.inflight == old(x.inflight)
    {
      if |instances| == 0 {
        return None, 0;
      }
      ghost var before := current[..];
      var total := Raise();
      var best := Largest();
      current[best] := current[best] - total;
      instances[best].inflight := instances[best].inflight + 1;
      assert WeightsOf(instances) == old(WeightsOf(instances));
      assert current[..] == After(before, WeightsOf(instances));
      ChoiceIsPick(before, WeightsOf(instances));
      return Some(instances[best]), best;
    }

    /** The first loop of Pick. */
    method Raise() returns (total: int)
      requires Valid()
      modifies current
      ensures current[..] == Raised(old(current[..]), WeightsOf(instances))
      ensures total == Sum(WeightsOf(instances))
    {
      ghost var w, before := WeightsOf(instances), current[..];
      total := 0;
      for i := 0 to |instances|
        invariant forall j :: 0 <= j < i ==> current[j] == before[j] + w[j]
        invariant forall j :: i <= j < current.Length ==> current[j] == before[j]
        invariant total == Sum(w[..i])
      {
        current[i] := current[i] + instances[i].weight;
        total := total + instances[i].weight;
        SumConcat(w[..i], [w[i]]);
        assert w[..i+1] == w[..i] + [w[i]];
      }
      assert w[..|w|] == w;
      forall i | 0 <= i < |w| ensures current[i] == Raised(before, w)[i] { RaisedAt(before, w, i); }
    }

    /** The second loop of Pick. */
    method Largest() returns (best: nat)
      requires current.Length > 0
      ensures best == FirstLargest(current[..])
    {
      best := 0;
      for i := 1 to current.Length
        invariant best < i && IsFirstLargest(current[..i], best)
      {
        if current[i] > current[best] {
          best := i;
        }
      }
      assert current[..current.Length] == current[..];
      FirstLargestIs(current[..]);
      FirstLargestIsUnique(current[..], best, FirstLargest(current[..]));
    }

    /** Gives a place back. */
    method Release(inst: Option<Instance>)
      modifies if inst.Some? then {inst.value} else {}
      ensures inst.Some? ==> inst.value.inflight == old(inst.value.inflight) - 1
      ensures inst.Some? ==> inst.value.weight == old(inst.value.weight)
    {
      if inst.Some? {
        inst.value.inflight := inst.value.inflight - 1;
      }
    }
  }

  /** The instances that are there, in order. */
  function Present(all: seq<Option<Instance>>): seq<Instance> {
    if all == [] then [] else Present(all[..|all|-1]) + (match all[|all|-1] case None => [] case Some(x) => [x])
  }

  /** Builds a weighted balancer: missing instances are left out, weights below one count as one. */
  method NewWeighted(all: seq<Option<Instance>>) returns (b: SmoothWRR)
    modifies set o | o in all && o.Some? :: o.value
    ensures fresh(b) && fresh(b.current) && b.Valid() && b.instances == Present(all)
    ensures forall o :: o in all && o.Some? ==>
              && o.value.weight == (if old(o.value.weight) <= 0 then 1 else old(o.value.weight))
              && o.value.inflight == old(o.value.inflight)
    ensures b.instances != [] ==> b.current[..] == Currents(WeightsOf(b.instances), 0)
  {
    var valid := [];
    for i := 0 to |all|
      invariant valid == Present(all[..i])
      invariant forall x :: x in valid ==> Some(x) in all && x.weight >= 1
      invariant forall o :: o in all[..i] && o.Some? ==> o.value.weight >= 1
      invariant forall o :: o in all && o.Some? ==>
                  && o.value.inflight == old(o.value.inflight)
                  && (o.value.weight == old(o.value.weight) || (old(o.value.weight) <= 0 && o.value.weight == 1))
    {
      assert all[..i+1][..i] == all[..i];
      assert all[..i+1] == all[..i] + [all[i]];
      if all[i].Some? {
        var x := all[i].value;
        if x.weight <= 0 {
          x.weight := 1;
        }
        valid := valid + [x];
      }
    }
    assert all[..|all|] == all;
    b := new SmoothWRR(valid);
  }
}
