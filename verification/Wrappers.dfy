/** Values shared by every module: optional values and results of operations that may fail. */
module Wrappers {

  datatype Option<+T> = None | Some(value: T)

  datatype Result<+T, +E> = Ok(value: T) | Err(error: E)

  function Min(a: int, b: int): int {
    if a <= b then a else b
  }

  function Max(a: int, b: int): int {
    if a >= b then a else b
  }

  function Without<T>(s: seq<T>, i: nat): seq<T>
    requires i < |s|
  {
    s[..i] + s[i+1..]
  }

  /** Index k holds the first of the largest values. */
  ghost predicate IsFirstLargest(a: seq<int>, k: int) {
    && 0 <= k < |a|
    && (forall i :: 0 <= i < |a| ==> a[i] <= a[k])
    && (forall i :: 0 <= i < k ==> a[i] < a[k])
  }

  function FirstLargest(a: seq<int>): (k: nat)
    requires a != []
    ensures k < |a|
  {
    if |a| == 1 then 0
    else
      var k := FirstLargest(a[..|a|-1]);
      if a[|a|-1] > a[k] then |a| - 1 else k
  }

  lemma {:induction false} FirstLargestIs(a: seq<int>)
    requires a != []
    ensures IsFirstLargest(a, FirstLargest(a))
  {
    if |a| > 1 { FirstLargestIs(a[..|a|-1]); }
  }

  lemma FirstLargestIsUnique(a: seq<int>, i: int, j: int)
    requires IsFirstLargest(a, i) && IsFirstLargest(a, j)
    ensures i == j
  {
    assert a[i] <= a[j] <= a[i];
  }

  lemma SmallerSet<T>(a: set<T>, b: set<T>)
    requires a <= b
    ensures |a| <= |b|
  {
    assert b == a + (b - a);
  }
}
