/** What the exact-match answer cache (internal/cache/exact.go) means: a sequence of entries, most recently used first,
    without two entries for one key, with an expiry per entry.

    The operations are functions on that sequence; `ExactCache` carries them out on a linked list and an index.
    A key stands for the hash of a namespace and a question. */
module Lru {
  import opened Wrappers

  datatype Key = Key(namespace: string, question: string)
  datatype Entry = Entry(key: Key, answer: string, expires: int, tokens: int, cost: int)

  type Entries = seq<Entry>

  function Find(l: Entries, k: Key): (i: nat)
    ensures i <= |l|
    ensures i < |l| ==> l[i].key == k
  {
    if l == [] || l[0].key == k then 0 else Find(l[1..], k) + 1
  }

  /** A hit moves the entry to the front; an expired entry is removed and is a miss. */
  function Get(l: Entries, k: Key, now: int): (Entries, Option<Entry>) {
    var i := Find(l, k);
    if i == |l| then (l, None)
    else if now > l[i].expires then (Without(l, i), None)
    else ([l[i]] + Without(l, i), Some(l[i]))
  }

  /** Writing puts the entry in front; when that makes one too many, the last one goes. */
  function Set(l: Entries, e: Entry, max: nat): Entries
    requires max > 0
  {
    if e.answer == "" then l
    else
      var i := Find(l, e.key);
      if i < |l| then [e] + Without(l, i)
      else if |l| < max then [e] + l
      else [e] + l[..max-1]
  }

  function Delete(l: Entries, k: Key): Entries {
    var i := Find(l, k);
    if i < |l| then Without(l, i) else l
  }

  datatype Op = GetOp(key: Key, now: int) | SetOp(entry: Entry) | DeleteOp(key: Key) | PurgeOp

  function Step(l: Entries, op: Op, max: nat): Entries
    requires max > 0
  {
    match op
    case GetOp(k, now) => Get(l, k, now).0
    case SetOp(e) => Set(l, e, max)
    case DeleteOp(k) => Delete(l, k)
    case PurgeOp => []
  }

  /** What a cache that starts with l holds after some operations. */
  function Run(l: Entries, ops: seq<Op>, max: nat): Entries
    requires max > 0
  {
    if ops == [] then l else Step(Run(l, ops[..|ops|-1], max), ops[|ops|-1], max)
  }

  ghost predicate Distinct(l: Entries) {
    forall i, j :: 0 <= i < j < |l| ==> l[i].key != l[j].key
  }

  ghost predicate Sound(l: Entries, max: nat) {
    Distinct(l) && |l| <= max
  }

  predicate Holds(l: Entries, k: Key) {
    Find(l, k) < |l|
  }

  // ------------------------------------------------------------------ one entry per key, never too many

  lemma {:induction false} FindIs(l: Entries, i: nat)
    requires Distinct(l) && i < |l|
    ensures Find(l, l[i].key) == i
  {
    if i > 0 {
      assert l[0].key != l[i].key;
      FindIs(l[1..], i - 1);
    }
  }

  lemma {:induction false} NotFound(l: Entries, k: Key)
    requires Find(l, k) == |l|
    ensures forall i :: 0 <= i < |l| ==> l[i].key != k
  {
    if l != [] { NotFound(l[1..], k); }
  }

  lemma WithoutKeepsOthers(l: Entries, i: nat)
    requires Distinct(l) && i < |l|
    ensures Distinct(Without(l, i)) && |Without(l, i)| == |l| - 1
    ensures forall j :: 0 <= j < |Without(l, i)| ==> Without(l, i)[j].key != l[i].key
  {
  }

  lemma HoldsWithout(l: Entries, i: nat, k: Key)
    requires Distinct(l) && i < |l|
    ensures Holds(Without(l, i), k) <==> Holds(l, k) && k != l[i].key
  {
    var l' := Without(l, i);
    if Holds(l, k) && k != l[i].key {
      var j := Find(l, k);
      assert l'[if j < i then j else j - 1].key == k;
    }
    if Find(l, k) == |l| { NotFound(l, k); }
    if Find(l', k) == |l'| { NotFound(l', k); }
  }

  lemma HoldsInFront(l: Entries, e: Entry, k: Key)
    ensures Holds([e] + l, k) <==> k == e.key || Holds(l, k)
  {
    assert ([e] + l)[1..] == l;
  }

  lemma {:induction false} SameKeys(l: Entries, l': Entries, k: Key)
    requires |l| == |l'| && forall i :: 0 <= i < |l| ==> l[i].key == l'[i].key
    ensures Find(l, k) == Find(l', k)
  {
    if l != [] { SameKeys(l[1..], l'[1..], k); }
  }

  lemma InFront(l: Entries, e: Entry)
    requires Distinct(l) && forall j :: 0 <= j < |l| ==> l[j].key != e.key
    ensures Distinct([e] + l)
  {
  }

  lemma StepKeepsSound(l: Entries, op: Op, max: nat)
    requires max > 0 && Sound(l, max)
    ensures Sound(Step(l, op, max), max)
  {
    match op
    case GetOp(k, now) =>
      var i := Find(l, k);
      if i < |l| {
        WithoutKeepsOthers(l, i);
        InFront(Without(l, i), l[i]);
      }
    case SetOp(e) =>
      var i := Find(l, e.key);
      if i < |l| {
        WithoutKeepsOthers(l, i);
        InFront(Without(l, i), e);
      } else {
        NotFound(l, e.key);
        InFront(l, e);
        if |l| == max { InFront(l[..max-1], e); }
      }
    case DeleteOp(k) =>
      var i := Find(l, k);
      if i < |l| { WithoutKeepsOthers(l, i); }
    case PurgeOp =>
  }

  lemma {:induction false} RunKeepsSound(l: Entries, ops: seq<Op>, max: nat)
    requires max > 0 && Sound(l, max)
    ensures Sound(Run(l, ops, max), max)
  {
    if ops != [] {
      RunKeepsSound(l, ops[..|ops|-1], max);
      StepKeepsSound(Run(l, ops[..|ops|-1], max), ops[|ops|-1], max);
    }
  }

  // ------------------------------------------------------------------ what a write does

  /** What has just been written is found until it expires. */
  lemma WriteThenHit(l: Entries, e: Entry, max: nat, now: int)
    requires max > 0 && e.answer != "" && now <= e.expires
    ensures Get(Set(l, e, max), e.key, now).1 == Some(e)
  {
    assert Set(l, e, max)[0] == e;
  }

  /** A write brings in no other entry, and takes none away while there is room. */
  lemma WriteKeepsOthers(l: Entries, e: Entry, max: nat, x: Entry)
    requires max > 0 && Sound(l, max) && x.key != e.key
    ensures x in Set(l, e, max) ==> x in l
    ensures x in l && |l| < max ==> x in Set(l, e, max)
  {
    var i := Find(l, e.key);
    if i < |l| {
      assert l == l[..i] + [l[i]] + l[i+1..];
    }
  }

  /** An entry held that has not expired is a hit. */
  lemma HeldMeansHit(l: Entries, i: nat, now: int)
    requires Distinct(l) && i < |l|
    ensures Get(l, l[i].key, now).1 == if now <= l[i].expires then Some(l[i]) else None
  {
    FindIs(l, i);
  }

  // ------------------------------------------------------------------ what a hit returns

  /** The entry that a key stands for after some operations, if room were no concern: the one last written, unless it
      has been deleted, purged or found expired since. */
  function Standing(ops: seq<Op>, k: Key): Option<Entry> {
    if ops == [] then None
    else
      var before := Standing(ops[..|ops|-1], k);
      match ops[|ops|-1]
      case SetOp(e) => if e.key == k && e.answer != "" then Some(e) else before
      case GetOp(k', now) => if k' == k && before.Some? && now > before.value.expires then None else before
      case DeleteOp(k') => if k' == k then None else before
      case PurgeOp => None
  }

  /** Each entry held is the one its key stands for. */
  ghost predicate Latest(l: Entries, ops: seq<Op>) {
    forall i :: 0 <= i < |l| ==> Standing(ops, l[i].key) == Some(l[i])
  }

  lemma {:induction false} AlwaysLatest(ops: seq<Op>, max: nat)
    requires max > 0
    ensures Latest(Run([], ops, max), ops) && Sound(Run([], ops, max), max)
  {
    if ops != [] {
      var before, op := ops[..|ops|-1], ops[|ops|-1];
      AlwaysLatest(before, max);
      LatestStep(Run([], before, max), before, op, max);
      StepKeepsSound(Run([], before, max), op, max);
      assert ops == before + [op];
    }
  }

  lemma LatestStep(l: Entries, before: seq<Op>, op: Op, max: nat)
    requires max > 0 && Sound(l, max) && Latest(l, before)
    ensures Latest(Step(l, op, max), before + [op])
  {
    var l', ops := Step(l, op, max), before + [op];
    assert ops[..|ops|-1] == before;
    StepKeepsSound(l, op, max);
    forall i | 0 <= i < |l'| ensures Standing(ops, l'[i].key) == Some(l'[i]) {
      ComesFrom(l, op, max, i);
      if op.SetOp? && op.entry.answer != "" {
        assert l'[0] == op.entry;
      } else {
        NotRemoved(l, op, max, i);
      }
    }
  }

  lemma WithoutIsPart(l: Entries, j: nat, i: nat)
    requires j < |l| && i < |Without(l, j)|
    ensures Without(l, j)[i] in l
  {
    assert Without(l, j)[i] == l[if i < j then i else i + 1];
  }

  /** An operation brings in nothing but what it writes. */
  lemma ComesFrom(l: Entries, op: Op, max: nat, i: nat)
    requires max > 0 && i < |Step(l, op, max)|
    ensures Step(l, op, max)[i] in l || (op.SetOp? && i == 0 && Step(l, op, max)[i] == op.entry)
  {
    match op
    case GetOp(k, now) =>
      var j := Find(l, k);
      if j < |l| {
        if now > l[j].expires { WithoutIsPart(l, j, i); } else if i > 0 { WithoutIsPart(l, j, i - 1); }
      }
    case SetOp(e) =>
      var j := Find(l, e.key);
      if e.answer != "" && j < |l| && i > 0 { WithoutIsPart(l, j, i - 1); }
    case DeleteOp(k) =>
      var j := Find(l, k);
      if j < |l| { WithoutIsPart(l, j, i); }
    case PurgeOp =>
  }

  /** What is still held after a deletion or a lookup is neither the deleted nor an expired entry. */
  lemma NotRemoved(l: Entries, op: Op, max: nat, i: nat)
    requires max > 0 && Sound(l, max) && i < |Step(l, op, max)|
    ensures op.DeleteOp? ==> Step(l, op, max)[i].key != op.key
    ensures op.GetOp? && Step(l, op, max)[i].key == op.key ==> op.now <= Step(l, op, max)[i].expires
  {
    if op.DeleteOp? || op.GetOp? {
      var j := Find(l, op.key);
      if j < |l| { WithoutKeepsOthers(l, j); } else { NotFound(l, op.key); }
    }
  }

  /** A hit, after any run, returns the latest answer written under the key, and that answer has not expired. */
  lemma HitIsLatestAndUnexpired(ops: seq<Op>, max: nat, k: Key, now: int)
    requires max > 0
    ensures var (l, hit) := Get(Run([], ops, max), k, now);
            && (hit.Some? ==> Standing(ops, k) == hit && now <= hit.value.expires && l != [] && l[0] == hit.value)
            && (hit == None ==> !Holds(l, k))
  {
    AlwaysLatest(ops, max);
    var l := Run([], ops, max);
    var i := Find(l, k);
    StepKeepsSound(l, GetOp(k, now), max);
    if i < |l| { WithoutKeepsOthers(l, i); }
  }

  predicate Invalidates(op: Op, k: Key) {
    op == DeleteOp(k) || op == PurgeOp
  }

  predicate Writes(op: Op, k: Key) {
    op.SetOp? && op.entry.key == k && op.entry.answer != ""
  }

  lemma {:induction false} NothingStands(ops: seq<Op>, k: Key, i: nat)
    requires i < |ops| && Invalidates(ops[i], k) && forall j :: i < j < |ops| ==> !Writes(ops[j], k)
    ensures Standing(ops, k) == None
  {
    if i < |ops| - 1 { NothingStands(ops[..|ops|-1], k, i); }
  }

  /** What has been deleted or purged is never returned again unless it is written again. */
  lemma InvalidatedIsGone(ops: seq<Op>, max: nat, k: Key, i: nat, now: int)
    requires max > 0 && i < |ops| && Invalidates(ops[i], k) && forall j :: i < j < |ops| ==> !Writes(ops[j], k)
    ensures Get(Run([], ops, max), k, now).1 == None && !Holds(Run([], ops, max), k)
  {
    NothingStands(ops, k, i);
    AlwaysLatest(ops, max);
  }

  // ------------------------------------------------------------------ who is evicted

  /** Operation op uses key k: it writes it or hits it. */
  predicate Uses(l: Entries, op: Op, k: Key) {
    match op
    case GetOp(k', now) => k' == k && Get(l, k, now).1.Some?
    case SetOp(e) => e.key == k && e.answer != ""
    case _ => false
  }

  /** The number of the last operation that used k, counted from 1; 0 when there is none. */
  function LastUse(ops: seq<Op>, max: nat, k: Key): nat
    requires max > 0
  {
    if ops == [] then 0
    else if Uses(Run([], ops[..|ops|-1], max), ops[|ops|-1], k) then |ops|
    else LastUse(ops[..|ops|-1], max, k)
  }

  lemma {:induction false} LastUseBounded(ops: seq<Op>, max: nat, k: Key)
    requires max > 0
    ensures LastUse(ops, max, k) <= |ops|
  {
    if ops != [] { LastUseBounded(ops[..|ops|-1], max, k); }
  }

  /** The entries are in the order of their last use. */
  ghost predicate ByRecency(l: Entries, ops: seq<Op>, max: nat)
    requires max > 0
  {
    forall i, j :: 0 <= i < j < |l| ==> LastUse(ops, max, l[i].key) > LastUse(ops, max, l[j].key)
  }

  lemma {:induction false} AlwaysByRecency(ops: seq<Op>, max: nat)
    requires max > 0
    ensures ByRecency(Run([], ops, max), ops, max)
  {
    if ops != [] {
      var before, op := ops[..|ops|-1], ops[|ops|-1];
      var l := Run([], before, max);
      AlwaysByRecency(before, max);
      RunKeepsSound([], before, max);
      RecencyStep(l, before, op, ops, max);
    }
  }

  /** Where the i-th entry after an operation stood before it (unless the operation has just put it in front). */
  function Origin(l: Entries, op: Op, i: nat): int {
    match op
    case GetOp(k, now) =>
      var f := Find(l, k);
      if f == |l| then i
      else if now > l[f].expires then (if i < f then i else i + 1)
      else (if i <= f then i - 1 else i)
    case SetOp(e) =>
      var f := Find(l, e.key);
      if e.answer == "" then i else if f == |l| then i - 1 else (if i <= f then i - 1 else i)
    case DeleteOp(k) =>
      var f := Find(l, k);
      if f == |l| || i < f then i else i + 1
    case PurgeOp => i
  }

  /** Whether the operation has just put the i-th entry in front. */
  predicate JustUsed(l: Entries, op: Op, i: nat) {
    i == 0 && match op
              case GetOp(k, now) => Get(l, k, now).1.Some?
              case SetOp(e) => e.answer != ""
              case _ => false
  }

  lemma OriginOfGet(l: Entries, k: Key, now: int, max: nat, i: nat)
    requires max > 0 && Sound(l, max) && i < |Get(l, k, now).0|
    ensures var op := GetOp(k, now);
            && (JustUsed(l, op, i) <==> Uses(l, op, Get(l, k, now).0[i].key))
            && (!JustUsed(l, op, i) ==> 0 <= Origin(l, op, i) < |l| && l[Origin(l, op, i)] == Get(l, k, now).0[i])
  {
    if Find(l, k) < |l| { WithoutKeepsOthers(l, Find(l, k)); }
  }

  lemma OriginOfSet(l: Entries, e: Entry, max: nat, i: nat)
    requires max > 0 && Sound(l, max) && i < |Set(l, e, max)|
    ensures var op := SetOp(e);
            && (JustUsed(l, op, i) <==> Uses(l, op, Set(l, e, max)[i].key))
            && (!JustUsed(l, op, i) ==> 0 <= Origin(l, op, i) < |l| && l[Origin(l, op, i)] == Set(l, e, max)[i])
  {
    var f := Find(l, e.key);
    hide Find;
    if e.answer != "" && f < |l| && i > 0 { assert Without(l, f)[i-1] == l[if i <= f then i - 1 else i]; }
    if f < |l| { WithoutKeepsOthers(l, f); } else { NotFound(l, e.key); }
  }

  lemma OriginOfDelete(l: Entries, k: Key, max: nat, i: nat)
    requires max > 0 && Sound(l, max) && i < |Delete(l, k)|
    ensures var op := DeleteOp(k);
            0 <= Origin(l, op, i) < |l| && l[Origin(l, op, i)] == Delete(l, k)[i]
  {
    var f := Find(l, k);
    hide Find;
    if f < |l| { assert Without(l, f)[i] == l[if i < f then i else i + 1]; }
  }

  lemma OriginIs(l: Entries, op: Op, max: nat, i: nat)
    requires max > 0 && Sound(l, max) && i < |Step(l, op, max)|
    ensures JustUsed(l, op, i) <==> Uses(l, op, Step(l, op, max)[i].key)
    ensures !JustUsed(l, op, i) ==> 0 <= Origin(l, op, i) < |l| && l[Origin(l, op, i)] == Step(l, op, max)[i]
  {
    match op {
      case GetOp(k, now) => OriginOfGet(l, k, now, max, i);
      case SetOp(e) => OriginOfSet(l, e, max, i);
      case DeleteOp(k) => OriginOfDelete(l, k, max, i);
      case PurgeOp =>
    }
  }

  lemma RecencyStep(l: Entries, before: seq<Op>, op: Op, ops: seq<Op>, max: nat)
    requires max > 0 && l == Run([], before, max) && Sound(l, max) && ByRecency(l, before, max)
    requires ops != [] && ops[..|ops|-1] == before && ops[|ops|-1] == op
    ensures ByRecency(Step(l, op, max), ops, max)
  {
    var l' := Step(l, op, max);
    forall i, j | 0 <= i < j < |l'| ensures LastUse(ops, max, l'[i].key) > LastUse(ops, max, l'[j].key) {
      OriginIs(l, op, max, i);
      OriginIs(l, op, max, j);
      LastUseBounded(before, max, l'[j].key);
      if !JustUsed(l, op, i) {
        assert Origin(l, op, i) < Origin(l, op, j);
      }
    }
  }

  /** When a write evicts, what goes is the entry whose last use lies furthest back, and only that one. */
  lemma EvictsLeastRecentlyUsed(ops: seq<Op>, max: nat, e: Entry)
    requires max > 0 && e.answer != ""
    requires var l := Run([], ops, max); |l| == max && !Holds(l, e.key)
    ensures var l := Run([], ops, max);
            && Set(l, e, max) == [e] + l[..max-1]
            && forall i :: 0 <= i < max - 1 ==> LastUse(ops, max, l[i].key) > LastUse(ops, max, l[max-1].key)
  {
    AlwaysByRecency(ops, max);
  }

  // ------------------------------------------------------------------ who is never evicted

  /** The keys used by some operations, starting with l. */
  function UsedKeys(l: Entries, ops: seq<Op>, max: nat): set<Key>
    requires max > 0
  {
    if ops == [] then {}
    else UsedKeys(l, ops[..|ops|-1], max) + OpKeys(Run(l, ops[..|ops|-1], max), ops[|ops|-1])
  }

  function OpKeys(l: Entries, op: Op): set<Key> {
    match op
    case GetOp(k, now) => if Get(l, k, now).1.Some? then {k} else {}
    case SetOp(e) => if e.answer != "" then {e.key} else {}
    case _ => {}
  }

  predicate Spares(op: Op, k: Key) {
    match op
    case GetOp(k', _) => k' != k
    case SetOp(e) => e.key != k
    case DeleteOp(k') => k' != k
    case PurgeOp => false
  }

  /** Everything in front of k was used since k was. */
  ghost predicate BehindUsed(l: Entries, k: Key, e: Entry, used: set<Key>) {
    Holds(l, k) && l[Find(l, k)] == e && forall i :: 0 <= i < Find(l, k) ==> l[i].key in used
  }

  lemma {:induction false} DistinctCount(l: Entries, n: nat, used: set<Key>)
    requires Distinct(l) && n <= |l| && forall i :: 0 <= i < n ==> l[i].key in used
    ensures n <= |used|
  {
    if n > 0 {
      var k := l[n-1].key;
      forall i | 0 <= i < n - 1 ensures l[i].key in used - {k} {
        assert l[i].key != l[n-1].key;
      }
      DistinctCount(l, n - 1, used - {k});
    }
  }

  lemma SparedStep(l: Entries, op: Op, max: nat, k: Key, e: Entry, used: set<Key>)
    requires max > 0 && Sound(l, max) && BehindUsed(l, k, e, used) && Spares(op, k)
    requires |used + OpKeys(l, op)| < max
    ensures BehindUsed(Step(l, op, max), k, e, used + OpKeys(l, op))
  {
    hide Step, Get, Set, Delete, Find;
    var f := Find(l, k);
    var l' := Step(l, op, max);
    if op.SetOp? && op.entry.answer != "" && !Holds(l, op.entry.key) {
      var k' := op.entry.key;
      NotFound(l, k');
      DistinctCount(l, f, used - {k'});
      assert used + {k'} == (used - {k'}) + {k'};
    }
    StepKeepsSound(l, op, max);
    var place := SparedPlace(l, op, f);
    SparedPlaceIs(l, op, max, f, k);
    FindIs(l', place);
    forall i | 0 <= i < place ensures l'[i].key in used + OpKeys(l, op) {
      OriginIs(l, op, max, i);
      if !JustUsed(l, op, i) { assert Origin(l, op, i) < f; }
    }
  }

  /** Where the entry at f stands after an operation that concerns another key. */
  function SparedPlace(l: Entries, op: Op, f: nat): int {
    match op
    case GetOp(k, now) =>
      var g := Find(l, k);
      if g == |l| then f else if now > l[g].expires then (if f < g then f else f - 1) else (if f < g then f + 1 else f)
    case SetOp(e) =>
      var g := Find(l, e.key);
      if e.answer == "" then f else if g == |l| || f < g then f + 1 else f
    case DeleteOp(k) =>
      var g := Find(l, k);
      if g == |l| || f < g then f else f - 1
    case PurgeOp => f
  }

  lemma SparedByGet(l: Entries, max: nat, f: nat, k: Key, now: int)
    requires Sound(l, max) && f < |l| && l[f].key != k
    ensures 0 <= SparedPlace(l, GetOp(k, now), f) < |Get(l, k, now).0|
    ensures Get(l, k, now).0[SparedPlace(l, GetOp(k, now), f)] == l[f]
  {
  }

  lemma SparedBySet(l: Entries, max: nat, f: nat, e: Entry)
    requires max > 0 && Sound(l, max) && f < |l| && l[f].key != e.key
    requires e.answer != "" && !Holds(l, e.key) ==> f + 1 < max
    ensures 0 <= SparedPlace(l, SetOp(e), f) < |Set(l, e, max)|
    ensures Set(l, e, max)[SparedPlace(l, SetOp(e), f)] == l[f]
  {
  }

  lemma SparedPlaceIs(l: Entries, op: Op, max: nat, f: nat, k: Key)
    requires max > 0 && Sound(l, max) && f < |l| && l[f].key == k && Spares(op, k)
    requires op.SetOp? && op.entry.answer != "" && !Holds(l, op.entry.key) ==> f + 1 < max
    ensures 0 <= SparedPlace(l, op, f) < |Step(l, op, max)|
    ensures Step(l, op, max)[SparedPlace(l, op, f)] == l[f]
  {
    match op {
      case GetOp(k', now) => SparedByGet(l, max, f, k', now);
      case SetOp(e) => SparedBySet(l, max, f, e);
      case _ =>
    }
  }

  lemma {:induction false} SparedRun(l: Entries, ops: seq<Op>, max: nat, k: Key)
    requires max > 0 && Sound(l, max) && l != [] && l[0].key == k
    requires forall i :: 0 <= i < |ops| ==> Spares(ops[i], k)
    requires |UsedKeys(l, ops, max)| < max
    ensures BehindUsed(Run(l, ops, max), k, l[0], UsedKeys(l, ops, max))
  {
    if ops != [] {
      var before, op := ops[..|ops|-1], ops[|ops|-1];
      var mid := Run(l, before, max);
      SmallerSet(UsedKeys(l, before, max), UsedKeys(l, ops, max));
      SparedRun(l, before, max, k);
      RunKeepsSound(l, before, max);
      SparedStep(mid, op, max, k, l[0], UsedKeys(l, before, max));
    }
  }

  /** An entry that has just been used survives until `max` other keys have been used, or it is deleted, replaced,
      found expired or purged: asking for it in time is a hit with the same answer. */
  lemma RecentlyUsedSurvives(l: Entries, ops: seq<Op>, max: nat, k: Key, now: int)
    requires max > 0 && Sound(l, max) && l != [] && l[0].key == k
    requires forall i :: 0 <= i < |ops| ==> Spares(ops[i], k)
    requires |UsedKeys(l, ops, max)| < max
    requires now <= l[0].expires
    ensures Get(Run(l, ops, max), k, now).1 == Some(l[0])
  {
    SparedRun(l, ops, max, k);
  }

  // ------------------------------------------------------------------ an index into a list of elements

  /** `index` leads from each key to the element, in a list parallel to l, that carries its entry, and to nothing
      else. */
  ghost predicate Indexed<E>(index: map<Key, E>, ll: seq<E>, l: Entries) {
    && Distinct(l) && |ll| == |l|
    && (forall i :: 0 <= i < |l| ==> l[i].key in index && index[l[i].key] == ll[i])
    && (forall k :: k in index ==> Holds(l, k))
  }

  lemma IndexedWithout<E>(index: map<Key, E>, ll: seq<E>, l: Entries, i: nat)
    requires Indexed(index, ll, l) && i < |l|
    ensures Indexed(index - {l[i].key}, ll[..i] + ll[i+1..], Without(l, i))
  {
    hide Find;
    WithoutKeepsOthers(l, i);
    forall k { HoldsWithout(l, i, k); }
  }

  lemma IndexedWith<E>(index: map<Key, E>, ll: seq<E>, l: Entries, el: E, e: Entry)
    requires Indexed(index, ll, l) && !Holds(l, e.key)
    ensures Indexed(index[e.key := el], [el] + ll, [e] + l)
  {
    NotFound(l, e.key);
    InFront(l, e);
    forall k | k in index[e.key := el] ensures Holds([e] + l, k) { HoldsInFront(l, e, k); }
    var l', ll', index' := [e] + l, [el] + ll, index[e.key := el];
    forall i | 0 <= i < |l'| ensures l'[i].key in index' && index'[l'[i].key] == ll'[i] {
      if i > 0 { assert l'[i] == l[i-1] && ll'[i] == ll[i-1]; }
    }
  }

  lemma IndexedToFront<E>(index: map<Key, E>, ll: seq<E>, l: Entries, i: nat)
    requires Indexed(index, ll, l) && i < |l|
    ensures Indexed(index, [ll[i]] + (ll[..i] + ll[i+1..]), [l[i]] + Without(l, i))
  {
    var k := l[i].key;
    IndexedWithout(index, ll, l, i);
    HoldsWithout(l, i, k);
    IndexedWith(index - {k}, ll[..i] + ll[i+1..], Without(l, i), ll[i], l[i]);
    assert index == (index - {k})[k := ll[i]];
  }

  lemma IndexedReplace<E>(index: map<Key, E>, ll: seq<E>, l: Entries, i: nat, e: Entry)
    requires Indexed(index, ll, l) && i < |l| && l[i].key == e.key
    ensures Indexed(index, ll, l[i := e])
  {
    forall k ensures Holds(l[i := e], k) <==> Holds(l, k) { SameKeys(l, l[i := e], k); }
  }
}
