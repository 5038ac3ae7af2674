/** The three-level waiting queue of an inference pool (internal/inference/queue.go).

    A queue is understood through its *line*: the tickets waiting, in the order in which they arrived.
    `ServiceOrder` is the order in which a line will be served, and the lemmas below say how every
    operation acts on that order. The class keeps three slices and a counter, as the program does. */
module PriorityQueue {
  import opened Wrappers

  type Priority = p: int | 0 <= p < 3
  const HIGH: Priority := 0
  const NORMAL: Priority := 1
  const LOW: Priority := 2

  /** A waiter in the queue: who waits (the identity of the waiter) and at which priority. */
  datatype Ticket<T> = Ticket(who: T, prio: Priority)

  /** The tickets of one level, in arrival order. */
  function OfLevel<T>(line: seq<Ticket<T>>, p: Priority): seq<Ticket<T>> {
    if line == [] then []
    else if line[0].prio == p then [line[0]] + OfLevel(line[1..], p)
    else OfLevel(line[1..], p)
  }

  function Levels<T>(line: seq<Ticket<T>>): (levels: seq<seq<Ticket<T>>>)
    ensures |levels| == 3 && forall p: Priority :: levels[p] == OfLevel(line, p)
  {
    [OfLevel(line, HIGH), OfLevel(line, NORMAL), OfLevel(line, LOW)]
  }

  /** Level by level, first come first served within a level. */
  function ServiceOrder<T>(line: seq<Ticket<T>>): seq<Ticket<T>> {
    OfLevel(line, HIGH) + OfLevel(line, NORMAL) + OfLevel(line, LOW)
  }

  /** Ticket i is next: nobody has a better level, and nobody of its own level came earlier. */
  ghost predicate IsNext<T>(line: seq<Ticket<T>>, i: int) {
    && 0 <= i < |line|
    && (forall j :: 0 <= j < |line| ==> line[i].prio <= line[j].prio)
    && (forall j :: 0 <= j < i ==> line[i].prio < line[j].prio)
  }

  function NextIndex<T>(line: seq<Ticket<T>>): (i: nat)
    requires line != []
    ensures IsNext(line, i)
  {
    if |line| == 1 then 0
    else
      var i := NextIndex(line[1..]);
      assert forall j :: 1 <= j < |line| ==> line[j] == line[1..][j-1];
      if line[0].prio <= line[i+1].prio then 0 else i + 1
  }

  lemma NextIsUnique<T>(line: seq<Ticket<T>>, i: int, j: int)
    requires IsNext(line, i) && IsNext(line, j)
    ensures i == j
  {
    assert line[i].prio <= line[j].prio <= line[i].prio;
  }

  /** The place of a ticket in a line, or the length of the line when it is not there. */
  function Find<T(==)>(line: seq<Ticket<T>>, t: Ticket<T>): (i: nat)
    ensures i <= |line|
    ensures i < |line| ==> line[i] == t
    ensures t !in line[..i]
    ensures i == |line| <==> t !in line
  {
    if line == [] then 0
    else if line[0] == t then 0
    else
      var i := Find(line[1..], t);
      assert line == [line[0]] + line[1..];
      assert line[..i+1] == [line[0]] + line[1..][..i];
      i + 1
  }

  /** The line after `t` has taken itself out (unchanged when `t` is not in it). */
  function Leave<T(==)>(line: seq<Ticket<T>>, t: Ticket<T>): seq<Ticket<T>> {
    var i := Find(line, t);
    if i < |line| then Without(line, i) else line
  }

  // ------------------------------------------------------------------ levels of a line

  lemma {:induction false} OfLevelConcat<T>(a: seq<Ticket<T>>, b: seq<Ticket<T>>, p: Priority)
    ensures OfLevel(a + b, p) == OfLevel(a, p) + OfLevel(b, p)
  {
    if a == [] {
      assert a + b == b;
    } else {
      OfLevelConcat(a[1..], b, p);
      assert (a + b)[1..] == a[1..] + b;
      assert (a + b)[0] == a[0];
    }
  }

  lemma {:induction false} OfLevelMembers<T>(line: seq<Ticket<T>>, p: Priority, t: Ticket<T>)
    ensures t in OfLevel(line, p) <==> t in line && t.prio == p
  {
    if line != [] {
      OfLevelMembers(line[1..], p, t);
      assert line == [line[0]] + line[1..];
    }
  }

  /** What one ticket contributes to its level: everything at its level before it comes first. */
  lemma OfLevelSplit<T>(line: seq<Ticket<T>>, i: nat, p: Priority)
    requires i < |line|
    ensures OfLevel(Without(line, i), p) == OfLevel(line[..i], p) + OfLevel(line[i+1..], p)
    ensures if line[i].prio == p
            then OfLevel(line, p) == OfLevel(line[..i], p) + ([line[i]] + OfLevel(line[i+1..], p))
            else OfLevel(line, p) == OfLevel(Without(line, i), p)
  {
    OfLevelConcat(line[..i], line[i+1..], p);
    assert line == line[..i] + line[i..];
    assert line[i..][0] == line[i] && line[i..][1..] == line[i+1..];
    OfLevelConcat(line[..i], line[i..], p);
  }

  /** Two lines that differ in one level only. */
  lemma LevelsUpdate<T>(line: seq<Ticket<T>>, line': seq<Ticket<T>>, p: Priority, level: seq<Ticket<T>>)
    requires OfLevel(line', p) == level
    requires forall q: Priority :: q != p ==> OfLevel(line', q) == OfLevel(line, q)
    ensures Levels(line') == Levels(line)[p := level]
  {
    forall q: Priority ensures Levels(line')[q] == Levels(line)[p := level][q] {
    }
  }

  lemma {:induction false} OfLevelEmpty<T>(line: seq<Ticket<T>>, p: Priority)
    requires forall j :: 0 <= j < |line| ==> line[j].prio != p
    ensures OfLevel(line, p) == []
  {
    if line != [] {
      OfLevelEmpty(line[1..], p);
    }
  }

  lemma {:induction false} LevelsCount<T>(line: seq<Ticket<T>>)
    ensures |ServiceOrder(line)| == |line|
  {
    if line != [] {
      LevelsCount(line[1..]);
    }
  }

  // ------------------------------------------------------------------ the order of service

  /** How many waiters a newcomer of level p has ahead of it. */
  function Ahead<T>(line: seq<Ticket<T>>, p: Priority): nat {
    |OfLevel(line, HIGH)|
    + (if p >= NORMAL then |OfLevel(line, NORMAL)| else 0)
    + (if p == LOW then |OfLevel(line, LOW)| else 0)
  }

  /** Arriving puts a ticket behind everyone of its own level and above, before everyone below. */
  lemma ArriveInServiceOrder<T>(line: seq<Ticket<T>>, t: Ticket<T>)
    ensures Ahead(line, t.prio) <= |ServiceOrder(line)|
    ensures ServiceOrder(line + [t]) ==
            ServiceOrder(line)[..Ahead(line, t.prio)] + [t] + ServiceOrder(line)[Ahead(line, t.prio)..]
  {
    hide OfLevel;
    forall p: Priority { ArriveInLevel(line, t, p); }
    var h, n, l := OfLevel(line, HIGH), OfLevel(line, NORMAL), OfLevel(line, LOW);
    if t.prio == HIGH {
      ArriveHigh(h, n, l, t);
    } else if t.prio == NORMAL {
      ArriveNormal(h, n, l, t);
    } else {
      ArriveLow(h, n, l, t);
    }
  }

  lemma ArriveHigh<T>(h: seq<T>, n: seq<T>, l: seq<T>, t: T)
    ensures (h + [t]) + n + l == (h + n + l)[..|h|] + [t] + (h + n + l)[|h|..]
  {
    Append(h, n, l);
    InsertBetween(h, n + l, t);
    Append(h + [t], n, l);
  }

  lemma ArriveNormal<T>(h: seq<T>, n: seq<T>, l: seq<T>, t: T)
    ensures h + (n + [t]) + l == (h + n + l)[..|h| + |n|] + [t] + (h + n + l)[|h| + |n|..]
  {
    Append(h, n, [t]);
    InsertBetween(h + n, l, t);
  }

  lemma ArriveLow<T>(h: seq<T>, n: seq<T>, l: seq<T>, t: T)
    ensures var k := |h| + |n| + |l|; h + n + (l + [t]) == (h + n + l)[..k] + [t] + (h + n + l)[k..]
  {
    Append(h + n, l, [t]);
  }

  lemma Append<T>(a: seq<T>, b: seq<T>, c: seq<T>)
    ensures a + (b + c) == a + b + c
  {
  }

  lemma ArriveInLevel<T>(line: seq<Ticket<T>>, t: Ticket<T>, p: Priority)
    ensures OfLevel(line + [t], p) == if t.prio == p then OfLevel(line, p) + [t] else OfLevel(line, p)
  {
    OfLevelConcat(line, [t], p);
    assert [t][1..] == [];
  }

  lemma InsertBetween<T>(a: seq<T>, b: seq<T>, t: T)
    ensures (a + b)[..|a|] + [t] + (a + b)[|a|..] == a + [t] + b
  {
  }

  /** Serving takes the head of the service order and leaves the rest of it as it was. */
  lemma ServeInServiceOrder<T>(line: seq<Ticket<T>>, i: nat)
    requires IsNext(line, i)
    ensures ServiceOrder(line) == [line[i]] + ServiceOrder(Without(line, i))
  {
    var without, p := Without(line, i), line[i].prio;
    forall q: Priority { ServeInLevel(line, i, q); }
    forall q: Priority | q < p ensures OfLevel(line, q) == [] { OfLevelEmpty(line, q); }
    HeadFirst(line[i], OfLevel(line, p), OfLevel(without, p),
              if p == HIGH then OfLevel(line, NORMAL) else [], if p == LOW then [] else OfLevel(line, LOW));
    assert p == NORMAL ==> [] + OfLevel(line, p) == OfLevel(line, p) && [] + OfLevel(without, p) == OfLevel(without, p);
  }

  lemma HeadFirst<T>(t: T, level: seq<T>, level': seq<T>, b: seq<T>, c: seq<T>)
    requires level != [] && level[0] == t && level' == level[1..]
    ensures level + b + c == [t] + (level' + b + c)
    ensures [] + level + c == [t] + ([] + level' + c)
    ensures [] + [] + level == [t] + ([] + [] + level')
  {
  }

  /** The place in the service order of the ticket that arrived i-th. */
  function Place<T>(line: seq<Ticket<T>>, i: nat): nat
    requires i < |line|
  {
    (if line[i].prio == HIGH then 0 else |OfLevel(line, HIGH)|)
    + (if line[i].prio == LOW then |OfLevel(line, NORMAL)| else 0)
    + |OfLevel(line[..i], line[i].prio)|
  }

  /** Taking one ticket out of the line takes it out of the service order and keeps everyone else's turn. */
  lemma LeaveInServiceOrder<T>(line: seq<Ticket<T>>, i: nat)
    requires i < |line|
    ensures Place(line, i) < |ServiceOrder(line)| && ServiceOrder(line)[Place(line, i)] == line[i]
    ensures ServiceOrder(Without(line, i)) == Without(ServiceOrder(line), Place(line, i))
  {
    var without, p := Without(line, i), line[i].prio;
    forall q: Priority { OfLevelSplit(line, i, q); }
    var h, n, l := OfLevel(line, HIGH), OfLevel(line, NORMAL), OfLevel(line, LOW);
    var h', n', l' := OfLevel(without, HIGH), OfLevel(without, NORMAL), OfLevel(without, LOW);
    assert p != HIGH ==> h' == h;
    assert p != NORMAL ==> n' == n;
    assert p != LOW ==> l' == l;
    LeaveLevels(h, n, l, h', n', l', p, OfLevel(line[..i], p), line[i], OfLevel(line[i+1..], p));
  }

  lemma LeaveLevels<T>(h: seq<Ticket<T>>, n: seq<Ticket<T>>, l: seq<Ticket<T>>,
                       h': seq<Ticket<T>>, n': seq<Ticket<T>>, l': seq<Ticket<T>>,
                       p: Priority, a: seq<Ticket<T>>, t: Ticket<T>, b: seq<Ticket<T>>)
    requires (if p == HIGH then h else if p == NORMAL then n else l) == a + [t] + b
    requires (if p == HIGH then h' else if p == NORMAL then n' else l') == a + b
    requires (p != HIGH ==> h' == h) && (p != NORMAL ==> n' == n) && (p != LOW ==> l' == l)
    ensures var k := (if p == HIGH then 0 else |h|) + (if p == LOW then |n| else 0) + |a|;
            k < |h + n + l| && (h + n + l)[k] == t && h' + n' + l' == Without(h + n + l, k)
  {
    var front := if p == HIGH then [] else if p == NORMAL then h else h + n;
    var back := if p == HIGH then n + l else if p == NORMAL then l else [];
    Regroup(h, n, l, p, a + [t] + b);
    Regroup(h', n', l', p, a + b);
    RemoveBetween(front, a, t, b, back);
  }

  /** Three levels written as what is in front of one of them, that level, and what is behind it. */
  lemma Regroup<T>(h: seq<T>, n: seq<T>, l: seq<T>, p: Priority, level: seq<T>)
    requires level == (if p == HIGH then h else if p == NORMAL then n else l)
    ensures h + n + l == (if p == HIGH then [] else if p == NORMAL then h else h + n)
                         + level + (if p == HIGH then n + l else if p == NORMAL then l else [])
  {
  }

  lemma RemoveBetween<T>(front: seq<Ticket<T>>, a: seq<Ticket<T>>, t: Ticket<T>, b: seq<Ticket<T>>,
                         back: seq<Ticket<T>>)
    ensures var all := front + (a + [t] + b) + back;
            var k := |front| + |a|;
            k < |all| && all[k] == t && Without(all, k) == front + (a + b) + back
  {
  }

  /** The sequence of tickets served by serving until nobody is left. */
  function ServeAll<T>(line: seq<Ticket<T>>): seq<Ticket<T>>
    decreases |line|
  {
    if line == [] then []
    else
      var i := NextIndex(line);
      [line[i]] + ServeAll(Without(line, i))
  }

  /** Popping one by one until the queue is empty visits the waiters in exactly the service order,
      which is also the order in which `Drain` hands them all out at once. */
  lemma {:induction false} ServeAllIsServiceOrder<T>(line: seq<Ticket<T>>)
    ensures ServeAll(line) == ServiceOrder(line)
    decreases |line|
  {
    if line != [] {
      var i := NextIndex(line);
      ServeInServiceOrder(line, i);
      ServeAllIsServiceOrder(Without(line, i));
    }
  }

  lemma ServiceOrderIsPermutation<T>(line: seq<Ticket<T>>)
    ensures multiset(ServiceOrder(line)) == multiset(line)
    decreases |line|
  {
    if line != [] {
      var i := NextIndex(line);
      ServeInServiceOrder(line, i);
      ServiceOrderIsPermutation(Without(line, i));
      TakeOutOfBag(line, i);
    }
  }

  lemma TakeOutOfBag<T>(line: seq<Ticket<T>>, i: nat)
    requires i < |line|
    ensures multiset(line) == multiset{line[i]} + multiset(Without(line, i))
  {
    assert line == line[..i] + [line[i]] + line[i+1..];
  }

  // ------------------------------------------------------------------ the queue itself

  class Queue<T(==)> {
    var levels: seq<seq<Ticket<T>>>
    var n: int
    ghost var line: seq<Ticket<T>>

    ghost predicate Valid()
      reads this
    {
      n == |line| && levels == Levels(line)
    }

    constructor ()
      ensures Valid() && line == []
    {
      levels, n, line := [[], [], []], 0, [];
    }

    method Push(t: Ticket<T>)
      requires Valid()
      modifies this
      ensures Valid() && line == old(line) + [t]
    {
      forall p: Priority { ArriveInLevel(line, t, p); }
      levels := levels[t.prio := levels[t.prio] + [t]];
      n := n + 1;
      line := line + [t];
    }

    /** Hands out the earliest arrival of the best level present. */
    method Pop() returns (next: Option<Ticket<T>>)
      requires Valid()
      modifies this
      ensures Valid()
      ensures old(line) == [] ==> next == None && line == []
      ensures old(line) != [] ==>
                var i := NextIndex(old(line));
                next == Some(old(line)[i]) && line == Without(old(line), i)
    {
      LevelsCount(line);
      for p := 0 to 3
        invariant n == |line| && levels == Levels(line) && line == old(line)
        invariant forall q: Priority :: q < p ==> levels[q] == []
      {
        if |levels[p]| > 0 {
          var t := levels[p][0];
          LevelsAfterServe(line, p);
          levels := levels[p := levels[p][1..]];
          n := n - 1;
          line := Without(line, NextIndex(line));
          return Some(t);
        }
      }
      assert levels[HIGH] == levels[NORMAL] == levels[LOW] == [];
      return None;
    }

    /** Takes out exactly the given ticket; false when it is no longer queued. */
    method Remove(target: Ticket<T>) returns (removed: bool)
      requires Valid()
      modifies this
      ensures Valid()
      ensures removed <==> target in old(line)
      ensures line == Leave(old(line), target)
    {
      for p := 0 to 3
        invariant n == |line| && levels == Levels(line) && line == old(line)
        invariant forall q: Priority :: q < p ==> target !in levels[q]
      {
        for i := 0 to |levels[p]|
          invariant n == |line| && levels == Levels(line) && line == old(line)
          invariant target !in levels[p][..i]
        {
          if levels[p][i] == target {
            LevelsAfterRemove(line, target, p, i);
            levels := levels[p := levels[p][..i] + levels[p][i+1..]];
            n := n - 1;
            line := Without(line, Find(line, target));
            return true;
          }
        }
        assert levels[p][..|levels[p]|] == levels[p];
      }
      assert target !in levels[target.prio];
      OfLevelMembers(line, target.prio, target);
      return false;
    }

    method Len() returns (r: int)
      requires Valid()
      ensures r == |line|
    {
      r := n;
    }

    /** Empties the queue and returns everyone in it, in service order. */
    method Drain() returns (out: seq<Ticket<T>>)
      requires Valid()
      modifies this
      ensures Valid() && line == []
      ensures out == ServiceOrder(old(line))
    {
      out := [];
      ghost var before := levels;
      for p := 0 to 3
        invariant |levels| == 3
        invariant forall q :: 0 <= q < 3 ==> levels[q] == if q < p then [] else before[q]
        invariant out == FirstLevels(before, p)
      {
        out := out + levels[p];
        levels := levels[p := []];
      }
      AllThreeLevels(before);
      n := 0;
      line := [];
    }
  }

  ghost function FirstLevels<T>(levels: seq<seq<Ticket<T>>>, p: nat): seq<Ticket<T>>
    requires p <= |levels|
  {
    if p == 0 then [] else FirstLevels(levels, p - 1) + levels[p - 1]
  }

  lemma AllThreeLevels<T>(levels: seq<seq<Ticket<T>>>)
    requires |levels| == 3
    ensures FirstLevels(levels, 3) == levels[0] + levels[1] + levels[2]
  {
    assert FirstLevels(levels, 1) == levels[0];
    assert FirstLevels(levels, 2) == levels[0] + levels[1];
  }

  lemma LevelsAfterServe<T>(line: seq<Ticket<T>>, p: Priority)
    requires OfLevel(line, p) != []
    requires forall q: Priority :: q < p ==> Levels(line)[q] == []
    ensures line != [] && line[NextIndex(line)] == OfLevel(line, p)[0]
    ensures Levels(Without(line, NextIndex(line))) == Levels(line)[p := OfLevel(line, p)[1..]]
  {
    HeadIsNext(line, p);
    var i := NextIndex(line);
    forall q: Priority { ServeInLevel(line, i, q); }
    LevelsUpdate(line, Without(line, i), p, OfLevel(line, p)[1..]);
  }

  lemma ServeInLevel<T>(line: seq<Ticket<T>>, i: nat, q: Priority)
    requires IsNext(line, i)
    ensures if q == line[i].prio
            then OfLevel(line, q) != [] && OfLevel(line, q)[0] == line[i]
                && OfLevel(Without(line, i), q) == OfLevel(line, q)[1..]
            else OfLevel(Without(line, i), q) == OfLevel(line, q)
  {
    OfLevelSplit(line, i, q);
    if q == line[i].prio { OfLevelEmpty(line[..i], q); }
  }

  /** The head of the first non-empty level is the next ticket of the line. */
  lemma HeadIsNext<T>(line: seq<Ticket<T>>, p: Priority)
    requires OfLevel(line, p) != []
    requires forall q: Priority :: q < p ==> Levels(line)[q] == []
    ensures line != [] && line[NextIndex(line)] == OfLevel(line, p)[0]
    ensures line[NextIndex(line)].prio == p
  {
    OfLevelMembers(line, p, OfLevel(line, p)[0]);
    var i := NextIndex(line);
    OfLevelMembers(line, line[i].prio, line[i]);
    assert Levels(line)[line[i].prio] != [];
    ServeInLevel(line, i, p);
  }

  /** The first occurrence of a ticket in its level is its first occurrence in the line. */
  lemma FirstOfLevel<T>(line: seq<Ticket<T>>, t: Ticket<T>, p: Priority, i: nat)
    requires t in line && t.prio == p
    requires i < |OfLevel(line, p)| && OfLevel(line, p)[i] == t && t !in OfLevel(line, p)[..i]
    ensures OfLevel(line[..Find(line, t)], p) == OfLevel(line, p)[..i]
  {
    var k := Find(line, t);
    OfLevelSplit(line, k, p);
    var before := OfLevel(line[..k], p);
    OfLevelMembers(line[..k], p, t);
    assert OfLevel(line, p) == before + [t] + OfLevel(line[k+1..], p);
    NotBefore(OfLevel(line, p), t, i, |before|);
    assert before == OfLevel(line, p)[..|before|];
    NotBefore(OfLevel(line, p), t, |before|, i);
  }

  lemma LevelsAfterRemove<T>(line: seq<Ticket<T>>, t: Ticket<T>, p: Priority, i: nat)
    requires i < |OfLevel(line, p)| && OfLevel(line, p)[i] == t && t !in OfLevel(line, p)[..i]
    ensures t in line
    ensures Levels(Without(line, Find(line, t))) == Levels(line)[p := OfLevel(line, p)[..i] + OfLevel(line, p)[i+1..]]
  {
    OfLevelMembers(line, p, t);
    var k := Find(line, t);
    FirstOfLevel(line, t, p, i);
    forall q: Priority { OfLevelSplit(line, k, q); }
    var before, behind := OfLevel(line[..k], p), OfLevel(line[k+1..], p);
    assert OfLevel(line, p)[i+1..] == behind;
    LevelsUpdate(line, Without(line, k), p, before + behind);
  }

  lemma NotBefore<T>(s: seq<T>, t: T, i: nat, j: nat)
    requires i <= |s| && t !in s[..i]
    requires j < |s| && s[j] == t
    ensures i <= j
  {
    assert forall m :: 0 <= m < i ==> s[m] == s[..i][m];
  }
}
