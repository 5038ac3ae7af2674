/** One model's inference pool (internal/inference/pool.go): a fixed number of slots and a bounded waiting line.

    Every operation that holds the pool's lock is first given as a function on what the lock protects,
    a `View`. The class carries those functions out on its fields; `PoolProtocol` interleaves them. */
module Pool {
  import opened Wrappers
  import opened PriorityQueue

  datatype Error = QueueFull | QueueTimeout | ShuttingDown | Cancelled | BreakerOpen

  /** `maxConcurrent` is positive in every pool that was built; `maxQueueDepth` is taken from the configuration as
      is. */
  datatype Limits = Limits(maxConcurrent: int, maxQueueDepth: int)

  /** What the lock protects. */
  datatype View<T> = View(inflight: int, line: seq<Ticket<T>>, closed: bool)

  datatype Entry = Admitted | Queued | Refused(err: Error)

  /** The critical section at the start of Acquire. */
  function Enter<T>(c: Limits, v: View<T>, t: Ticket<T>): (View<T>, Entry) {
    if v.closed then (v, Refused(ShuttingDown))
    else if v.inflight < c.maxConcurrent && |v.line| == 0 then (v.(inflight := v.inflight + 1), Admitted)
    else if |v.line| >= c.maxQueueDepth then (v, Refused(QueueFull))
    else (v.(line := v.line + [t]), Queued)
  }

  /** The critical section of a waiter giving up: did it still find itself in the line? */
  function GiveUp<T(==)>(v: View<T>, t: Ticket<T>): (View<T>, bool) {
    (v.(line := Leave(v.line, t)), t in v.line)
  }

  /** The critical section of Release: the slot goes to the next waiter, or is given back. */
  function Yield<T>(v: View<T>): (View<T>, Option<Ticket<T>>) {
    if v.line != [] then
      var i := NextIndex(v.line);
      (v.(line := Without(v.line, i)), Some(v.line[i]))
    else if v.inflight > 0 then (v.(inflight := v.inflight - 1), None)
    else (v, None)
  }

  /** The critical section of Close: everyone still waiting is sent away. */
  function Shut<T>(v: View<T>): (View<T>, seq<Ticket<T>>) {
    (v.(line := [], closed := true), ServiceOrder(v.line))
  }

  /** A queued request. `ready` counts the messages in its one-place channel; `err` is read after receiving one. */
  class Waiter {
    const prio: Priority
    var ready: nat
    var err: Option<Error>

    constructor (prio: Priority)
      ensures this.prio == prio && ready == 0 && err == None
    {
      this.prio := prio;
      ready, err := 0, None;
    }
  }

  /** What made a waiting request stop waiting. */
  datatype Wakeup = Ready | TimerFired | ContextDone

  /** What Acquire returned, or that it is blocked on its channel because somebody owes it a message. */
  datatype Acquired = Granted | Failed(err: Error) | Blocked

  /** One turn of the loop in Drain: the number in flight under the lock, and whether the deadline had passed. */
  datatype Poll = Poll(inflight: int, late: bool) {
    predicate Ends() {
      inflight == 0 || late
    }
  }

  class Pool {
    const limits: Limits
    var inflight: int
    var waiters: Queue<Waiter>
    var closed: bool

    ghost function Line(): seq<Ticket<Waiter>>
      reads this, waiters
    {
      waiters.line
    }

    ghost function Waiting(): set<Waiter>
      reads this, waiters
    {
      set t | t in waiters.line :: t.who
    }

    /** Nobody in the line has a message yet, and nobody stands in it twice. */
    ghost predicate Valid()
      reads this, waiters, Waiting()
    {
      && waiters.Valid()
      && limits.maxConcurrent > 0
      && (forall t :: t in Line() ==> t.prio == t.who.prio && t.who.ready == 0)
      && (forall i, j :: 0 <= i < j < |Line()| ==> Line()[i].who != Line()[j].who)
    }

    ghost function Locked(): View<Waiter>
      reads this, waiters
    {
      View(inflight, Line(), closed)
    }

    constructor (maxConcurrent: int, maxQueueDepth: int)
      ensures Valid() && fresh(waiters)
      ensures Locked() == View(0, [], false)
      ensures limits == Limits(if maxConcurrent <= 0 then 10 else maxConcurrent, maxQueueDepth)
    {
      limits := Limits(if maxConcurrent <= 0 then 10 else maxConcurrent, maxQueueDepth);
      inflight, closed := 0, false;
      waiters := new Queue<Waiter>();
    }

    /** Acquire up to the point where it has a slot, is refused, or starts to wait as `w`. */
    method Arrive(prio: Priority) returns (e: Entry, w: Waiter)
      requires Valid()
      modifies this, waiters
      ensures Valid() && waiters == old(waiters)
      ensures fresh(w) && w.prio == prio && w.ready == 0
      ensures (Locked(), e) == Enter(limits, old(Locked()), Ticket(w, prio))
    {
      w := new Waiter(prio);
      if closed {
        return Refused(ShuttingDown), w;
      }
      var queued := waiters.Len();
      if inflight < limits.maxConcurrent && queued == 0 {
        inflight := inflight + 1;
        return Admitted, w;
      }
      if queued >= limits.maxQueueDepth {
        return Refused(QueueFull), w;
      }
      waiters.Push(Ticket(w, prio));
      return Queued, w;
    }

    method DropWaiter(w: Waiter) returns (removed: bool)
      requires Valid()
      modifies waiters
      ensures Valid()
      ensures (Locked(), removed) == GiveUp(old(Locked()), Ticket(w, w.prio))
      ensures removed ==> w !in Waiting()
    {
      LeaveKeepsOthers(waiters.line, Ticket(w, w.prio));
      removed := waiters.Remove(Ticket(w, w.prio));
    }

    /** The select at the end of Acquire, once one of its cases has been chosen. */
    method Await(w: Waiter, fired: Wakeup) returns (r: Acquired)
      requires Valid() && w.ready <= 1
      requires fired == Ready ==> w.ready == 1
      modifies waiters, w
      ensures fired == Ready ==> unchanged(waiters)
      ensures fired != Ready ==> Locked() == GiveUp(old(Locked()), Ticket(w, w.prio)).0
      ensures fired != Ready && old(Ticket(w, w.prio) in Line()) ==>
                r == Failed(if fired == TimerFired then QueueTimeout else Cancelled) && unchanged(w)
      ensures fired == Ready || old(Ticket(w, w.prio) !in Line()) ==>
                && (r == Blocked <==> old(w.ready) == 0)
                && (old(w.ready) == 1 ==> r == (if w.err == None then Granted else Failed(w.err.value)))
                && w.ready == 0 && w.err == old(w.err)
    {
      if fired != Ready {
        var removed := DropWaiter(w);
        if removed {
          return Failed(if fired == TimerFired then QueueTimeout else Cancelled);
        }
      }
      if w.ready == 0 {
        return Blocked;
      }
      w.ready := w.ready - 1;
      return if w.err == None then Granted else Failed(w.err.value);
    }

    /** Gives the slot to the next waiter directly: the slot never becomes free in between. */
    method Release()
      requires Valid()
      modifies this`inflight, waiters, Waiting()
      ensures Valid()
      ensures Locked() == Yield(old(Locked())).0
      ensures match Yield(old(Locked())).1
              case None => true
              case Some(t) =>
                && t.who in old(Waiting())
                && t.who.ready == 1 && t.who.err == None
                && forall x :: x in old(Waiting()) && x != t.who ==> unchanged(x)
    {
      WithoutKeepsOthers(waiters.line);
      var next := waiters.Pop();
      if next.Some? {
        var w := next.value.who;
        w.err := None;
        w.ready := w.ready + 1;
        return;
      }
      if inflight > 0 {
        inflight := inflight - 1;
      }
    }

    /** Refuses everyone from now on, and tells each waiting request so, once. */
    method Close()
      requires Valid()
      modifies this`closed, waiters, Waiting()
      ensures Valid()
      ensures Locked() == Shut(old(Locked())).0
      ensures forall w :: w in old(Waiting()) ==> w.ready == 1 && w.err == Some(ShuttingDown)
    {
      closed := true;
      ghost var line := waiters.line;
      var pending := waiters.Drain();
      ServiceOrderIsPermutation(line);
      SameBagSameMembers(pending, line);
      DistinctServiceOrder(line);
      TurnAway(pending);
      forall w | w in old(Waiting()) ensures w.ready == 1 && w.err == Some(ShuttingDown) {
        var t :| t in line && t.who == w;
        assert t in pending;
      }
    }

    /** The loop of Close: one message to each waiter taken out of the line. */
    static method TurnAway(pending: seq<Ticket<Waiter>>)
      requires Distinct(pending)
      requires forall t :: t in pending ==> t.who.ready == 0
      modifies set t | t in pending :: t.who
      ensures forall t :: t in pending ==> t.who.ready == 1 && t.who.err == Some(ShuttingDown)
    {
      for i := 0 to |pending|
        invariant forall j :: 0 <= j < i ==> pending[j].who.ready == 1 && pending[j].who.err == Some(ShuttingDown)
        invariant forall j :: i <= j < |pending| ==> pending[j].who.ready == 0
      {
        var w := pending[i].who;
        w.err := Some(ShuttingDown);
        w.ready := w.ready + 1;
      }
    }

    /** Drain: polls until the pool is seen idle or the time is over; None while it still waits. What each poll finds
        is a parameter. */
    static method Drain(polls: seq<Poll>) returns (drained: Option<bool>)
      ensures drained == None <==> forall i :: 0 <= i < |polls| ==> !polls[i].Ends()
      ensures drained.Some? ==> exists i :: 0 <= i < |polls|
                                            && polls[i].Ends() && drained.value == (polls[i].inflight == 0)
                                            && forall j :: 0 <= j < i ==> !polls[j].Ends()
    {
      for i := 0 to |polls|
        invariant forall j :: 0 <= j < i ==> !polls[j].Ends()
      {
        if polls[i].inflight == 0 {
          return Some(true);
        }
        if polls[i].late {
          return Some(false);
        }
      }
      return None;
    }
  }

  ghost predicate Distinct<T>(line: seq<Ticket<T>>) {
    forall i, j :: 0 <= i < j < |line| ==> line[i].who != line[j].who
  }

  lemma WithoutKeepsOthers<T>(line: seq<Ticket<T>>)
    requires Distinct(line)
    ensures line != [] ==> var i := NextIndex(line);
              && Distinct(Without(line, i))
              && (forall t :: t in Without(line, i) ==> t in line && t.who != line[i].who)
  {
  }

  lemma LeaveKeepsOthers<T>(line: seq<Ticket<T>>, t: Ticket<T>)
    requires Distinct(line)
    ensures Distinct(Leave(line, t))
    ensures forall u :: u in Leave(line, t) ==> u in line && (t in line ==> u.who != t.who)
  {
  }

  lemma SameBagSameMembers<T>(a: seq<T>, b: seq<T>)
    requires multiset(a) == multiset(b)
    ensures forall x :: x in a <==> x in b
  {
    forall x ensures x in a <==> x in b {
      assert x in a <==> x in multiset(a);
      assert x in b <==> x in multiset(b);
    }
  }

  lemma {:induction false} DistinctServiceOrder<T>(line: seq<Ticket<T>>)
    requires Distinct(line)
    ensures Distinct(ServiceOrder(line))
    decreases |line|
  {
    if line != [] {
      var i := NextIndex(line);
      WithoutKeepsOthers(line);
      DistinctServiceOrder(Without(line, i));
      ServeInServiceOrder(line, i);
      ServiceOrderIsPermutation(Without(line, i));
      SameBagSameMembers(ServiceOrder(Without(line, i)), Without(line, i));
    }
  }
}
