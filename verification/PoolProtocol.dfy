/** The slot hand-off of an inference pool, over every interleaving of its goroutines.

    A state is what the pool's lock protects together with one record per request. A step is one critical
    section or one channel operation (internal/inference/pool.go:52-158), so a releaser may be stopped between
    taking a waiter off the line and sending to it, and that waiter may be timing out, being cancelled or
    being closed at the same moment. */
module PoolProtocol {
  import opened Wrappers
  import opened PriorityQueue
  import opened Pool

  type Id = nat

  /** Where a request is in Acquire .. Release. */
  datatype Phase =
    | Idle                                   // Acquire not called yet
    | Waiting(prio: Priority)                // in the select
    | Leaving(prio: Priority, why: Error)    // timer or context chosen, lock not taken yet
    | Stuck(prio: Priority)                  // found itself taken out already: must receive
    | Holding                                // Acquire returned nil
    | Turned(err: Error)                     // Acquire returned an error
    | Released                               // Release was called

  /** How a waiter came out of the line. */
  datatype Exit = ByRelease | BySelf | ByClose

  /** A message is the error read after it: None hands over a slot. `owed` are messages somebody has
      committed to send and has not sent; `mail` is the content of the one-place channel;
      `exits` and `sent` record the past. */
  type Message = Option<Error>
  datatype Request = Request(phase: Phase, owed: seq<Message>, mail: seq<Message>, exits: seq<Exit>, sent: nat)

  datatype State = State(view: View<Id>, reqs: map<Id, Request>)

  datatype Step =
    | Arrive(r: Id, prio: Priority)
    | Fire(r: Id, why: Error)
    | Quit(r: Id)
    | Receive(r: Id)
    | Release(r: Id)
    | Send(r: Id)
    | Close

  const FRESH := Request(Idle, [], [], [], 0)

  function Start(ids: set<Id>): State {
    State(View(0, [], false), map r | r in ids :: FRESH)
  }

  predicate Enabled(c: Limits, s: State, step: Step) {
    step.Close? ||
    (step.r in s.reqs &&
     var q := s.reqs[step.r];
     match step
     case Arrive(_, _) => q.phase.Idle?
     case Fire(_, why) => q.phase.Waiting? && (why == QueueTimeout || why == Cancelled)
     case Quit(_) => q.phase.Leaving?
     case Receive(_) => (q.phase.Waiting? || q.phase.Stuck?) && q.mail != []
     case Release(_) => q.phase.Holding?
     case Send(_) => q.owed != [] && |q.mail| < 1)
  }

  function Owe(q: Request, m: Message, e: Exit): Request {
    q.(owed := q.owed + [m], exits := q.exits + [e])
  }

  function Next(c: Limits, s: State, step: Step): State
    requires Enabled(c, s, step)
  {
    match step
    case Arrive(r, prio) =>
      var (v, e) := Enter(c, s.view, Ticket(r, prio));
      var phase := match e
        case Admitted => Holding
        case Queued => Waiting(prio)
        case Refused(err) => Turned(err);
      State(v, s.reqs[r := s.reqs[r].(phase := phase)])
    case Fire(r, why) =>
      s.(reqs := s.reqs[r := s.reqs[r].(phase := Leaving(s.reqs[r].phase.prio, why))])
    case Quit(r) =>
      var q := s.reqs[r];
      var (v, removed) := GiveUp(s.view, Ticket(r, q.phase.prio));
      State(v, s.reqs[r := if removed then q.(phase := Turned(q.phase.why), exits := q.exits + [BySelf])
                           else q.(phase := Stuck(q.phase.prio))])
    case Receive(r) =>
      var q := s.reqs[r];
      var phase := match q.mail[0] case None => Holding case Some(err) => Turned(err);
      s.(reqs := s.reqs[r := q.(phase := phase, mail := q.mail[1..])])
    case Release(r) =>
      var (v, next) := Yield(s.view);
      var reqs := s.reqs[r := s.reqs[r].(phase := Released)];
      State(v, match next
               case Some(t) => if t.who in reqs then reqs[t.who := Owe(reqs[t.who], None, ByRelease)] else reqs
               case None => reqs)
    case Send(r) =>
      var q := s.reqs[r];
      s.(reqs := s.reqs[r := q.(owed := q.owed[1..], mail := q.mail + [q.owed[0]], sent := q.sent + 1)])
    case Close =>
      var (v, out) := Shut(s.view);
      State(v, map r | r in s.reqs ::
                 if InLine(out, r) then Owe(s.reqs[r], Some(ShuttingDown), ByClose) else s.reqs[r])
  }

  predicate InLine(line: seq<Ticket<Id>>, r: Id) {
    exists i :: 0 <= i < |line| && line[i].who == r
  }

  /** A run of the protocol from s to s'. */
  predicate Runs(c: Limits, s: State, steps: seq<Step>, s': State)
    decreases |steps|
  {
    if steps == [] then s' == s
    else Enabled(c, s, steps[0]) && Runs(c, Next(c, s, steps[0]), steps[1..], s')
  }

  // ------------------------------------------------------------------ the invariant

  /** A slot belongs to a request that holds it, or to one to which it has been handed but which has not received it. */
  predicate Owns(q: Request) {
    q.phase.Holding? || None in q.owed || None in q.mail
  }

  function Owners(s: State): set<Id> {
    set r | r in s.reqs && Owns(s.reqs[r])
  }

  /** Exactly one message is owed to or in the mail of a waiter taken out of the line, and it fits the way it came
      out. */
  predicate Notified(q: Request) {
    && (q.exits == [ByRelease] || q.exits == [ByClose])
    && var message := if q.exits == [ByRelease] then None else Some(ShuttingDown);
       || (q.owed == [message] && q.mail == [] && q.sent == 0)
       || (q.owed == [] && q.mail == [message] && q.sent == 1)
  }

  predicate Quiet(q: Request) {
    q.owed == [] && q.mail == []
  }

  /** What the record of a request says, given whether it stands in the line. */
  predicate Consistent(q: Request, inLine: bool) {
    match q.phase
    case Idle => !inLine && q == FRESH
    case Waiting(_) => if inLine then Quiet(q) && q.exits == [] && q.sent == 0 else Notified(q)
    case Leaving(_, why) =>
      && (why == QueueTimeout || why == Cancelled)
      && if inLine then Quiet(q) && q.exits == [] && q.sent == 0 else Notified(q)
    case Stuck(_) => !inLine && Notified(q)
    case Holding => !inLine && Quiet(q) && Served(q)
    case Released => !inLine && Quiet(q) && Served(q)
    case Turned(err) =>
      && !inLine && Quiet(q)
      && match err
         case QueueFull => q.exits == [] && q.sent == 0
         case ShuttingDown => (q.exits == [] && q.sent == 0) || (q.exits == [ByClose] && q.sent == 1)
         case QueueTimeout => q.exits == [BySelf] && q.sent == 0
         case Cancelled => q.exits == [BySelf] && q.sent == 0
         case BreakerOpen => false
  }

  predicate Served(q: Request) {
    (q.exits == [] && q.sent == 0) || (q.exits == [ByRelease] && q.sent == 1)
  }

  ghost predicate LineOk(s: State) {
    && Distinct(s.view.line)
    && forall i :: 0 <= i < |s.view.line| ==>
         var t := s.view.line[i];
         && t.who in s.reqs
         && (s.reqs[t.who].phase == Waiting(t.prio)
             || (s.reqs[t.who].phase.Leaving? && s.reqs[t.who].phase.prio == t.prio))
  }

  ghost predicate AllConsistent(s: State) {
    forall r :: r in s.reqs ==> Consistent(s.reqs[r], InLine(s.view.line, r))
  }

  ghost predicate Inv(c: Limits, s: State) {
    && c.maxConcurrent > 0
    && LineOk(s)
    && AllConsistent(s)
    && s.view.inflight == |Owners(s)|
    && s.view.inflight <= c.maxConcurrent
    && (s.view.line != [] ==> s.view.inflight == c.maxConcurrent && |s.view.line| <= c.maxQueueDepth)
    && (s.view.closed ==> s.view.line == [])
  }

  lemma StartInv(c: Limits, ids: set<Id>)
    requires c.maxConcurrent > 0
    ensures Inv(c, Start(ids))
  {
    assert Owners(Start(ids)) == {};
  }

  // ------------------------------------------------------------------ every step keeps it

  /** Rewriting one record moves at most that request in or out of the owners. */
  lemma OwnersAfter(s: State, s': State, r: Id, q: Request)
    requires r in s.reqs && s'.reqs == s.reqs[r := q]
    ensures Owners(s') == Owners(s) - {r} + (if Owns(q) then {r} else {})
    ensures |Owners(s')| == |Owners(s)| - (if Owns(s.reqs[r]) then 1 else 0) + (if Owns(q) then 1 else 0)
  {
    assert Owners(s') == Owners(s) - {r} + (if Owns(q) then {r} else {});
    if Owns(s.reqs[r]) {
      assert Owners(s) == (Owners(s) - {r}) + {r};
    } else {
      assert Owners(s) - {r} == Owners(s);
    }
  }

  /** The same for the consistency of the records, when only r may have joined or left the line. */
  lemma ConsistentAfter(s: State, s': State, r: Id, q: Request)
    requires AllConsistent(s) && r in s.reqs && s'.reqs == s.reqs[r := q]
    requires Consistent(q, InLine(s'.view.line, r))
    requires forall x :: x != r ==> (InLine(s'.view.line, x) <==> InLine(s.view.line, x))
    ensures AllConsistent(s')
  {
  }

  /** A step that rewrites only r's record and leaves the line alone. */
  lemma LocalStep(c: Limits, s: State, s': State, r: Id, q: Request)
    requires Inv(c, s) && r in s.reqs
    requires s'.reqs == s.reqs[r := q] && s'.view == s.view
    requires Consistent(q, InLine(s.view.line, r))
    requires Owns(q) <==> Owns(s.reqs[r])
    requires InLine(s.view.line, r) ==>
               s.reqs[r].phase.Waiting? && q.phase.Leaving? && q.phase.prio == s.reqs[r].phase.prio
    ensures Inv(c, s')
  {
    OwnersAfter(s, s', r, q);
    ConsistentAfter(s, s', r, q);
  }

  lemma ArriveKeeps(c: Limits, s: State, r: Id, prio: Priority)
    requires Inv(c, s) && Enabled(c, s, Arrive(r, prio))
    ensures Inv(c, Next(c, s, Arrive(r, prio)))
  {
    var s' := Next(c, s, Arrive(r, prio));
    assert s.reqs[r] == FRESH && !InLine(s.view.line, r);
    OwnersAfter(s, s', r, s'.reqs[r]);
    if Enter(c, s.view, Ticket(r, prio)).1.Queued? {
      JoinLine(s, s', r, prio);
    }
    ConsistentAfter(s, s', r, s'.reqs[r]);
  }

  lemma JoinLine(s: State, s': State, r: Id, prio: Priority)
    requires LineOk(s) && r in s.reqs && !InLine(s.view.line, r)
    requires s'.view.line == s.view.line + [Ticket(r, prio)]
    requires s'.reqs == s.reqs[r := s.reqs[r].(phase := Waiting(prio))]
    ensures LineOk(s') && InLine(s'.view.line, r)
    ensures forall x :: x != r ==> (InLine(s'.view.line, x) <==> InLine(s.view.line, x))
  {
    var line, line' := s.view.line, s'.view.line;
    assert line'[|line|] == Ticket(r, prio);
    assert forall i :: 0 <= i < |line| ==> line'[i] == line[i] && line[i].who != r;
    forall x | x != r ensures InLine(line', x) <==> InLine(line, x) {
      if InLine(line, x) {
        var i :| 0 <= i < |line| && line[i].who == x;
        assert line'[i].who == x;
      }
    }
  }

  lemma QuitKeeps(c: Limits, s: State, r: Id)
    requires Inv(c, s) && Enabled(c, s, Quit(r))
    ensures Inv(c, Next(c, s, Quit(r)))
  {
    var s' := Next(c, s, Quit(r));
    var t := Ticket(r, s.reqs[r].phase.prio);
    if t in s.view.line {
      TakeSelfOut(s, s', Find(s.view.line, t));
    } else {
      NotInLine(s, r);
      LocalStep(c, s, s', r, s'.reqs[r]);
    }
  }

  lemma TakeSelfOut(s: State, s': State, i: nat)
    requires LineOk(s) && AllConsistent(s) && i < |s.view.line|
    requires s'.view.line == Without(s.view.line, i)
    requires var r := s.view.line[i].who; var q := s.reqs[r];
             q.phase.Leaving? && s'.reqs == s.reqs[r := q.(phase := Turned(q.phase.why), exits := q.exits + [BySelf])]
    ensures LineOk(s') && AllConsistent(s') && |Owners(s')| == |Owners(s)|
  {
    var r := s.view.line[i].who;
    assert InLine(s.view.line, r);
    LeaveLine(s, s', i);
    OwnersAfter(s, s', r, s'.reqs[r]);
    ConsistentAfter(s, s', r, s'.reqs[r]);
  }

  lemma NotInLine(s: State, r: Id)
    requires LineOk(s) && r in s.reqs
    requires s.reqs[r].phase.Leaving? && Ticket(r, s.reqs[r].phase.prio) !in s.view.line
    ensures !InLine(s.view.line, r)
  {
    assert forall i :: 0 <= i < |s.view.line| ==> s.view.line[i].who == r ==>
        s.view.line[i].prio == s.reqs[r].phase.prio;
    assert forall i :: 0 <= i < |s.view.line| ==> s.view.line[i] != Ticket(r, s.reqs[r].phase.prio);
  }

  lemma LeaveLine(s: State, s': State, i: nat)
    requires LineOk(s) && i < |s.view.line| && s'.view.line == Without(s.view.line, i)
    requires s'.reqs.Keys == s.reqs.Keys
    requires forall x :: x in s.reqs && x != s.view.line[i].who && InLine(s.view.line, x) ==> s'.reqs[x] == s.reqs[x]
    ensures LineOk(s') && !InLine(s'.view.line, s.view.line[i].who)
    ensures forall x :: x != s.view.line[i].who ==> (InLine(s'.view.line, x) <==> InLine(s.view.line, x))
  {
    TakenOut(s, i);
    forall j | 0 <= j < |s'.view.line|
      ensures var t := s'.view.line[j];
              t.who in s.reqs && t.who != s.view.line[i].who && s'.reqs[t.who] == s.reqs[t.who]
    {
      var k := if j < i then j else j + 1;
      assert s'.view.line[j] == s.view.line[k];
      assert InLine(s.view.line, s.view.line[k].who);
    }
  }

  /** Without its i-th ticket, the line still holds everyone else, once. */
  lemma TakenOut(s: State, i: nat)
    requires LineOk(s) && i < |s.view.line|
    ensures var line' := Without(s.view.line, i);
            && Distinct(line')
            && !InLine(line', s.view.line[i].who)
            && (forall x :: x != s.view.line[i].who ==> (InLine(line', x) <==> InLine(s.view.line, x)))
            && (forall j :: 0 <= j < |line'| ==> line'[j] == s.view.line[if j < i then j else j + 1])
  {
    var line, line' := s.view.line, Without(s.view.line, i);
    forall x | x != line[i].who ensures InLine(line', x) <==> InLine(line, x) {
      if InLine(line, x) {
        var j :| 0 <= j < |line| && line[j].who == x;
        assert line'[if j < i then j else j - 1].who == x;
      }
    }
  }

  /** The releaser's own part of Release. */
  lemma LetGo(s: State, mid: State, r: Id)
    requires AllConsistent(s) && r in s.reqs && s.reqs[r].phase.Holding?
    requires mid == s.(reqs := s.reqs[r := s.reqs[r].(phase := Released)])
    ensures AllConsistent(mid) && |Owners(mid)| == |Owners(s)| - 1
  {
    OwnersAfter(s, mid, r, mid.reqs[r]);
    ConsistentAfter(s, mid, r, mid.reqs[r]);
  }

  /** Handing the slot to the next waiter: one owner more, and it is out of the line. */
  lemma HandOver(s: State, s': State, i: nat)
    requires LineOk(s) && AllConsistent(s) && i < |s.view.line|
    requires s'.view.line == Without(s.view.line, i)
    requires var w := s.view.line[i].who; s'.reqs == s.reqs[w := Owe(s.reqs[w], None, ByRelease)]
    ensures LineOk(s') && AllConsistent(s') && |Owners(s')| == |Owners(s)| + 1
  {
    var w := s.view.line[i].who;
    assert InLine(s.view.line, w);
    LeaveLine(s, s', i);
    OwnersAfter(s, s', w, s'.reqs[w]);
    ConsistentAfter(s, s', w, s'.reqs[w]);
  }

  lemma ReleaseKeeps(c: Limits, s: State, r: Id)
    requires Inv(c, s) && Enabled(c, s, Release(r))
    ensures Inv(c, Next(c, s, Release(r)))
  {
    var s' := Next(c, s, Release(r));
    var mid := s.(reqs := s.reqs[r := s.reqs[r].(phase := Released)]);
    assert !InLine(s.view.line, r);
    LetGo(s, mid, r);
    if s.view.line == [] {
      SlotInUse(s, r);
      assert Owners(s') == Owners(mid);
    } else {
      var i := NextIndex(s.view.line);
      assert InLine(s.view.line, s.view.line[i].who);
      HandOver(mid, s', i);
    }
  }

  /** Whoever releases is counted: the guard `inflight > 0` in Release never fails. */
  lemma SlotInUse(s: State, r: Id)
    requires r in s.reqs && Owns(s.reqs[r])
    ensures |Owners(s)| > 0
  {
    assert r in Owners(s);
  }

  lemma CloseKeeps(c: Limits, s: State)
    requires Inv(c, s)
    ensures Inv(c, Next(c, s, Close))
  {
    var s' := Next(c, s, Close);
    SameInLine(s.view.line);
    forall r | r in s.reqs
      ensures Consistent(s'.reqs[r], false) && (Owns(s'.reqs[r]) <==> Owns(s.reqs[r]))
    {
      SendAway(s.reqs[r], InLine(s.view.line, r));
    }
    assert Owners(s') == Owners(s);
    assert forall r :: r in s.reqs ==> !InLine(s'.view.line, r);
  }

  lemma SendAway(q: Request, inLine: bool)
    requires Consistent(q, inLine)
    ensures var q' := if inLine then Owe(q, Some(ShuttingDown), ByClose) else q;
            Consistent(q', false) && (Owns(q') <==> Owns(q))
  {
  }

  lemma SameInLine(line: seq<Ticket<Id>>)
    ensures forall r :: InLine(ServiceOrder(line), r) <==> InLine(line, r)
  {
    var order := ServiceOrder(line);
    ServiceOrderIsPermutation(line);
    SameBagSameMembers(order, line);
    forall r ensures InLine(order, r) <==> InLine(line, r) {
      if InLine(line, r) {
        var i :| 0 <= i < |line| && line[i].who == r;
        assert line[i] in order;
      }
      if InLine(order, r) {
        var i :| 0 <= i < |order| && order[i].who == r;
        assert order[i] in line;
      }
    }
  }

  lemma StepKeepsInv(c: Limits, s: State, step: Step)
    requires Inv(c, s) && Enabled(c, s, step)
    ensures Inv(c, Next(c, s, step))
  {
    var s' := Next(c, s, step);
    match step
    case Arrive(r, prio) => ArriveKeeps(c, s, r, prio);
    case Fire(r, why) => LocalStep(c, s, s', r, s'.reqs[r]);
    case Quit(r) => QuitKeeps(c, s, r);
    case Receive(r) => LocalStep(c, s, s', r, s'.reqs[r]);
    case Release(r) => ReleaseKeeps(c, s, r);
    case Send(r) => LocalStep(c, s, s', r, s'.reqs[r]);
    case Close => CloseKeeps(c, s);
  }

  lemma {:induction false} RunKeepsInv(c: Limits, s: State, steps: seq<Step>, s': State)
    requires Inv(c, s) && Runs(c, s, steps, s')
    ensures Inv(c, s')
    decreases |steps|
  {
    if steps != [] {
      StepKeepsInv(c, s, steps[0]);
      RunKeepsInv(c, Next(c, s, steps[0]), steps[1..], s');
    }
  }

  // ------------------------------------------------------------------ why requests are refused

  /** Told that the pool is shutting down, or about to be. */
  predicate SentAway(q: Request) {
    q.phase == Turned(ShuttingDown) || q.exits == [ByClose]
  }

  /** Nobody is sent away from an open pool. */
  ghost predicate OnlyWhenClosed(s: State) {
    forall r :: r in s.reqs && SentAway(s.reqs[r]) ==> s.view.closed
  }

  lemma OtherExitIsNotByClose(exits: seq<Exit>, e: Exit)
    requires e != ByClose
    ensures exits + [e] != [ByClose]
  {
    assert (exits + [e])[|exits|] == e;
  }

  lemma QuitSendsNobodyAway(c: Limits, s: State, r: Id)
    requires Inv(c, s) && OnlyWhenClosed(s) && Enabled(c, s, Quit(r))
    ensures OnlyWhenClosed(Next(c, s, Quit(r)))
  {
    assert Consistent(s.reqs[r], InLine(s.view.line, r));
    OtherExitIsNotByClose(s.reqs[r].exits, BySelf);
  }

  lemma ReceiveSendsNobodyAway(c: Limits, s: State, r: Id)
    requires Inv(c, s) && OnlyWhenClosed(s) && Enabled(c, s, Receive(r))
    ensures OnlyWhenClosed(Next(c, s, Receive(r)))
  {
    assert Consistent(s.reqs[r], InLine(s.view.line, r));
  }

  lemma ReleaseSendsNobodyAway(c: Limits, s: State, r: Id)
    requires Inv(c, s) && OnlyWhenClosed(s) && Enabled(c, s, Release(r))
    ensures OnlyWhenClosed(Next(c, s, Release(r)))
  {
    if s.view.line != [] {
      var w := s.view.line[NextIndex(s.view.line)].who;
      assert InLine(s.view.line, w);
      OtherExitIsNotByClose(s.reqs[w].exits, ByRelease);
    }
  }

  lemma StepKeepsOnlyWhenClosed(c: Limits, s: State, step: Step)
    requires Inv(c, s) && OnlyWhenClosed(s) && Enabled(c, s, step)
    ensures OnlyWhenClosed(Next(c, s, step))
  {
    hide Inv, Consistent;
    match step
    case Quit(r) => QuitSendsNobodyAway(c, s, r);
    case Receive(r) => ReceiveSendsNobodyAway(c, s, r);
    case Release(r) => ReleaseSendsNobodyAway(c, s, r);
    case _ =>
  }

  lemma {:induction false} RunKeepsOnlyWhenClosed(c: Limits, s: State, steps: seq<Step>, s': State)
    requires Inv(c, s) && OnlyWhenClosed(s) && Runs(c, s, steps, s')
    ensures OnlyWhenClosed(s')
    decreases |steps|
  {
    if steps != [] {
      StepKeepsInv(c, s, steps[0]);
      StepKeepsOnlyWhenClosed(c, s, steps[0]);
      RunKeepsOnlyWhenClosed(c, Next(c, s, steps[0]), steps[1..], s');
    }
  }

  /** What becomes of a newcomer, in every reachable state: it is sent away exactly when the pool is closed, gets a slot
      exactly when one is free, is refused exactly when none is free and the line is at its bound, and queues
      otherwise. */
  lemma EveryArrivalIsJustified(c: Limits, ids: set<Id>, steps: seq<Step>, s: State, r: Id, prio: Priority)
    requires c.maxConcurrent > 0 && Runs(c, Start(ids), steps, s) && Enabled(c, s, Arrive(r, prio))
    ensures r in Next(c, s, Arrive(r, prio)).reqs
    ensures var (v, phase) := (s.view, Next(c, s, Arrive(r, prio)).reqs[r].phase);
      && (phase == Turned(ShuttingDown) <==> v.closed)
      && (phase == Holding <==> !v.closed && v.inflight < c.maxConcurrent)
      && (phase == Turned(QueueFull) <==>
            !v.closed && v.inflight == c.maxConcurrent && |v.line| == Max(c.maxQueueDepth, 0))
      && (phase == Waiting(prio) <==> !v.closed && v.inflight == c.maxConcurrent && |v.line| < c.maxQueueDepth)
  {
    StartInv(c, ids);
    RunKeepsInv(c, Start(ids), steps, s);
  }

  // ------------------------------------------------------------------ safety over whole runs

  /** Whatever the interleaving: the slots taken are exactly the slots owned and never more than there are,
      nobody waits while a slot is free, and the line never outgrows its bound. */
  lemma EveryRunCountsSlots(c: Limits, ids: set<Id>, steps: seq<Step>, s: State)
    requires c.maxConcurrent > 0 && Runs(c, Start(ids), steps, s)
    ensures s.view.inflight == |Owners(s)| && 0 <= s.view.inflight <= c.maxConcurrent
    ensures s.view.line != [] ==> s.view.inflight == c.maxConcurrent && |s.view.line| <= c.maxQueueDepth
    ensures s.view.closed ==> s.view.line == []
    ensures forall r :: r in s.reqs && s.reqs[r].phase.Holding? ==> s.view.inflight > 0
  {
    StartInv(c, ids);
    RunKeepsInv(c, Start(ids), steps, s);
    forall r | r in s.reqs && s.reqs[r].phase.Holding? ensures s.view.inflight > 0 {
      SlotInUse(s, r);
    }
  }

  /** Whatever the interleaving: a waiter leaves the line in one way only, its channel gets at most one message
      and therefore never blocks its sender, and a waiter that came too late to take itself out
      has a message in the mail or owed to it. */
  lemma EveryRunNotifiesOnce(c: Limits, ids: set<Id>, steps: seq<Step>, s: State, r: Id)
    requires c.maxConcurrent > 0 && Runs(c, Start(ids), steps, s) && r in s.reqs
    ensures var q := s.reqs[r];
      && |q.exits| <= 1 && q.sent + |q.owed| <= 1
      && (q.owed != [] ==> Enabled(c, s, Send(r)))
      && (InLine(s.view.line, r) ==> q.exits == [] && q.sent == 0 && q.owed == [])
      && (q.phase.Stuck? ==> |q.owed| + |q.mail| == 1)
      && ((q.phase.Waiting? || q.phase.Leaving?) && !InLine(s.view.line, r) ==> |q.owed| + |q.mail| == 1)
  {
    StartInv(c, ids);
    RunKeepsInv(c, Start(ids), steps, s);
  }

  /** Whatever the interleaving: what Acquire returned tells how the request left the line. A nil error means a slot
      was taken at once or handed over by a Release; timeout and cancellation mean it took itself out. */
  lemma EveryRunExplainsOutcome(c: Limits, ids: set<Id>, steps: seq<Step>, s: State, r: Id)
    requires c.maxConcurrent > 0 && Runs(c, Start(ids), steps, s) && r in s.reqs
    ensures var q := s.reqs[r];
      && (q.phase.Holding? || q.phase.Released? ==> q.exits == [] || q.exits == [ByRelease])
      && (q.exits == [BySelf] <==> q.phase == Turned(QueueTimeout) || q.phase == Turned(Cancelled))
      && (q.exits == [ByClose] && q.phase.Turned? ==> q.phase.err == ShuttingDown)
      && (q.phase == Turned(ShuttingDown) || q.exits == [ByClose] ==> s.view.closed)
      && (q.phase == Turned(QueueFull) ==> q.exits == [])
      && (q.exits == [ByRelease] ==> !q.phase.Turned?)
      && (q.phase.Turned? || q.phase.Released? ==> !Owns(q))
  {
    StartInv(c, ids);
    RunKeepsInv(c, Start(ids), steps, s);
    RunKeepsOnlyWhenClosed(c, Start(ids), steps, s);
  }

  // ------------------------------------------------------------------ the reason for giving up

  /** Whether a request's timer has fired, and whether its context was done. */
  datatype Alarms = Alarms(timer: bool, context: bool)

  function AlarmsOf(steps: seq<Step>, r: Id): Alarms {
    Alarms(Fire(r, QueueTimeout) in steps, Fire(r, Cancelled) in steps)
  }

  function Rung(a: Alarms, step: Step, r: Id): Alarms {
    Alarms(a.timer || step == Fire(r, QueueTimeout), a.context || step == Fire(r, Cancelled))
  }

  lemma AlarmsGrow(steps: seq<Step>, step: Step, r: Id)
    ensures AlarmsOf(steps + [step], r) == Rung(AlarmsOf(steps, r), step, r)
  {
    assert forall x :: x in steps + [step] <==> x in steps || x == step;
  }

  predicate GivesReason(p: Phase, a: Alarms) {
    && !(a.timer && a.context)
    && (p.Idle? || p.Waiting? ==> !a.timer && !a.context)
    && (p.Leaving? && p.why == QueueTimeout ==> a.timer)
    && (p.Leaving? && p.why == Cancelled ==> a.context)
    && (p == Turned(QueueTimeout) ==> a.timer)
    && (p == Turned(Cancelled) ==> a.context)
  }

  lemma StepGivesReason(c: Limits, s: State, step: Step, r: Id, a: Alarms)
    requires Inv(c, s) && Enabled(c, s, step) && r in s.reqs && GivesReason(s.reqs[r].phase, a)
    ensures r in Next(c, s, step).reqs && GivesReason(Next(c, s, step).reqs[r].phase, Rung(a, step, r))
  {
    if step.Close? || step.r != r {
      OthersRest(c, s, step, r);
    } else {
      assert Consistent(s.reqs[r], InLine(s.view.line, r));
    }
  }

  lemma {:induction false} RunGivesReason(c: Limits, s: State, past: seq<Step>, steps: seq<Step>, s': State, r: Id)
    requires Inv(c, s) && Runs(c, s, steps, s') && r in s.reqs && GivesReason(s.reqs[r].phase, AlarmsOf(past, r))
    ensures r in s'.reqs && GivesReason(s'.reqs[r].phase, AlarmsOf(past + steps, r))
    decreases |steps|
  {
    hide Next, Inv, AlarmsOf, GivesReason;
    if steps == [] {
      assert past + steps == past;
    } else {
      StepKeepsInv(c, s, steps[0]);
      StepGivesReason(c, s, steps[0], r, AlarmsOf(past, r));
      AlarmsGrow(past, steps[0], r);
      RunGivesReason(c, Next(c, s, steps[0]), past + [steps[0]], steps[1..], s', r);
      assert past + [steps[0]] + steps[1..] == past + steps;
    }
  }

  /** A request that gave up reports the alarm that went off: a timeout only if its timer fired, a cancellation only if
      its context was done, and never both. */
  lemma GivingUpHasItsReason(c: Limits, ids: set<Id>, steps: seq<Step>, s: State, r: Id)
    requires c.maxConcurrent > 0 && Runs(c, Start(ids), steps, s) && r in ids
    ensures r in s.reqs
    ensures s.reqs[r].phase == Turned(QueueTimeout) ==> Fire(r, QueueTimeout) in steps && Fire(r, Cancelled) !in steps
    ensures s.reqs[r].phase == Turned(Cancelled) ==> Fire(r, Cancelled) in steps && Fire(r, QueueTimeout) !in steps
  {
    StartInv(c, ids);
    RunGivesReason(c, Start(ids), [], steps, s, r);
    assert [] + steps == steps;
  }

  // ------------------------------------------------------------------ releases are matched

  function CountOf(steps: seq<Step>, step: Step): nat {
    if steps == [] then 0 else (if steps[0] == step then 1 else 0) + CountOf(steps[1..], step)
  }

  lemma {:induction false} ReleaseCount(c: Limits, s: State, steps: seq<Step>, s': State, r: Id)
    requires Runs(c, s, steps, s') && r in s.reqs
    ensures r in s'.reqs
    ensures CountOf(steps, Release(r)) ==
            (if s'.reqs[r].phase.Released? then 1 else 0) - (if s.reqs[r].phase.Released? then 1 else 0)
    decreases |steps|
  {
    if steps != [] {
      ReleaseCount(c, Next(c, s, steps[0]), steps[1..], s', r);
    }
  }

  /** A request that was ever admitted is either still holding its slot or has released it, exactly once;
      a request that was refused has released nothing. */
  lemma EveryRunReleasesOnce(c: Limits, ids: set<Id>, steps: seq<Step>, s: State, r: Id)
    requires c.maxConcurrent > 0 && Runs(c, Start(ids), steps, s) && r in ids
    ensures r in s.reqs
    ensures CountOf(steps, Release(r)) <= 1
    ensures CountOf(steps, Release(r)) == 1 <==> s.reqs[r].phase.Released?
    ensures s.reqs[r].phase.Turned? ==> CountOf(steps, Release(r)) == 0
  {
    ReleaseCount(c, Start(ids), steps, s, r);
  }

  // ------------------------------------------------------------------ after Close

  lemma ClosedStep(c: Limits, s: State, step: Step)
    requires Inv(c, s) && s.view.closed && Enabled(c, s, step)
    ensures Next(c, s, step).view.closed && Next(c, s, step).view.line == []
    ensures Next(c, s, step).view.inflight <= s.view.inflight
  {
  }

  /** Once Close has run its critical section nobody is ever queued or admitted again: the number of slots
      in use only falls, so when Drain has seen zero it stays zero. */
  lemma {:induction false} AfterClose(c: Limits, s: State, steps: seq<Step>, s': State)
    requires Inv(c, s) && s.view.closed && Runs(c, s, steps, s')
    ensures s'.view.closed && s'.view.line == [] && 0 <= s'.view.inflight <= s.view.inflight
    ensures s.view.inflight == 0 ==> s'.view.inflight == 0 && Owners(s') == {}
    decreases |steps|
  {
    if steps != [] {
      StepKeepsInv(c, s, steps[0]);
      ClosedStep(c, s, steps[0]);
      AfterClose(c, Next(c, s, steps[0]), steps[1..], s');
    }
  }

  /** When Drain has seen an idle pool after Close, nobody holds a slot or is handed one, then or ever after. */
  lemma DrainedForGood(c: Limits, ids: set<Id>, before: seq<Step>, s: State, after: seq<Step>, s': State, r: Id)
    requires c.maxConcurrent > 0 && Runs(c, Start(ids), before, s) && s.view.closed && s.view.inflight == 0
    requires Runs(c, s, after, s') && r in s'.reqs
    ensures s'.view.inflight == 0 && !Owns(s'.reqs[r]) && !s'.reqs[r].phase.Holding?
  {
    StartInv(c, ids);
    RunKeepsInv(c, Start(ids), before, s);
    AfterClose(c, s, after, s');
    if Owns(s'.reqs[r]) { SlotInUse(s', r); }
  }

  // ------------------------------------------------------------------ nobody is forgotten

  /** Steps that a request, or whoever owes it a message, takes without anybody arriving, giving up or closing. */
  predicate Drives(step: Step) {
    step.Quit? || step.Receive? || step.Release? || step.Send?
  }

  predicate Unfinished(q: Request) {
    q.phase.Waiting? || q.phase.Leaving? || q.phase.Stuck? || q.phase.Holding?
  }

  /** As long as some request has entered and is not finished, some request can take a step on its own,
      without anybody arriving, timing out or closing the pool: no wake-up is ever lost. */
  lemma NoLostWakeup(c: Limits, s: State, r: Id)
    requires Inv(c, s) && r in s.reqs && Unfinished(s.reqs[r])
    ensures exists step :: Enabled(c, s, step) && Drives(step)
  {
    if InLine(s.view.line, r) {
      assert s.view.inflight == c.maxConcurrent > 0;
      var o :| o in Owners(s);
      OwnStep(c, s, o);
    } else {
      OwnStep(c, s, r);
    }
  }

  lemma OwnStep(c: Limits, s: State, r: Id)
    requires Inv(c, s) && r in s.reqs
    requires Owns(s.reqs[r]) || (Unfinished(s.reqs[r]) && !InLine(s.view.line, r))
    ensures exists step :: Enabled(c, s, step) && Drives(step)
  {
    var q := s.reqs[r];
    assert Consistent(q, InLine(s.view.line, r));
    if q.phase.Holding? {
      assert Enabled(c, s, Release(r));
    } else if q.owed != [] {
      assert Enabled(c, s, Send(r));
    } else if q.phase.Leaving? {
      assert Enabled(c, s, Quit(r));
    } else {
      assert Enabled(c, s, Receive(r));
    }
  }

  /** How many more steps of its own a request can take. */
  function Budget(q: Request): int {
    1 - q.sent + match q.phase
                 case Idle => 5
                 case Waiting(_) => 4
                 case Leaving(_, _) => 3
                 case Stuck(_) => 2
                 case Holding => 1
                 case Turned(_) => 0
                 case Released => 0
  }

  function StepsOf(steps: seq<Step>, r: Id): nat {
    if steps == [] then 0
    else (if !steps[0].Close? && steps[0].r == r then 1 else 0) + StepsOf(steps[1..], r)
  }

  lemma OthersRest(c: Limits, s: State, step: Step, r: Id)
    requires Inv(c, s) && Enabled(c, s, step) && r in s.reqs && (step.Close? || step.r != r)
    ensures r in Next(c, s, step).reqs
    ensures Next(c, s, step).reqs[r].phase == s.reqs[r].phase && Next(c, s, step).reqs[r].sent == s.reqs[r].sent
  {
  }

  lemma OwnStepSpends(c: Limits, s: State, step: Step)
    requires Inv(c, s) && Enabled(c, s, step) && !step.Close?
    ensures step.r in Next(c, s, step).reqs
    ensures Budget(Next(c, s, step).reqs[step.r]) + 1 <= Budget(s.reqs[step.r])
  {
    assert Consistent(s.reqs[step.r], InLine(s.view.line, step.r));
    if step.Release? && s.view.line != [] {
      assert InLine(s.view.line, s.view.line[NextIndex(s.view.line)].who);
    }
  }

  lemma StepSpendsBudget(c: Limits, s: State, step: Step, r: Id)
    requires Inv(c, s) && Enabled(c, s, step) && r in s.reqs
    ensures r in Next(c, s, step).reqs
    ensures Budget(Next(c, s, step).reqs[r]) + (if !step.Close? && step.r == r then 1 else 0) <= Budget(s.reqs[r])
  {
    if step.Close? || step.r != r {
      OthersRest(c, s, step, r);
    } else {
      OwnStepSpends(c, s, step);
    }
  }

  lemma BudgetInRange(c: Limits, s: State, r: Id)
    requires Inv(c, s) && r in s.reqs
    ensures 0 <= Budget(s.reqs[r]) <= 6
  {
    assert Consistent(s.reqs[r], InLine(s.view.line, r));
  }

  /** A request takes at most six steps from Acquire to the end, in every run. */
  lemma {:induction false} BoundedSteps(c: Limits, s: State, steps: seq<Step>, s': State, r: Id)
    requires Inv(c, s) && Runs(c, s, steps, s') && r in s.reqs
    ensures r in s'.reqs && StepsOf(steps, r) + Budget(s'.reqs[r]) <= Budget(s.reqs[r])
    ensures StepsOf(steps, r) <= 6
    decreases |steps|
  {
    hide Inv, Next, Budget;
    if steps != [] {
      StepKeepsInv(c, s, steps[0]);
      StepSpendsBudget(c, s, steps[0], r);
      BoundedSteps(c, Next(c, s, steps[0]), steps[1..], s', r);
    }
    RunKeepsInv(c, s, steps, s');
    BudgetInRange(c, s, r);
    BudgetInRange(c, s', r);
  }

  function StepsOfAll(steps: seq<Step>, ids: set<Id>): nat {
    if steps == [] then 0
    else (if !steps[0].Close? && steps[0].r in ids then 1 else 0) + StepsOfAll(steps[1..], ids)
  }

  lemma {:induction false} OneLess(steps: seq<Step>, ids: set<Id>, r: Id)
    requires r in ids
    ensures StepsOfAll(steps, ids) == StepsOfAll(steps, ids - {r}) + StepsOf(steps, r)
  {
    if steps != [] { OneLess(steps[1..], ids, r); }
  }

  lemma {:induction false} NoSteps(steps: seq<Step>)
    ensures StepsOfAll(steps, {}) == 0
  {
    if steps != [] { NoSteps(steps[1..]); }
  }

  lemma {:induction false} BoundedStepsOfAll(c: Limits, s: State, steps: seq<Step>, s': State, ids: set<Id>)
    requires Inv(c, s) && Runs(c, s, steps, s') && ids <= s.reqs.Keys
    ensures StepsOfAll(steps, ids) <= 6 * |ids|
    decreases |ids|
  {
    if ids == {} {
      NoSteps(steps);
    } else {
      var r :| r in ids;
      OneLess(steps, ids, r);
      BoundedSteps(c, s, steps, s', r);
      BoundedStepsOfAll(c, s, steps, s', ids - {r});
    }
  }

  /** Every call comes to an end: a run takes at most six steps for every request, and where it has stopped, because
      nobody inside the pool has a step left, every request has been refused or has released its slot. */
  lemma EveryRunEnds(c: Limits, ids: set<Id>, steps: seq<Step>, s: State)
    requires c.maxConcurrent > 0 && Runs(c, Start(ids), steps, s)
    ensures StepsOfAll(steps, ids) <= 6 * |ids|
    ensures (forall step :: Enabled(c, s, step) ==> !Drives(step)) ==>
              forall r :: r in s.reqs ==> s.reqs[r].phase.Idle? || s.reqs[r].phase.Turned? || s.reqs[r].phase.Released?
  {
    StartInv(c, ids);
    assert Start(ids).reqs.Keys == ids;
    BoundedStepsOfAll(c, Start(ids), steps, s, ids);
    RunKeepsInv(c, Start(ids), steps, s);
    forall r | r in s.reqs && Unfinished(s.reqs[r]) ensures exists step :: Enabled(c, s, step) && Drives(step) {
      NoLostWakeup(c, s, r);
    }
  }

  // ------------------------------------------------------------------ nobody is overtaken

  /** a stands before b in the line and b has no better level. */
  ghost predicate Precedes(line: seq<Ticket<Id>>, a: Ticket<Id>, b: Ticket<Id>) {
    a.prio <= b.prio && exists i, j :: 0 <= i < j < |line| && line[i] == a && line[j] == b
  }

  /** One step: b cannot be served past a; it can only leave on its own or be sent away with everybody else. */
  lemma PrecedesStep(c: Limits, s: State, step: Step, a: Ticket<Id>, b: Ticket<Id>)
    requires Inv(c, s) && Enabled(c, s, step) && Precedes(s.view.line, a, b)
    ensures a in Next(c, s, step).view.line ==>
              b.who in s.reqs && (Precedes(Next(c, s, step).view.line, a, b)
                                  || Next(c, s, step).reqs[b.who].exits == [BySelf])
  {
    var line, line' := s.view.line, Next(c, s, step).view.line;
    var i, j :| 0 <= i < j < |line| && line[i] == a && line[j] == b;
    assert InLine(line, b.who) && InLine(line, a.who);
    match step
    case Arrive(r, prio) => assert line'[i] == a && line'[j] == b;
    case Quit(r) =>
      var t := Ticket(r, s.reqs[r].phase.prio);
      if t in line && a in line' { PrecedesWithout(s, Find(line, t), i, j); }
    case Release(r) =>
      if a in line' { PrecedesWithout(s, NextIndex(line), i, j); }
    case _ =>
  }

  lemma PrecedesWithout(s: State, k: nat, i: nat, j: nat)
    requires LineOk(s) && i < j < |s.view.line| && k < |s.view.line|
    requires s.view.line[i].prio <= s.view.line[j].prio
    requires s.view.line[i] in Without(s.view.line, k)
    ensures k != i && (k != j ==> Precedes(Without(s.view.line, k), s.view.line[i], s.view.line[j]))
  {
    var line, line' := s.view.line, Without(s.view.line, k);
    StillDistinct(line, k, i);
    if k != j {
      assert line'[if i < k then i else i - 1] == line[i];
      assert line'[if j < k then j else j - 1] == line[j];
    }
  }

  lemma StillDistinct(line: seq<Ticket<Id>>, k: nat, i: nat)
    requires Distinct(line) && i < |line| && k < |line|
    ensures line[i] in Without(line, k) ==> k != i
  {
    assert forall j :: 0 <= j < |Without(line, k)| ==> Without(line, k)[j] == line[if j < k then j else j + 1];
  }

  lemma OutStaysOut(c: Limits, s: State, step: Step, r: Id)
    requires Inv(c, s) && Enabled(c, s, step) && r in s.reqs && s.reqs[r].exits != []
    ensures r in Next(c, s, step).reqs && Next(c, s, step).reqs[r].exits == s.reqs[r].exits
  {
    SameInLine(s.view.line);
    assert Consistent(s.reqs[r], InLine(s.view.line, r));
    if step.Release? && s.view.line != [] {
      assert InLine(s.view.line, s.view.line[NextIndex(s.view.line)].who);
    }
  }

  lemma {:induction false} OutForGood(c: Limits, s: State, steps: seq<Step>, s': State, r: Id)
    requires Inv(c, s) && Runs(c, s, steps, s') && r in s.reqs && s.reqs[r].exits != []
    ensures r in s'.reqs && s'.reqs[r].exits == s.reqs[r].exits && !InLine(s'.view.line, r)
    decreases |steps|
  {
    if steps == [] {
      assert Consistent(s.reqs[r], InLine(s.view.line, r));
    } else {
      StepKeepsInv(c, s, steps[0]);
      OutStaysOut(c, s, steps[0], r);
      OutForGood(c, Next(c, s, steps[0]), steps[1..], s', r);
    }
  }

  /** As long as a is waiting, no Release hands a slot to b if b came later and has no better level. */
  lemma {:induction false} NoOvertaking(c: Limits, s: State, steps: seq<Step>, s': State, a: Ticket<Id>, b: Ticket<Id>)
    requires Inv(c, s) && Runs(c, s, steps, s') && Precedes(s.view.line, a, b)
    requires a in s'.view.line
    ensures b.who in s'.reqs && s'.reqs[b.who].exits != [ByRelease]
    decreases |steps|
  {
    if steps == [] {
      assert InLine(s.view.line, b.who);
      assert Consistent(s.reqs[b.who], true);
    } else {
      var s1 := Next(c, s, steps[0]);
      StepKeepsInv(c, s, steps[0]);
      var k :| 0 <= k < |s'.view.line| && s'.view.line[k] == a;
      assert InLine(s'.view.line, a.who);
      if a in s1.view.line {
        PrecedesStep(c, s, steps[0], a, b);
        if Precedes(s1.view.line, a, b) {
          NoOvertaking(c, s1, steps[1..], s', a, b);
        } else {
          OutForGood(c, s1, steps[1..], s', b.who);
        }
      } else {
        LeavesForGood(c, s, steps[0], a);
        OutForGood(c, s1, steps[1..], s', a.who);
      }
    }
  }

  lemma LeavesForGood(c: Limits, s: State, step: Step, a: Ticket<Id>)
    requires Inv(c, s) && Enabled(c, s, step) && a in s.view.line
    ensures a !in Next(c, s, step).view.line ==>
              a.who in s.reqs && a.who in Next(c, s, step).reqs && Next(c, s, step).reqs[a.who].exits != []
  {
    var line, line' := s.view.line, Next(c, s, step).view.line;
    var i :| 0 <= i < |line| && line[i] == a;
    assert InLine(line, a.who);
    StepKeepsInv(c, s, step);
    SameInLine(line);
    match step
    case Arrive(r, prio) => assert line'[i] == a;
    case Quit(r) => OnlyOneOut(line, Find(line, Ticket(r, s.reqs[r].phase.prio)), i);
    case Release(r) => OnlyOneOut(line, NextIndex(line), i);
    case _ =>
  }

  lemma OnlyOneOut(line: seq<Ticket<Id>>, k: nat, i: nat)
    requires i < |line|
    ensures k < |line| && k != i ==> line[i] in Without(line, k)
  {
    if k < |line| && k != i {
      assert Without(line, k)[if i < k then i else i - 1] == line[i];
    }
  }
}
