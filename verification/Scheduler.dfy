/** The scheduler around one pool (internal/inference/scheduler.go): breaker, slot, upstream call, record, release.

    A call is a Generate or a Stream. Its steps are interleaved with the pool's own (`PoolProtocol`); the breaker's
    verdict, the upstream's answers and the end of a stream are left to the environment. */
module Scheduler {
  import opened Wrappers
  import opened PriorityQueue
  import opened Pool
  import P = PoolProtocol

  type Id = P.Id

  datatype Kind = Generate | Stream

  datatype Outcome = Answered | Rejected(err: Error)

  datatype Call =
    | Fresh(kind: Kind)          // before breaker.Allow
    | Passed(kind: Kind)         // breaker and closed flag passed, Acquire not entered
    | Acquiring(kind: Kind)      // inside pool.Acquire
    | Calling(kind: Kind)        // the upstream call is running
    | Pumping                    // the stream is open and being forwarded
    | Recording                  // the outcome is about to be recorded in the breaker
    | Returning                  // recorded, slot not released yet
    | Finished(outcome: Outcome)

  /** `records` counts, per call, how often its outcome was reported to the breaker. */
  datatype World = World(pool: P.State, calls: map<Id, Call>, records: map<Id, nat>, closed: bool)

  datatype Step =
    | BreakerDenies(r: Id)
    | FindsClosed(r: Id)
    | Passes(r: Id)
    | Enters(r: Id, prio: Priority)
    | PoolMoves(step: P.Step)
    | Admitted(r: Id)
    | TurnedAway(r: Id)
    | UpstreamReturns(r: Id, ok: bool)
    | Forwards(r: Id)
    | StreamEnds(r: Id)
    | Records(r: Id)
    | Releases(r: Id)
    | Shutdown

  function Start(kinds: map<Id, Kind>): World {
    World(P.Start(kinds.Keys), map r | r in kinds :: Fresh(kinds[r]), map r | r in kinds :: 0, false)
  }

  /** Calls and pool requests share their names; the pool moves on its own except for entering and releasing. */
  predicate Enabled(c: Limits, w: World, step: Step) {
    match step
    case Shutdown => true
    case PoolMoves(p) =>
      && !p.Arrive? && !p.Release?
      && (p.Close? ==> w.closed)
      && P.Enabled(c, w.pool, p)
    case _ =>
      step.r in w.calls && step.r in w.records && step.r in w.pool.reqs &&
      var call := w.calls[step.r];
      var phase := w.pool.reqs[step.r].phase;
      match step
      case BreakerDenies(_) => call.Fresh?
      case FindsClosed(_) => call.Fresh? && w.closed
      case Passes(_) => call.Fresh? && !w.closed
      case Enters(_, _) => call.Passed? && phase.Idle?
      case Admitted(_) => call.Acquiring? && phase.Holding?
      case TurnedAway(_) => call.Acquiring? && phase.Turned?
      case UpstreamReturns(_, _) => call.Calling?
      case Forwards(_) => call.Pumping?
      case StreamEnds(_) => call.Pumping?
      case Records(_) => call.Recording?
      case Releases(_) => call.Returning? && phase.Holding?
      case _ => false
  }

  /** What a step of the scheduler means for the pool. */
  function PoolSteps(step: Step): seq<P.Step> {
    match step
    case Enters(r, prio) => [P.Arrive(r, prio)]
    case PoolMoves(p) => [p]
    case Releases(r) => [P.Release(r)]
    case _ => []
  }

  function Next(c: Limits, w: World, step: Step): World
    requires Enabled(c, w, step)
  {
    match step
    case BreakerDenies(r) => w.(calls := w.calls[r := Finished(Rejected(BreakerOpen))])
    case FindsClosed(r) => w.(calls := w.calls[r := Finished(Rejected(ShuttingDown))])
    case Passes(r) => w.(calls := w.calls[r := Passed(w.calls[r].kind)])
    case Enters(r, prio) =>
      w.(pool := P.Next(c, w.pool, P.Arrive(r, prio)), calls := w.calls[r := Acquiring(w.calls[r].kind)])
    case PoolMoves(p) => w.(pool := P.Next(c, w.pool, p))
    case Admitted(r) => w.(calls := w.calls[r := Calling(w.calls[r].kind)])
    case TurnedAway(r) => w.(calls := w.calls[r := Finished(Rejected(w.pool.reqs[r].phase.err))])
    case UpstreamReturns(r, ok) =>
      w.(calls := w.calls[r := if w.calls[r].kind.Stream? && ok then Pumping else Recording])
    case Forwards(r) => w
    case StreamEnds(r) => w.(calls := w.calls[r := Recording])
    case Records(r) => w.(calls := w.calls[r := Returning], records := w.records[r := w.records[r] + 1])
    case Releases(r) =>
      w.(pool := P.Next(c, w.pool, P.Release(r)), calls := w.calls[r := Finished(Answered)])
    case Shutdown => w.(closed := true)
  }

  predicate Runs(c: Limits, w: World, steps: seq<Step>, w': World)
    decreases |steps|
  {
    if steps == [] then w' == w
    else Enabled(c, w, steps[0]) && Runs(c, Next(c, w, steps[0]), steps[1..], w')
  }

  function AllPoolSteps(steps: seq<Step>): seq<P.Step> {
    if steps == [] then [] else PoolSteps(steps[0]) + AllPoolSteps(steps[1..])
  }

  // ------------------------------------------------------------------ the scheduler drives the pool correctly

  lemma {:induction false} RunsConcat(c: Limits, s: P.State, a: seq<P.Step>, m: P.State, b: seq<P.Step>, s': P.State)
    requires P.Runs(c, s, a, m) && P.Runs(c, m, b, s')
    ensures P.Runs(c, s, a + b, s')
    decreases |a|
  {
    if a == [] {
      assert a + b == b;
    } else {
      RunsConcat(c, P.Next(c, s, a[0]), a[1..], m, b, s');
      assert (a + b)[0] == a[0] && (a + b)[1..] == a[1..] + b;
    }
  }

  lemma OneStepRun(c: Limits, s: P.State, p: P.Step)
    requires P.Enabled(c, s, p)
    ensures P.Runs(c, s, [p], P.Next(c, s, p))
  {
    assert [p][1..] == [];
    assert P.Runs(c, P.Next(c, s, p), [], P.Next(c, s, p));
  }

  /** Seen from the pool, every run of the scheduler is a run of the pool: everything proved there holds here. */
  lemma {:induction false} EveryRunIsAPoolRun(c: Limits, w: World, steps: seq<Step>, w': World)
    requires Runs(c, w, steps, w')
    ensures P.Runs(c, w.pool, AllPoolSteps(steps), w'.pool)
    decreases |steps|
  {
    if steps != [] {
      var w1 := Next(c, w, steps[0]);
      EveryRunIsAPoolRun(c, w1, steps[1..], w');
      if PoolSteps(steps[0]) == [] {
        assert P.Runs(c, w.pool, [], w1.pool);
      } else {
        OneStepRun(c, w.pool, PoolSteps(steps[0])[0]);
      }
      RunsConcat(c, w.pool, PoolSteps(steps[0]), w1.pool, AllPoolSteps(steps[1..]), w'.pool);
    }
  }

  // ------------------------------------------------------------------ calls and slots go together

  /** A call that has reached the upstream and not given its slot back. */
  predicate Active(call: Call) {
    call.Calling? || call.Pumping? || call.Recording? || call.Returning?
  }

  function ActiveCalls(w: World): set<Id> {
    set r | r in w.calls && Active(w.calls[r])
  }

  predicate Agrees(call: Call, phase: P.Phase, records: nat) {
    match call
    case Fresh(_) => phase.Idle? && records == 0
    case Passed(_) => phase.Idle? && records == 0
    case Acquiring(_) => !phase.Idle? && !phase.Released? && records == 0
    case Calling(_) => phase.Holding? && records == 0
    case Pumping => phase.Holding? && records == 0
    case Recording => phase.Holding? && records == 0
    case Returning => phase.Holding? && records == 1
    case Finished(Answered) => phase.Released? && records == 1
    case Finished(Rejected(err)) => records == 0 && (phase.Idle? || phase == P.Turned(err))
  }

  ghost predicate AllAgree(w: World) {
    && w.calls.Keys == w.records.Keys == w.pool.reqs.Keys
    && forall r :: r in w.calls ==> Agrees(w.calls[r], w.pool.reqs[r].phase, w.records[r])
  }

  ghost predicate Inv(c: Limits, w: World) {
    P.Inv(c, w.pool) && AllAgree(w)
  }

  /** Only call r, and perhaps the pool request r, has moved. */
  lemma AgreeAfter(w: World, w': World, r: Id, call: Call, n: nat)
    requires AllAgree(w) && r in w.calls
    requires w'.calls == w.calls[r := call] && w'.records == w.records[r := n]
    requires w'.pool.reqs.Keys == w.pool.reqs.Keys
    requires forall x :: x in w.calls && x != r ==> w'.pool.reqs[x].phase == w.pool.reqs[x].phase
    requires Agrees(call, w'.pool.reqs[r].phase, n)
    ensures AllAgree(w')
  {
  }

  /** A pool step other than entering and releasing moves requests only between phases of being inside Acquire. */
  lemma PoolMovesInside(c: Limits, s: P.State, p: P.Step, r: Id)
    requires P.Inv(c, s) && P.Enabled(c, s, p) && !p.Arrive? && !p.Release? && r in s.reqs
    ensures r in P.Next(c, s, p).reqs && MovedInside(s.reqs[r].phase, P.Next(c, s, p).reqs[r].phase)
  {
  }

  lemma OnlyThisPhase(c: Limits, s: P.State, p: P.Step, r: Id)
    requires P.Inv(c, s) && P.Enabled(c, s, p) && (p.Arrive? || p.Release?) && r in s.reqs
    ensures P.Next(c, s, p).reqs.Keys == s.reqs.Keys
    ensures r != p.r ==> P.Next(c, s, p).reqs[r].phase == s.reqs[r].phase
    ensures r == p.r && p.Release? ==> P.Next(c, s, p).reqs[r].phase.Released?
    ensures r == p.r && p.Arrive? ==> !P.Next(c, s, p).reqs[r].phase.Idle? && !P.Next(c, s, p).reqs[r].phase.Released?
  {
  }

  /** Only the pool moved, and not by a request entering or releasing. */
  lemma PoolMoveKeeps(c: Limits, w: World, p: P.Step)
    requires Inv(c, w) && Enabled(c, w, PoolMoves(p))
    ensures Inv(c, Next(c, w, PoolMoves(p)))
  {
    P.StepKeepsInv(c, w.pool, p);
    forall r | r in w.pool.reqs { PoolMovesInside(c, w.pool, p, r); }
    SameKeys(c, w.pool, p);
    AgreeInside(w, w.(pool := P.Next(c, w.pool, p)));
  }

  predicate MovedInside(a: P.Phase, b: P.Phase) {
    a == b || (!a.Idle? && !a.Holding? && !a.Released? && !a.Turned? && !b.Idle? && !b.Released?)
  }

  lemma AgreeInside(w: World, w': World)
    requires AllAgree(w) && w'.calls == w.calls && w'.records == w.records
    requires w'.pool.reqs.Keys == w.pool.reqs.Keys
    requires forall r :: r in w.pool.reqs ==> MovedInside(w.pool.reqs[r].phase, w'.pool.reqs[r].phase)
    ensures AllAgree(w')
  {
  }

  lemma SameKeys(c: Limits, s: P.State, p: P.Step)
    requires P.Inv(c, s) && P.Enabled(c, s, p)
    ensures P.Next(c, s, p).reqs.Keys == s.reqs.Keys
  {
  }

  /** The call and the pool request named r moved together. */
  lemma JointMoveKeeps(c: Limits, w: World, p: P.Step, call: Call)
    requires Inv(c, w) && P.Enabled(c, w.pool, p) && (p.Arrive? || p.Release?)
    requires Agrees(call, P.Next(c, w.pool, p).reqs[p.r].phase, w.records[p.r])
    ensures Inv(c, w.(pool := P.Next(c, w.pool, p), calls := w.calls[p.r := call]))
  {
    var w' := w.(pool := P.Next(c, w.pool, p), calls := w.calls[p.r := call]);
    P.StepKeepsInv(c, w.pool, p);
    OnlyThisPhase(c, w.pool, p, p.r);
    forall x | x in w.calls && x != p.r ensures w'.pool.reqs[x].phase == w.pool.reqs[x].phase {
      OnlyThisPhase(c, w.pool, p, x);
    }
    assert w.records[p.r := w.records[p.r]] == w.records;
    AgreeAfter(w, w', p.r, call, w.records[p.r]);
  }

  /** A step of call r that leaves the pool alone. */
  lemma CallMoveKeeps(c: Limits, w: World, step: Step)
    requires AllAgree(w) && Enabled(c, w, step)
    requires !step.PoolMoves? && !step.Enters? && !step.Releases? && !step.Shutdown? && !step.Forwards?
    ensures AllAgree(Next(c, w, step))
  {
    var r := step.r;
    var w' := Next(c, w, step);
    assert Agrees(w.calls[r], w.pool.reqs[r].phase, w.records[r]);
    assert w'.records == w.records[r := w'.records[r]];
    AgreeAfter(w, w', r, w'.calls[r], w'.records[r]);
  }

  lemma StepKeepsInv(c: Limits, w: World, step: Step)
    requires Inv(c, w) && Enabled(c, w, step)
    ensures Inv(c, Next(c, w, step))
  {
    hide P.Next;
    match step
    case PoolMoves(p) => PoolMoveKeeps(c, w, p);
    case Enters(r, prio) =>
      OnlyThisPhase(c, w.pool, P.Arrive(r, prio), r);
      JointMoveKeeps(c, w, P.Arrive(r, prio), Acquiring(w.calls[r].kind));
    case Releases(r) =>
      OnlyThisPhase(c, w.pool, P.Release(r), r);
      JointMoveKeeps(c, w, P.Release(r), Finished(Answered));
    case Shutdown =>
    case Forwards(r) =>
    case _ => CallMoveKeeps(c, w, step);
  }

  lemma {:induction false} RunKeepsInv(c: Limits, w: World, steps: seq<Step>, w': World)
    requires Inv(c, w) && Runs(c, w, steps, w')
    ensures Inv(c, w')
    decreases |steps|
  {
    if steps != [] {
      StepKeepsInv(c, w, steps[0]);
      RunKeepsInv(c, Next(c, w, steps[0]), steps[1..], w');
    }
  }

  // ------------------------------------------------------------------ what the scheduler is for

  /** The upstream never sees more than `maxConcurrent` calls at once, an open stream counting until its last chunk. */
  lemma UpstreamIsProtected(c: Limits, kinds: map<Id, Kind>, steps: seq<Step>, w: World)
    requires c.maxConcurrent > 0 && Runs(c, Start(kinds), steps, w)
    ensures |ActiveCalls(w)| <= w.pool.view.inflight <= c.maxConcurrent
  {
    P.StartInv(c, kinds.Keys);
    RunKeepsInv(c, Start(kinds), steps, w);
    SmallerSet(ActiveCalls(w), P.Owners(w.pool));
  }

  /** Every call that got a slot reports its outcome once and releases the slot once, and only then is finished;
      a refused call does neither. Generate, a stream that could not be opened and a stream pumped to its end
      are all covered. */
  lemma AdmittedMeansReleasedOnce(c: Limits, kinds: map<Id, Kind>, steps: seq<Step>, w: World, r: Id)
    requires c.maxConcurrent > 0 && Runs(c, Start(kinds), steps, w) && r in kinds
    ensures r in w.calls && r in w.records && r in w.pool.reqs
    ensures P.CountOf(AllPoolSteps(steps), P.Release(r)) == (if w.calls[r] == Finished(Answered) then 1 else 0)
    ensures w.records[r] == (if w.calls[r] == Finished(Answered) || w.calls[r].Returning? then 1 else 0)
    ensures Active(w.calls[r]) ==> w.pool.reqs[r].phase.Holding?
    ensures w.calls[r].Finished? ==> !P.Owns(w.pool.reqs[r])
  {
    P.StartInv(c, kinds.Keys);
    RunKeepsInv(c, Start(kinds), steps, w);
    EveryRunIsAPoolRun(c, Start(kinds), steps, w);
    P.EveryRunReleasesOnce(c, kinds.Keys, AllPoolSteps(steps), w.pool, r);
    P.EveryRunExplainsOutcome(c, kinds.Keys, AllPoolSteps(steps), w.pool, r);
  }

  // ------------------------------------------------------------------ what a call has been through

  /** Which of its own steps a call has taken. */
  datatype Past = Past(denied: bool, admitted: bool, answered: bool, failed: bool, forwarded: bool, ended: bool,
                       recorded: bool, released: bool)

  function PastOf(steps: seq<Step>, r: Id): Past {
    Past(BreakerDenies(r) in steps, Step.Admitted(r) in steps, UpstreamReturns(r, true) in steps,
         UpstreamReturns(r, false) in steps, Forwards(r) in steps, StreamEnds(r) in steps, Records(r) in steps,
         Releases(r) in steps)
  }

  function Marked(p: Past, step: Step, r: Id): Past {
    match step
    case BreakerDenies(x) => if x == r then p.(denied := true) else p
    case Admitted(x) => if x == r then p.(admitted := true) else p
    case UpstreamReturns(x, ok) => if x != r then p else if ok then p.(answered := true) else p.(failed := true)
    case Forwards(x) => if x == r then p.(forwarded := true) else p
    case StreamEnds(x) => if x == r then p.(ended := true) else p
    case Records(x) => if x == r then p.(recorded := true) else p
    case Releases(x) => if x == r then p.(released := true) else p
    case _ => p
  }

  lemma PastGrows(steps: seq<Step>, step: Step, r: Id)
    ensures PastOf(steps + [step], r) == Marked(PastOf(steps, r), step, r)
  {
    assert forall x :: x in steps + [step] <==> x in steps || x == step;
  }

  /** The upstream is at work for a call: it was called, and has neither failed, nor answered a Generate, nor ended the
      stream it opened. */
  predicate AtUpstream(kind: Kind, p: Past) {
    p.admitted && !p.failed && (if kind.Generate? then !p.answered else !p.ended)
  }

  /** What a call of the given kind that stands at `call` has been through. */
  predicate History(kind: Kind, call: Call, p: Past) {
    && (call.Fresh? || call.Passed? || call.Acquiring? || call.Calling? ==> call.kind == kind)
    && (p.admitted <==> Active(call) || call == Finished(Answered))
    && (p.recorded <==> call.Returning? || call == Finished(Answered))
    && (p.released <==> call == Finished(Answered))
    && (call.Calling? ==> !p.answered && !p.failed && !p.ended)
    && (call.Pumping? ==> kind.Stream? && p.answered && !p.failed && !p.ended)
    && (p.ended || p.forwarded ==> kind.Stream? && p.answered)
    && (p.answered || p.failed ==> p.admitted) && !(p.answered && p.failed)
    && (call.Recording? || call.Returning? || call == Finished(Answered) ==> !AtUpstream(kind, p))
    && (p.denied <==> call == Finished(Rejected(BreakerOpen)))
  }

  predicate Concerns(step: Step, r: Id) {
    !step.PoolMoves? && !step.Shutdown? && step.r == r
  }

  lemma OthersLeaveHistory(c: Limits, w: World, step: Step, r: Id, p: Past)
    requires Enabled(c, w, step) && r in w.calls && !Concerns(step, r)
    ensures r in Next(c, w, step).calls && Next(c, w, step).calls[r] == w.calls[r] && Marked(p, step, r) == p
  {
  }

  /** A step of call r before it is called upstream. */
  lemma EarlyStepMakesHistory(c: Limits, w: World, step: Step, kind: Kind, r: Id, p: Past)
    requires AllAgree(w) && P.Inv(c, w.pool) && Enabled(c, w, step) && r in w.calls && History(kind, w.calls[r], p)
    requires Concerns(step, r)
    requires || step.BreakerDenies? || step.FindsClosed? || step.Passes? || step.Enters? || step.Admitted?
             || step.TurnedAway?
    ensures r in Next(c, w, step).calls && History(kind, Next(c, w, step).calls[r], Marked(p, step, r))
  {
    hide P.Next, P.Inv;
    if step.TurnedAway? { NotByBreaker(c, w, r); }
  }

  lemma LateStepMakesHistory(c: Limits, w: World, step: Step, kind: Kind, r: Id, p: Past)
    requires Enabled(c, w, step) && r in w.calls && History(kind, w.calls[r], p) && Concerns(step, r)
    requires step.UpstreamReturns? || step.Forwards? || step.StreamEnds? || step.Records? || step.Releases?
    ensures r in Next(c, w, step).calls && History(kind, Next(c, w, step).calls[r], Marked(p, step, r))
  {
    hide P.Next;
  }

  lemma StepMakesHistory(c: Limits, w: World, step: Step, kind: Kind, r: Id, p: Past)
    requires AllAgree(w) && P.Inv(c, w.pool) && Enabled(c, w, step) && r in w.calls && History(kind, w.calls[r], p)
    ensures r in Next(c, w, step).calls && History(kind, Next(c, w, step).calls[r], Marked(p, step, r))
  {
    hide Next, Enabled, History, Marked, AllAgree, P.Inv;
    if !Concerns(step, r) {
      OthersLeaveHistory(c, w, step, r, p);
    } else if step.UpstreamReturns? || step.Forwards? || step.StreamEnds? || step.Records? || step.Releases? {
      LateStepMakesHistory(c, w, step, kind, r, p);
    } else {
      EarlyStepMakesHistory(c, w, step, kind, r, p);
    }
  }

  /** The pool never answers that the breaker is open. */
  lemma NotByBreaker(c: Limits, w: World, r: Id)
    requires P.Inv(c, w.pool) && r in w.pool.reqs && w.pool.reqs[r].phase.Turned?
    ensures w.pool.reqs[r].phase.err != BreakerOpen
  {
    assert P.Consistent(w.pool.reqs[r], P.InLine(w.pool.view.line, r));
  }

  lemma {:induction false} RunMakesHistory(c: Limits, w: World, past: seq<Step>, steps: seq<Step>, w': World,
                                           kind: Kind, r: Id)
    requires Inv(c, w) && Runs(c, w, steps, w') && r in w.calls && History(kind, w.calls[r], PastOf(past, r))
    ensures r in w'.calls && History(kind, w'.calls[r], PastOf(past + steps, r))
    decreases |steps|
  {
    hide Next, History, Enabled, PastOf;
    if steps == [] {
      assert past + steps == past;
    } else {
      StepKeepsInv(c, w, steps[0]);
      StepMakesHistory(c, w, steps[0], kind, r, PastOf(past, r));
      PastGrows(past, steps[0], r);
      RunMakesHistory(c, Next(c, w, steps[0]), past + [steps[0]], steps[1..], w', kind, r);
      assert past + [steps[0]] + steps[1..] == past + steps;
    }
  }

  lemma HistoryFromStart(c: Limits, kinds: map<Id, Kind>, steps: seq<Step>, w: World, r: Id)
    requires c.maxConcurrent > 0 && Runs(c, Start(kinds), steps, w) && r in kinds
    ensures Inv(c, w) && r in w.calls && History(kinds[r], w.calls[r], PastOf(steps, r))
  {
    P.StartInv(c, kinds.Keys);
    RunKeepsInv(c, Start(kinds), steps, w);
    RunMakesHistory(c, Start(kinds), [], steps, w, kinds[r], r);
    assert [] + steps == steps;
  }

  /** A stream keeps its slot until it ends: once it is open and has not ended, its request holds a slot, and nothing
      has been recorded or released. */
  lemma StreamKeepsItsSlot(c: Limits, kinds: map<Id, Kind>, steps: seq<Step>, w: World, r: Id)
    requires c.maxConcurrent > 0 && Runs(c, Start(kinds), steps, w) && r in kinds && kinds[r] == Stream
    requires UpstreamReturns(r, true) in steps && StreamEnds(r) !in steps
    ensures r in w.pool.reqs && w.pool.reqs[r].phase.Holding?
    ensures Records(r) !in steps && Releases(r) !in steps
  {
    hide Runs, P.Inv;
    HistoryFromStart(c, kinds, steps, w, r);
    assert Agrees(w.calls[r], w.pool.reqs[r].phase, w.records[r]);
  }

  lemma GenerateNeverStreams(c: Limits, kinds: map<Id, Kind>, steps: seq<Step>, w: World, r: Id)
    requires c.maxConcurrent > 0 && Runs(c, Start(kinds), steps, w) && r in kinds && kinds[r] == Generate
    ensures Forwards(r) !in steps && StreamEnds(r) !in steps
  {
    HistoryFromStart(c, kinds, steps, w, r);
  }

  /** The breaker hears of a call, and its slot is given back, only when the upstream has failed, answered, or ended the
      stream; and a call is refused for an open breaker exactly when the breaker has denied it. */
  lemma NothingIsReportedEarly(c: Limits, kinds: map<Id, Kind>, steps: seq<Step>, w: World, r: Id)
    requires c.maxConcurrent > 0 && Runs(c, Start(kinds), steps, w) && r in kinds
    ensures Records(r) in steps || Releases(r) in steps ==>
              || UpstreamReturns(r, false) in steps
              || (if kinds[r] == Generate then UpstreamReturns(r, true) in steps else StreamEnds(r) in steps)
    ensures Releases(r) in steps ==> Records(r) in steps
    ensures r in w.calls && (w.calls[r] == Finished(Rejected(BreakerOpen)) <==> BreakerDenies(r) in steps)
  {
    HistoryFromStart(c, kinds, steps, w, r);
  }

  /** The calls for which the upstream is at work, told from the run alone, are never more than the pool has slots. */
  lemma UpstreamIsNeverOverrun(c: Limits, kinds: map<Id, Kind>, steps: seq<Step>, w: World)
    requires c.maxConcurrent > 0 && Runs(c, Start(kinds), steps, w)
    ensures |set r | r in kinds && AtUpstream(kinds[r], PastOf(steps, r))| <= c.maxConcurrent
  {
    var busy := set r | r in kinds && AtUpstream(kinds[r], PastOf(steps, r));
    forall r | r in busy ensures r in ActiveCalls(w) { HistoryFromStart(c, kinds, steps, w, r); }
    UpstreamIsProtected(c, kinds, steps, w);
    SmallerSet(busy, ActiveCalls(w));
  }

  // ------------------------------------------------------------------ every call gets there

  /** Steps that are taken without anybody arriving, giving up or shutting down, and not without end: a call moves on,
      its upstream answers or its stream ends, or a message is sent or received inside the pool. */
  predicate Drives(step: Step) {
    match step
    case PoolMoves(p) => P.Drives(p)
    case Forwards(_) => false
    case Shutdown => false
    case _ => true
  }

  /** How far a call is from its end. */
  function Distance(call: Call): nat {
    match call
    case Fresh(_) => 7
    case Passed(_) => 6
    case Acquiring(_) => 5
    case Calling(_) => 4
    case Pumping => 3
    case Recording => 2
    case Returning => 1
    case Finished(_) => 0
  }

  predicate MovesOn(step: Step, r: Id) {
    !step.PoolMoves? && !step.Shutdown? && !step.Forwards? && step.r == r
  }

  /** The steps of one call, apart from the messages its stream forwards. */
  function StepsOf(steps: seq<Step>, r: Id): nat {
    if steps == [] then 0 else (if MovesOn(steps[0], r) then 1 else 0) + StepsOf(steps[1..], r)
  }

  lemma {:induction false} BoundedSteps(c: Limits, w: World, steps: seq<Step>, w': World, r: Id)
    requires Runs(c, w, steps, w') && r in w.calls
    ensures r in w'.calls && StepsOf(steps, r) + Distance(w'.calls[r]) <= Distance(w.calls[r])
    decreases |steps|
  {
    if steps != [] {
      StepBringsCloser(c, w, steps[0], r);
      BoundedSteps(c, Next(c, w, steps[0]), steps[1..], w', r);
    }
  }

  lemma StepBringsCloser(c: Limits, w: World, step: Step, r: Id)
    requires Enabled(c, w, step) && r in w.calls
    ensures r in Next(c, w, step).calls
    ensures Distance(Next(c, w, step).calls[r]) + (if MovesOn(step, r) then 1 else 0) <= Distance(w.calls[r])
  {
  }

  /** A call that is outside the pool, or holds a slot, can move on by itself or by its upstream. */
  lemma MovesByItself(c: Limits, w: World, r: Id)
    requires Inv(c, w) && r in w.calls && !w.calls[r].Finished?
    requires w.calls[r].Acquiring? ==> w.pool.reqs[r].phase.Holding? || w.pool.reqs[r].phase.Turned?
    ensures exists step :: Enabled(c, w, step) && Drives(step)
  {
    assert Agrees(w.calls[r], w.pool.reqs[r].phase, w.records[r]);
    var step := match w.calls[r]
      case Fresh(_) => if w.closed then FindsClosed(r) else Passes(r)
      case Passed(_) => Enters(r, HIGH)
      case Acquiring(_) => if w.pool.reqs[r].phase.Holding? then Step.Admitted(r) else TurnedAway(r)
      case Calling(_) => UpstreamReturns(r, true)
      case Pumping => StreamEnds(r)
      case Recording => Records(r)
      case _ => Releases(r);
    assert Enabled(c, w, step) && Drives(step);
  }

  /** As long as a call is unfinished, something can move. */
  lemma NoCallIsStuck(c: Limits, w: World, r: Id)
    requires Inv(c, w) && r in w.calls && !w.calls[r].Finished?
    ensures exists step :: Enabled(c, w, step) && Drives(step)
  {
    var phase := w.pool.reqs[r].phase;
    if w.calls[r].Acquiring? && !phase.Holding? && !phase.Turned? {
      P.NoLostWakeup(c, w.pool, r);
      var p :| P.Enabled(c, w.pool, p) && P.Drives(p);
      if p.Release? {
        MovesByItself(c, w, p.r);
      } else {
        assert Enabled(c, w, PoolMoves(p)) && Drives(PoolMoves(p));
      }
    } else {
      MovesByItself(c, w, r);
    }
  }

  /** Every call comes to an end: it takes at most seven steps besides forwarding, and its request to the pool at
      most six; and where nothing can move any more, every call is finished and has given back what it got. */
  lemma EveryCallEnds(c: Limits, kinds: map<Id, Kind>, steps: seq<Step>, w: World, r: Id)
    requires c.maxConcurrent > 0 && Runs(c, Start(kinds), steps, w) && r in kinds
    ensures StepsOf(steps, r) <= 7 && P.StepsOf(AllPoolSteps(steps), r) <= 6
    ensures r in w.calls && r in w.pool.reqs
    ensures (forall step :: Enabled(c, w, step) ==> !Drives(step)) ==> w.calls[r].Finished? && !P.Owns(w.pool.reqs[r])
  {
    P.StartInv(c, kinds.Keys);
    RunKeepsInv(c, Start(kinds), steps, w);
    EveryRunIsAPoolRun(c, Start(kinds), steps, w);
    BoundedSteps(c, Start(kinds), steps, w, r);
    P.BoundedSteps(c, P.Start(kinds.Keys), AllPoolSteps(steps), w.pool, r);
    AdmittedMeansReleasedOnce(c, kinds, steps, w, r);
    if !w.calls[r].Finished? { NoCallIsStuck(c, w, r); }
  }

  // ------------------------------------------------------------------ the pump goroutine

  datatype Received = Message(text: string) | EndOfFile | Failure(reason: string)

  /** One turn of the pump's loop, as the environment lets it go: was the context done, what did the source deliver,
      and had the receiver gone when it was forwarded. */
  datatype Turn = Turn(contextDone: bool, received: Received, receiverGone: bool)

  datatype Item = Text(text: string) | Broken(reason: string)

  const CONTEXT_DONE := "context done"

  predicate Ends(t: Turn) {
    t.contextDone || !t.received.Message? || t.receiverGone
  }

  /** The turn in which the stream ends, or the number of turns if it is still open. */
  function EndOf(turns: seq<Turn>): (i: nat)
    ensures i <= |turns|
    ensures i < |turns| ==> Ends(turns[i])
    ensures forall j :: 0 <= j < i ==> !Ends(turns[j])
  {
    if turns == [] || Ends(turns[0]) then 0
    else
      var i := EndOf(turns[1..]);
      assert forall j :: 0 < j <= i && j < |turns| ==> turns[j] == turns[1..][j-1];
      i + 1
  }

  function FinalError(t: Turn): Option<string> {
    if t.contextDone then Some(CONTEXT_DONE) else if t.received.Failure? then Some(t.received.reason) else None
  }

  class Pump {
    var out: seq<Item>                       // what the receiver of the new stream gets
    var recorded: seq<Option<string>>        // the calls of onDone
    var released: nat                        // the calls of release
    var outClosed: bool
    var srcClosed: bool

    constructor ()
      ensures out == [] && recorded == [] && released == 0 && !outClosed && !srcClosed
    {
      out, recorded, released, outClosed, srcClosed := [], [], 0, false, false;
    }

    /** Forwards until the source ends, breaks, the receiver leaves or the context is done; then, and only then,
        reports once, releases once and closes both ends. Errors reach the receiver; a receiver that left is
        not reported as a failure. */
    method Forward(turns: seq<Turn>) returns (ended: bool)
      requires out == [] && recorded == [] && released == 0 && !outClosed && !srcClosed
      modifies this
      ensures ended <==> EndOf(turns) < |turns|
      ensures released == (if ended then 1 else 0) && outClosed == srcClosed == ended
      ensures recorded == if ended then [FinalError(turns[EndOf(turns)])] else []
      ensures |out| == EndOf(turns) + (if ended && FinalError(turns[EndOf(turns)]).Some? then 1 else 0)
      ensures forall i :: 0 <= i < EndOf(turns) ==> out[i] == Text(turns[i].received.text)
      ensures ended && FinalError(turns[EndOf(turns)]).Some? ==>
                out[EndOf(turns)] == Broken(FinalError(turns[EndOf(turns)]).value)
    {
      var finalErr: Option<string> := None;
      var i := 0;
      ended := false;
      while i < |turns| && !ended
        invariant 0 <= i <= |turns|
        invariant recorded == [] && released == 0 && !outClosed && !srcClosed
        invariant if ended then EndOf(turns) == i < |turns| else i <= EndOf(turns)
        invariant finalErr == if ended then FinalError(turns[i]) else None
        invariant |out| == i + (if finalErr.Some? then 1 else 0)
        invariant forall j :: 0 <= j < i ==> turns[j].received.Message? && out[j] == Text(turns[j].received.text)
        invariant finalErr.Some? ==> out[i] == Broken(finalErr.value)
        decreases |turns| - i, if ended then 0 else 1
      {
        var t := turns[i];
        if t.contextDone {
          finalErr := Some(CONTEXT_DONE);
          out := out + [Broken(CONTEXT_DONE)];
          ended := true;
        } else if !t.received.Message? {
          if t.received.Failure? {
            finalErr := Some(t.received.reason);
            out := out + [Broken(t.received.reason)];
          }
          ended := true;
        } else if t.receiverGone {
          ended := true;
        } else {
          out := out + [Text(t.received.text)];
          i := i + 1;
        }
      }
      if ended {
        recorded := recorded + [finalErr];
        released := released + 1;
        outClosed, srcClosed := true, true;
      }
    }
  }

  /** The breaker is told of a success exactly when the stream ended without an error of its own: at its end, but also
      when the receiver left. */
  lemma SuccessIsReportedExactlyWhen(turns: seq<Turn>)
    requires EndOf(turns) < |turns|
    ensures var t := turns[EndOf(turns)];
            FinalError(t) == None <==>
              !t.contextDone && (t.received.EndOfFile? || (t.received.Message? && t.receiverGone))
  {
  }

  /** A receiver that leaves at once: the breaker is told of a success all the same. */
  method LeavingIsReported(text: string) returns (p: Pump)
    ensures fresh(p) && p.recorded == [None] && p.released == 1 && p.out == []
  {
    p := new Pump();
    var turns := [Turn(false, Message(text), true)];
    var ended := p.Forward(turns);
  }
}
