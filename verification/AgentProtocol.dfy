/** Calls to local agents over every interleaving of callers, read loops, disconnections and take-overs
    (internal/agent/local/registry.go:93-148, 197-289).

    A step is one critical section or one channel operation. Identifiers of calls are never used twice. What an agent
    sends is arbitrary: frames with unknown, late, repeated or foreign identifiers included. */
module AgentProtocol {
  import opened Wrappers
  import A = LocalAgent

  type CallId = nat
  type SessionId = nat
  type User = nat

  datatype Reply = Frame(id: CallId, kind: A.FrameType) | Gone

  datatype Out = Got(id: CallId, kind: A.FrameType) | Failed(why: A.Failure)

  datatype Phase =
    | Writing            // on the desk, frame not written yet
    | Waiting            // in the select
    | Ending(out: Out)   // about to take itself off the desk
    | Finished(out: Out)

  /** `chan` is the content of the one-place channel, `sends` counts the sends to it. */
  datatype Call = Call(session: SessionId, want: A.FrameType, phase: Phase, chan: seq<Reply>, sends: nat)

  /** Where the goroutine running Attach is. */
  datatype Life =
    | Taking(previous: Option<SessionId>)          // registered, about to close the one it replaced
    | Reading
    | Delivering(id: CallId, kind: A.FrameType)    // took a call off the desk, about to send to it
    | Detaching                                    // the connection is gone
    | Closing                                      // out of the registry, about to close itself
    | Ended

  datatype Session = Session(user: User, desk: A.Desk<CallId>, life: Life)

  datatype State = State(registry: map<User, SessionId>, sessions: map<SessionId, Session>, calls: map<CallId, Call>)

  datatype Step =
    | Attach(s: SessionId, user: User)
    | CloseOld(s: SessionId)
    | Begin(c: CallId, to: SessionId, want: A.FrameType)
    | Write(c: CallId, ok: bool)
    | Receive(c: CallId)
    | Cancel(c: CallId)
    | End(c: CallId)
    | Arrive(s: SessionId, id: CallId, kind: A.FrameType)
    | Send(s: SessionId)
    | Disconnect(s: SessionId)
    | Detach(s: SessionId)
    | CloseSelf(s: SessionId)

  const START := State(map[], map[], map[])

  predicate Enabled(st: State, step: Step) {
    match step
    case Attach(s, _) => s !in st.sessions
    case CloseOld(s) => s in st.sessions && st.sessions[s].life.Taking?
    case Begin(c, to, _) => c !in st.calls && to in st.sessions
    case Write(c, _) => c in st.calls && st.calls[c].phase.Writing?
    case Receive(c) => c in st.calls && st.calls[c].phase.Waiting? && st.calls[c].chan != []
    case Cancel(c) => c in st.calls && st.calls[c].phase.Waiting?
    case End(c) => c in st.calls && st.calls[c].phase.Ending? && st.calls[c].session in st.sessions
    case Arrive(s, _, _) => s in st.sessions && st.sessions[s].life.Reading?
    case Send(s) =>
      && s in st.sessions && st.sessions[s].life.Delivering?
      && st.sessions[s].life.id in st.calls && |st.calls[st.sessions[s].life.id].chan| < 1
    case Disconnect(s) => s in st.sessions && st.sessions[s].life.Reading?
    case Detach(s) => s in st.sessions && st.sessions[s].life.Detaching?
    case CloseSelf(s) => s in st.sessions && st.sessions[s].life.Closing?
  }

  function Push(call: Call, r: Reply): Call {
    call.(chan := call.chan + [r], sends := call.sends + 1)
  }

  /** Close of session s: everyone on its desk is told, unless its channel is full. */
  function Shutting(st: State, s: SessionId): State
    requires s in st.sessions
  {
    var (desk, told) := A.Shut(st.sessions[s].desk);
    State(st.registry, st.sessions[s := st.sessions[s].(desk := desk)],
          map c | c in st.calls :: if c in told && |st.calls[c].chan| < 1 then Push(st.calls[c], Gone) else st.calls[c])
  }

  function SetLife(st: State, s: SessionId, life: Life): State
    requires s in st.sessions
  {
    st.(sessions := st.sessions[s := st.sessions[s].(life := life)])
  }

  function SetPhase(st: State, c: CallId, p: Phase): State
    requires c in st.calls
  {
    st.(calls := st.calls[c := st.calls[c].(phase := p)])
  }

  /** What roundTrip returns for the reply it received. */
  function OutOf(r: Reply, want: A.FrameType): Out {
    match r
    case Gone => Failed(A.Failure.Gone)
    case Frame(id, kind) => if kind != want then Failed(A.Unexpected(kind)) else Got(id, kind)
  }

  function Next(st: State, step: Step): State
    requires Enabled(st, step)
  {
    match step
    case Attach(s, user) =>
      var (registry, previous) := A.Swap(st.registry, user, s);
      State(registry, st.sessions[s := Session(user, A.Desk({}, false), Taking(previous))], st.calls)
    case CloseOld(s) =>
      (match st.sessions[s].life.previous
       case Some(o) => if o in st.sessions then SetLife(Shutting(st, o), s, Reading) else SetLife(st, s, Reading)
       case None => SetLife(st, s, Reading))
    case Begin(c, to, want) =>
      var (desk, ok) := A.Register(st.sessions[to].desk, c);
      st.(sessions := st.sessions[to := st.sessions[to].(desk := desk)],
          calls := st.calls[c := Call(to, want, if ok then Writing else Finished(Failed(A.Failure.Gone)), [], 0)])
    case Write(c, ok) => SetPhase(st, c, if ok then Waiting else Ending(Failed(A.WriteFailed)))
    case Receive(c) =>
      var call := st.calls[c];
      st.(calls := st.calls[c := call.(phase := Ending(OutOf(call.chan[0], call.want)), chan := call.chan[1..])])
    case Cancel(c) => SetPhase(st, c, Ending(Failed(A.ContextDone)))
    case End(c) =>
      var s := st.calls[c].session;
      SetPhase(st, c, Finished(st.calls[c].phase.out)).(
        sessions := st.sessions[s := st.sessions[s].(desk := A.Forget(st.sessions[s].desk, c))])
    case Arrive(s, id, kind) =>
      var (desk, taken) := A.Take(st.sessions[s].desk, id);
      var life := if taken then Delivering(id, kind) else Reading;
      st.(sessions := st.sessions[s := st.sessions[s].(desk := desk, life := life)])
    case Send(s) =>
      var (id, kind) := (st.sessions[s].life.id, st.sessions[s].life.kind);
      SetLife(st, s, Reading).(calls := st.calls[id := Push(st.calls[id], Frame(id, kind))])
    case Disconnect(s) => SetLife(st, s, Detaching)
    case Detach(s) => SetLife(st, s, Closing).(registry := A.Drop(st.registry, st.sessions[s].user, s))
    case CloseSelf(s) => SetLife(Shutting(st, s), s, Ended)
  }

  predicate Runs(st: State, steps: seq<Step>, st': State)
    decreases |steps|
  {
    if steps == [] then st' == st
    else Enabled(st, steps[0]) && Runs(Next(st, steps[0]), steps[1..], st')
  }

  // ------------------------------------------------------------------ the invariant

  predicate OnDesk(x: Session, c: CallId) {
    c in x.desk.pending
  }

  predicate BeingSent(x: Session, c: CallId) {
    x.life.Delivering? && x.life.id == c
  }

  /** A call against the session it was made to. */
  predicate Consistent(call: Call, c: CallId, x: Session) {
    && !(OnDesk(x, c) && BeingSent(x, c))
    && |call.chan| <= call.sends <= 1
    && (OnDesk(x, c) || BeingSent(x, c) ==> call.sends == 0)
    && (call.phase.Writing? || call.phase.Waiting? ==> OnDesk(x, c) || BeingSent(x, c) || |call.chan| == 1)
    && (call.phase.Finished? ==> !OnDesk(x, c))
    && (forall i :: 0 <= i < |call.chan| ==> Genuine(call.chan[i], c, x))
    && (call.phase.Ending? || call.phase.Finished? ==> Honest(call.phase.out, call.want, c, x))
  }

  /** A frame in a call's channel carries its identifier; the other message means that the session is closed. */
  predicate Genuine(r: Reply, c: CallId, x: Session) {
    match r case Frame(id, _) => id == c case Gone => x.desk.closed
  }

  /** A call returns a frame only with its own identifier and of the type it wants; that the agent is gone only when its
      session is closed; and an unexpected type only when it is one. */
  predicate Honest(out: Out, want: A.FrameType, c: CallId, x: Session) {
    match out
    case Got(id, kind) => id == c && kind == want
    case Failed(why) => (why == A.Failure.Gone ==> x.desk.closed) && (why.Unexpected? ==> why.got != want)
  }

  ghost predicate CallsOk(st: State) {
    forall c :: c in st.calls ==>
      st.calls[c].session in st.sessions && Consistent(st.calls[c], c, st.sessions[st.calls[c].session])
  }

  /** Sessions hold only calls made to them, closed ones none. */
  ghost predicate DesksOk(st: State) {
    forall s :: s in st.sessions ==>
      var x := st.sessions[s];
      && (forall c :: c in x.desk.pending ==> c in st.calls && st.calls[c].session == s)
      && (x.life.Delivering? ==> x.life.id in st.calls && st.calls[x.life.id].session == s)
      && (x.desk.closed ==> x.desk.pending == {})
  }

  predicate Registered(st: State, s: SessionId)
    requires s in st.sessions
  {
    st.sessions[s].user in st.registry && st.registry[st.sessions[s].user] == s
  }

  /** The registry holds live sessions under their users; a session being closed is not in it. */
  ghost predicate RegistryOk(st: State) {
    && (forall u :: u in st.registry ==> st.registry[u] in st.sessions && st.sessions[st.registry[u]].user == u)
    && (forall s :: s in st.sessions && Registered(st, s) ==>
          !st.sessions[s].desk.closed && !st.sessions[s].life.Closing? && !st.sessions[s].life.Ended?)
    && (forall s :: s in st.sessions && st.sessions[s].life.Taking? && st.sessions[s].life.previous.Some? ==>
          var o := st.sessions[s].life.previous.value;
          o in st.sessions && !Registered(st, o) && o != s)
  }

  ghost predicate Inv(st: State) {
    CallsOk(st) && DesksOk(st) && RegistryOk(st)
  }

  lemma StartInv()
    ensures Inv(START)
  {
  }

  // ------------------------------------------------------------------ every step keeps it

  /** A call is as consistent as before with a session that changed in nothing that concerns it. */
  lemma CallStays(call: Call, c: CallId, x: Session, x': Session)
    requires Consistent(call, c, x)
    requires (OnDesk(x', c) <==> OnDesk(x, c)) && (BeingSent(x', c) <==> BeingSent(x, c))
    requires x.desk.closed ==> x'.desk.closed
    ensures Consistent(call, c, x')
  {
    forall i | 0 <= i < |call.chan| ensures Genuine(call.chan[i], c, x') { assert Genuine(call.chan[i], c, x); }
  }

  /** Only the record of session s changed, in nothing that concerns any call. */
  lemma CallsStay(st: State, st': State, s: SessionId, x': Session)
    requires CallsOk(st) && s in st.sessions && st'.sessions == st.sessions[s := x'] && st'.calls == st.calls
    requires x'.desk == st.sessions[s].desk && !x'.life.Delivering? && !st.sessions[s].life.Delivering?
    ensures CallsOk(st')
  {
    forall c | c in st'.calls ensures Consistent(st'.calls[c], c, st'.sessions[st'.calls[c].session]) {
      CallStays(st.calls[c], c, st.sessions[st.calls[c].session], st'.sessions[st'.calls[c].session]);
    }
  }

  lemma AttachKeeps(st: State, s: SessionId, user: User)
    requires Inv(st) && Enabled(st, Attach(s, user))
    ensures Inv(Next(st, Attach(s, user)))
  {
    hide Consistent;
    AttachRegistry(st, s, user);
  }

  lemma AttachRegistry(st: State, s: SessionId, user: User)
    requires RegistryOk(st) && Enabled(st, Attach(s, user))
    ensures RegistryOk(Next(st, Attach(s, user)))
  {
    var st' := Next(st, Attach(s, user));
    forall o | o in st.sessions ensures Registered(st', o) ==> Registered(st, o) && st.sessions[o].user != user { }
  }

  /** Only one session's life changed, between phases in which it neither delivers nor is being closed. */
  lemma LifeKeeps(st: State, s: SessionId, life: Life)
    requires Inv(st) && s in st.sessions && !st.sessions[s].life.Delivering? && !life.Delivering? && !life.Taking?
    requires life.Closing? || life.Ended? ==> !Registered(st, s)
    ensures Inv(SetLife(st, s, life))
  {
    var st' := SetLife(st, s, life);
    CallsStay(st, st', s, st.sessions[s].(life := life));
    forall o | o in st.sessions ensures Registered(st', o) <==> Registered(st, o) { }
  }

  /** Closing a session that is not in the registry. */
  lemma ShutKeeps(st: State, s: SessionId)
    requires Inv(st) && s in st.sessions && !Registered(st, s)
    ensures Inv(Shutting(st, s)) && ShutFrame(st, Shutting(st, s))
  {
    hide Consistent, RegistryOk, ShutFrame;
    var st' := Shutting(st, s);
    forall c | c in st'.calls ensures Consistent(st'.calls[c], c, st'.sessions[st'.calls[c].session]) {
      ShutCall(st, s, c);
    }
    ShutRegistry(st, s);
  }

  /** Closing changes neither the registry nor where a session stands. */
  ghost predicate ShutFrame(st: State, st': State) {
    && st'.registry == st.registry && st'.sessions.Keys == st.sessions.Keys
    && forall o :: o in st.sessions ==>
         st'.sessions[o].life == st.sessions[o].life && st'.sessions[o].user == st.sessions[o].user
  }

  lemma ShutRegistry(st: State, s: SessionId)
    requires Inv(st) && s in st.sessions && !Registered(st, s)
    ensures RegistryOk(Shutting(st, s)) && ShutFrame(st, Shutting(st, s))
  {
    var st' := Shutting(st, s);
    forall o | o in st.sessions ensures Registered(st', o) <==> Registered(st, o) { }
  }

  lemma ShutCall(st: State, s: SessionId, c: CallId)
    requires Inv(st) && s in st.sessions && c in st.calls
    ensures var st' := Shutting(st, s); Consistent(st'.calls[c], c, st'.sessions[st'.calls[c].session])
  {
    var st' := Shutting(st, s);
    var x, x' := st.sessions[st.calls[c].session], st'.sessions[st.calls[c].session];
    assert Consistent(st.calls[c], c, x);
    if c in A.Shut(st.sessions[s].desk).1 {
      assert OnDesk(st.sessions[s], c) && st.calls[c].session == s;
    } else {
      CallStays(st.calls[c], c, x, x');
    }
  }

  lemma CloseOldKeeps(st: State, s: SessionId)
    requires Inv(st) && Enabled(st, CloseOld(s))
    ensures Inv(Next(st, CloseOld(s)))
  {
    match st.sessions[s].life.previous
    case Some(o) =>
      ShutKeeps(st, o);
      LifeKeeps(Shutting(st, o), s, Reading);
    case None => LifeKeeps(st, s, Reading);
  }

  lemma CloseSelfKeeps(st: State, s: SessionId)
    requires Inv(st) && Enabled(st, CloseSelf(s))
    ensures Inv(Next(st, CloseSelf(s)))
  {
    ShutKeeps(st, s);
    LifeKeeps(Shutting(st, s), s, Ended);
  }

  lemma DetachKeeps(st: State, s: SessionId)
    requires Inv(st) && Enabled(st, Detach(s))
    ensures Inv(Next(st, Detach(s)))
  {
    var u := st.sessions[s].user;
    var mid := st.(registry := A.Drop(st.registry, u, s));
    forall o | o in st.sessions ensures Registered(mid, o) ==> Registered(st, o) && o != s { }
    LifeKeeps(mid, s, Closing);
  }

  /** Session s and one of its calls, c, changed together: c may have joined or left the desk, or be sent to or not. */
  ghost predicate PairMoves(st: State, st': State, s: SessionId, c: CallId) {
    && s in st.sessions && s in st'.sessions && c in st'.calls
    && st'.registry == st.registry
    && st'.sessions == st.sessions[s := st'.sessions[s]] && st'.calls == st.calls[c := st'.calls[c]]
    && st'.calls[c].session == s && (c in st.calls ==> st.calls[c].session == s)
    && var x, x' := st.sessions[s], st'.sessions[s];
       && x'.user == x.user && x'.desk.closed == x.desk.closed
       && (x'.life == x.life || ((x.life.Reading? || x.life.Delivering?) && (x'.life.Reading? || x'.life.Delivering?)))
       && (forall d :: d != c ==> (OnDesk(x', d) <==> OnDesk(x, d)) && (BeingSent(x', d) <==> BeingSent(x, d)))
       && (x.desk.closed ==> !OnDesk(x', c))
       && Consistent(st'.calls[c], c, x')
  }

  lemma PairKeepsCalls(st: State, st': State, s: SessionId, c: CallId)
    requires Inv(st) && PairMoves(st, st', s, c)
    ensures CallsOk(st')
  {
    forall d | d in st'.calls && d != c ensures Consistent(st'.calls[d], d, st'.sessions[st'.calls[d].session]) {
      CallStays(st.calls[d], d, st.sessions[st.calls[d].session], st'.sessions[st.calls[d].session]);
    }
  }

  lemma PairKeepsDesks(st: State, st': State, s: SessionId, c: CallId)
    requires Inv(st) && PairMoves(st, st', s, c)
    ensures DesksOk(st')
  {
    var x, x' := st.sessions[s], st'.sessions[s];
    forall d | d in x'.desk.pending ensures d in st'.calls && st'.calls[d].session == s {
      if d != c { assert OnDesk(x, d); }
    }
    if x'.life.Delivering? && x'.life.id != c { assert BeingSent(x, x'.life.id); }
    if x'.desk.closed {
      forall d ensures d !in x'.desk.pending {
        if d != c { assert !OnDesk(x, d); }
      }
    }
  }

  lemma PairKeepsRegistry(st: State, st': State, s: SessionId, c: CallId)
    requires Inv(st) && PairMoves(st, st', s, c)
    ensures RegistryOk(st')
  {
    forall o | o in st.sessions ensures Registered(st', o) <==> Registered(st, o) { }
  }

  lemma PairKeeps(st: State, st': State, s: SessionId, c: CallId)
    requires Inv(st) && PairMoves(st, st', s, c)
    ensures Inv(st')
  {
    PairKeepsCalls(st, st', s, c);
    PairKeepsDesks(st, st', s, c);
    PairKeepsRegistry(st, st', s, c);
  }

  lemma BeginKeeps(st: State, c: CallId, to: SessionId, want: A.FrameType)
    requires Inv(st) && Enabled(st, Begin(c, to, want))
    ensures Inv(Next(st, Begin(c, to, want)))
  {
    assert c !in st.sessions[to].desk.pending;
    PairKeeps(st, Next(st, Begin(c, to, want)), to, c);
  }

  /** Only call c changed. */
  lemma CallKeeps(st: State, c: CallId, call: Call)
    requires Inv(st) && c in st.calls && call.session == st.calls[c].session
    requires Consistent(call, c, st.sessions[call.session])
    ensures Inv(st.(calls := st.calls[c := call]))
  {
    hide Consistent;
    var st' := st.(calls := st.calls[c := call]);
    forall o | o in st.sessions ensures Registered(st', o) <==> Registered(st, o) { }
  }

  lemma ReceiveKeeps(st: State, c: CallId)
    requires Inv(st) && Enabled(st, Receive(c))
    ensures Inv(Next(st, Receive(c)))
  {
    var call := st.calls[c];
    assert Consistent(call, c, st.sessions[call.session]);
    assert Genuine(call.chan[0], c, st.sessions[call.session]);
    CallKeeps(st, c, call.(phase := Ending(OutOf(call.chan[0], call.want)), chan := call.chan[1..]));
  }

  lemma PhaseKeeps(st: State, c: CallId, p: Phase)
    requires Inv(st) && c in st.calls && (st.calls[c].phase.Writing? || st.calls[c].phase.Waiting?)
    requires p == Waiting || p == Ending(Failed(A.WriteFailed)) || p == Ending(Failed(A.ContextDone))
    ensures Inv(SetPhase(st, c, p))
  {
    assert Consistent(st.calls[c], c, st.sessions[st.calls[c].session]);
    CallKeeps(st, c, st.calls[c].(phase := p));
  }

  lemma EndKeeps(st: State, c: CallId)
    requires Inv(st) && Enabled(st, End(c))
    ensures Inv(Next(st, End(c)))
  {
    var s := st.calls[c].session;
    assert Consistent(st.calls[c], c, st.sessions[s]);
    PairKeeps(st, Next(st, End(c)), s, c);
  }

  lemma ArriveKeeps(st: State, s: SessionId, id: CallId, kind: A.FrameType)
    requires Inv(st) && Enabled(st, Arrive(s, id, kind))
    ensures Inv(Next(st, Arrive(s, id, kind)))
  {
    var st' := Next(st, Arrive(s, id, kind));
    if id in st.sessions[s].desk.pending {
      assert Consistent(st.calls[id], id, st.sessions[s]);
      assert st'.calls == st.calls[id := st'.calls[id]];
      PairKeeps(st, st', s, id);
    } else {
      LateReplyIsDropped(st, s, id, kind);
    }
  }

  /** A frame for a call that is not on the desk of the session it came from changes nothing. */
  lemma LateReplyIsDropped(st: State, s: SessionId, id: CallId, kind: A.FrameType)
    requires Enabled(st, Arrive(s, id, kind)) && id !in st.sessions[s].desk.pending
    ensures Next(st, Arrive(s, id, kind)) == st
  {
    assert st.sessions[s].desk.pending - {id} == st.sessions[s].desk.pending;
  }

  lemma SendKeeps(st: State, s: SessionId)
    requires Inv(st) && Enabled(st, Send(s))
    ensures Inv(Next(st, Send(s)))
  {
    var id := st.sessions[s].life.id;
    assert Consistent(st.calls[id], id, st.sessions[s]);
    PairKeeps(st, Next(st, Send(s)), s, id);
  }

  lemma StepKeepsInv(st: State, step: Step)
    requires Inv(st) && Enabled(st, step)
    ensures Inv(Next(st, step))
  {
    match step
    case Attach(s, user) => AttachKeeps(st, s, user);
    case CloseOld(s) => CloseOldKeeps(st, s);
    case Begin(c, to, want) => BeginKeeps(st, c, to, want);
    case Write(c, ok) => PhaseKeeps(st, c, if ok then Waiting else Ending(Failed(A.WriteFailed)));
    case Receive(c) => ReceiveKeeps(st, c);
    case Cancel(c) => PhaseKeeps(st, c, Ending(Failed(A.ContextDone)));
    case End(c) => EndKeeps(st, c);
    case Arrive(s, id, kind) => ArriveKeeps(st, s, id, kind);
    case Send(s) => SendKeeps(st, s);
    case Disconnect(s) => LifeKeeps(st, s, Detaching);
    case Detach(s) => DetachKeeps(st, s);
    case CloseSelf(s) => CloseSelfKeeps(st, s);
  }

  lemma {:induction false} RunKeepsInv(st: State, steps: seq<Step>, st': State)
    requires Inv(st) && Runs(st, steps, st')
    ensures Inv(st')
    decreases |steps|
  {
    if steps != [] {
      StepKeepsInv(st, steps[0]);
      RunKeepsInv(Next(st, steps[0]), steps[1..], st');
    }
  }

  // ------------------------------------------------------------------ what the protocol guarantees

  /** In every reachable state: a call's channel has been sent to at most once, whoever is about to send to it
      is not blocked, and what it holds is the reply to that very call or the news that its session is closed. */
  lemma EveryReplyOnceAndToItsCall(steps: seq<Step>, st: State, c: CallId)
    requires Runs(START, steps, st) && c in st.calls
    ensures var call := st.calls[c];
      && |call.chan| <= call.sends <= 1
      && call.session in st.sessions
      && (BeingSent(st.sessions[call.session], c) ==> Enabled(st, Send(call.session)) && call.sends == 0)
      && (forall i :: 0 <= i < |call.chan| ==> Genuine(call.chan[i], c, st.sessions[call.session]))
      && (call.phase.Ending? || call.phase.Finished? ==>
            Honest(call.phase.out, call.want, c, st.sessions[call.session]))
  {
    StartInv();
    RunKeepsInv(START, steps, st);
  }

  /** In every reachable state: nothing is pending on a closed session, and each of its calls that still waits has its
      reply, or the news, in its channel, or is just being sent its reply: it can go on without the agent. */
  lemma ClosedSessionWakesEveryone(steps: seq<Step>, st: State, c: CallId)
    requires Runs(START, steps, st) && c in st.calls
    requires st.calls[c].session in st.sessions && st.sessions[st.calls[c].session].desk.closed
    ensures var s := st.calls[c].session;
      && st.sessions[s].desk.pending == {}
      && (st.calls[c].phase.Waiting? ==>
            Enabled(st, Receive(c)) || (BeingSent(st.sessions[s], c) && Enabled(st, Send(s))))
      && (st.calls[c].phase.Writing? ==> |st.calls[c].chan| == 1 || BeingSent(st.sessions[s], c))
  {
    StartInv();
    RunKeepsInv(START, steps, st);
    assert Consistent(st.calls[c], c, st.sessions[st.calls[c].session]);
  }

  lemma ClosedStep(st: State, step: Step, s: SessionId)
    requires Enabled(st, step) && s in st.sessions
    ensures s in Next(st, step).sessions && Next(st, step).sessions[s].user == st.sessions[s].user
    ensures st.sessions[s].desk.closed ==> Next(st, step).sessions[s].desk.closed
  {
  }

  /** A closed session stays closed, and no call is ever put on its desk again. */
  lemma {:induction false} ClosedForGood(st: State, steps: seq<Step>, st': State, s: SessionId)
    requires Inv(st) && Runs(st, steps, st') && s in st.sessions && st.sessions[s].desk.closed
    ensures s in st'.sessions && st'.sessions[s].desk == A.Desk({}, true)
    ensures !Registered(st', s)
    decreases |steps|
  {
    if steps == [] {
    } else {
      StepKeepsInv(st, steps[0]);
      ClosedStep(st, steps[0], s);
      ClosedForGood(Next(st, steps[0]), steps[1..], st', s);
    }
  }

  /** In every reachable state: whoever looks a user up finds that user's own session, and one that is open. */
  lemma RegistryHoldsOpenSessions(steps: seq<Step>, st: State, u: User)
    requires Runs(START, steps, st) && u in st.registry
    ensures st.registry[u] in st.sessions
    ensures st.sessions[st.registry[u]].user == u && !st.sessions[st.registry[u]].desk.closed
  {
    StartInv();
    RunKeepsInv(START, steps, st);
    assert Registered(st, st.registry[u]);
  }

  /** What a user is registered with changes only when that very session detaches or a new connection takes over:
      the clean-up of a session that was replaced leaves its successor alone. */
  lemma OnlyItselfOrSuccessor(st: State, step: Step, u: User)
    requires Enabled(st, step) && u in st.registry
    requires u !in Next(st, step).registry || Next(st, step).registry[u] != st.registry[u]
    ensures step == Detach(st.registry[u]) || (step.Attach? && step.user == u)
  {
  }

  /** A registered session stays registered as long as it has not detached and nobody has taken over. */
  lemma {:induction false} StaysRegistered(st: State, steps: seq<Step>, st': State, u: User)
    requires Inv(st) && Runs(st, steps, st') && u in st.registry
    requires forall i :: 0 <= i < |steps| ==>
               steps[i] != Detach(st.registry[u]) && !(steps[i].Attach? && steps[i].user == u)
    ensures u in st'.registry && st'.registry[u] == st.registry[u]
    decreases |steps|
  {
    if steps != [] {
      var st1 := Next(st, steps[0]);
      StepKeepsInv(st, steps[0]);
      if u !in st1.registry || st1.registry[u] != st.registry[u] { OnlyItselfOrSuccessor(st, steps[0], u); }
      StaysRegistered(st1, steps[1..], st', u);
    }
  }

  // ------------------------------------------------------------------ replies reach their calls

  /** The frame of that kind is on its way to call c, or in its channel. */
  predicate Due(st: State, c: CallId, kind: A.FrameType) {
    && c in st.calls && st.calls[c].session in st.sessions
    && (st.calls[c].phase.Writing? || st.calls[c].phase.Waiting?)
    && (|| (st.sessions[st.calls[c].session].life == Delivering(c, kind) && st.calls[c].chan == [])
        || st.calls[c].chan == [Frame(c, kind)])
  }

  /** Call c returns with the frame if it is of the type it wants, and with an error that names the type otherwise. */
  predicate Answered(st: State, c: CallId, kind: A.FrameType) {
    && c in st.calls && (st.calls[c].phase.Ending? || st.calls[c].phase.Finished?)
    && st.calls[c].phase.out == if kind == st.calls[c].want then Got(c, kind) else Failed(A.Unexpected(kind))
  }

  lemma AnsweredStays(st: State, step: Step, c: CallId, kind: A.FrameType)
    requires Enabled(st, step) && Answered(st, c, kind)
    ensures Answered(Next(st, step), c, kind)
  {
  }

  lemma DueIsOffDesks(st: State, o: SessionId, c: CallId, kind: A.FrameType)
    requires Inv(st) && o in st.sessions && Due(st, c, kind)
    ensures !OnDesk(st.sessions[o], c)
  {
    assert Consistent(st.calls[c], c, st.sessions[st.calls[c].session]);
  }

  /** Closing a session changes nothing for a call whose frame is on its way. */
  lemma ClosingLeavesDue(st: State, o: SessionId, c: CallId, kind: A.FrameType)
    requires Inv(st) && o in st.sessions && Due(st, c, kind)
    ensures Due(Shutting(st, o), c, kind)
  {
    DueIsOffDesks(st, o, c, kind);
  }

  lemma LifeLeavesDue(st: State, s: SessionId, life: Life, c: CallId, kind: A.FrameType)
    requires s in st.sessions && !st.sessions[s].life.Delivering? && Due(st, c, kind)
    ensures Due(SetLife(st, s, life), c, kind)
  {
  }

  lemma ReplacedIsKnown(st: State, s: SessionId, o: SessionId)
    requires Inv(st) && s in st.sessions && st.sessions[s].life == Taking(Some(o))
    ensures o in st.sessions
  {
  }

  lemma DueStays(st: State, step: Step, c: CallId, kind: A.FrameType)
    requires Inv(st) && Enabled(st, step) && Due(st, c, kind)
    requires step != Cancel(c) && step != Write(c, false)
    ensures Due(Next(st, step), c, kind) || Answered(Next(st, step), c, kind)
  {
    if step.CloseOld? {
      hide Inv, Due, Answered, Shutting;
      match st.sessions[step.s].life.previous
      case None => LifeLeavesDue(st, step.s, Reading, c, kind);
      case Some(o) =>
        ReplacedIsKnown(st, step.s, o);
        ClosingLeavesDue(st, o, c, kind);
        LifeLeavesDue(Shutting(st, o), step.s, Reading, c, kind);
    } else if step.CloseSelf? {
      hide Inv, Due, Answered, Shutting;
      ClosingLeavesDue(st, step.s, c, kind);
      LifeLeavesDue(Shutting(st, step.s), step.s, Ended, c, kind);
    } else {
      OpenStepLeavesDue(st, step, c, kind);
    }
  }

  lemma OpenStepLeavesDue(st: State, step: Step, c: CallId, kind: A.FrameType)
    requires Inv(st) && Enabled(st, step) && Due(st, c, kind)
    requires step != Cancel(c) && step != Write(c, false) && !step.CloseOld? && !step.CloseSelf?
    ensures Due(Next(st, step), c, kind) || Answered(Next(st, step), c, kind)
  {
    hide RegistryOk;
    assert Consistent(st.calls[c], c, st.sessions[st.calls[c].session]);
  }

  /** A frame for a call that is on the desk is sent to it, whatever happens in between: the call returns with it unless
      it gives up or fails to write its own frame first, and until it returns one of the two steps that are left to it
      can be taken. */
  lemma {:induction false} FrameReachesItsCall(st: State, s: SessionId, c: CallId, kind: A.FrameType, steps: seq<Step>,
                                               st': State)
    requires Inv(st) && Enabled(st, Arrive(s, c, kind)) && c in st.sessions[s].desk.pending
    requires st.calls[c].phase.Writing? || st.calls[c].phase.Waiting?
    requires Runs(Next(st, Arrive(s, c, kind)), steps, st')
    requires Cancel(c) !in steps && Write(c, false) !in steps
    ensures Answered(st', c, kind) || Due(st', c, kind)
    ensures Due(st', c, kind) ==> Enabled(st', Send(s)) || Enabled(st', Write(c, true)) || Enabled(st', Receive(c))
  {
    assert Consistent(st.calls[c], c, st.sessions[s]);
    StepKeepsInv(st, Arrive(s, c, kind));
    DueAlongRun(Next(st, Arrive(s, c, kind)), s, c, kind, steps, st');
  }

  lemma {:induction false} DueAlongRun(st: State, s: SessionId, c: CallId, kind: A.FrameType, steps: seq<Step>,
                                       st': State)
    requires Inv(st) && (Due(st, c, kind) || Answered(st, c, kind)) && Runs(st, steps, st')
    requires c in st.calls && st.calls[c].session == s
    requires Cancel(c) !in steps && Write(c, false) !in steps
    ensures Answered(st', c, kind) || Due(st', c, kind)
    ensures c in st'.calls && st'.calls[c].session == s
    decreases |steps|
  {
    hide Inv, Due, Answered;
    if steps != [] {
      StepKeepsInv(st, steps[0]);
      KeepsSession(st, steps[0], c);
      if Due(st, c, kind) { DueStays(st, steps[0], c, kind); } else { AnsweredStays(st, steps[0], c, kind); }
      DueAlongRun(Next(st, steps[0]), s, c, kind, steps[1..], st');
    }
  }

  lemma KeepsSession(st: State, step: Step, c: CallId)
    requires Enabled(st, step) && c in st.calls
    ensures c in Next(st, step).calls && Next(st, step).calls[c].session == st.calls[c].session
  {
  }

  /** A frame in the channel of call c came from the agent of its session. */
  predicate WasSent(r: Reply, c: CallId, s: SessionId, past: seq<Step>) {
    match r case Frame(id, kind) => id == c && Arrive(s, c, kind) in past case Gone => true
  }

  /** What call c returns is what has happened to it. */
  predicate HasReason(out: Out, c: CallId, s: SessionId, past: seq<Step>) {
    match out
    case Got(id, kind) => id == c && Arrive(s, c, kind) in past
    case Failed(WriteFailed) => Write(c, false) in past
    case Failed(ContextDone) => Cancel(c) in past
    case Failed(Unexpected(kind)) => Arrive(s, c, kind) in past
    case _ => true
  }

  predicate CallKnown(call: Call, c: CallId, past: seq<Step>) {
    && (forall i :: 0 <= i < |call.chan| ==> WasSent(call.chan[i], c, call.session, past))
    && (call.phase.Ending? || call.phase.Finished? ==> HasReason(call.phase.out, c, call.session, past))
  }

  ghost predicate Known(st: State, past: seq<Step>) {
    && (forall c :: c in st.calls ==> CallKnown(st.calls[c], c, past))
    && (forall s :: s in st.sessions && st.sessions[s].life.Delivering? ==>
          Arrive(s, st.sessions[s].life.id, st.sessions[s].life.kind) in past)
  }

  lemma MoreIsKnown(call: Call, c: CallId, past: seq<Step>, step: Step)
    requires CallKnown(call, c, past)
    ensures CallKnown(call, c, past + [step])
  {
    forall i | 0 <= i < |call.chan| ensures WasSent(call.chan[i], c, call.session, past + [step]) {
      assert WasSent(call.chan[i], c, call.session, past);
    }
  }

  lemma CallStaysKnown(st: State, past: seq<Step>, step: Step, c: CallId)
    requires Inv(st) && Known(st, past) && Enabled(st, step) && c in Next(st, step).calls
    ensures CallKnown(Next(st, step).calls[c], c, past + [step])
  {
    hide CallKnown, Inv, Next, Enabled;
    if c !in st.calls {
      NewIsKnown(st, past, step, c);
    } else if step == Receive(c) {
      ReceivedIsKnown(st, past, c);
    } else if step.CloseOld? || step.CloseSelf? {
      ToldIsKnown(st, past, step, c);
    } else if step.Send? {
      SentIsKnown(st, past, step.s, c);
    } else {
      OtherIsKnown(st, past, step, c);
    }
  }

  lemma NewIsKnown(st: State, past: seq<Step>, step: Step, c: CallId)
    requires Enabled(st, step) && c !in st.calls && c in Next(st, step).calls
    ensures CallKnown(Next(st, step).calls[c], c, past + [step])
  {
  }

  lemma ReceivedIsKnown(st: State, past: seq<Step>, c: CallId)
    requires Known(st, past) && Enabled(st, Receive(c))
    ensures CallKnown(Next(st, Receive(c)).calls[c], c, past + [Receive(c)])
  {
    MoreIsKnown(st.calls[c], c, past, Receive(c));
    assert WasSent(st.calls[c].chan[0], c, st.calls[c].session, past + [Receive(c)]);
  }

  lemma ClosingTellsAtMost(st: State, step: Step, c: CallId)
    requires Enabled(st, step) && (step.CloseOld? || step.CloseSelf?) && c in st.calls
    ensures c in Next(st, step).calls
    ensures var call := st.calls[c]; Next(st, step).calls[c] == call || Next(st, step).calls[c] == Push(call, Gone)
  {
  }

  lemma ToldIsKnown(st: State, past: seq<Step>, step: Step, c: CallId)
    requires Known(st, past) && Enabled(st, step) && (step.CloseOld? || step.CloseSelf?) && c in st.calls
    ensures c in Next(st, step).calls && CallKnown(Next(st, step).calls[c], c, past + [step])
  {
    hide Next, Enabled;
    MoreIsKnown(st.calls[c], c, past, step);
    ClosingTellsAtMost(st, step, c);
  }

  lemma SentIsKnown(st: State, past: seq<Step>, s: SessionId, c: CallId)
    requires Inv(st) && Known(st, past) && Enabled(st, Send(s)) && c in st.calls
    ensures c in Next(st, Send(s)).calls && CallKnown(Next(st, Send(s)).calls[c], c, past + [Send(s)])
  {
    MoreIsKnown(st.calls[c], c, past, Send(s));
  }

  lemma OpenStepKeepsChannel(st: State, step: Step, c: CallId)
    requires Enabled(st, step) && c in st.calls
    requires !step.CloseOld? && !step.CloseSelf? && !step.Send? && step != Receive(c)
    ensures c in Next(st, step).calls
    ensures var call, call' := st.calls[c], Next(st, step).calls[c];
      && call'.chan == call.chan && call'.session == call.session
      && (call'.phase.Ending? || call'.phase.Finished? ==>
            || ((call.phase.Ending? || call.phase.Finished?) && call'.phase.out == call.phase.out)
            || (step == Write(c, false) && call'.phase.out == Failed(A.WriteFailed))
            || (step == Cancel(c) && call'.phase.out == Failed(A.ContextDone)))
  {
  }

  lemma OtherIsKnown(st: State, past: seq<Step>, step: Step, c: CallId)
    requires Known(st, past) && Enabled(st, step) && c in st.calls
    requires !step.CloseOld? && !step.CloseSelf? && !step.Send? && step != Receive(c)
    ensures c in Next(st, step).calls && CallKnown(Next(st, step).calls[c], c, past + [step])
  {
    hide Next, Enabled;
    MoreIsKnown(st.calls[c], c, past, step);
    OpenStepKeepsChannel(st, step, c);
  }

  lemma StepIsKnown(st: State, past: seq<Step>, step: Step)
    requires Inv(st) && Known(st, past) && Enabled(st, step)
    ensures Known(Next(st, step), past + [step])
  {
    hide CallKnown;
    var st' := Next(st, step);
    forall c | c in st'.calls ensures CallKnown(st'.calls[c], c, past + [step]) {
      CallStaysKnown(st, past, step, c);
    }
  }

  lemma {:induction false} RunIsKnown(st: State, past: seq<Step>, steps: seq<Step>, st': State)
    requires Inv(st) && Known(st, past) && Runs(st, steps, st')
    ensures Known(st', past + steps)
    decreases |steps|
  {
    hide Known, Inv;
    if steps == [] {
      assert past + steps == past;
    } else {
      StepKeepsInv(st, steps[0]);
      StepIsKnown(st, past, steps[0]);
      RunIsKnown(Next(st, steps[0]), past + [steps[0]], steps[1..], st');
      assert past + [steps[0]] + steps[1..] == past + steps;
    }
  }

  /** In every run: a call that returned a frame was sent it by the agent of its own session under its own identifier,
      an unexpected type likewise; and a call that says it failed to write, or gave up, did. */
  lemma NothingIsMadeUp(steps: seq<Step>, st: State, c: CallId, out: Out)
    requires Runs(START, steps, st) && c in st.calls
    requires st.calls[c].phase == Finished(out)
    ensures forall id, kind :: out == Got(id, kind) ==> id == c && Arrive(st.calls[c].session, c, kind) in steps
    ensures forall kind :: out == Failed(A.Unexpected(kind)) ==> Arrive(st.calls[c].session, c, kind) in steps
    ensures out == Failed(A.WriteFailed) ==> Write(c, false) in steps
    ensures out == Failed(A.ContextDone) ==> Cancel(c) in steps
  {
    StartInv();
    RunIsKnown(START, [], steps, st);
    assert [] + steps == steps;
  }

  // ------------------------------------------------------------------ whoever is gone is closed and wakes its callers

  /** Somebody has taken the place of session x and is about to close it. */
  ghost predicate Doomed(st: State, x: SessionId) {
    exists s :: s in st.sessions && st.sessions[s].life == Taking(Some(x))
  }

  /** A session that is no longer registered is closed, or about to be; one that has ended is closed. */
  ghost predicate NobodyForgotten(st: State) {
    forall x :: x in st.sessions ==>
      && (st.sessions[x].life.Ended? ==> st.sessions[x].desk.closed)
      && (!Registered(st, x) ==> st.sessions[x].desk.closed || st.sessions[x].life.Closing? || Doomed(st, x))
  }

  /** A life outside the phases that matter for who closes whom. */
  predicate Ordinary(life: Life) {
    life.Reading? || life.Delivering? || life.Detaching?
  }

  /** Neither the registry nor who is closed changes, and lives only between ordinary phases. */
  ghost predicate Calm(st: State, st': State) {
    && st'.registry == st.registry && st'.sessions.Keys == st.sessions.Keys
    && forall s :: s in st.sessions ==>
         && st'.sessions[s].user == st.sessions[s].user && st'.sessions[s].desk.closed == st.sessions[s].desk.closed
         && (st'.sessions[s].life == st.sessions[s].life
             || (Ordinary(st.sessions[s].life) && Ordinary(st'.sessions[s].life)))
  }

  lemma CalmKeepsNobodyForgotten(st: State, st': State)
    requires NobodyForgotten(st) && Calm(st, st')
    ensures NobodyForgotten(st')
  {
    forall x | x in st'.sessions && Doomed(st, x) ensures Doomed(st', x) {
      var s :| s in st.sessions && st.sessions[s].life == Taking(Some(x));
      assert st'.sessions[s].life == Taking(Some(x));
    }
  }

  lemma CallIsCalm(st: State, step: Step)
    requires Enabled(st, step) && (step.Begin? || step.Write? || step.Receive? || step.Cancel? || step.End?)
    ensures Calm(st, Next(st, step))
  {
  }

  lemma ReadingIsCalm(st: State, step: Step)
    requires Enabled(st, step) && (step.Arrive? || step.Send? || step.Disconnect?)
    ensures Calm(st, Next(st, step))
  {
  }

  lemma AttachForgetsNobody(st: State, s: SessionId, user: User)
    requires Inv(st) && NobodyForgotten(st) && Enabled(st, Attach(s, user))
    ensures NobodyForgotten(Next(st, Attach(s, user)))
  {
    var st' := Next(st, Attach(s, user));
    forall x | x in st.sessions && Doomed(st, x) ensures Doomed(st', x) {
      var y :| y in st.sessions && st.sessions[y].life == Taking(Some(x));
      assert st'.sessions[y].life == Taking(Some(x));
    }
    forall x | x in st.sessions && Registered(st, x) && !Registered(st', x) ensures Doomed(st', x) {
      assert st'.sessions[s].life == Taking(Some(x));
    }
  }

  /** Session s has closed session o, perhaps itself, and gone on. */
  lemma ClosingForgetsNobody(st: State, st': State, s: SessionId, o: SessionId)
    requires NobodyForgotten(st) && s in st.sessions && o in st.sessions
    requires st'.registry == st.registry && st'.sessions.Keys == st.sessions.Keys
    requires forall x :: x in st.sessions ==>
               && st'.sessions[x].user == st.sessions[x].user
               && (x != s ==> st'.sessions[x].life == st.sessions[x].life)
               && (st'.sessions[x].desk.closed <==> st.sessions[x].desk.closed || x == o)
    requires st.sessions[s].life == Taking(Some(o)) || s == o
    requires if s == o then st.sessions[s].life.Closing? && st'.sessions[s].life.Ended?
             else st'.sessions[s].life.Reading?
    ensures NobodyForgotten(st')
  {
    forall x | x in st.sessions && x != o && Doomed(st, x) ensures Doomed(st', x) {
      var y :| y in st.sessions && st.sessions[y].life == Taking(Some(x));
      assert st'.sessions[y].life == Taking(Some(x));
    }
  }

  lemma DetachForgetsNobody(st: State, s: SessionId)
    requires Inv(st) && NobodyForgotten(st) && Enabled(st, Detach(s))
    ensures NobodyForgotten(Next(st, Detach(s)))
  {
    var st' := Next(st, Detach(s));
    forall x | x in st.sessions && Doomed(st, x) ensures Doomed(st', x) {
      var y :| y in st.sessions && st.sessions[y].life == Taking(Some(x));
      assert st'.sessions[y].life == Taking(Some(x));
    }
  }

  lemma CloseSelfForgetsNobody(st: State, s: SessionId)
    requires NobodyForgotten(st) && Enabled(st, CloseSelf(s))
    ensures NobodyForgotten(Next(st, CloseSelf(s)))
  {
    ClosingForgetsNobody(st, Next(st, CloseSelf(s)), s, s);
  }

  lemma CloseOldForgetsNobody(st: State, s: SessionId)
    requires Inv(st) && NobodyForgotten(st) && Enabled(st, CloseOld(s))
    ensures NobodyForgotten(Next(st, CloseOld(s)))
  {
    if st.sessions[s].life.previous.Some? {
      ClosingForgetsNobody(st, Next(st, CloseOld(s)), s, st.sessions[s].life.previous.value);
    } else {
      NothingToClose(st, s);
    }
  }

  lemma StepKeepsNobodyForgotten(st: State, step: Step)
    requires Inv(st) && NobodyForgotten(st) && Enabled(st, step)
    ensures NobodyForgotten(Next(st, step))
  {
    hide Next, Inv, NobodyForgotten, Calm;
    match step
    case Attach(s, user) => AttachForgetsNobody(st, s, user);
    case Detach(s) => DetachForgetsNobody(st, s);
    case CloseSelf(s) => CloseSelfForgetsNobody(st, s);
    case CloseOld(s) => CloseOldForgetsNobody(st, s);
    case _ =>
      if step.Arrive? || step.Send? || step.Disconnect? { ReadingIsCalm(st, step); } else { CallIsCalm(st, step); }
      CalmKeepsNobodyForgotten(st, Next(st, step));
  }

  lemma NothingToClose(st: State, s: SessionId)
    requires NobodyForgotten(st) && s in st.sessions && st.sessions[s].life == Taking(None)
    ensures NobodyForgotten(Next(st, CloseOld(s)))
  {
    var st' := Next(st, CloseOld(s));
    forall x | x in st.sessions && Doomed(st, x) ensures Doomed(st', x) {
      var y :| y in st.sessions && st.sessions[y].life == Taking(Some(x));
      assert st'.sessions[y].life == Taking(Some(x));
    }
  }

  lemma {:induction false} RunKeepsNobodyForgotten(st: State, steps: seq<Step>, st': State)
    requires Inv(st) && NobodyForgotten(st) && Runs(st, steps, st')
    ensures NobodyForgotten(st')
    decreases |steps|
  {
    if steps != [] {
      StepKeepsInv(st, steps[0]);
      StepKeepsNobodyForgotten(st, steps[0]);
      RunKeepsNobodyForgotten(Next(st, steps[0]), steps[1..], st');
    }
  }

  /** Steps taken without anybody connecting, disconnecting, calling, cancelling or answering. */
  predicate Drives(step: Step) {
    || step.Write? || step.Receive? || step.End? || step.Send?
    || step.CloseOld? || step.Detach? || step.CloseSelf?
  }

  /** The session has been replaced, has lost its connection, or is closed. */
  predicate IsGone(st: State, s: SessionId)
    requires s in st.sessions
  {
    var life := st.sessions[s].life;
    !Registered(st, s) || life.Detaching? || life.Closing? || life.Ended? || st.sessions[s].desk.closed
  }

  /** No call waits in vain for an agent that is gone. */
  lemma NoCallWaitsInVain(st: State, c: CallId)
    requires Inv(st) && NobodyForgotten(st) && c in st.calls && !st.calls[c].phase.Finished?
    requires st.calls[c].session in st.sessions && IsGone(st, st.calls[c].session)
    ensures exists step :: Enabled(st, step) && Drives(step)
  {
    var s := st.calls[c].session;
    var call, x := st.calls[c], st.sessions[s];
    assert Consistent(call, c, x);
    if call.phase.Writing? {
      assert Enabled(st, Write(c, true)) && Drives(Write(c, true));
    } else if call.phase.Ending? {
      assert Enabled(st, End(c)) && Drives(End(c));
    } else if call.chan != [] {
      assert Enabled(st, Receive(c)) && Drives(Receive(c));
    } else if BeingSent(x, c) {
      assert Enabled(st, Send(s)) && Drives(Send(s));
    } else if x.life.Detaching? {
      assert Enabled(st, Detach(s)) && Drives(Detach(s));
    } else if x.life.Closing? {
      assert Enabled(st, CloseSelf(s)) && Drives(CloseSelf(s));
    } else {
      var y :| y in st.sessions && st.sessions[y].life == Taking(Some(s));
      assert Enabled(st, CloseOld(y)) && Drives(CloseOld(y));
    }
  }

  /** How many steps of its own a call still has. */
  function ToGo(p: Phase): nat {
    match p case Writing => 3 case Waiting => 2 case Ending(_) => 1 case Finished(_) => 0
  }

  predicate IsStepOf(step: Step, c: CallId) {
    (step.Write? || step.Receive? || step.Cancel? || step.End?) && step.c == c
  }

  function StepsOf(steps: seq<Step>, c: CallId): nat {
    if steps == [] then 0 else (if IsStepOf(steps[0], c) then 1 else 0) + StepsOf(steps[1..], c)
  }

  lemma StepBringsCloser(st: State, step: Step, c: CallId)
    requires Enabled(st, step) && c in st.calls
    ensures c in Next(st, step).calls
    ensures ToGo(Next(st, step).calls[c].phase) + (if IsStepOf(step, c) then 1 else 0) <= ToGo(st.calls[c].phase)
  {
  }

  lemma {:induction false} BoundedSteps(st: State, steps: seq<Step>, st': State, c: CallId)
    requires Runs(st, steps, st') && c in st.calls
    ensures c in st'.calls && StepsOf(steps, c) + ToGo(st'.calls[c].phase) <= ToGo(st.calls[c].phase)
    decreases |steps|
  {
    if steps != [] {
      StepBringsCloser(st, steps[0], c);
      BoundedSteps(Next(st, steps[0]), steps[1..], st', c);
    }
  }

  /** How far a session is from its end. */
  function LifeLeft(life: Life): nat {
    match life
    case Taking(_) => 4
    case Reading => 3
    case Delivering(_, _) => 3
    case Detaching => 2
    case Closing => 1
    case Ended => 0
  }

  predicate IsTurnOf(step: Step, s: SessionId) {
    (step.CloseOld? || step.Disconnect? || step.Detach? || step.CloseSelf?) && step.s == s
  }

  function TurnsOf(steps: seq<Step>, s: SessionId): nat {
    if steps == [] then 0 else (if IsTurnOf(steps[0], s) then 1 else 0) + TurnsOf(steps[1..], s)
  }

  lemma StepEndsLife(st: State, step: Step, s: SessionId)
    requires Enabled(st, step) && s in st.sessions
    ensures s in Next(st, step).sessions
    ensures LifeLeft(Next(st, step).sessions[s].life) + (if IsTurnOf(step, s) then 1 else 0)
            <= LifeLeft(st.sessions[s].life)
  {
  }

  lemma {:induction false} BoundedTurns(st: State, steps: seq<Step>, st': State, s: SessionId)
    requires Runs(st, steps, st') && s in st.sessions
    ensures s in st'.sessions && TurnsOf(steps, s) + LifeLeft(st'.sessions[s].life) <= LifeLeft(st.sessions[s].life)
    decreases |steps|
  {
    if steps != [] {
      StepEndsLife(st, steps[0], s);
      BoundedTurns(Next(st, steps[0]), steps[1..], st', s);
    }
  }

  /** In every reachable state: a session that has ended is closed, and one that has been replaced or has lost its
      connection is closed, or about to be closed by itself or by its successor. */
  lemma WhoeverIsGoneIsClosed(steps: seq<Step>, st: State)
    requires Runs(START, steps, st)
    ensures NobodyForgotten(st)
  {
    StartInv();
    RunKeepsNobodyForgotten(START, steps, st);
  }

  /** As long as a call to an agent that is gone has not returned, something can move: where nothing can move any more,
      every such call has returned. */
  lemma EveryCallReturnsOnceGone(steps: seq<Step>, st: State, c: CallId)
    requires Runs(START, steps, st) && c in st.calls
    ensures st.calls[c].session in st.sessions
    ensures IsGone(st, st.calls[c].session) && (forall step :: Enabled(st, step) ==> !Drives(step)) ==>
              st.calls[c].phase.Finished?
  {
    StartInv();
    RunKeepsInv(START, steps, st);
    WhoeverIsGoneIsClosed(steps, st);
    assert Consistent(st.calls[c], c, st.sessions[st.calls[c].session]);
    if IsGone(st, st.calls[c].session) && !st.calls[c].phase.Finished? { NoCallWaitsInVain(st, c); }
  }

  /** From any state on, a call takes at most three steps and a session at most four turns. */
  lemma StepsAreBounded(st: State, steps: seq<Step>, st': State, c: CallId, s: SessionId)
    requires Runs(st, steps, st')
    ensures c in st.calls ==> StepsOf(steps, c) <= 3
    ensures s in st.sessions ==> TurnsOf(steps, s) <= 4
  {
    if c in st.calls { BoundedSteps(st, steps, st', c); }
    if s in st.sessions { BoundedTurns(st, steps, st', s); }
  }
}
