/** Sessions with local agents and the registry of sessions (internal/agent/local/registry.go).

    What a session's lock protects is a `Desk`: the calls waiting for a reply, and whether the session is closed.
    The critical sections are functions on it, carried out by the classes here and interleaved by `AgentProtocol`. */
module LocalAgent {
  import opened Wrappers

  datatype Desk<T> = Desk(pending: set<T>, closed: bool)

  /** roundTrip puts its identifier on the desk, unless the session is closed. */
  function Register<T>(d: Desk<T>, id: T): (Desk<T>, bool) {
    if d.closed then (d, false) else (d.(pending := d.pending + {id}), true)
  }

  /** deliver takes the identifier of a frame off the desk, if it is there. */
  function Take<T>(d: Desk<T>, id: T): (Desk<T>, bool) {
    (d.(pending := d.pending - {id}), id in d.pending)
  }

  /** roundTrip takes its own identifier off when it returns. */
  function Forget<T>(d: Desk<T>, id: T): Desk<T> {
    d.(pending := d.pending - {id})
  }

  /** Close empties the desk for good; whoever was on it is told. */
  function Shut<T>(d: Desk<T>): (Desk<T>, set<T>) {
    if d.closed then (d, {}) else (Desk({}, true), d.pending)
  }

  /** Attach puts a new session in the place of the old one. */
  function Swap<U, S>(sessions: map<U, S>, user: U, s: S): (map<U, S>, Option<S>) {
    (sessions[user := s], if user in sessions then Some(sessions[user]) else None)
  }

  /** A session that ends removes itself, but not one that has taken its place. */
  function Drop<U, S(==)>(sessions: map<U, S>, user: U, s: S): map<U, S> {
    if user in sessions && sessions[user] == s then sessions - {user} else sessions
  }

  // ------------------------------------------------------------------ frames and replies

  datatype FrameType = Hello | Call | Result | SetWorkspace | Workspace | Other

  datatype Frame = Frame(kind: FrameType, id: string, output: string, error: string, ok: bool, workspace: string)

  /** What a waiting call finds in its channel: a frame of the agent, or the news that the agent is gone. */
  datatype Reply = FromAgent(frame: Frame) | AgentGone

  datatype Failure = Gone | WriteFailed | ContextDone | Unexpected(got: FrameType) | Remote(error: string)

  /** A channel with room for one reply. */
  class ReplyChannel {
    var buffer: seq<Reply>

    constructor ()
      ensures buffer == []
    {
      buffer := [];
    }
  }

  class Session {
    const user: string
    var workspace: string
    var pending: map<string, ReplyChannel>
    var closed: bool

    ghost function Waiting(): set<ReplyChannel>
      reads this
    {
      pending.Values
    }

    /** No two calls share a channel, nothing has been sent to a call on the desk, and a closed desk is empty. */
    ghost predicate Valid()
      reads this, Waiting()
    {
      && (forall id :: id in pending ==> pending[id].buffer == [])
      && (forall a, b :: a in pending && b in pending && a != b ==> pending[a] != pending[b])
      && (closed ==> pending == map[])
    }

    ghost function Locked(): Desk<string>
      reads this
    {
      Desk(pending.Keys, closed)
    }

    constructor (user: string, workspace: string)
      ensures Valid() && pending == map[] && !closed
      ensures this.user == user && this.workspace == workspace
    {
      this.user, this.workspace := user, workspace;
      pending, closed := map[], false;
    }

    /** The start of roundTrip: a channel of its own, on the desk under a new identifier. */
    method Begin(id: string) returns (ok: bool, ch: ReplyChannel)
      requires Valid() && id !in pending
      modifies this`pending
      ensures Valid() && fresh(ch) && ch.buffer == []
      ensures (Locked(), ok) == Register(old(Locked()), id)
      ensures ok ==> pending == old(pending)[id := ch]
      ensures !ok ==> pending == old(pending)
    {
      ch := new ReplyChannel();
      if closed {
        return false, ch;
      }
      pending := pending[id := ch];
      assert pending.Keys == old(pending.Keys) + {id};
      return true, ch;
    }

    /** deliver: the call named in the frame gets it, and nobody else; false when nobody waits for it any more. */
    method Deliver(f: Frame) returns (delivered: bool)
      requires Valid()
      modifies this`pending, Waiting()
      ensures Valid()
      ensures (Locked(), delivered) == Take(old(Locked()), f.id)
      ensures pending == old(pending) - {f.id}
      ensures delivered ==> old(pending)[f.id].buffer == [FromAgent(f)]
      ensures forall id :: id in pending ==> pending[id].buffer == []
    {
      if f.id !in pending {
        assert pending.Keys - {f.id} == pending.Keys;
        return false;
      }
      var ch := pending[f.id];
      pending := pending - {f.id};
      ch.buffer := ch.buffer + [FromAgent(f)];
      return true;
    }

    /** The deferred end of roundTrip. */
    method End(id: string)
      requires Valid()
      modifies this`pending
      ensures Valid() && Locked() == Forget(old(Locked()), id) && pending == old(pending) - {id}
    {
      pending := pending - {id};
    }

    /** Close: idempotent; everyone on the desk finds the news in its channel, and the desk is empty from then on. */
    method Close()
      requires Valid()
      modifies this`pending, this`closed, Waiting()
      ensures Valid() && Locked() == Shut(old(Locked())).0
      ensures forall id :: id in Shut(old(Locked())).1 ==> old(pending)[id].buffer == [AgentGone]
    {
      if closed {
        return;
      }
      closed := true;
      TellAll(pending);
      pending := map[];
    }

    /** The loop of Close: a channel that already holds a reply would be passed over. */
    static method TellAll(desk: map<string, ReplyChannel>)
      requires forall id :: id in desk ==> desk[id].buffer == []
      requires forall a, b :: a in desk && b in desk && a != b ==> desk[a] != desk[b]
      modifies desk.Values
      ensures forall id :: id in desk ==> desk[id].buffer == [AgentGone]
    {
      var left := desk.Keys;
      while left != {}
        invariant left <= desk.Keys
        invariant forall id :: id in desk ==> desk[id].buffer == if id in left then [] else [AgentGone]
        decreases |left|
      {
        var id :| id in left;
        var ch := desk[id];
        if |ch.buffer| < 1 {
          ch.buffer := ch.buffer + [AgentGone];
        }
        left := left - {id};
      }
    }

    /** The end of roundTrip, once there is something in its channel: the frame, if it is of the wanted type. */
    static method Receive(ch: ReplyChannel, want: FrameType) returns (r: Result<Frame, Failure>)
      requires |ch.buffer| == 1
      modifies ch
      ensures ch.buffer == []
      ensures r == Err(Gone) <==> old(ch.buffer) == [AgentGone]
      ensures forall f :: r == Ok(f) <==> old(ch.buffer) == [FromAgent(f)] && f.kind == want
      ensures r.Err? && r.error != Gone ==>
                exists f :: old(ch.buffer) == [FromAgent(f)] && r.error == Unexpected(f.kind)
    {
      var reply := ch.buffer[0];
      ch.buffer := ch.buffer[1..];
      if reply.AgentGone? {
        return Err(Gone);
      }
      if reply.frame.kind != want {
        return Err(Unexpected(reply.frame.kind));
      }
      return Ok(reply.frame);
    }

    /** SetWorkspace after its round trip: only a confirmed change is recorded. */
    method Confirm(f: Frame) returns (r: Result<string, Failure>)
      modifies this`workspace
      ensures workspace == if f.ok then f.workspace else old(workspace)
      ensures r == if f.ok then Ok(f.workspace) else Err(Remote(if f.error == "" then REFUSED else f.error))
    {
      if !f.ok {
        var msg := f.error;
        if msg == "" {
          msg := REFUSED;
        }
        return Err(Remote(msg));
      }
      workspace := f.workspace;
      return Ok(f.workspace);
    }
  }

  const REFUSED := "the local agent could not change its workspace"

  class Registry {
    var sessions: map<string, Session>

    /** Whoever is registered is open and registered under its own user. */
    ghost predicate Valid()
      reads this, sessions.Values
    {
      forall u :: u in sessions ==> sessions[u].user == u && !sessions[u].closed
    }

    constructor ()
      ensures Valid() && sessions == map[]
    {
      sessions := map[];
    }

    /** The critical section at the start of Attach. The old session is no longer registered when it is closed
        afterwards. */
    method TakeOver(user: string, workspace: string) returns (s: Session, previous: Option<Session>)
      requires Valid()
      modifies this
      ensures Valid() && fresh(s) && s.Valid() && s.user == user && s.workspace == workspace && s.pending == map[]
      ensures (sessions, previous) == Swap(old(sessions), user, s)
      ensures previous.Some? ==> previous.value !in sessions.Values
    {
      s := new Session(user, workspace);
      previous := if user in sessions then Some(sessions[user]) else None;
      sessions := sessions[user := s];
    }

    /** The critical section at the end of Attach: the session that is closed afterwards is no longer registered. */
    method Detach(s: Session)
      requires Valid()
      modifies this
      ensures Valid() && s !in sessions.Values
      ensures sessions == Drop(old(sessions), s.user, s)
      ensures forall u :: u in old(sessions) && old(sessions)[u] != s ==>
                u in sessions && sessions[u] == old(sessions)[u]
    {
      if s.user in sessions && sessions[s.user] == s {
        sessions := sessions - {s.user};
      }
    }

    /** Whom a caller is given for a user: that user's own session, and an open one. */
    method Current(user: string) returns (s: Option<Session>)
      requires Valid()
      ensures s == None <==> user !in sessions
      ensures s.Some? ==> s.value in sessions.Values && s.value.user == user && !s.value.closed
    {
      s := if user in sessions then Some(sessions[user]) else None;
    }
  }
}
