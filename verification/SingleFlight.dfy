/** Merged regeneration: any number of concurrent calls of Coordinator.Do (internal/cache/coordinator.go:181-237).

    A step is one access to one cache, one operation of the singleflight group, or the start or the end of a call
    of `gen`. Callers have an identified user and the cache is enabled. Losing an entry stands for its expiry,
    its eviction and its invalidation, and may happen at any moment; the semantic cache may answer anything. */
module SingleFlight {
  import opened Wrappers

  type Id = nat
  type Key = nat

  datatype Level = Exact | Negative | Semantic | Miss
  datatype Hit = Hit(answer: string, level: Level)

  /** What gen produced: an error, no text at all, a refusal, or an answer. */
  datatype Made = Error | Nothing | Refusal(text: string) | Answer(text: string)

  datatype Result = Got(hit: Hit) | Failed

  datatype Phase =
    | AskExact | AskNegative | AskSemantic            // the first Lookup
    | Entering                                        // about to call group.Do
    | Joined(leader: Id)                              // waiting for somebody else's flight
    | CheckExact | CheckNegative | CheckSemantic      // the second Lookup, inside the flight
    | Generating
    | WriteNegative(text: string)
    | WriteExact(text: string) | WriteSemantic(text: string) | ClearNegative(text: string)
    | Landing(result: Result)                         // the closure has returned
    | Done(result: Result, flight: Option<Id>)        // Do has returned; through whose flight, if any

  datatype Caller = Caller(key: Key, phase: Phase)

  /** `made` records, per key, the texts that gen has produced. */
  datatype State = State(
    exact: map<Key, string>,
    negative: map<Key, string>,
    flights: map<Key, Id>,
    callers: map<Id, Caller>,
    made: set<(Key, string)>)

  datatype Step =
    | Ask(c: Id, semantic: Option<string>)
    | Enter(c: Id)
    | Check(c: Id, semantic: Option<string>)
    | GenEnds(c: Id, made: Made)
    | Write(c: Id)
    | Land(c: Id)
    | Lose(k: Key, level: Level)

  function Start(keys: map<Id, Key>): State {
    State(map[], map[], map[], map c | c in keys :: Caller(keys[c], AskExact), {})
  }

  predicate Enabled(s: State, step: Step) {
    match step
    case Lose(_, level) => level == Exact || level == Negative
    case _ =>
      step.c in s.callers &&
      var p := s.callers[step.c].phase;
      match step
      case Ask(_, _) => p.AskExact? || p.AskNegative? || p.AskSemantic?
      case Enter(_) => p.Entering?
      case Check(_, _) => p.CheckExact? || p.CheckNegative? || p.CheckSemantic?
      case GenEnds(_, _) => p.Generating?
      case Write(_) => p.WriteNegative? || p.WriteExact? || p.WriteSemantic? || p.ClearNegative?
      case Land(_) => p.Landing?
      case _ => false
  }

  function Move(s: State, c: Id, p: Phase): State
    requires c in s.callers
  {
    s.(callers := s.callers[c := s.callers[c].(phase := p)])
  }

  /** One access of a Lookup: found or on to the next cache. */
  function Asked(s: State, c: Id, semantic: Option<string>): Phase
    requires c in s.callers
  {
    var k := s.callers[c].key;
    match s.callers[c].phase
    case AskExact => if k in s.exact then Done(Got(Hit(s.exact[k], Exact)), None) else AskNegative
    case AskNegative => if k in s.negative then Done(Got(Hit(s.negative[k], Negative)), None) else AskSemantic
    case _ => match semantic case Some(a) => Done(Got(Hit(a, Semantic)), None) case None => Entering
  }

  function Checked(s: State, c: Id, semantic: Option<string>): Phase
    requires c in s.callers
  {
    var k := s.callers[c].key;
    match s.callers[c].phase
    case CheckExact => if k in s.exact then Landing(Got(Hit(s.exact[k], Exact))) else CheckNegative
    case CheckNegative => if k in s.negative then Landing(Got(Hit(s.negative[k], Negative))) else CheckSemantic
    case _ => match semantic case Some(a) => Landing(Got(Hit(a, Semantic))) case None => Generating
  }

  function AfterGen(m: Made): Phase {
    match m
    case Error => Landing(Failed)
    case Nothing => Landing(Got(Hit("", Miss)))
    case Refusal(t) => WriteNegative(t)
    case Answer(t) => WriteExact(t)
  }

  function TextOf(k: Key, m: Made): set<(Key, string)> {
    match m case Error => {} case Nothing => {(k, "")} case Refusal(t) => {(k, t)} case Answer(t) => {(k, t)}
  }

  function Next(s: State, step: Step): State
    requires Enabled(s, step)
  {
    match step
    case Ask(c, semantic) => Move(s, c, Asked(s, c, semantic))
    case Enter(c) =>
      var k := s.callers[c].key;
      if k in s.flights then Move(s, c, Joined(s.flights[k]))
      else Move(s, c, CheckExact).(flights := s.flights[k := c])
    case Check(c, semantic) => Move(s, c, Checked(s, c, semantic))
    case GenEnds(c, m) => Move(s, c, AfterGen(m)).(made := s.made + TextOf(s.callers[c].key, m))
    case Write(c) =>
      var k := s.callers[c].key;
      (match s.callers[c].phase
       case WriteNegative(t) => Move(s, c, Landing(Got(Hit(t, Miss)))).(negative := s.negative[k := t])
       case WriteExact(t) => Move(s, c, WriteSemantic(t)).(exact := s.exact[k := t])
       case WriteSemantic(t) => Move(s, c, ClearNegative(t))
       case ClearNegative(t) => Move(s, c, Landing(Got(Hit(t, Miss)))).(negative := s.negative - {k})
       case _ => s)
    case Land(c) =>
      var r := s.callers[c].phase.result;
      s.(flights := s.flights - {s.callers[c].key},
         callers := map x | x in s.callers ::
           if x == c || s.callers[x].phase == Joined(c) then s.callers[x].(phase := Done(r, Some(c))) else s.callers[x])
    case Lose(k, level) =>
      if level == Exact then s.(exact := s.exact - {k}) else s.(negative := s.negative - {k})
  }

  predicate Runs(s: State, steps: seq<Step>, s': State)
    decreases |steps|
  {
    if steps == [] then s' == s
    else Enabled(s, steps[0]) && Runs(Next(s, steps[0]), steps[1..], s')
  }

  // ------------------------------------------------------------------ the invariant

  /** Inside the function given to group.Do. */
  predicate Leads(p: Phase) {
    || p.CheckExact? || p.CheckNegative? || p.CheckSemantic? || p.Generating?
    || p.WriteNegative? || p.WriteExact? || p.WriteSemantic? || p.ClearNegative? || p.Landing?
  }

  /** Past the look into the negative cache, with nothing written there since. */
  predicate SawNoRefusal(p: Phase) {
    p.CheckSemantic? || p.Generating? || p.WriteNegative? || p.WriteExact? || p.WriteSemantic? || p.ClearNegative?
  }

  /** The text a caller carries was made for its key, or came from the semantic cache. */
  predicate Carries(s: State, k: Key, p: Phase) {
    match p
    case WriteNegative(t) => (k, t) in s.made
    case WriteExact(t) => (k, t) in s.made
    case WriteSemantic(t) => (k, t) in s.made
    case ClearNegative(t) => (k, t) in s.made
    case Landing(r) => Proper(s, k, r)
    case Done(r, _) => Proper(s, k, r)
    case _ => true
  }

  predicate Proper(s: State, k: Key, r: Result) {
    r.Got? ==> r.hit.level == Semantic || (k, r.hit.answer) in s.made
  }

  ghost predicate CallerOk(s: State, c: Id)
    requires c in s.callers
  {
    var k, p := s.callers[c].key, s.callers[c].phase;
    && (Leads(p) ==> k in s.flights && s.flights[k] == c)
    && (SawNoRefusal(p) ==> k !in s.negative)
    && (p.Joined? ==> k in s.flights && s.flights[k] == p.leader)
    && (p.Done? && p.flight.Some? ==>
          p.flight.value in s.callers && s.callers[p.flight.value] == s.callers[c])
    && Carries(s, k, p)
  }

  ghost predicate Inv(s: State) {
    && (forall c :: c in s.callers ==> CallerOk(s, c))
    && FlightsOk(s)
    && TextsOk(s)
  }

  ghost predicate FlightsOk(s: State) {
    forall k :: k in s.flights ==>
      s.flights[k] in s.callers && s.callers[s.flights[k]].key == k && Leads(s.callers[s.flights[k]].phase)
  }

  ghost predicate TextsOk(s: State) {
    && (forall k :: k in s.exact ==> (k, s.exact[k]) in s.made)
    && (forall k :: k in s.negative ==> (k, s.negative[k]) in s.made)
  }

  /** At most one flight per key. */
  lemma OneLeader(s: State, a: Id, b: Id)
    requires Inv(s) && a in s.callers && b in s.callers && s.callers[a].key == s.callers[b].key
    requires Leads(s.callers[a].phase) && Leads(s.callers[b].phase)
    ensures a == b
  {
    assert CallerOk(s, a) && CallerOk(s, b);
  }

  lemma OthersDoNotLead(s: State, c: Id)
    requires Inv(s) && c in s.callers && Leads(s.callers[c].phase)
    ensures forall x :: x in s.callers && x != c && s.callers[x].key == s.callers[c].key ==> !Leads(s.callers[x].phase)
  {
    assert CallerOk(s, c);
    forall x | x in s.callers && x != c && s.callers[x].key == s.callers[c].key ensures !Leads(s.callers[x].phase) {
      assert CallerOk(s, x);
    }
  }

  lemma StartInv(keys: map<Id, Key>)
    ensures Inv(Start(keys))
  {
  }

  /** A step of c leaves what it does not touch of another caller x in order. */
  lemma OtherStaysOk(s: State, s': State, c: Id, x: Id)
    requires Inv(s) && c in s.callers && x in s.callers && x != c && !s.callers[c].phase.Done?
    requires s'.callers.Keys == s.callers.Keys
    requires forall y :: y in s.callers && y != c ==> s'.callers[y] == s.callers[y]
    requires s.made <= s'.made
    requires var k := s.callers[x].key;
      && (k in s.flights ==> k in s'.flights && s'.flights[k] == s.flights[k])
      && (k !in s.negative && SawNoRefusal(s.callers[x].phase) ==> k !in s'.negative)
    ensures CallerOk(s', x)
  {
    assert CallerOk(s, x);
  }

  /** A step of a caller that does not lead, takes no part in a flight, and does not come to lead. */
  lemma OutsiderKeeps(s: State, s': State, c: Id, p: Phase)
    requires Inv(s) && c in s.callers && !Leads(s.callers[c].phase) && !s.callers[c].phase.Done? && !Leads(p)
    requires s' == Move(s, c, p)
    requires p.Joined? ==> s.callers[c].key in s.flights && s.flights[s.callers[c].key] == p.leader
    requires p.Done? ==> p.flight == None
    requires Carries(s, s.callers[c].key, p)
    ensures Inv(s')
  {
    assert CallerOk(s, c);
    forall x | x in s.callers && x != c { OtherStaysOk(s, s', c, x); }
  }

  lemma AskKeeps(s: State, c: Id, semantic: Option<string>)
    requires Inv(s) && Enabled(s, Ask(c, semantic))
    ensures Inv(Next(s, Ask(c, semantic)))
  {
    OutsiderKeeps(s, Next(s, Ask(c, semantic)), c, Asked(s, c, semantic));
  }

  lemma TakeOff(s: State, s': State, c: Id, k: Key)
    requires Inv(s) && c in s.callers && s.callers[c].phase.Entering? && s.callers[c].key == k && k !in s.flights
    requires s' == Move(s, c, CheckExact).(flights := s.flights[k := c])
    ensures Inv(s')
  {
    assert CallerOk(s, c);
    forall x | x in s.callers && x != c { OtherStaysOk(s, s', c, x); }
    forall j | j in s.flights ensures s.flights[j] != c { }
  }

  lemma EnterKeeps(s: State, c: Id)
    requires Inv(s) && Enabled(s, Enter(c))
    ensures Inv(Next(s, Enter(c)))
  {
    var s', k := Next(s, Enter(c)), s.callers[c].key;
    if k in s.flights {
      OutsiderKeeps(s, s', c, Joined(s.flights[k]));
    } else {
      TakeOff(s, s', c, k);
    }
  }

  /** A step of a leader that goes on leading. */
  lemma LeaderKeeps(s: State, s': State, c: Id)
    requires Inv(s) && c in s.callers && Leads(s.callers[c].phase)
    requires s'.callers.Keys == s.callers.Keys
    requires forall y :: y in s.callers && y != c ==> s'.callers[y] == s.callers[y]
    requires s'.callers[c].key == s.callers[c].key && Leads(s'.callers[c].phase)
    requires s'.flights == s.flights && s.made <= s'.made && TextsOk(s')
    requires forall k :: k in s'.negative && k !in s.negative ==> k == s.callers[c].key
    requires SawNoRefusal(s'.callers[c].phase) ==> s.callers[c].key !in s'.negative
    requires Carries(s', s.callers[c].key, s'.callers[c].phase)
    ensures Inv(s')
  {
    assert CallerOk(s, c);
    OthersDoNotLead(s, c);
    forall x | x in s.callers && x != c ensures CallerOk(s', x) {
      OtherStaysOk(s, s', c, x);
    }
  }

  lemma LandKeeps(s: State, c: Id)
    requires Inv(s) && Enabled(s, Land(c))
    ensures Inv(Next(s, Land(c)))
  {
    var s', k := Next(s, Land(c)), s.callers[c].key;
    assert CallerOk(s, c);
    OthersDoNotLead(s, c);
    forall x | x in s.callers ensures CallerOk(s', x) {
      assert CallerOk(s, x);
    }
    forall j | j in s'.flights ensures s'.callers[s'.flights[j]] == s.callers[s.flights[j]] {
      assert s.flights[j] != c;
    }
  }

  lemma CheckKeeps(s: State, c: Id, semantic: Option<string>)
    requires Inv(s) && Enabled(s, Check(c, semantic))
    ensures Inv(Next(s, Check(c, semantic)))
  {
    assert CallerOk(s, c);
    LeaderKeeps(s, Next(s, Check(c, semantic)), c);
  }

  lemma GenKeeps(s: State, c: Id, m: Made)
    requires Inv(s) && Enabled(s, GenEnds(c, m))
    ensures Inv(Next(s, GenEnds(c, m)))
  {
    assert CallerOk(s, c);
    LeaderKeeps(s, Next(s, GenEnds(c, m)), c);
  }

  lemma WriteKeeps(s: State, c: Id)
    requires Inv(s) && Enabled(s, Write(c))
    ensures Inv(Next(s, Write(c)))
  {
    assert CallerOk(s, c);
    LeaderKeeps(s, Next(s, Write(c)), c);
  }

  lemma StepKeepsInv(s: State, step: Step)
    requires Inv(s) && Enabled(s, step)
    ensures Inv(Next(s, step))
  {
    match step
    case Ask(c, semantic) => AskKeeps(s, c, semantic);
    case Enter(c) => EnterKeeps(s, c);
    case Check(c, semantic) => CheckKeeps(s, c, semantic);
    case GenEnds(c, m) => GenKeeps(s, c, m);
    case Write(c) => WriteKeeps(s, c);
    case Land(c) => LandKeeps(s, c);
    case Lose(k, level) => LoseKeeps(s, k, level);
  }

  lemma LoseKeeps(s: State, k: Key, level: Level)
    requires Inv(s) && Enabled(s, Lose(k, level))
    ensures Inv(Next(s, Lose(k, level)))
  {
    forall x | x in s.callers ensures CallerOk(Next(s, Lose(k, level)), x) { assert CallerOk(s, x); }
  }

  lemma {:induction false} RunKeepsInv(s: State, steps: seq<Step>, s': State)
    requires Inv(s) && Runs(s, steps, s')
    ensures Inv(s')
    decreases |steps|
  {
    if steps != [] {
      StepKeepsInv(s, steps[0]);
      RunKeepsInv(Next(s, steps[0]), steps[1..], s');
    }
  }

  // ------------------------------------------------------------------ what merging guarantees

  /** Whatever the interleaving: two callers that are inside gen for the same key are the same caller. */
  lemma OneGenPerKey(keys: map<Id, Key>, steps: seq<Step>, s: State, a: Id, b: Id)
    requires Runs(Start(keys), steps, s) && a in s.callers && b in s.callers && s.callers[a].key == s.callers[b].key
    requires s.callers[a].phase.Generating? && s.callers[b].phase.Generating?
    ensures a == b
  {
    StartInv(keys);
    RunKeepsInv(Start(keys), steps, s);
    OneLeader(s, a, b);
  }

  /** Whatever the interleaving: callers that came back through one flight have the same key and the same result. */
  lemma MergedCallersShareResult(keys: map<Id, Key>, steps: seq<Step>, s: State, a: Id, b: Id)
    requires Runs(Start(keys), steps, s) && a in s.callers && b in s.callers
    requires s.callers[a].phase.Done? && s.callers[b].phase.Done?
    requires s.callers[a].phase.flight.Some? && s.callers[a].phase.flight == s.callers[b].phase.flight
    ensures s.callers[a].key == s.callers[b].key && s.callers[a].phase.result == s.callers[b].phase.result
  {
    StartInv(keys);
    RunKeepsInv(Start(keys), steps, s);
    assert CallerOk(s, a) && CallerOk(s, b);
  }

  /** Whatever the interleaving: an answer returned for a key was made by gen for that key, unless it came
      from the semantic cache. */
  lemma AnswersBelongToTheirKey(keys: map<Id, Key>, steps: seq<Step>, s: State, c: Id)
    requires Runs(Start(keys), steps, s) && c in s.callers && s.callers[c].phase.Done?
    requires s.callers[c].phase.result.Got? && s.callers[c].phase.result.hit.level != Semantic
    ensures (s.callers[c].key, s.callers[c].phase.result.hit.answer) in s.made
  {
    StartInv(keys);
    RunKeepsInv(Start(keys), steps, s);
    assert CallerOk(s, c);
  }

  // ------------------------------------------------------------------ what a stored answer prevents

  /** k is stored where every flight for k that has still to look will find it. */
  ghost predicate Shielded(s: State, k: Key) {
    forall c :: c in s.callers && s.callers[c].key == k ==>
      var p := s.callers[c].phase;
      && (k in s.exact ==> !p.CheckNegative? && !p.CheckSemantic?)
      && (k !in s.exact ==> k in s.negative && !p.CheckSemantic?)
  }

  ghost predicate Stored(s: State, k: Key) {
    (k in s.exact || k in s.negative) && Shielded(s, k)
  }

  predicate StartsGen(s: State, step: Step, k: Key)
    requires Enabled(s, step)
  {
    step.Check? && s.callers[step.c].key == k && Next(s, step).callers[step.c].phase.Generating?
  }

  predicate Loses(step: Step, k: Key) {
    step.Lose? && step.k == k
  }

  /** Writing an answer or a refusal stores it in this sense, whoever has missed the cache before. */
  lemma WritingStores(s: State, c: Id)
    requires Inv(s) && Enabled(s, Write(c)) && (s.callers[c].phase.WriteExact? || s.callers[c].phase.WriteNegative?)
    ensures Stored(Next(s, Write(c)), s.callers[c].key)
  {
    OthersDoNotLead(s, c);
  }

  lemma StoredWrite(s: State, c: Id, k: Key)
    requires Inv(s) && Enabled(s, Write(c)) && Stored(s, k)
    ensures Stored(Next(s, Write(c)), k)
  {
    assert CallerOk(s, c);
    if s.callers[c].key == k { OthersDoNotLead(s, c); }
  }

  lemma StoredCheck(s: State, c: Id, semantic: Option<string>, k: Key)
    requires Inv(s) && Enabled(s, Check(c, semantic)) && Stored(s, k)
    ensures !StartsGen(s, Check(c, semantic), k) && Stored(Next(s, Check(c, semantic)), k)
  {
  }

  lemma StoredStep(s: State, step: Step, k: Key)
    requires Inv(s) && Enabled(s, step) && Stored(s, k) && !Loses(step, k)
    ensures !StartsGen(s, step, k) && Stored(Next(s, step), k)
  {
    match step
    case Write(c) => StoredWrite(s, c, k);
    case Check(c, semantic) => StoredCheck(s, c, semantic, k);
    case _ =>
  }

  /** Some step of the run starts gen for k. */
  predicate GenStarts(s: State, steps: seq<Step>, k: Key)
    decreases |steps|
  {
    steps != [] && Enabled(s, steps[0])
    && (StartsGen(s, steps[0], k) || GenStarts(Next(s, steps[0]), steps[1..], k))
  }

  /** Once an answer or a refusal has been stored for a key, no caller starts gen for it again, not even one that had
      missed the cache before, until the entry expires, is evicted or is invalidated. */
  lemma {:induction false} StoredMeansNoGen(s: State, steps: seq<Step>, s': State, k: Key)
    requires Inv(s) && Runs(s, steps, s') && Stored(s, k)
    requires forall i :: 0 <= i < |steps| ==> !Loses(steps[i], k)
    ensures !GenStarts(s, steps, k) && Stored(s', k)
    decreases |steps|
  {
    if steps != [] {
      StepKeepsInv(s, steps[0]);
      StoredStep(s, steps[0], k);
      StoredMeansNoGen(Next(s, steps[0]), steps[1..], s', k);
    }
  }

  /** Put together: between the step that stores and a later start of gen for the same key there is a loss. */
  lemma NoGenAfterStore(keys: map<Id, Key>, before: seq<Step>, s: State, c: Id, after: seq<Step>, s': State)
    requires Runs(Start(keys), before, s) && Enabled(s, Write(c))
    requires s.callers[c].phase.WriteExact? || s.callers[c].phase.WriteNegative?
    requires Runs(Next(s, Write(c)), after, s') && GenStarts(Next(s, Write(c)), after, s.callers[c].key)
    ensures exists i :: 0 <= i < |after| && Loses(after[i], s.callers[c].key)
  {
    StartInv(keys);
    RunKeepsInv(Start(keys), before, s);
    StepKeepsInv(s, Write(c));
    WritingStores(s, c);
    if forall i :: 0 <= i < |after| ==> !Loses(after[i], s.callers[c].key) {
      StoredMeansNoGen(Next(s, Write(c)), after, s', s.callers[c].key);
    }
  }

  // ------------------------------------------------------------------ from the answer on

  /** gen has answered for k, and the answer is about to be stored. */
  predicate Storing(s: State, c: Id, k: Key) {
    c in s.callers && s.callers[c].key == k && (s.callers[c].phase.WriteExact? || s.callers[c].phase.WriteNegative?)
  }

  ghost predicate Kept(s: State, c: Id, k: Key) {
    Storing(s, c, k) || Stored(s, k)
  }

  lemma KeptStep(s: State, step: Step, c: Id, k: Key)
    requires Inv(s) && Enabled(s, step) && Kept(s, c, k) && !Loses(step, k)
    ensures !StartsGen(s, step, k) && Kept(Next(s, step), c, k)
  {
    if Stored(s, k) {
      StoredStep(s, step, k);
    } else if step == Write(c) {
      WritingStores(s, c);
    } else {
      OthersDoNotLead(s, c);
    }
  }

  lemma {:induction false} KeptMeansNoGen(s: State, steps: seq<Step>, s': State, c: Id, k: Key)
    requires Inv(s) && Runs(s, steps, s') && Kept(s, c, k)
    requires forall i :: 0 <= i < |steps| ==> !Loses(steps[i], k)
    ensures !GenStarts(s, steps, k) && Kept(s', c, k)
    decreases |steps|
  {
    if steps != [] {
      StepKeepsInv(s, steps[0]);
      KeptStep(s, steps[0], c, k);
      KeptMeansNoGen(Next(s, steps[0]), steps[1..], s', c, k);
    }
  }

  /** Once gen has produced an answer or a refusal for a key, it is not started for that key again before a loss. */
  lemma NoGenAfterAnswer(keys: map<Id, Key>, before: seq<Step>, s: State, c: Id, made: Made, after: seq<Step>,
                         s': State)
    requires Runs(Start(keys), before, s) && Enabled(s, GenEnds(c, made)) && (made.Answer? || made.Refusal?)
    requires Runs(Next(s, GenEnds(c, made)), after, s') && GenStarts(Next(s, GenEnds(c, made)), after, s.callers[c].key)
    ensures exists i :: 0 <= i < |after| && Loses(after[i], s.callers[c].key)
  {
    StartInv(keys);
    RunKeepsInv(Start(keys), before, s);
    StepKeepsInv(s, GenEnds(c, made));
    if forall i :: 0 <= i < |after| ==> !Loses(after[i], s.callers[c].key) {
      KeptMeansNoGen(Next(s, GenEnds(c, made)), after, s', c, s.callers[c].key);
    }
  }

  // ------------------------------------------------------------------ what an invalidation cannot reach

  /** About to write what gen made into one of the caches. */
  predicate Writing(p: Phase) {
    p.WriteExact? || p.WriteNegative? || p.WriteSemantic?
  }

  /** Between the start of gen and the last write of what it made. */
  predicate Working(p: Phase) {
    p.Generating? || Writing(p)
  }

  /** The caller whose step starts gen. */
  function Starters(s: State, step: Step): set<Id>
    requires Enabled(s, step)
  {
    if step.Check? && Next(s, step).callers[step.c].phase.Generating? then {step.c} else {}
  }

  /** The run writes, under k, what a caller made whose gen is not in `started` and has not been started in the run. */
  predicate StaleWrite(s: State, steps: seq<Step>, k: Key, started: set<Id>)
    decreases |steps|
  {
    && steps != [] && Enabled(s, steps[0])
    && (|| (&& steps[0].Write? && s.callers[steps[0].c].key == k && Writing(s.callers[steps[0].c].phase)
            && steps[0].c !in started)
        || StaleWrite(Next(s, steps[0]), steps[1..], k, started + Starters(s, steps[0])))
  }

  ghost predicate AllStarted(s: State, k: Key, started: set<Id>) {
    forall c :: c in s.callers && s.callers[c].key == k && Working(s.callers[c].phase) ==> c in started
  }

  lemma StepKeepsStarted(s: State, step: Step, k: Key, started: set<Id>)
    requires Enabled(s, step) && AllStarted(s, k, started)
    ensures AllStarted(Next(s, step), k, started + Starters(s, step))
  {
  }

  lemma {:induction false} NothingStale(s: State, steps: seq<Step>, k: Key, started: set<Id>)
    requires AllStarted(s, k, started)
    ensures !StaleWrite(s, steps, k, started)
    decreases |steps|
  {
    if steps != [] && Enabled(s, steps[0]) {
      StepKeepsStarted(s, steps[0], k, started);
      NothingStale(Next(s, steps[0]), steps[1..], k, started + Starters(s, steps[0]));
    }
  }

  /** From s on an answer can be stored that was under way at s, whatever has been purged. */
  ghost predicate CanGoStale(s: State, k: Key) {
    exists steps :: StaleWrite(s, steps, k, {})
  }

  /** From s on, an older answer can no longer be stored for k exactly when no caller is between the start of gen for k
      and the last write of what it made. */
  lemma OldAnswerIsStoredExactlyWhen(s: State, k: Key)
    ensures !CanGoStale(s, k) <==> forall c :: c in s.callers && s.callers[c].key == k ==> !Working(s.callers[c].phase)
  {
    if c :| c in s.callers && s.callers[c].key == k && Working(s.callers[c].phase) {
      if s.callers[c].phase.Generating? {
        var s1 := Next(s, GenEnds(c, Answer("text")));
        assert StaleWrite(s1, [Write(c)], k, {});
        assert [GenEnds(c, Answer("text")), Write(c)][1..] == [Write(c)];
        assert StaleWrite(s, [GenEnds(c, Answer("text")), Write(c)], k, {} + Starters(s, GenEnds(c, Answer("text"))));
      } else {
        assert StaleWrite(s, [Write(c)], k, {});
      }
    } else {
      forall steps ensures !StaleWrite(s, steps, k, {}) { NothingStale(s, steps, k, {}); }
    }
  }

  // ------------------------------------------------------------------ what a call begun after an invalidation can get

  /** A leader that has, or will have, an answer for those who join it although gen is not started any more. */
  predicate HoldsOld(p: Phase) {
    Working(p) || p.ClearNegative? || (p.Landing? && p.result.Got?)
  }

  /** The step starts gen for k, or finds a similar question for a caller of k. */
  predicate Renews(s: State, step: Step, k: Key)
    requires Enabled(s, step)
  {
    StartsGen(s, step, k) || ((step.Ask? || step.Check?) && s.callers[step.c].key == k && step.semantic.Some?)
  }

  predicate Renewed(s: State, steps: seq<Step>, k: Key)
    decreases |steps|
  {
    steps != [] && Enabled(s, steps[0])
    && (Renews(s, steps[0], k) || Renewed(Next(s, steps[0]), steps[1..], k))
  }

  predicate Emptied(s: State, k: Key) {
    k !in s.exact && k !in s.negative
  }

  /** Nothing from before is left for k: neither in the caches nor with a leader, nor has c got any. */
  ghost predicate NothingOld(s: State, k: Key, c: Id) {
    && Emptied(s, k)
    && (forall x :: x in s.callers && s.callers[x].key == k ==> !HoldsOld(s.callers[x].phase))
    && c in s.callers && s.callers[c].key == k
    && (s.callers[c].phase.Done? ==> !s.callers[c].phase.result.Got?)
  }

  lemma LandKeepsNothingOld(s: State, l: Id, k: Key, c: Id)
    requires Inv(s) && Enabled(s, Land(l)) && NothingOld(s, k, c)
    ensures NothingOld(Next(s, Land(l)), k, c)
  {
    assert CallerOk(s, c) && CallerOk(s, l);
  }

  lemma LookKeepsNothingOld(s: State, step: Step, k: Key, c: Id)
    requires Enabled(s, step) && NothingOld(s, k, c) && !Renews(s, step, k) && (step.Ask? || step.Check?)
    ensures NothingOld(Next(s, step), k, c)
  {
  }

  lemma WriteKeepsNothingOld(s: State, w: Id, k: Key, c: Id)
    requires Enabled(s, Write(w)) && NothingOld(s, k, c)
    ensures NothingOld(Next(s, Write(w)), k, c)
  {
    assert s.callers[w].key != k;
  }

  lemma MoveKeepsNothingOld(s: State, step: Step, k: Key, c: Id)
    requires Enabled(s, step) && NothingOld(s, k, c) && (step.Enter? || step.GenEnds?)
    ensures NothingOld(Next(s, step), k, c)
  {
  }

  lemma StepKeepsNothingOld(s: State, step: Step, k: Key, c: Id)
    requires Inv(s) && Enabled(s, step) && NothingOld(s, k, c) && !Renews(s, step, k)
    ensures NothingOld(Next(s, step), k, c)
  {
    match step
    case Land(l) => LandKeepsNothingOld(s, l, k, c);
    case Ask(_, _) => LookKeepsNothingOld(s, step, k, c);
    case Check(_, _) => LookKeepsNothingOld(s, step, k, c);
    case Write(w) => WriteKeepsNothingOld(s, w, k, c);
    case Enter(_) => MoveKeepsNothingOld(s, step, k, c);
    case GenEnds(_, _) => MoveKeepsNothingOld(s, step, k, c);
    case Lose(_, _) =>
  }

  lemma {:induction false} NothingOldIsReturned(s: State, steps: seq<Step>, s': State, k: Key, c: Id)
    requires Inv(s) && Runs(s, steps, s') && NothingOld(s, k, c) && !Renewed(s, steps, k)
    ensures NothingOld(s', k, c)
    decreases |steps|
  {
    if steps != [] {
      StepKeepsInv(s, steps[0]);
      StepKeepsNothingOld(s, steps[0], k, c);
      NothingOldIsReturned(Next(s, steps[0]), steps[1..], s', k, c);
    }
  }

  /** The run gives c an answer although nothing new has come up for its key. */
  ghost predicate Serves(s: State, steps: seq<Step>, s': State, c: Id) {
    && c in s.callers && c in s'.callers && s'.callers[c].key == s.callers[c].key
    && Runs(s, steps, s') && !Renewed(s, steps, s.callers[c].key)
    && s'.callers[c].phase.Done? && s'.callers[c].phase.result.Got?
  }

  lemma OneMore(s: State, step: Step, steps: seq<Step>, s': State, c: Id)
    requires Enabled(s, step) && !step.Check? && (step.Ask? ==> step.semantic == None)
    requires c in s.callers && c in Next(s, step).callers
    requires Next(s, step).callers[c].key == s.callers[c].key && Serves(Next(s, step), steps, s', c)
    ensures Serves(s, [step] + steps, s', c)
  {
    assert ([step] + steps)[0] == step && ([step] + steps)[1..] == steps;
  }

  /** How many steps a leader that holds an old answer needs to land. */
  function ToLand(p: Phase): nat {
    match p
    case Generating => 4
    case WriteExact(_) => 3
    case WriteSemantic(_) => 2
    case ClearNegative(_) => 1
    case WriteNegative(_) => 1
    case _ => 0
  }

  lemma {:induction false} JoinerIsServed(s: State, c: Id, d: Id) returns (steps: seq<Step>, s': State)
    requires c in s.callers && d in s.callers && s.callers[c].phase == Joined(d) && HoldsOld(s.callers[d].phase)
    ensures Serves(s, steps, s', c)
    decreases ToLand(s.callers[d].phase)
  {
    if s.callers[d].phase.Landing? {
      var s1 := Next(s, Land(d));
      assert Serves(s1, [], s1, c);
      OneMore(s, Land(d), [], s1, c);
      return [Land(d)] + [], s1;
    }
    var step := if s.callers[d].phase.Generating? then GenEnds(d, Answer("text")) else Write(d);
    var rest;
    rest, s' := JoinerIsServed(Next(s, step), c, d);
    OneMore(s, step, rest, s', c);
    steps := [step] + rest;
  }

  /** A caller that has not looked yet misses everything and joins the flight for its key. */
  lemma NewcomerIsServed(s: State, c: Id, d: Id) returns (steps: seq<Step>, s': State)
    requires Inv(s) && c in s.callers && s.callers[c].phase.AskExact? && Emptied(s, s.callers[c].key)
    requires d in s.callers && s.callers[d].key == s.callers[c].key && HoldsOld(s.callers[d].phase)
    ensures Serves(s, steps, s', c)
  {
    assert CallerOk(s, d);
    var s1 := Next(s, Ask(c, None));
    var s2 := Next(s1, Ask(c, None));
    var s3 := Next(s2, Ask(c, None));
    var s4 := Next(s3, Enter(c));
    steps, s' := JoinerIsServed(s4, c, d);
    OneMore(s3, Enter(c), steps, s', c);
    steps := [Enter(c)] + steps;
    OneMore(s2, Ask(c, None), steps, s', c);
    steps := [Ask(c, None)] + steps;
    OneMore(s1, Ask(c, None), steps, s', c);
    steps := [Ask(c, None)] + steps;
    OneMore(s, Ask(c, None), steps, s', c);
    steps := [Ask(c, None)] + steps;
  }

  /** Once the caches hold nothing for k, a call for k that begins only then can get an answer from before, one for
      which neither gen is started nor a similar question found any more, exactly when some caller of k is between the
      start of gen and its landing, or about to land with an answer it found before. */
  lemma OldAnswerIsUsedExactlyWhen(s: State, k: Key, c: Id)
    requires Inv(s) && Emptied(s, k) && c in s.callers && s.callers[c] == Caller(k, AskExact)
    ensures (exists steps, s' :: Serves(s, steps, s', c))
            <==> exists d :: d in s.callers && s.callers[d].key == k && HoldsOld(s.callers[d].phase)
  {
    if d :| d in s.callers && s.callers[d].key == k && HoldsOld(s.callers[d].phase) {
      var steps, s' := NewcomerIsServed(s, c, d);
    } else {
      forall steps, s' ensures !Serves(s, steps, s', c) {
        if Runs(s, steps, s') && !Renewed(s, steps, k) { NothingOldIsReturned(s, steps, s', k, c); }
      }
    }
  }

  lemma RunLonger(s: State, step: Step, steps: seq<Step>, s': State)
    requires Enabled(s, step) && Runs(Next(s, step), steps, s')
    ensures Runs(s, [step] + steps, s')
  {
    assert ([step] + steps)[0] == step && ([step] + steps)[1..] == steps;
  }

  /** The first caller for a key misses everything, takes off, misses everything again and starts gen. */
  lemma TakesOff(s: State, c: Id) returns (steps: seq<Step>, s': State)
    requires c in s.callers && s.callers[c].phase.AskExact?
    requires Emptied(s, s.callers[c].key) && s.callers[c].key !in s.flights
    ensures Runs(s, steps, s') && c in s'.callers && s'.callers[c] == s.callers[c].(phase := Generating)
    ensures Emptied(s', s.callers[c].key)
    ensures forall x :: x in s.callers && x != c ==> x in s'.callers && s'.callers[x] == s.callers[x]
  {
    var s1 := Next(s, Ask(c, None));
    var s2 := Next(s1, Ask(c, None));
    var s3 := Next(s2, Ask(c, None));
    var s4 := Next(s3, Enter(c));
    var s5 := Next(s4, Check(c, None));
    var s6 := Next(s5, Check(c, None));
    s' := Next(s6, Check(c, None));
    steps := [];
    RunLonger(s6, Check(c, None), steps, s');
    steps := [Check(c, None)] + steps;
    RunLonger(s5, Check(c, None), steps, s');
    steps := [Check(c, None)] + steps;
    RunLonger(s4, Check(c, None), steps, s');
    steps := [Check(c, None)] + steps;
    RunLonger(s3, Enter(c), steps, s');
    steps := [Enter(c)] + steps;
    RunLonger(s2, Ask(c, None), steps, s');
    steps := [Ask(c, None)] + steps;
    RunLonger(s1, Ask(c, None), steps, s');
    steps := [Ask(c, None)] + steps;
    RunLonger(s, Ask(c, None), steps, s');
    steps := [Ask(c, None)] + steps;
  }

  /** It does happen: of two callers for one key the first is in gen when everything is purged, and the second, which
      begins only then, gets what that gen makes. */
  lemma OldAnswerCanBeUsed(k: Key) returns (before: seq<Step>, s: State)
    ensures Runs(Start(map[0 := k, 1 := k]), before, s) && Emptied(s, k)
    ensures 1 in s.callers && s.callers[1] == Caller(k, AskExact)
    ensures exists steps, s' :: Serves(s, steps, s', 1)
  {
    var start := Start(map[0 := k, 1 := k]);
    before, s := TakesOff(start, 0);
    StartInv(map[0 := k, 1 := k]);
    RunKeepsInv(start, before, s);
    assert HoldsOld(s.callers[0].phase);
    OldAnswerIsUsedExactlyWhen(s, k, 1);
  }

  // ------------------------------------------------------------------ every call returns

  /** How many steps of its own a caller still has. */
  function Distance(p: Phase): nat {
    match p
    case AskExact => 12
    case AskNegative => 11
    case AskSemantic => 10
    case Entering => 9
    case CheckExact => 8
    case CheckNegative => 7
    case CheckSemantic => 6
    case Generating => 5
    case WriteExact(_) => 4
    case WriteSemantic(_) => 3
    case ClearNegative(_) => 2
    case WriteNegative(_) => 2
    case Landing(_) => 1
    case Joined(_) => 1
    case Done(_, _) => 0
  }

  function StepsOf(steps: seq<Step>, c: Id): nat {
    if steps == [] then 0 else (if !steps[0].Lose? && steps[0].c == c then 1 else 0) + StepsOf(steps[1..], c)
  }

  lemma OthersStay(s: State, step: Step, c: Id)
    requires Enabled(s, step) && c in s.callers && !step.Land? && (step.Lose? || step.c != c)
    ensures c in Next(s, step).callers && Next(s, step).callers[c] == s.callers[c]
  {
  }

  lemma LandBringsCloser(s: State, l: Id, c: Id)
    requires Enabled(s, Land(l)) && c in s.callers
    ensures c in Next(s, Land(l)).callers
    ensures Distance(Next(s, Land(l)).callers[c].phase) + (if l == c then 1 else 0) <= Distance(s.callers[c].phase)
  {
  }

  lemma LookBringsCloser(s: State, step: Step)
    requires Enabled(s, step) && (step.Ask? || step.Check?)
    ensures step.c in Next(s, step).callers
    ensures Distance(Next(s, step).callers[step.c].phase) < Distance(s.callers[step.c].phase)
  {
  }

  lemma MoveBringsCloser(s: State, step: Step)
    requires Enabled(s, step) && (step.Enter? || step.GenEnds? || step.Write?)
    ensures step.c in Next(s, step).callers
    ensures Distance(Next(s, step).callers[step.c].phase) < Distance(s.callers[step.c].phase)
  {
  }

  lemma StepBringsCloser(s: State, step: Step, c: Id)
    requires Enabled(s, step) && c in s.callers
    ensures c in Next(s, step).callers
    ensures Distance(Next(s, step).callers[c].phase) + (if !step.Lose? && step.c == c then 1 else 0)
            <= Distance(s.callers[c].phase)
  {
    hide Next, Distance;
    if step.Land? {
      LandBringsCloser(s, step.c, c);
    } else if step.Lose? || step.c != c {
      OthersStay(s, step, c);
    } else if step.Ask? || step.Check? {
      LookBringsCloser(s, step);
    } else {
      MoveBringsCloser(s, step);
    }
  }

  lemma {:induction false} BoundedSteps(s: State, steps: seq<Step>, s': State, c: Id)
    requires Runs(s, steps, s') && c in s.callers
    ensures c in s'.callers && StepsOf(steps, c) + Distance(s'.callers[c].phase) <= Distance(s.callers[c].phase)
    decreases |steps|
  {
    if steps != [] {
      StepBringsCloser(s, steps[0], c);
      BoundedSteps(Next(s, steps[0]), steps[1..], s', c);
    }
  }

  /** A caller that waits for nobody can move by itself, if only because gen returns. */
  lemma MovesByItself(s: State, c: Id)
    requires c in s.callers && !s.callers[c].phase.Joined? && !s.callers[c].phase.Done?
    ensures exists step :: Enabled(s, step) && !step.Lose?
  {
    var p := s.callers[c].phase;
    var step := if p.AskExact? || p.AskNegative? || p.AskSemantic? then Ask(c, None)
      else if p.Entering? then Enter(c)
      else if p.CheckExact? || p.CheckNegative? || p.CheckSemantic? then Check(c, None)
      else if p.Generating? then GenEnds(c, Error)
      else if p.Landing? then Land(c)
      else Write(c);
    assert Enabled(s, step);
  }

  /** Every call returns: it takes at most twelve steps of its own, and as long as it has not returned something can
      move; where nothing can move any more but entries expire, every caller has its result. */
  lemma EveryCallReturns(keys: map<Id, Key>, steps: seq<Step>, s: State, c: Id)
    requires Runs(Start(keys), steps, s) && c in keys
    ensures StepsOf(steps, c) <= 12 && c in s.callers
    ensures !s.callers[c].phase.Done? ==> exists step :: Enabled(s, step) && !step.Lose?
  {
    StartInv(keys);
    RunKeepsInv(Start(keys), steps, s);
    BoundedSteps(Start(keys), steps, s, c);
    if s.callers[c].phase.Joined? {
      assert CallerOk(s, c);
      MovesByItself(s, s.callers[c].phase.leader);
    } else if !s.callers[c].phase.Done? {
      MovesByItself(s, c);
    }
  }

  // ------------------------------------------------------------------ what the first look is for

  /** The caller has not begun, or has its answer from the exact cache without having waited for any flight. */
  predicate AtOnce(caller: Caller) {
    caller.phase.AskExact? || (caller.phase.Done? && caller.phase.flight == None &&
                               caller.phase.result.Got? && caller.phase.result.hit.level == Exact)
  }

  lemma AtOnceStep(s: State, step: Step, c: Id)
    requires Enabled(s, step) && c in s.callers && AtOnce(s.callers[c])
    requires s.callers[c].key in s.exact && step != Lose(s.callers[c].key, Exact)
    ensures c in Next(s, step).callers && AtOnce(Next(s, step).callers[c])
    ensures Next(s, step).callers[c].key == s.callers[c].key && s.callers[c].key in Next(s, step).exact
    ensures !step.Lose? && step.c == c ==> Next(s, step).callers[c].phase.Done?
    ensures !step.Lose? && step.c == c && s.callers[c].phase.AskExact? ==>
              Next(s, step).callers[c].phase.result.hit.answer == s.exact[s.callers[c].key]
    ensures s.callers[c].phase.Done? ==> Next(s, step).callers[c] == s.callers[c]
  {
  }

  /** As long as the exact cache keeps an entry for its key, a caller that has not begun is answered from it by its very
      first step, and enters no flight. */
  lemma {:induction false} HeldAnswersAtOnce(s: State, steps: seq<Step>, s': State, c: Id)
    requires Runs(s, steps, s') && c in s.callers && AtOnce(s.callers[c]) && s.callers[c].key in s.exact
    requires Lose(s.callers[c].key, Exact) !in steps
    ensures c in s'.callers && AtOnce(s'.callers[c])
    ensures StepsOf(steps, c) > 0 || s.callers[c].phase.Done? ==> s'.callers[c].phase.Done?
    decreases |steps|
  {
    if steps != [] {
      AtOnceStep(s, steps[0], c);
      HeldAnswersAtOnce(Next(s, steps[0]), steps[1..], s', c);
    }
  }
}
