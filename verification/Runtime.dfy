/**
 One ACP connection as a step system. The reader cancels, the dispatcher admits
 prompts, each running turn has one operation task, and everything those roles put on
 the main writer queue is recorded in push order. Each lock section, queue push and
 queue pop is one atomic step; backends are arbitrary, may fail and may panic, and the
 writer may die at any point.
 */
module Runtime {
  import opened Prelude
  import opened SessionRegistry

  /** A `session/prompt` request; `target` is absent when its parameters are refused. */
  datatype Prompt = Prompt(id: RequestId, target: Option<Pair<SessionId, string>>)

  /** How a turn ended. A panic is answered on the wire like any other failure. */
  datatype Outcome = Completed | Cancelled | Failed | Panicked

  /** `Armed`: an emit passed its last token check and is about to push its frame.
      `Answered`: the terminal response is queued and the handoff is still to come. */
  datatype Phase = Running | Armed(update: nat) | Decided(outcome: Outcome) | Answered

  /** An operation task; `opener` is the request id of the prompt that opened the busy period. */
  datatype Task = Task(sid: SessionId, job: Job, token: Token, phase: Phase, opener: RequestId)

  datatype Frame =
    | Update(sid: SessionId, token: Token, update: nat)
    | Terminal(sid: SessionId, token: Token, job: Job, outcome: Outcome)
    | Refusal(prompt: Prompt)

  datatype Dispatcher = Ready | Refusing(prompt: Prompt)

  /** Where a prompt was routed: to its session's turns, or straight to an error response. */
  datatype Channel = Turns(sid: SessionId) | Refusals
  type Entry = Pair<Channel, Prompt>

  /** `received` is what the reader forwarded, `routed` what the dispatcher decided so far,
      `main` every frame pushed on the main queue, oldest first. */
  datatype State = State(
    reg: RegistryState,
    tasks: map<nat, Task>,
    nextTask: nat,
    received: seq<Prompt>,
    routed: seq<Entry>,
    dispatcher: Dispatcher,
    main: seq<Frame>,
    writerAlive: bool)

  /** `CancelRequest` names the session its scan hits, if any; the scan visits the sessions in
      no particular order. */
  datatype Label =
    | Receive(prompt: Prompt)
    | CancelSession(sid: SessionId)
    | CancelEverything
    | CancelRequest(id: RequestId, hit: Option<SessionId>)
    | Dispatch
    | Refuse
    | BeginEmit(k: nat, update: nat)
    | AbortEmit(k: nat)
    | PushUpdate(k: nat)
    | BackendReturns(k: nat, ok: bool)
    | GraceElapses(k: nat)
    | BackendPanics(k: nat)
    | Answer(k: nat)
    | Abandon(k: nat)
    | Finish(k: nat)
    | WriterStops

  // -------------------------------------------------------------------------- steps

  predicate InPhase(s: State, k: nat, phase: Phase) {
    k in s.tasks && s.tasks[k].phase == phase
  }

  /** The session runs a turn under this request id. */
  predicate Carries(r: RegistryState, sid: SessionId, id: RequestId) {
    IsActive(r.sessions, sid) && Turn(r, sid).requestId == id
  }

  predicate ScanHits(r: RegistryState, id: RequestId, hit: Option<SessionId>) {
    match hit
    case Some(sid) => Carries(r, sid, id)
    case None => forall sid :: sid in r.sessions ==> !Carries(r, sid, id)
  }

  predicate Enabled(s: State, l: Label) {
    match l
    case Receive(_) => true
    case CancelSession(_) => true
    case CancelEverything => true
    case CancelRequest(id, hit) => ScanHits(s.reg, id, hit)
    case Dispatch => s.dispatcher.Ready? && |s.routed| < |s.received|
    case Refuse => s.dispatcher.Refusing? && s.writerAlive
    case BeginEmit(k, _) => InPhase(s, k, Running) && s.tasks[k].token !in s.reg.fired
    case AbortEmit(k) => k in s.tasks && s.tasks[k].phase.Armed?
    case PushUpdate(k) => k in s.tasks && s.tasks[k].phase.Armed? && s.writerAlive
    case BackendReturns(k, _) => InPhase(s, k, Running)
    case GraceElapses(k) => InPhase(s, k, Running) && s.tasks[k].token in s.reg.fired
    case BackendPanics(k) => InPhase(s, k, Running)
    case Answer(k) => k in s.tasks && s.tasks[k].phase.Decided? && s.writerAlive
    case Abandon(k) => k in s.tasks && s.tasks[k].phase.Decided? && !s.writerAlive
    case Finish(k) => InPhase(s, k, Answered)
    case WriterStops => true
  }

  function Enter(s: State, k: nat, phase: Phase): State
    requires k in s.tasks
  {
    s.(tasks := s.tasks[k := s.tasks[k].(phase := phase)])
  }

  function Push(s: State, f: Frame): State {
    s.(main := s.main + [f])
  }

  function Spawn(s: State, t: Task): State {
    s.(tasks := s.tasks[s.nextTask := t], nextTask := s.nextTask + 1)
  }

  function Route(s: State, c: Channel, p: Prompt): State {
    s.(routed := s.routed + [Pair(c, p)])
  }

  /** The dispatcher takes the oldest undecided prompt. */
  function DispatchPrompt(s: State, p: Prompt): State {
    match p.target
    case None => Route(s, Refusals, p).(dispatcher := Refusing(p))
    case Some(target) =>
      var sid := target.first;
      var job := Job(p.id, target.second);
      var a := Admit(s.reg, sid, job);
      var s' := s.(reg := a.first);
      match a.second
      case Start(job, token) => Spawn(Route(s', Turns(sid), p), Task(sid, job, token, Running, job.id))
      case Queued => Route(s', Turns(sid), p)
      case Busy => Route(s', Refusals, p).(dispatcher := Refusing(p))
      case Full => Route(s', Refusals, p).(dispatcher := Refusing(p))
  }

  /** The handoff after a terminal response: the queued prompt, if any, gets a new task. */
  function HandOff(s: State, k: nat): State
    requires k in s.tasks
  {
    var t := s.tasks[k];
    var f := SessionRegistry.Finish(s.reg, t.sid, t.token);
    var s' := s.(reg := f.first, tasks := s.tasks - {k});
    match f.second
    case None => s'
    case Some(next) => Spawn(s', Task(t.sid, next.first, next.second, Running, t.opener))
  }

  function Next(s: State, l: Label): State
    requires Enabled(s, l)
  {
    match l
    case Receive(p) => s.(received := s.received + [p])
    case CancelSession(sid) => s.(reg := Fire(s.reg, sid))
    case CancelEverything => s.(reg := FireAll(s.reg))
    case CancelRequest(_, hit) => if hit.Some? then s.(reg := Fire(s.reg, hit.value)) else s
    case Dispatch => DispatchPrompt(s, s.received[|s.routed|])
    case Refuse => Push(s, Refusal(s.dispatcher.prompt)).(dispatcher := Ready)
    case BeginEmit(k, update) => Enter(s, k, Armed(update))
    case AbortEmit(k) => Enter(s, k, Running)
    case PushUpdate(k) =>
      var t := s.tasks[k];
      Push(Enter(s, k, Running), Update(t.sid, t.token, t.phase.update))
    case BackendReturns(k, ok) =>
      Enter(s, k, Decided(if s.tasks[k].token in s.reg.fired then Cancelled else if ok then Completed else Failed))
    case GraceElapses(k) => Enter(s, k, Decided(Cancelled))
    case BackendPanics(k) => Enter(s, k, Decided(Panicked))
    case Answer(k) =>
      var t := s.tasks[k];
      Push(Enter(s, k, Answered), Terminal(t.sid, t.token, t.job, t.phase.outcome))
    case Abandon(k) => s.(tasks := s.tasks - {k})
    case Finish(k) => HandOff(s, k)
    case WriterStops => s.(writerAlive := false)
  }

  function Initial(maxSessions: nat): State {
    State(Empty(maxSessions), map[], 0, [], [], Ready, [], true)
  }

  /** The state a sequence of steps leads to, if each step was enabled when it was taken. */
  function After(s: State, run: seq<Label>): Option<State> {
    if run == [] then Some(s)
    else match After(s, Front(run))
      case None => None
      case Some(s') => if Enabled(s', Last(run)) then Some(Next(s', Last(run))) else None
  }

  // ---------------------------------------------------------- turns and their owners

  /** The task runs the turn its session has in the registry. */
  predicate Owns(r: RegistryState, t: Task) {
    && IsActive(r.sessions, t.sid)
    && Turn(r, t.sid).token == t.token
    && Turn(r, t.sid).requestId == t.opener
  }

  /** Every task owns its session's turn, no two tasks serve one session, and while the
      writer lives there are as many tasks as running turns. */
  ghost predicate Ownership(s: State) {
    && WellFormed(s.reg)
    && (forall k :: k in s.tasks ==> k < s.nextTask && Owns(s.reg, s.tasks[k]))
    && (forall j, k :: j in s.tasks && k in s.tasks && j != k ==> s.tasks[j].sid != s.tasks[k].sid)
    && (s.writerAlive ==> |s.tasks| == s.reg.activeTurns)
  }

  lemma SpawnOwner(s: State, t: Task)
    requires Ownership(s.(writerAlive := false)) && Owns(s.reg, t)
    requires forall k :: k in s.tasks ==> s.tasks[k].sid != t.sid
    requires s.writerAlive ==> |s.tasks| + 1 == s.reg.activeTurns
    ensures Ownership(Spawn(s, t))
  {
    hide WellFormed, Owns;
    assert Spawn(s, t).tasks.Keys == s.tasks.Keys + {s.nextTask};
  }

  /** Tasks keep owning their turns when the registry changes only `sid`, and leaves
      the identity of a turn running there alone. */
  lemma OwnersSurvive(tasks: map<nat, Task>, r: RegistryState, r': RegistryState, sid: SessionId)
    requires forall k :: k in tasks ==> Owns(r, tasks[k])
    requires OthersUntouched(r, r', sid)
    requires forall k :: k in tasks && tasks[k].sid == sid ==> Owns(r', tasks[k])
    ensures forall k :: k in tasks ==> Owns(r', tasks[k])
  {
    forall k | k in tasks ensures Owns(r', tasks[k]) {
      assert Owns(r, tasks[k]);
    }
  }

  lemma DispatchOwnership(s: State, p: Prompt)
    requires Ownership(s)
    ensures Ownership(DispatchPrompt(s, p))
  {
    hide Admit, WellFormed, OthersUntouched;
    if p.target.Some? {
      var sid := p.target.value.first;
      var job := Job(p.id, p.target.value.second);
      var a := Admit(s.reg, sid, job);
      AdmitKeeps(s.reg, sid, job);
      AdmitVerdict(s.reg, sid, job);
      assert forall k :: k in s.tasks && s.tasks[k].sid == sid ==> Owns(s.reg, s.tasks[k]);
      OwnersSurvive(s.tasks, s.reg, a.first, sid);
      var s' := s.(reg := a.first);
      if a.second.Start? {
        SpawnOwner(Route(s', Turns(sid), p), Task(sid, job, a.second.token, Running, job.id));
      }
    }
  }

  lemma HandOffOwnership(s: State, k: nat)
    requires Ownership(s) && k in s.tasks
    ensures Ownership(HandOff(s, k))
  {
    var t := s.tasks[k];
    FinishKeeps(s.reg, t.sid, t.token);
    FinishVerdict(s.reg, t.sid);
    var f := SessionRegistry.Finish(s.reg, t.sid, t.token);
    var s' := s.(reg := f.first, tasks := s.tasks - {k});
    HandedOver(s, s', k);
    hide WellFormed, SessionRegistry.Finish, OthersUntouched, Ownership, IsActive;
    assert s'.tasks.Keys == s.tasks.Keys - {k};
    if f.second.Some? {
      SpawnOwner(s', Task(t.sid, f.second.value.first, f.second.value.second, Running, t.opener));
    }
  }

  /** The other tasks keep their turns when one task's turn changes hands or ends. */
  lemma HandedOver(s: State, s': State, k: nat)
    requires Ownership(s) && k in s.tasks && WellFormed(s'.reg)
    requires s' == s.(reg := s'.reg, tasks := s.tasks - {k}) && OthersUntouched(s.reg, s'.reg, s.tasks[k].sid)
    ensures Ownership(s'.(writerAlive := false))
    ensures forall j :: j in s'.tasks ==> s'.tasks[j].sid != s.tasks[k].sid
    ensures |s'.tasks| == |s.tasks| - 1
    ensures Owns(s.reg, s.tasks[k])
  {
    hide WellFormed;
    assert s'.tasks.Keys == s.tasks.Keys - {k} && |s'.tasks| == |s'.tasks.Keys|;
    assert forall j :: j in s'.tasks ==> Owns(s.reg, s.tasks[j]);
    OwnersSurvive(s'.tasks, s.reg, s'.reg, s.tasks[k].sid);
    hide Owns, OthersUntouched;
  }

  lemma EnterOwnership(s: State, k: nat, phase: Phase)
    requires Ownership(s) && k in s.tasks
    ensures Ownership(Enter(s, k, phase))
  {
    hide WellFormed;
    assert Enter(s, k, phase).tasks.Keys == s.tasks.Keys;
  }

  lemma OwnershipStep(s: State, l: Label)
    requires Ownership(s) && Enabled(s, l)
    ensures Ownership(Next(s, l))
  {
    hide WellFormed, Ownership, ScanHits;
    match l
    case Dispatch => DispatchOwnership(s, s.received[|s.routed|]);
    case Finish(k) => HandOffOwnership(s, k);
    case CancelSession(sid) => RegistryOwnership(s, DoCancel(sid));
    case CancelEverything => RegistryOwnership(s, DoCancelAll);
    case CancelRequest(_, hit) => if hit.Some? { RegistryOwnership(s, DoCancel(hit.value)); }
    case Abandon(k) => AbandonOwnership(s, k);
    case Receive(_) => SameOwners(s, Next(s, l));
    case Refuse => SameOwners(s, Next(s, l));
    case WriterStops => SameOwners(s, Next(s, l));
    case _ => TaskOwnership(s, l);
  }

  /** The labels that only move one task from phase to phase, perhaps pushing a frame. */
  predicate MovesTask(l: Label) {
    l.BeginEmit? || l.AbortEmit? || l.PushUpdate? || l.BackendReturns? || l.GraceElapses? || l.BackendPanics? || l.Answer?
  }

  lemma TaskOwnership(s: State, l: Label)
    requires Ownership(s) && Enabled(s, l) && MovesTask(l)
    ensures Ownership(Next(s, l))
  {
    hide Ownership;
    EnterOwnership(s, l.k, Next(s, l).tasks[l.k].phase);
    SameOwners(Enter(s, l.k, Next(s, l).tasks[l.k].phase), Next(s, l));
  }

  lemma RegistryOwnership(s: State, op: Op)
    requires Ownership(s) && (op.DoCancel? || op.DoCancelAll?)
    ensures Ownership(s.(reg := Perform(s.reg, op)))
  {
    PerformKeeps(s.reg, op);
    hide WellFormed;
  }

  lemma AbandonOwnership(s: State, k: nat)
    requires Ownership(s) && !s.writerAlive
    ensures Ownership(s.(tasks := s.tasks - {k}))
  {
    hide WellFormed, Owns;
  }

  lemma SameOwners(s: State, s': State)
    requires Ownership(s) && s'.reg == s.reg && s'.tasks == s.tasks && s'.nextTask == s.nextTask
    requires s'.writerAlive ==> s.writerAlive
    ensures Ownership(s')
  {
    hide WellFormed, Owns;
  }

  /** The sessions served by the tasks numbered `keys`. */
  function Served(tasks: map<nat, Task>, keys: set<nat>): set<SessionId>
    requires keys <= tasks.Keys
  {
    set k | k in keys :: tasks[k].sid
  }

  lemma ServedSize(tasks: map<nat, Task>, keys: set<nat>)
    requires keys <= tasks.Keys
    requires forall j, k :: j in tasks && k in tasks && j != k ==> tasks[j].sid != tasks[k].sid
    ensures |Served(tasks, keys)| == |keys|
  {
    if keys != {} {
      var k :| k in keys;
      ServedSize(tasks, keys - {k});
      assert keys == keys - {k} + {k};
      assert Served(tasks, keys) == Served(tasks, keys - {k}) + {tasks[k].sid};
    }
  }

  /** While the writer lives, each session with a running turn has exactly one live
      operation task, and that task holds the turn's token. */
  lemma OneTaskPerTurn(s: State)
    requires Ownership(s) && s.writerAlive
    ensures forall sid :: IsActive(s.reg.sessions, sid) <==> sid in Served(s.tasks, s.tasks.Keys)
    ensures forall j, k :: j in s.tasks && k in s.tasks && s.tasks[j].sid == s.tasks[k].sid ==> j == k
    ensures forall k :: k in s.tasks ==> Owns(s.reg, s.tasks[k])
  {
    forall sid | sid in Served(s.tasks, s.tasks.Keys) ensures sid in ActiveSessions(s.reg.sessions) {
      var k :| k in s.tasks && s.tasks[k].sid == sid;
      assert Owns(s.reg, s.tasks[k]);
    }
    ServedSize(s.tasks, s.tasks.Keys);
    SubsetSize(Served(s.tasks, s.tasks.Keys), ActiveSessions(s.reg.sessions));
    assert forall sid :: sid in ActiveSessions(s.reg.sessions) <==> IsActive(s.reg.sessions, sid);
  }

  // -------------------------------------------------------- prompts and their responses

  function PromptFor(sid: SessionId, job: Job): Prompt {
    Prompt(job.id, Some(Pair(sid, job.text)))
  }

  /** The prompt a frame answers, with the channel it was routed to. */
  function AnswerOf(f: Frame): Option<Entry> {
    match f
    case Update(_, _, _) => None
    case Terminal(sid, _, job, _) => Some(Pair(Turns(sid), PromptFor(sid, job)))
    case Refusal(p) => Some(Pair(Refusals, p))
  }

  /** The prompts answered on the main queue, in the order of their responses. */
  function Responses(main: seq<Frame>): seq<Entry> {
    if main == [] then []
    else Responses(Front(main)) + (match AnswerOf(Last(main)) case Some(e) => [e] case None => [])
  }

  function Project(entries: seq<Entry>, c: Channel): seq<Prompt> {
    if entries == [] then []
    else Project(Front(entries), c) + (if Last(entries).first == c then [Last(entries).second] else [])
  }

  lemma ProjectAppend(entries: seq<Entry>, e: Entry)
    ensures forall c :: Project(entries + [e], c) == Project(entries, c) + (if e.first == c then [e.second] else [])
  {
    assert Front(entries + [e]) == entries;
  }

  lemma ResponsesAppend(main: seq<Frame>, f: Frame)
    ensures Responses(main + [f]) == Responses(main) + (match AnswerOf(f) case Some(e) => [e] case None => [])
  {
    assert Front(main + [f]) == main;
  }

  /** What a session still owes: its running prompt, until answered, then its queued one. */
  function Owed(r: RegistryState, t: Task): seq<Prompt> {
    if !IsActive(r.sessions, t.sid) then []
    else
      (if t.phase.Answered? then [] else [PromptFor(t.sid, t.job)]) +
      (match Turn(r, t.sid).queued case Some(job) => [PromptFor(t.sid, job)] case None => [])
  }

  predicate SessionLaw(routed: seq<Entry>, answered: seq<Entry>, r: RegistryState, t: Task) {
    Project(routed, Turns(t.sid)) == Project(answered, Turns(t.sid)) + Owed(r, t)
  }

  predicate Settled(routed: seq<Entry>, answered: seq<Entry>, c: Channel) {
    Project(routed, c) == Project(answered, c)
  }

  predicate Behind(routed: seq<Entry>, answered: seq<Entry>, c: Channel) {
    Project(answered, c) <= Project(routed, c)
  }

  function PendingRefusal(d: Dispatcher): seq<Prompt> {
    match d case Ready => [] case Refusing(p) => [p]
  }

  /** Per channel, the responses so far followed by what is still owed are exactly the
      prompts routed there, in order. */
  ghost predicate Fifo(s: State) {
    var answered := Responses(s.main);
    && (forall k :: k in s.tasks ==> SessionLaw(s.routed, answered, s.reg, s.tasks[k]))
    && (forall sid :: !IsActive(s.reg.sessions, sid) ==> Settled(s.routed, answered, Turns(sid)))
    && Project(s.routed, Refusals) == Project(answered, Refusals) + PendingRefusal(s.dispatcher)
    && (forall c :: Behind(s.routed, answered, c))
  }

  /** Steps that route nothing, answer nothing and change no turn keep the law. */
  lemma FifoFrame(s: State, s': State)
    requires Fifo(s)
    requires s'.routed == s.routed && Responses(s'.main) == Responses(s.main)
    requires s'.reg.sessions == s.reg.sessions && s'.dispatcher == s.dispatcher
    requires forall k :: k in s'.tasks ==> k in s.tasks && s'.tasks[k].sid == s.tasks[k].sid && s'.tasks[k].job == s.tasks[k].job
                                           && (s'.tasks[k].phase.Answered? <==> s.tasks[k].phase.Answered?)
    ensures Fifo(s')
  {
    hide Project, Responses;
    forall k | k in s'.tasks ensures SessionLaw(s'.routed, Responses(s'.main), s'.reg, s'.tasks[k]) {
      assert SessionLaw(s.routed, Responses(s.main), s.reg, s.tasks[k]);
      assert Owed(s'.reg, s'.tasks[k]) == Owed(s.reg, s.tasks[k]);
    }
  }

  lemma FifoRefused(s: State, reg': RegistryState, p: Prompt)
    requires Fifo(s) && s.dispatcher.Ready?
    requires forall k :: k in s.tasks ==> Owed(reg', s.tasks[k]) == Owed(s.reg, s.tasks[k])
    requires forall sid :: IsActive(s.reg.sessions, sid) ==> IsActive(reg'.sessions, sid)
    ensures Fifo(Route(s.(reg := reg'), Refusals, p).(dispatcher := Refusing(p)))
  {
    ProjectAppend(s.routed, Pair(Refusals, p));
    hide Project, Responses, Owed;
    var s' := Route(s.(reg := reg'), Refusals, p).(dispatcher := Refusing(p));
    var answered := Responses(s.main);
    forall c ensures Behind(s'.routed, answered, c) {
      assert Behind(s.routed, answered, c);
    }
    forall sid | !IsActive(s'.reg.sessions, sid) ensures Settled(s'.routed, answered, Turns(sid)) {
      assert Settled(s.routed, answered, Turns(sid));
    }
    forall k | k in s'.tasks ensures SessionLaw(s'.routed, answered, s'.reg, s'.tasks[k]) {
      assert SessionLaw(s.routed, answered, s.reg, s.tasks[k]);
    }
  }

  /** Routing a prompt to a session's turns: the session now owes it last. */
  lemma FifoRouted(s: State, reg': RegistryState, sid: SessionId, p: Prompt)
    requires Fifo(s)
    requires forall k :: k in s.tasks ==>
      Owed(reg', s.tasks[k]) == Owed(s.reg, s.tasks[k]) + (if s.tasks[k].sid == sid then [p] else [])
    requires IsActive(reg'.sessions, sid)
    requires forall x :: IsActive(s.reg.sessions, x) ==> IsActive(reg'.sessions, x)
    ensures Fifo(Route(s.(reg := reg'), Turns(sid), p))
  {
    ProjectAppend(s.routed, Pair(Turns(sid), p));
    hide Project, Responses, Owed;
    var s' := Route(s.(reg := reg'), Turns(sid), p);
    var answered := Responses(s.main);
    forall c ensures Behind(s'.routed, answered, c) {
      assert Behind(s.routed, answered, c);
    }
    forall x | !IsActive(s'.reg.sessions, x) ensures Settled(s'.routed, answered, Turns(x)) {
      assert Settled(s.routed, answered, Turns(x));
    }
    forall k | k in s'.tasks ensures SessionLaw(s'.routed, answered, s'.reg, s'.tasks[k]) {
      assert SessionLaw(s.routed, answered, s.reg, s.tasks[k]);
    }
  }

  lemma FifoSpawn(s: State, t: Task)
    requires Fifo(s) && SessionLaw(s.routed, Responses(s.main), s.reg, t)
    ensures Fifo(Spawn(s, t))
  {
    hide Project, Responses, SessionLaw, Settled, Behind;
  }

  lemma OwedUntouched(tasks: map<nat, Task>, r: RegistryState, r': RegistryState, sid: SessionId)
    requires OthersUntouched(r, r', sid)
    ensures forall k :: k in tasks && tasks[k].sid != sid ==> Owed(r', tasks[k]) == Owed(r, tasks[k])
  {
  }

  lemma DispatchFifo(s: State, p: Prompt)
    requires Ownership(s) && Fifo(s) && s.dispatcher.Ready?
    ensures Fifo(DispatchPrompt(s, p))
  {
    hide Fifo, Admit, OthersUntouched, WellFormed;
    match p.target
    case None => FifoRefused(s, s.reg, p);
    case Some(target) =>
      var sid := target.first;
      var job := Job(p.id, target.second);
      var a := Admit(s.reg, sid, job);
      AdmitVerdict(s.reg, sid, job);
      OwedUntouched(s.tasks, s.reg, a.first, sid);
      StillActive(s.reg, a.first, sid);
      forall k | k in s.tasks ensures Owns(s.reg, s.tasks[k]) {}
      match a.second {
        case Start(_, token) => StartFifo(s, p, sid, job, a.first, token);
        case Queued => FifoRouted(s, a.first, sid, p);
        case Busy => FifoRefused(s, a.first, p);
        case Full => FifoRefused(s, a.first, p);
      }
  }

  lemma StillActive(r: RegistryState, r': RegistryState, sid: SessionId)
    requires OthersUntouched(r, r', sid)
    requires IsActive(r.sessions, sid) ==> IsActive(r'.sessions, sid)
    ensures forall x :: IsActive(r.sessions, x) ==> IsActive(r'.sessions, x)
  {
  }

  lemma StartFifo(s: State, p: Prompt, sid: SessionId, job: Job, reg': RegistryState, token: Token)
    requires Fifo(s)
    requires p.target == Some(Pair(sid, job.text)) && p.id == job.id
    requires !IsActive(s.reg.sessions, sid) && (forall k :: k in s.tasks ==> s.tasks[k].sid != sid)
    requires forall k :: k in s.tasks ==> Owed(reg', s.tasks[k]) == Owed(s.reg, s.tasks[k])
    requires IsActive(reg'.sessions, sid) && Turn(reg', sid).queued.None?
    requires forall x :: IsActive(s.reg.sessions, x) ==> IsActive(reg'.sessions, x)
    ensures Fifo(Spawn(Route(s.(reg := reg'), Turns(sid), p), Task(sid, job, token, Running, job.id)))
  {
    FifoRouted(s, reg', sid, p);
    ProjectAppend(s.routed, Pair(Turns(sid), p));
    assert Settled(s.routed, Responses(s.main), Turns(sid));
    var t := Task(sid, job, token, Running, job.id);
    hide Fifo, Project, Responses;
    assert Owed(reg', t) == [p];
    assert SessionLaw(s.routed + [Pair(Turns(sid), p)], Responses(s.main), reg', t);
    FifoSpawn(Route(s.(reg := reg'), Turns(sid), p), t);
  }

  /** Answering the prompt a channel owes first leaves it owing the rest, and touches no other channel. */
  lemma AnswerFirstOwed(routed: seq<Entry>, answered: seq<Entry>, e: Entry, rest: seq<Prompt>)
    requires forall c :: Behind(routed, answered, c)
    requires Project(routed, e.first) == Project(answered, e.first) + ([e.second] + rest)
    ensures forall c :: Behind(routed, answered + [e], c)
    ensures forall c :: c != e.first ==> Project(answered + [e], c) == Project(answered, c)
    ensures Project(routed, e.first) == Project(answered + [e], e.first) + rest
  {
    ProjectAppend(answered, e);
    hide Project;
    var before := Project(answered, e.first);
    assert before + ([e.second] + rest) == (before + [e.second]) + rest;
    forall c ensures Behind(routed, answered + [e], c) {
      assert Behind(routed, answered, c);
      if c == e.first {
        assert before + [e.second] <= (before + [e.second]) + rest;
      }
    }
  }

  /** One response answers the prompt its channel owed first. */
  lemma FifoAnswered(s: State, s': State, e: Entry)
    requires Fifo(s)
    requires s'.routed == s.routed && Responses(s'.main) == Responses(s.main) + [e]
    requires s'.reg == s.reg && s'.tasks.Keys == s.tasks.Keys
    requires forall c :: Behind(s.routed, Responses(s'.main), c)
    requires forall c :: c != e.first ==> Project(Responses(s'.main), c) == Project(Responses(s.main), c)
    requires forall k :: k in s.tasks && Turns(s.tasks[k].sid) != e.first ==> s'.tasks[k] == s.tasks[k]
    requires forall k :: k in s.tasks && Turns(s.tasks[k].sid) == e.first ==>
               s'.tasks[k].sid == s.tasks[k].sid && SessionLaw(s.routed, Responses(s'.main), s.reg, s'.tasks[k])
    requires e.first.Turns? ==> s'.dispatcher == s.dispatcher && IsActive(s.reg.sessions, e.first.sid)
    requires e.first.Refusals? ==>
               Project(s.routed, Refusals) == Project(Responses(s'.main), Refusals) + PendingRefusal(s'.dispatcher)
    ensures Fifo(s')
  {
    hide Project, Responses, Owed, Behind;
    forall x | !IsActive(s.reg.sessions, x) ensures Settled(s.routed, Responses(s'.main), Turns(x)) {
      assert Settled(s.routed, Responses(s.main), Turns(x));
    }
    forall k | k in s'.tasks ensures SessionLaw(s.routed, Responses(s'.main), s.reg, s'.tasks[k]) {
      assert SessionLaw(s.routed, Responses(s.main), s.reg, s.tasks[k]);
    }
  }

  lemma RefuseFifo(s: State)
    requires Fifo(s) && s.dispatcher.Refusing?
    ensures Fifo(Push(s, Refusal(s.dispatcher.prompt)).(dispatcher := Ready))
  {
    var p := s.dispatcher.prompt;
    var e := Pair(Refusals, p);
    ResponsesAppend(s.main, Refusal(p));
    assert PendingRefusal(s.dispatcher) == [p] + [];
    AnswerFirstOwed(s.routed, Responses(s.main), e, []);
    var s' := Push(s, Refusal(p)).(dispatcher := Ready);
    hide Project, Responses, Fifo, Behind, SessionLaw;
    FifoAnswered(s, s', e);
  }

  lemma OwesRunningFirst(s: State, k: nat)
    requires Fifo(s) && k in s.tasks && !s.tasks[k].phase.Answered?
    requires IsActive(s.reg.sessions, s.tasks[k].sid)
    ensures var t, answered := s.tasks[k], Responses(s.main);
            && Project(s.routed, Turns(t.sid))
               == Project(answered, Turns(t.sid)) + ([PromptFor(t.sid, t.job)] + Owed(s.reg, t.(phase := Answered)))
            && forall c :: Behind(s.routed, answered, c)
  {
    hide Project, Responses, Behind;
    var t := s.tasks[k];
    assert SessionLaw(s.routed, Responses(s.main), s.reg, t);
    assert Owed(s.reg, t) == [PromptFor(t.sid, t.job)] + Owed(s.reg, t.(phase := Answered));
  }

  lemma AnswerFifo(s: State, k: nat)
    requires Fifo(s) && k in s.tasks && s.tasks[k].phase.Decided?
    requires IsActive(s.reg.sessions, s.tasks[k].sid)
    requires forall j :: j in s.tasks && s.tasks[j].sid == s.tasks[k].sid ==> j == k
    ensures var t := s.tasks[k];
            Fifo(Push(Enter(s, k, Answered), Terminal(t.sid, t.token, t.job, t.phase.outcome)))
  {
    hide Fifo, Project, Responses, Behind, Owed;
    var t := s.tasks[k];
    var f := Terminal(t.sid, t.token, t.job, t.phase.outcome);
    var s' := Push(Enter(s, k, Answered), f);
    OwesRunningFirst(s, k);
    AnswerFirstOwed(s.routed, Responses(s.main), AnswerOf(f).value, Owed(s.reg, s'.tasks[k]));
    ResponsesAppend(s.main, f);
    assert s'.tasks.Keys == s.tasks.Keys;
    FifoAnswered(s, s', AnswerOf(f).value);
  }

  lemma HandOffFifo(s: State, k: nat)
    requires Ownership(s) && Fifo(s) && InPhase(s, k, Answered)
    ensures Fifo(HandOff(s, k))
  {
    var t := s.tasks[k];
    SoleTask(s, k);
    assert Owns(s.reg, t);
    FinishVerdict(s.reg, t.sid);
    var f := SessionRegistry.Finish(s.reg, t.sid, t.token);
    OwedUntouched(s.tasks, s.reg, f.first, t.sid);
    assert forall x :: IsActive(s.reg.sessions, x) && x != t.sid ==> IsActive(f.first.sessions, x);
    assert SessionLaw(s.routed, Responses(s.main), s.reg, t);
    hide Ownership, WellFormed, SessionRegistry.Finish, Project, Responses, OthersUntouched;
    var s' := s.(reg := f.first, tasks := s.tasks - {k});
    HandOffLaw(s, s', t);
    if f.second.Some? {
      var next := Task(t.sid, f.second.value.first, f.second.value.second, Running, t.opener);
      assert Owed(f.first, next) == Owed(s.reg, t);
      hide Fifo;
      FifoSpawn(s', next);
    }
  }

  lemma HandOffLaw(s: State, s': State, t: Task)
    requires Fifo(s)
    requires s'.routed == s.routed && s'.main == s.main && s'.dispatcher == s.dispatcher
    requires forall j :: j in s'.tasks ==> j in s.tasks && s'.tasks[j] == s.tasks[j] && Owed(s'.reg, s.tasks[j]) == Owed(s.reg, s.tasks[j])
    requires forall x :: IsActive(s.reg.sessions, x) && x != t.sid ==> IsActive(s'.reg.sessions, x)
    requires !IsActive(s'.reg.sessions, t.sid) ==> Settled(s.routed, Responses(s.main), Turns(t.sid))
    ensures Fifo(s')
  {
    hide Project, Responses, Owed;
    var answered := Responses(s.main);
    forall j | j in s'.tasks ensures SessionLaw(s.routed, answered, s'.reg, s'.tasks[j]) {
      assert SessionLaw(s.routed, answered, s.reg, s.tasks[j]);
    }
    forall x | !IsActive(s'.reg.sessions, x) ensures Settled(s.routed, answered, Turns(x)) {
      if x != t.sid { assert Settled(s.routed, answered, Turns(x)); }
    }
  }

  lemma SoleTask(s: State, k: nat)
    requires Ownership(s) && k in s.tasks
    ensures IsActive(s.reg.sessions, s.tasks[k].sid)
    ensures forall j :: j in s.tasks && s.tasks[j].sid == s.tasks[k].sid ==> j == k
  {
    hide WellFormed;
    assert Owns(s.reg, s.tasks[k]);
  }

  lemma FifoStep(s: State, l: Label)
    requires Ownership(s) && Fifo(s) && Enabled(s, l)
    ensures Fifo(Next(s, l))
  {
    hide Fifo, Ownership, DispatchPrompt, HandOff, ScanHits;
    match l
    case Dispatch => DispatchFifo(s, s.received[|s.routed|]);
    case Refuse => RefuseFifo(s);
    case Answer(k) => SoleTask(s, k); AnswerFifo(s, k);
    case Finish(k) => HandOffFifo(s, k);
    case PushUpdate(k) =>
      var t := s.tasks[k];
      ResponsesAppend(s.main, Update(t.sid, t.token, t.phase.update));
      FifoFrame(s, Next(s, l));
    case _ => QuietFifo(s, l);
  }

  /** Steps that neither route nor answer a prompt. */
  lemma QuietFifo(s: State, l: Label)
    requires Fifo(s) && Enabled(s, l)
    requires !l.Dispatch? && !l.Refuse? && !l.Answer? && !l.Finish? && !l.PushUpdate?
    ensures Fifo(Next(s, l))
  {
    hide Fifo, ScanHits, Responses;
    FifoFrame(s, Next(s, l));
  }

  // --------------------------------------------------------------- frames and their turns

  predicate SameSession(f: Frame, g: Frame) {
    !f.Refusal? && !g.Refusal? && f.sid == g.sid
  }

  /** A session's frames appear turn by turn, and a terminal response is the last frame of its turn. */
  ghost predicate TurnByTurn(main: seq<Frame>) {
    forall i, j :: 0 <= i < j < |main| && SameSession(main[i], main[j]) ==>
      main[i].token <= main[j].token && (main[i].Terminal? ==> main[i].token < main[j].token)
  }

  /** No frame is from a turn later than its session's current one, and an unanswered
      task's turn has no terminal response. */
  predicate NotAhead(f: Frame, t: Task) {
    !f.Refusal? && f.sid == t.sid ==>
      f.token <= t.token && (f.Terminal? && !t.phase.Answered? ==> f.token < t.token)
  }

  ghost predicate Sequenced(s: State) {
    && TurnByTurn(s.main)
    && (forall f :: f in s.main && !f.Refusal? ==> f.token < s.reg.nextToken)
    && (forall k, f :: k in s.tasks && f in s.main ==> NotAhead(f, s.tasks[k]))
  }

  predicate Justified(f: Frame, fired: set<Token>) {
    f.Terminal? && f.outcome == Cancelled ==> f.token in fired
  }

  predicate DecisionJustified(t: Task, fired: set<Token>) {
    t.phase == Decided(Cancelled) ==> t.token in fired
  }

  /** Only a turn whose token fired is reported as cancelled. */
  ghost predicate CancelsJustified(s: State) {
    && (forall f :: f in s.main ==> Justified(f, s.reg.fired))
    && (forall k :: k in s.tasks ==> DecisionJustified(s.tasks[k], s.reg.fired))
  }

  lemma PushSequenced(s: State, k: nat, f: Frame, phase: Phase)
    requires Ownership(s) && Sequenced(s) && k in s.tasks && !s.tasks[k].phase.Answered?
    requires !f.Refusal? && f.sid == s.tasks[k].sid && f.token == s.tasks[k].token
    requires f.Terminal? <==> phase == Answered
    ensures Sequenced(Push(Enter(s, k, phase), f))
  {
    var t := s.tasks[k];
    assert Owns(s.reg, t);
    assert t.token < s.reg.nextToken;
    hide WellFormed, Owns;
    var s' := Push(Enter(s, k, phase), f);
    forall j, g | j in s'.tasks && g in s'.main ensures NotAhead(g, s'.tasks[j]) {
      if g in s.main { assert NotAhead(g, s.tasks[j]); }
    }
    forall i | 0 <= i < |s.main| && SameSession(s.main[i], f)
      ensures s.main[i].token <= f.token && (s.main[i].Terminal? ==> s.main[i].token < f.token)
    {
      assert s.main[i] in s.main;
      assert NotAhead(s.main[i], t);
    }
  }

  lemma SpawnSequenced(s: State, t: Task)
    requires Sequenced(s)
    requires forall f :: f in s.main && !f.Refusal? ==> f.token < t.token
    ensures Sequenced(Spawn(s, t))
  {
    hide TurnByTurn;
    var s' := Spawn(s, t);
    forall j, f | j in s'.tasks && f in s'.main ensures NotAhead(f, s'.tasks[j]) {
      if j != s.nextTask { assert NotAhead(f, s.tasks[j]); }
    }
  }

  lemma SequencedFrame(s: State, s': State)
    requires Sequenced(s)
    requires s'.main == s.main && s.reg.nextToken <= s'.reg.nextToken
    requires forall k :: k in s'.tasks ==> k in s.tasks && s'.tasks[k].sid == s.tasks[k].sid && s'.tasks[k].token == s.tasks[k].token
                                           && (s'.tasks[k].phase.Answered? <==> s.tasks[k].phase.Answered?)
    ensures Sequenced(s')
  {
    hide TurnByTurn;
    forall k, f | k in s'.tasks && f in s'.main ensures NotAhead(f, s'.tasks[k]) {
      assert NotAhead(f, s.tasks[k]);
    }
  }

  lemma DispatchSequenced(s: State, p: Prompt)
    requires Ownership(s) && Sequenced(s)
    ensures Sequenced(DispatchPrompt(s, p))
  {
    hide Sequenced, Admit, WellFormed;
    match p.target
    case None => SequencedFrame(s, DispatchPrompt(s, p));
    case Some(target) =>
      var sid := target.first;
      var job := Job(p.id, target.second);
      var a := Admit(s.reg, sid, job);
      AdmitVerdict(s.reg, sid, job);
      if a.second.Start? {
        var mid := Route(s.(reg := a.first), Turns(sid), p);
        SequencedFrame(s, mid);
        FramesAreOld(s);
        SpawnSequenced(mid, Task(sid, job, a.second.token, Running, job.id));
      } else {
        SequencedFrame(s, DispatchPrompt(s, p));
      }
  }

  lemma FramesAreOld(s: State)
    requires Sequenced(s)
    ensures forall f :: f in s.main && !f.Refusal? ==> f.token < s.reg.nextToken
  {
    hide TurnByTurn;
  }

  lemma HandOffSequenced(s: State, k: nat)
    requires Ownership(s) && Sequenced(s) && k in s.tasks
    ensures Sequenced(HandOff(s, k))
  {
    var t := s.tasks[k];
    assert Owns(s.reg, t);
    FinishVerdict(s.reg, t.sid);
    FramesAreOld(s);
    hide Sequenced, WellFormed, SessionRegistry.Finish, OthersUntouched;
    var f := SessionRegistry.Finish(s.reg, t.sid, t.token);
    var s' := s.(reg := f.first, tasks := s.tasks - {k});
    SequencedFrame(s, s');
    if f.second.Some? {
      SpawnSequenced(s', Task(t.sid, f.second.value.first, f.second.value.second, Running, t.opener));
    }
  }

  lemma SequencedStep(s: State, l: Label)
    requires Ownership(s) && Sequenced(s) && Enabled(s, l)
    ensures Sequenced(Next(s, l))
  {
    hide Sequenced, Ownership, DispatchPrompt, HandOff, ScanHits;
    match l
    case Dispatch => DispatchSequenced(s, s.received[|s.routed|]);
    case Finish(k) => HandOffSequenced(s, k);
    case PushUpdate(k) =>
      var t := s.tasks[k];
      PushSequenced(s, k, Update(t.sid, t.token, t.phase.update), Running);
    case Answer(k) =>
      var t := s.tasks[k];
      PushSequenced(s, k, Terminal(t.sid, t.token, t.job, t.phase.outcome), Answered);
    case Refuse => RefuseSequenced(s);
    case Receive(_) => SequencedFrame(s, Next(s, l));
    case CancelSession(_) => SequencedFrame(s, Next(s, l));
    case CancelEverything => SequencedFrame(s, Next(s, l));
    case CancelRequest(_, _) => SequencedFrame(s, Next(s, l));
    case BeginEmit(_, _) => SequencedFrame(s, Next(s, l));
    case AbortEmit(_) => SequencedFrame(s, Next(s, l));
    case BackendReturns(_, _) => SequencedFrame(s, Next(s, l));
    case GraceElapses(_) => SequencedFrame(s, Next(s, l));
    case BackendPanics(_) => SequencedFrame(s, Next(s, l));
    case Abandon(_) => SequencedFrame(s, Next(s, l));
    case WriterStops => SequencedFrame(s, Next(s, l));
  }

  lemma RefuseSequenced(s: State)
    requires Sequenced(s) && s.dispatcher.Refusing?
    ensures Sequenced(Push(s, Refusal(s.dispatcher.prompt)).(dispatcher := Ready))
  {
    var s' := Push(s, Refusal(s.dispatcher.prompt)).(dispatcher := Ready);
    forall k, f | k in s'.tasks && f in s'.main ensures NotAhead(f, s'.tasks[k]) {
      if f in s.main { assert NotAhead(f, s.tasks[k]); }
    }
  }

  lemma CancelsFrame(s: State, s': State)
    requires CancelsJustified(s) && s.reg.fired <= s'.reg.fired && s'.main == s.main
    requires forall k :: k in s'.tasks ==> (k in s.tasks && s'.tasks[k] == s.tasks[k]) || s'.tasks[k].phase.Running?
    ensures CancelsJustified(s')
  {
    forall k | k in s'.tasks ensures DecisionJustified(s'.tasks[k], s'.reg.fired) {
      if k in s.tasks { assert DecisionJustified(s.tasks[k], s.reg.fired); }
    }
    forall f | f in s'.main ensures Justified(f, s'.reg.fired) {
      assert Justified(f, s.reg.fired);
    }
  }

  lemma CancelsEnter(s: State, k: nat, phase: Phase)
    requires CancelsJustified(s) && k in s.tasks
    requires phase == Decided(Cancelled) ==> s.tasks[k].token in s.reg.fired
    ensures CancelsJustified(Enter(s, k, phase))
  {
  }

  lemma CancelsPush(s: State, f: Frame)
    requires CancelsJustified(s) && Justified(f, s.reg.fired)
    ensures CancelsJustified(Push(s, f))
  {
  }

  lemma PushUpdateCancels(s: State, k: nat)
    requires CancelsJustified(s) && k in s.tasks && s.tasks[k].phase.Armed? && s.writerAlive
    ensures CancelsJustified(Next(s, PushUpdate(k)))
  {
    hide CancelsJustified;
    CancelsEnter(s, k, Running);
    CancelsPush(Enter(s, k, Running), Update(s.tasks[k].sid, s.tasks[k].token, s.tasks[k].phase.update));
  }

  lemma AnswerCancels(s: State, k: nat)
    requires CancelsJustified(s) && k in s.tasks && s.tasks[k].phase.Decided? && s.writerAlive
    ensures CancelsJustified(Next(s, Answer(k)))
  {
    var t := s.tasks[k];
    assert DecisionJustified(t, s.reg.fired);
    hide CancelsJustified;
    CancelsEnter(s, k, Answered);
    CancelsPush(Enter(s, k, Answered), Terminal(t.sid, t.token, t.job, t.phase.outcome));
  }

  lemma OnlyRunningTasksAppear(s: State, l: Label)
    requires Enabled(s, l) && (l.Dispatch? || l.Finish?)
    ensures var s' := Next(s, l);
            && s'.main == s.main
            && forall k :: k in s'.tasks ==> (k in s.tasks && s'.tasks[k] == s.tasks[k]) || s'.tasks[k].phase.Running?
  {
    hide Admit, SessionRegistry.Finish;
  }

  lemma RegistryCancels(s: State, l: Label)
    requires Ownership(s) && CancelsJustified(s) && Enabled(s, l) && (l.Dispatch? || l.Finish?)
    ensures CancelsJustified(Next(s, l))
  {
    FiredGrows(s, l);
    hide Ownership, CancelsJustified, Next;
    OnlyRunningTasksAppear(s, l);
    CancelsFrame(s, Next(s, l));
  }

  lemma CancelsStep(s: State, l: Label)
    requires Ownership(s) && CancelsJustified(s) && Enabled(s, l)
    ensures CancelsJustified(Next(s, l))
  {
    hide Ownership, CancelsJustified, DispatchPrompt, HandOff;
    match l
    case PushUpdate(k) => PushUpdateCancels(s, k);
    case Answer(k) => AnswerCancels(s, k);
    case Refuse =>
      CancelsFrame(s, s.(dispatcher := Ready));
      CancelsPush(s.(dispatcher := Ready), Refusal(s.dispatcher.prompt));
    case BeginEmit(k, update) => CancelsEnter(s, k, Armed(update));
    case AbortEmit(k) => CancelsEnter(s, k, Running);
    case BackendReturns(k, ok) => CancelsEnter(s, k, Next(s, l).tasks[k].phase);
    case GraceElapses(k) => CancelsEnter(s, k, Decided(Cancelled));
    case BackendPanics(k) => CancelsEnter(s, k, Decided(Panicked));
    case Dispatch => RegistryCancels(s, l);
    case Finish(k) => RegistryCancels(s, l);
    case Abandon(k) => CancelsFrame(s, s.(tasks := s.tasks - {k}));
    case CancelSession(sid) => CancelsFrame(s, s.(reg := Fire(s.reg, sid)));
    case CancelEverything => CancelsFrame(s, s.(reg := FireAll(s.reg)));
    case CancelRequest(_, hit) => CancelsFrame(s, Next(s, l));
    case Receive(p) => CancelsFrame(s, s.(received := s.received + [p]));
    case WriterStops => CancelsFrame(s, s.(writerAlive := false));
  }

  lemma FiredGrows(s: State, l: Label)
    requires Ownership(s) && Enabled(s, l)
    ensures s.reg.fired <= Next(s, l).reg.fired && s.reg.nextToken <= Next(s, l).reg.nextToken
  {
    hide WellFormed, OthersUntouched, Admit, SessionRegistry.Finish, DispatchPrompt, HandOff, ScanHits;
    match l
    case Dispatch =>
      var p := s.received[|s.routed|];
      DispatchRegistry(s, p);
      if p.target.Some? { AdmitVerdict(s.reg, p.target.value.first, Job(p.id, p.target.value.second)); }
    case Finish(k) =>
      assert Owns(s.reg, s.tasks[k]);
      HandOffRegistry(s, k);
      FinishVerdict(s.reg, s.tasks[k].sid);
    case _ =>
  }

  // ------------------------------------------------------------------- counting prompts

  function Unanswered(tasks: map<nat, Task>): set<nat> {
    set k | k in tasks && !tasks[k].phase.Answered?
  }

  function QueuedSessions(sessions: Sessions): set<SessionId> {
    set sid | sid in sessions && sessions[sid].active.Some? && sessions[sid].active.value.queued.Some?
  }

  /** Every decided prompt is answered, running, queued, or about to be refused. */
  ghost predicate Counted(s: State) {
    s.writerAlive ==>
      |s.routed| == |Responses(s.main)| + |Unanswered(s.tasks)| + |QueuedSessions(s.reg.sessions)| + |PendingRefusal(s.dispatcher)|
  }

  lemma QueueUntouched(r: RegistryState, r': RegistryState, sid: SessionId)
    requires OthersUntouched(r, r', sid)
    ensures QueuedSessions(r'.sessions) - {sid} == QueuedSessions(r.sessions) - {sid}
  {
    forall x | x != sid ensures x in QueuedSessions(r'.sessions) <==> x in QueuedSessions(r.sessions) {
      assert IsActive(r.sessions, x) <==> IsActive(r'.sessions, x);
    }
  }

  /** How the number of queued prompts changes when only `sid` is touched. */
  lemma QueueCount(r: RegistryState, r': RegistryState, sid: SessionId)
    requires OthersUntouched(r, r', sid)
    ensures |QueuedSessions(r'.sessions)| + (if sid in QueuedSessions(r.sessions) then 1 else 0)
         == |QueuedSessions(r.sessions)| + (if sid in QueuedSessions(r'.sessions) then 1 else 0)
  {
    QueueUntouched(r, r', sid);
    SizeWithout(QueuedSessions(r.sessions), sid);
    SizeWithout(QueuedSessions(r'.sessions), sid);
    hide *;
  }

  lemma UnansweredUpdate(tasks: map<nat, Task>, k: nat, t: Task)
    requires k in tasks
    ensures |Unanswered(tasks[k := t])| + (if tasks[k].phase.Answered? then 0 else 1)
         == |Unanswered(tasks)| + (if t.phase.Answered? then 0 else 1)
  {
    var u, u' := Unanswered(tasks), Unanswered(tasks[k := t]);
    assert k in u <==> !tasks[k].phase.Answered?;
    assert k in u' <==> !t.phase.Answered?;
    assert u' - {k} == u - {k};
    SizeWithout(u, k);
    SizeWithout(u', k);
  }

  lemma UnansweredSpawn(tasks: map<nat, Task>, k: nat, t: Task)
    requires k !in tasks && !t.phase.Answered?
    ensures |Unanswered(tasks[k := t])| == |Unanswered(tasks)| + 1
  {
    assert Unanswered(tasks[k := t]) == Unanswered(tasks) + {k};
  }

  lemma DispatchCounted(s: State, p: Prompt)
    requires Ownership(s) && Counted(s) && s.dispatcher.Ready?
    ensures Counted(DispatchPrompt(s, p))
  {
    if p.target.Some? {
      var sid := p.target.value.first;
      var job := Job(p.id, p.target.value.second);
      var a := Admit(s.reg, sid, job);
      AdmitVerdict(s.reg, sid, job);
      QueueCount(s.reg, a.first, sid);
      hide Admit, WellFormed, OthersUntouched;
      if a.second.Start? {
        UnansweredSpawn(s.tasks, s.nextTask, Task(sid, job, a.second.token, Running, job.id));
      }
    }
  }

  lemma HandOffCounted(s: State, k: nat)
    requires Ownership(s) && Counted(s) && InPhase(s, k, Answered)
    ensures Counted(HandOff(s, k))
  {
    var t := s.tasks[k];
    assert Owns(s.reg, t);
    FinishVerdict(s.reg, t.sid);
    var f := SessionRegistry.Finish(s.reg, t.sid, t.token);
    QueueCount(s.reg, f.first, t.sid);
    hide WellFormed, SessionRegistry.Finish, OthersUntouched;
    assert Unanswered(s.tasks - {k}) == Unanswered(s.tasks);
    if f.second.Some? {
      UnansweredSpawn(s.tasks - {k}, s.nextTask, Task(t.sid, f.second.value.first, f.second.value.second, Running, t.opener));
    }
  }

  lemma CountedStep(s: State, l: Label)
    requires Ownership(s) && Counted(s) && Enabled(s, l)
    ensures Counted(Next(s, l))
  {
    hide Ownership, DispatchPrompt, HandOff, ScanHits;
    match l
    case Dispatch => DispatchCounted(s, s.received[|s.routed|]);
    case Finish(k) => HandOffCounted(s, k);
    case PushUpdate(k) =>
      var t := s.tasks[k];
      ResponsesAppend(s.main, Update(t.sid, t.token, t.phase.update));
      UnansweredUpdate(s.tasks, k, Next(s, l).tasks[k]);
    case Answer(k) =>
      var t := s.tasks[k];
      ResponsesAppend(s.main, Terminal(t.sid, t.token, t.job, t.phase.outcome));
      UnansweredUpdate(s.tasks, k, Next(s, l).tasks[k]);
    case Refuse => ResponsesAppend(s.main, Refusal(s.dispatcher.prompt));
    case BeginEmit(k, update) => UnansweredUpdate(s.tasks, k, Next(s, l).tasks[k]);
    case AbortEmit(k) => UnansweredUpdate(s.tasks, k, Next(s, l).tasks[k]);
    case BackendReturns(k, ok) => UnansweredUpdate(s.tasks, k, Next(s, l).tasks[k]);
    case GraceElapses(k) => UnansweredUpdate(s.tasks, k, Next(s, l).tasks[k]);
    case BackendPanics(k) => UnansweredUpdate(s.tasks, k, Next(s, l).tasks[k]);
    case _ =>
  }

  // ------------------------------------------------------------------------ whole runs

  /** The dispatcher decides prompts in arrival order. */
  ghost predicate InArrivalOrder(s: State) {
    |s.routed| <= |s.received| && forall i :: 0 <= i < |s.routed| ==> s.routed[i].second == s.received[i]
  }

  ghost predicate Invariant(s: State) {
    && Ownership(s)
    && WithinCapacity(s.reg)
    && Fifo(s)
    && Sequenced(s)
    && CancelsJustified(s)
    && Counted(s)
    && InArrivalOrder(s)
  }

  lemma DispatchRegistry(s: State, p: Prompt)
    ensures DispatchPrompt(s, p).reg
         == if p.target.Some? then Admit(s.reg, p.target.value.first, Job(p.id, p.target.value.second)).first else s.reg
    ensures DispatchPrompt(s, p).received == s.received && DispatchPrompt(s, p).writerAlive == s.writerAlive
  {
    hide Admit;
  }

  lemma HandOffRegistry(s: State, k: nat)
    requires k in s.tasks
    ensures HandOff(s, k).reg == SessionRegistry.Finish(s.reg, s.tasks[k].sid, s.tasks[k].token).first
  {
    hide SessionRegistry.Finish;
  }

  lemma CapacityStep(s: State, l: Label)
    requires Ownership(s) && WithinCapacity(s.reg) && Enabled(s, l)
    ensures WithinCapacity(Next(s, l).reg)
  {
    assert WellFormed(s.reg);
    hide Ownership, Admit, SessionRegistry.Finish, WellFormed, DispatchPrompt, HandOff, ScanHits;
    match l
    case Dispatch =>
      var p := s.received[|s.routed|];
      DispatchRegistry(s, p);
      if p.target.Some? { AdmitBound(s.reg, p.target.value.first, Job(p.id, p.target.value.second)); }
    case Finish(k) =>
      HandOffRegistry(s, k);
      FinishKeeps(s.reg, s.tasks[k].sid, s.tasks[k].token);
    case _ =>
  }

  lemma ArrivalStep(s: State, l: Label)
    requires InArrivalOrder(s) && Enabled(s, l)
    ensures InArrivalOrder(Next(s, l))
  {
    hide Admit, SessionRegistry.Finish;
    match l
    case Dispatch =>
    case _ =>
  }

  /** One step of any role keeps everything. */
  lemma InvariantStep(s: State, l: Label)
    requires Invariant(s) && Enabled(s, l)
    ensures Invariant(Next(s, l))
  {
    hide Ownership, WithinCapacity, Fifo, Sequenced, CancelsJustified, Counted, InArrivalOrder, Next;
    OwnershipStep(s, l);
    CapacityStep(s, l);
    FifoStep(s, l);
    SequencedStep(s, l);
    CancelsStep(s, l);
    CountedStep(s, l);
    ArrivalStep(s, l);
  }

  lemma InitialInvariant(maxSessions: nat)
    ensures Invariant(Initial(maxSessions))
  {
    assert ActiveSessions(Empty(maxSessions).sessions) == {};
    assert Unanswered(map[]) == {} && QueuedSessions(map[]) == {};
  }

  /** Every run, in every interleaving, stays inside the invariant. */
  lemma {:induction false} RunKeepsInvariant(s: State, run: seq<Label>)
    requires Invariant(s) && After(s, run).Some?
    ensures Invariant(After(s, run).value)
  {
    hide Invariant, Next, Enabled;
    if run == [] {
    } else {
      RunKeepsInvariant(s, Front(run));
      InvariantStep(After(s, Front(run)).value, Last(run));
    }
  }
}
