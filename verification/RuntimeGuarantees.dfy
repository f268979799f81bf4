/** What every run of the connection guarantees, from the first byte to any later moment. */
module RuntimeGuarantees {
  import opened Prelude
  import opened SessionRegistry
  import opened Runtime

  ghost predicate Reachable(maxSessions: nat, run: seq<Label>, s: State) {
    After(Initial(maxSessions), run) == Some(s)
  }

  lemma ReachableInvariant(maxSessions: nat, run: seq<Label>, s: State)
    requires Reachable(maxSessions, run, s)
    ensures Invariant(s)
  {
    hide Invariant;
    InitialInvariant(maxSessions);
    RunKeepsInvariant(Initial(maxSessions), run);
  }

  // ------------------------------------------------------- one response for each prompt

  function Prompts(entries: seq<Entry>): seq<Prompt> {
    seq(|entries|, i requires 0 <= i < |entries| => entries[i].second)
  }

  lemma {:induction false} Multiplicity(entries: seq<Entry>, e: Entry)
    ensures multiset(entries)[e] == multiset(Project(entries, e.first))[e.second]
  {
    if entries == [] {
    } else {
      var f, l := Front(entries), Last(entries);
      Multiplicity(f, e);
      assert entries == f + [l];
      ProjectAppend(f, l);
      hide Project;
      assert multiset(entries) == multiset(f) + multiset{l};
    }
  }

  lemma PrefixMultiset<T>(a: seq<T>, b: seq<T>)
    requires a <= b
    ensures multiset(a) <= multiset(b)
  {
    assert b == a + b[|a|..];
  }

  lemma BehindEverywhere(routed: seq<Entry>, answered: seq<Entry>)
    requires forall c :: Behind(routed, answered, c)
    ensures multiset(answered) <= multiset(routed)
  {
    forall e ensures multiset(answered)[e] <= multiset(routed)[e] {
      Multiplicity(answered, e);
      Multiplicity(routed, e);
      assert Behind(routed, answered, e.first);
      PrefixMultiset(Project(answered, e.first), Project(routed, e.first));
    }
  }

  function Without<T>(a: seq<T>, i: nat): seq<T>
    requires i < |a|
  {
    a[..i] + a[i + 1..]
  }

  lemma RemoveAt<T>(a: seq<T>, i: nat)
    requires i < |a|
    ensures multiset(a) == multiset(Without(a, i)) + multiset{a[i]}
  {
    assert a == a[..i] + [a[i]] + a[i + 1..];
  }

  lemma PromptsWithout(a: seq<Entry>, i: nat)
    requires i < |a|
    ensures Prompts(Without(a, i)) == Without(Prompts(a), i)
  {
  }

  lemma {:induction false} PromptsMonotone(a: seq<Entry>, b: seq<Entry>)
    requires multiset(a) <= multiset(b)
    ensures multiset(Prompts(a)) <= multiset(Prompts(b))
    decreases |a|
  {
    if a == [] {
    } else {
      assert a[0] in multiset(a) && a[0] in multiset(b);
      var i :| 0 <= i < |b| && b[i] == a[0];
      RemoveAt(a, 0);
      RemoveAt(b, i);
      PromptsWithout(a, 0);
      PromptsWithout(b, i);
      RemoveAt(Prompts(a), 0);
      RemoveAt(Prompts(b), i);
      assert Prompts(a)[0] == Prompts(b)[i];
      assert |Without(a, 0)| < |a|;
      hide Without, Prompts;
      forall e ensures multiset(Without(a, 0))[e] <= multiset(Without(b, i))[e] {
        assert multiset(a)[e] <= multiset(b)[e];
      }
      PromptsMonotone(Without(a, 0), Without(b, i));
    }
  }

  lemma RoutedPrefix(s: State)
    requires InArrivalOrder(s)
    ensures Prompts(s.routed) <= s.received
  {
  }

  /** No prompt is answered twice: the responses on the main queue answer, as a multiset,
      part of the prompts received, whatever fails, panics or disconnects. */
  lemma AtMostOneResponse(maxSessions: nat, run: seq<Label>, s: State)
    requires Reachable(maxSessions, run, s)
    ensures multiset(Prompts(Responses(s.main))) <= multiset(s.received)
  {
    ReachableInvariant(maxSessions, run, s);
    assert Fifo(s) && InArrivalOrder(s);
    assert forall c :: Behind(s.routed, Responses(s.main), c);
    RoutedPrefix(s);
    hide *;
    BehindEverywhere(s.routed, Responses(s.main));
    PromptsMonotone(Responses(s.main), s.routed);
    PrefixMultiset(Prompts(s.routed), s.received);
  }

  /** While the writer lives, every prompt received is answered, running, queued behind a
      running turn, about to be refused, or not yet taken up by the dispatcher. */
  lemma PromptsAreConserved(maxSessions: nat, run: seq<Label>, s: State)
    requires Reachable(maxSessions, run, s) && s.writerAlive
    ensures |s.received| == |Responses(s.main)| + |Unanswered(s.tasks)| + |QueuedSessions(s.reg.sessions)|
                            + |PendingRefusal(s.dispatcher)| + (|s.received| - |s.routed|)
    ensures |s.routed| <= |s.received|
  {
    ReachableInvariant(maxSessions, run, s);
    assert Counted(s) && InArrivalOrder(s);
  }

  predicate Quiescent(s: State) {
    s.writerAlive && s.tasks == map[] && s.dispatcher.Ready? && |s.routed| == |s.received|
  }

  /** Once nothing is left to do, every prompt received has been answered exactly once. */
  lemma ExactlyOneResponseAtQuiescence(maxSessions: nat, run: seq<Label>, s: State)
    requires Reachable(maxSessions, run, s) && Quiescent(s)
    ensures multiset(Prompts(Responses(s.main))) == multiset(s.received)
    ensures forall c :: Project(Responses(s.main), c) == Project(s.routed, c)
    ensures Prompts(s.routed) == s.received
  {
    ReachableInvariant(maxSessions, run, s);
    AtMostOneResponse(maxSessions, run, s);
    NothingRunning(s);
    var answered := Responses(s.main);
    assert Fifo(s) && InArrivalOrder(s);
    forall c ensures Project(answered, c) == Project(s.routed, c) {
      if c.Turns? { assert Settled(s.routed, answered, Turns(c.sid)); }
    }
    RoutedPrefix(s);
    hide *;
    assert Prompts(s.routed) == s.received by { assert |Prompts(s.routed)| == |s.received|; }
    forall e ensures multiset(answered)[e] == multiset(s.routed)[e] {
      Multiplicity(answered, e);
      Multiplicity(s.routed, e);
    }
    PromptsMonotone(s.routed, answered);
  }

  lemma NothingRunning(s: State)
    requires Invariant(s) && Quiescent(s)
    ensures forall sid :: !IsActive(s.reg.sessions, sid)
  {
    assert Ownership(s) && WellFormed(s.reg);
    assert ActiveSessions(s.reg.sessions) == {};
    hide Fifo, Sequenced, CancelsJustified, Counted, InArrivalOrder;
    forall sid ensures !IsActive(s.reg.sessions, sid) {
      assert sid !in ActiveSessions(s.reg.sessions);
    }
  }

  /** Prompts of one session are answered in the order they were received: at every moment
      its responses, then its running prompt if unanswered, then its queued prompt, are
      the prompts routed to it, in order. */
  lemma SessionAnswersInOrder(maxSessions: nat, run: seq<Label>, s: State, k: nat)
    requires Reachable(maxSessions, run, s) && k in s.tasks
    ensures var t := s.tasks[k];
            Project(s.routed, Turns(t.sid)) == Project(Responses(s.main), Turns(t.sid)) + Owed(s.reg, t)
    ensures forall i :: 0 <= i < |s.routed| ==> i < |s.received| && s.routed[i].second == s.received[i]
  {
    ReachableInvariant(maxSessions, run, s);
    assert SessionLaw(s.routed, Responses(s.main), s.reg, s.tasks[k]);
    assert InArrivalOrder(s);
  }

  // ---------------------------------------------------------------- turns never overlap

  /** A session has at most one operation task; while the writer lives it has one exactly
      when its turn is running, and that task holds the turn's token. */
  lemma TurnsNeverOverlap(maxSessions: nat, run: seq<Label>, s: State)
    requires Reachable(maxSessions, run, s)
    ensures forall j, k :: j in s.tasks && k in s.tasks && s.tasks[j].sid == s.tasks[k].sid ==> j == k
    ensures forall k :: k in s.tasks ==> Owns(s.reg, s.tasks[k])
    ensures s.writerAlive ==> forall sid :: IsActive(s.reg.sessions, sid) <==> sid in Served(s.tasks, s.tasks.Keys)
  {
    ReachableInvariant(maxSessions, run, s);
    assert Ownership(s);
    if s.writerAlive { OneTaskPerTurn(s); }
  }

  /** The handoff always finds its own turn: the registry's "newer turn" refusal is never
      taken. It promotes the queued prompt exactly when there is one, under a token that
      no cancel has reached. */
  lemma FinishFindsItsOwnTurn(maxSessions: nat, run: seq<Label>, s: State, k: nat)
    requires Reachable(maxSessions, run, s) && Enabled(s, Finish(k))
    ensures var t, s' := s.tasks[k], Next(s, Finish(k));
            && IsActive(s.reg.sessions, t.sid) && Turn(s.reg, t.sid).token == t.token
            && (match Turn(s.reg, t.sid).queued
                case Some(job) =>
                  && s.nextTask in s'.tasks
                  && s'.tasks[s.nextTask] == Task(t.sid, job, s.reg.nextToken, Running, t.opener)
                  && s.reg.nextToken !in s'.reg.fired
                case None => !IsActive(s'.reg.sessions, t.sid) && s'.tasks == s.tasks - {k})
  {
    hide *;
    ReachableOwnership(maxSessions, run, s);
    FinishIsHandOff(s, k);
    HandOffFindsTurn(s, k);
  }

  lemma ReachableOwnership(maxSessions: nat, run: seq<Label>, s: State)
    requires Reachable(maxSessions, run, s)
    ensures Ownership(s)
  {
    hide Ownership, Fifo, Sequenced, CancelsJustified, Counted, InArrivalOrder, WithinCapacity;
    ReachableInvariant(maxSessions, run, s);
  }

  lemma FinishIsHandOff(s: State, k: nat)
    requires Enabled(s, Finish(k))
    ensures k in s.tasks && Next(s, Finish(k)) == HandOff(s, k)
  {
    hide HandOff;
  }

  lemma HandOffFindsTurn(s: State, k: nat)
    requires Ownership(s) && k in s.tasks
    ensures var t, s' := s.tasks[k], HandOff(s, k);
            && IsActive(s.reg.sessions, t.sid) && Turn(s.reg, t.sid).token == t.token
            && (match Turn(s.reg, t.sid).queued
                case Some(job) =>
                  && s.nextTask in s'.tasks
                  && s'.tasks[s.nextTask] == Task(t.sid, job, s.reg.nextToken, Running, t.opener)
                  && s.reg.nextToken !in s'.reg.fired
                case None => !IsActive(s'.reg.sessions, t.sid) && s'.tasks == s.tasks - {k})
  {
    hide WellFormed, SessionRegistry.Finish;
    assert Owns(s.reg, s.tasks[k]);
    hide Ownership, IsActive, OthersUntouched;
    FinishVerdict(s.reg, s.tasks[k].sid);
  }

  /** The capacity bound, in every interleaving. */
  lemma CapacityHolds(maxSessions: nat, run: seq<Label>, s: State)
    requires Reachable(maxSessions, run, s)
    ensures s.reg.activeTurns == |ActiveSessions(s.reg.sessions)|
    ensures Permutes(s.reg.order, s.reg.sessions.Keys)
    ensures maxSessions >= 1 ==> s.reg.activeTurns <= maxSessions && |s.reg.sessions| <= maxSessions + 1
  {
    ReachableInvariant(maxSessions, run, s);
    LimitNeverChanges(Initial(maxSessions), run);
    assert Ownership(s) && WellFormed(s.reg) && WithinCapacity(s.reg);
    hide Fifo, Sequenced, CancelsJustified, Counted, InArrivalOrder;
  }

  lemma {:induction false} LimitNeverChanges(s: State, run: seq<Label>)
    requires After(s, run).Some?
    ensures After(s, run).value.reg.maxSessions == s.reg.maxSessions
  {
    if run == [] {
    } else {
      LimitNeverChanges(s, Front(run));
      LimitStep(After(s, Front(run)).value, Last(run));
      hide Next, Enabled;
    }
  }

  lemma LimitStep(s: State, l: Label)
    requires Enabled(s, l)
    ensures Next(s, l).reg.maxSessions == s.reg.maxSessions
  {
    if l.Dispatch? {
      var p := s.received[|s.routed|];
      DispatchRegistry(s, p);
      if p.target.Some? { AdmitLimit(s.reg, p.target.value.first, Job(p.id, p.target.value.second)); }
    } else if l.Finish? {
      HandOffRegistry(s, l.k);
    }
    hide DispatchPrompt, HandOff, Admit, ScanHits;
  }

  lemma AdmitLimit(r: RegistryState, sid: SessionId, job: Job)
    ensures Admit(r, sid, job).first.maxSessions == r.maxSessions
  {
    MakeRoomPreserves(r, sid);
    hide MakeRoom;
  }

  // ----------------------------------------------------------------------- wire order

  /** On the main queue a session's frames come turn by turn: every update of a turn
      precedes the turn's terminal response, and that response precedes every frame of
      the turns promoted or started later. */
  lemma TerminalClosesTurn(maxSessions: nat, run: seq<Label>, s: State, i: nat, j: nat)
    requires Reachable(maxSessions, run, s)
    requires i < |s.main| && j < |s.main| && i != j
    requires s.main[i].Terminal? && SameSession(s.main[i], s.main[j])
    ensures s.main[j].token == s.main[i].token ==> s.main[j].Update? && j < i
    ensures s.main[j].token > s.main[i].token <==> j > i
    ensures s.main[j].token < s.main[i].token ==> j < i
  {
    ReachableInvariant(maxSessions, run, s);
    assert TurnByTurn(s.main);
    hide Invariant;
  }

  // --------------------------------------------------------------------- cancellation

  /** Turn (`sid`, `token`), run by task `k`, has reached outcome `o` for good. */
  ghost predicate Sealed(s: State, k: nat, sid: SessionId, token: Token, o: Outcome) {
    && k < s.nextTask && token < s.reg.nextToken
    && (k in s.tasks ==> s.tasks[k].sid == sid && s.tasks[k].token == token
                         && (s.tasks[k].phase == Decided(o) || s.tasks[k].phase.Answered?))
    && (forall j :: j in s.tasks && j != k ==> !(s.tasks[j].sid == sid && s.tasks[j].token == token))
    && (forall f :: f in s.main && f.Terminal? && f.sid == sid && f.token == token ==> f.outcome == o)
  }

  /** Tasks keep their session and token, and a task that is new has a new token. */
  ghost predicate Descends(s: State, s': State) {
    forall j :: j in s'.tasks ==>
      if j in s.tasks then s'.tasks[j].sid == s.tasks[j].sid && s'.tasks[j].token == s.tasks[j].token
      else j >= s.nextTask && s'.tasks[j].token >= s.reg.nextToken
  }

  lemma TaskOrigin(s: State, l: Label)
    requires Ownership(s) && Enabled(s, l)
    ensures s.nextTask <= Next(s, l).nextTask && s.reg.nextToken <= Next(s, l).reg.nextToken
    ensures Descends(s, Next(s, l))
  {
    FiredGrows(s, l);
    hide Ownership, DispatchPrompt, HandOff, FireAll, Fire, ScanHits, Descends;
    match l
    case Dispatch => DispatchOrigin(s, s.received[|s.routed|]);
    case Finish(k) => HandOffOrigin(s, k);
    case _ => OldTasks(s, l);
  }

  lemma OldTasks(s: State, l: Label)
    requires Enabled(s, l) && !l.Dispatch? && !l.Finish?
    ensures Next(s, l).nextTask == s.nextTask && Descends(s, Next(s, l))
  {
    hide FireAll, Fire, ScanHits;
  }

  lemma HandOffOrigin(s: State, k: nat)
    requires Ownership(s) && k in s.tasks
    ensures Descends(s, HandOff(s, k)) && s.nextTask <= HandOff(s, k).nextTask
  {
    HandOffFindsTurn(s, k);
    hide Ownership, IsActive, SessionRegistry.Finish;
  }

  lemma DispatchOrigin(s: State, p: Prompt)
    requires Ownership(s)
    ensures Descends(s, DispatchPrompt(s, p)) && s.nextTask <= DispatchPrompt(s, p).nextTask
  {
    if p.target.Some? { AdmitVerdict(s.reg, p.target.value.first, Job(p.id, p.target.value.second)); }
    hide WellFormed, OthersUntouched, Admit, Owns;
  }

  /** The frame a step pushes, if any, comes from the task that takes the step. */
  lemma FrameOrigin(s: State, l: Label)
    requires Enabled(s, l)
    ensures Next(s, l).main == s.main || exists f :: Next(s, l).main == s.main + [f] && match f
              case Terminal(sid, token, _, o) => l.Answer? && l.k in s.tasks && s.tasks[l.k].sid == sid && s.tasks[l.k].token == token
                                                 && s.tasks[l.k].phase == Decided(o)
              case Update(sid, token, _) => l.PushUpdate? && l.k in s.tasks && s.tasks[l.k].sid == sid && s.tasks[l.k].token == token
              case Refusal(_) => true
  {
    hide Admit, SessionRegistry.Finish;
    if l.Answer? {
      var t := s.tasks[l.k];
      assert Next(s, l).main == s.main + [Terminal(t.sid, t.token, t.job, t.phase.outcome)];
    } else if l.PushUpdate? {
      var t := s.tasks[l.k];
      assert Next(s, l).main == s.main + [Update(t.sid, t.token, t.phase.update)];
    } else if l.Refuse? {
      assert Next(s, l).main == s.main + [Refusal(s.dispatcher.prompt)];
    }
  }

  lemma PhaseOfSealed(s: State, l: Label, k: nat, o: Outcome)
    requires Enabled(s, l) && k in s.tasks && (s.tasks[k].phase == Decided(o) || s.tasks[k].phase.Answered?)
    requires k < s.nextTask
    ensures k in Next(s, l).tasks ==> Next(s, l).tasks[k].phase == Decided(o) || Next(s, l).tasks[k].phase.Answered?
  {
    hide Admit, SessionRegistry.Finish;
  }

  lemma SealedStep(s: State, l: Label, k: nat, sid: SessionId, token: Token, o: Outcome)
    requires Ownership(s) && Sealed(s, k, sid, token, o) && Enabled(s, l)
    ensures Sealed(Next(s, l), k, sid, token, o)
  {
    hide Ownership, Next, Enabled;
    TaskOrigin(s, l);
    FrameOrigin(s, l);
    if k in s.tasks { PhaseOfSealed(s, l, k, o); }
    var s' := Next(s, l);
    forall f | f in s'.main && f.Terminal? && f.sid == sid && f.token == token ensures f.outcome == o {
      if f !in s.main {
        assert l.Answer? && l.k in s.tasks && s.tasks[l.k].phase == Decided(f.outcome);
      }
    }
  }

  lemma {:induction false} SealedForever(s: State, run: seq<Label>, k: nat, sid: SessionId, token: Token, o: Outcome)
    requires Invariant(s) && Sealed(s, k, sid, token, o) && After(s, run).Some?
    ensures Sealed(After(s, run).value, k, sid, token, o)
  {
    hide Sealed, Next, Enabled;
    if run == [] {
    } else {
      SealedForever(s, Front(run), k, sid, token, o);
      RunKeepsInvariant(s, Front(run));
      var mid := After(s, Front(run)).value;
      assert Ownership(mid);
      hide Invariant;
      SealedStep(mid, Last(run), k, sid, token, o);
    }
  }

  /** A backend that returns decides its turn's response at that moment: `cancelled` exactly
      when the token had fired by then. Nothing that happens afterwards, cancels included,
      changes the response. */
  lemma CancelDecidedAtTheFinalCheck(maxSessions: nat, before: seq<Label>, s: State, k: nat, ok: bool,
      later: seq<Label>, end: State)
    requires Reachable(maxSessions, before, s)
    requires Enabled(s, BackendReturns(k, ok)) && After(Next(s, BackendReturns(k, ok)), later) == Some(end)
    ensures var t := s.tasks[k];
            forall f :: f in end.main && f.Terminal? && f.sid == t.sid && f.token == t.token ==>
              (f.outcome == Cancelled <==> t.token in s.reg.fired) && (f.outcome == Completed <==> t.token !in s.reg.fired && ok)
  {
    ReachableInvariant(maxSessions, before, s);
    var l := BackendReturns(k, ok);
    var t := s.tasks[k];
    var o := if t.token in s.reg.fired then Cancelled else if ok then Completed else Failed;
    var s' := Next(s, l);
    InvariantStep(s, l);
    assert Ownership(s) && Sequenced(s);
    DecisionSeals(s, k, o);
    assert s' == Enter(s, k, Decided(o));
    hide Invariant, Enter, Next, Enabled;
    SealedForever(s', later, k, t.sid, t.token, o);
  }

  lemma DecisionSeals(s: State, k: nat, o: Outcome)
    requires Ownership(s) && Sequenced(s) && InPhase(s, k, Running)
    ensures Sealed(Enter(s, k, Decided(o)), k, s.tasks[k].sid, s.tasks[k].token, o)
  {
    var t := s.tasks[k];
    assert Owns(s.reg, t) && t.token < s.reg.nextToken && k < s.nextTask;
    assert forall f :: f in s.main ==> NotAhead(f, t);
    SoleTask(s, k);
    hide Ownership, Sequenced;
  }

  /** A cancelled answer is never invented, however the turn ended. */
  lemma CancelledOnlyIfFired(maxSessions: nat, run: seq<Label>, s: State, f: Frame)
    requires Reachable(maxSessions, run, s) && f in s.main && f.Terminal? && f.outcome == Cancelled
    ensures f.token in s.reg.fired
  {
    ReachableInvariant(maxSessions, run, s);
    assert Justified(f, s.reg.fired);
  }

  function UpdateCount(main: seq<Frame>, sid: SessionId, token: Token): nat {
    if main == [] then 0
    else UpdateCount(Front(main), sid, token) + (if Last(main).Update? && Last(main).sid == sid && Last(main).token == token then 1 else 0)
  }

  function Poised(s: State, k: nat): nat {
    if k in s.tasks && s.tasks[k].phase.Armed? then 1 else 0
  }

  /** The turn's token fired, and only task `k` may still act for it. */
  ghost predicate Silenced(s: State, k: nat, sid: SessionId, token: Token) {
    && k < s.nextTask && token in s.reg.fired && token < s.reg.nextToken
    && (k in s.tasks ==> s.tasks[k].sid == sid && s.tasks[k].token == token)
    && (forall j :: j in s.tasks && j != k ==> !(s.tasks[j].sid == sid && s.tasks[j].token == token))
  }

  lemma UpdateCountAppend(main: seq<Frame>, f: Frame, sid: SessionId, token: Token)
    ensures UpdateCount(main + [f], sid, token)
         == UpdateCount(main, sid, token) + (if f.Update? && f.sid == sid && f.token == token then 1 else 0)
  {
    assert Front(main + [f]) == main;
  }

  lemma PoisedStep(s: State, l: Label, k: nat)
    requires Enabled(s, l) && k < s.nextTask && (k in s.tasks ==> s.tasks[k].token in s.reg.fired)
    ensures Poised(Next(s, l), k) <= Poised(s, k)
    ensures l == PushUpdate(k) ==> Poised(s, k) == 1 && Poised(Next(s, l), k) == 0
  {
    hide Admit, SessionRegistry.Finish;
  }

  lemma SilencedStays(s: State, l: Label, k: nat, sid: SessionId, token: Token)
    requires Ownership(s) && Silenced(s, k, sid, token) && Enabled(s, l)
    ensures Silenced(Next(s, l), k, sid, token)
  {
    TaskOrigin(s, l);
    FiredGrows(s, l);
    hide Ownership, Next, Enabled;
  }

  lemma SilencedStep(s: State, l: Label, k: nat, sid: SessionId, token: Token)
    requires Ownership(s) && Silenced(s, k, sid, token) && Enabled(s, l)
    ensures Silenced(Next(s, l), k, sid, token)
    ensures UpdateCount(Next(s, l).main, sid, token) + Poised(Next(s, l), k) <= UpdateCount(s.main, sid, token) + Poised(s, k)
  {
    SilencedStays(s, l, k, sid, token);
    FrameOrigin(s, l);
    PoisedStep(s, l, k);
    hide Silenced, Ownership;
    var s' := Next(s, l);
    if s'.main != s.main {
      var f := Last(s'.main);
      UpdateCountAppend(s.main, f, sid, token);
      assert f.Update? && f.sid == sid && f.token == token ==> l == PushUpdate(k);
    }
    hide Ownership, Next, Enabled, UpdateCount, Poised;
  }

  lemma {:induction false} SilencedRun(s: State, run: seq<Label>, k: nat, sid: SessionId, token: Token)
    requires Invariant(s) && Silenced(s, k, sid, token) && After(s, run).Some?
    ensures var end := After(s, run).value;
            && Silenced(end, k, sid, token)
            && UpdateCount(end.main, sid, token) + Poised(end, k) <= UpdateCount(s.main, sid, token) + Poised(s, k)
  {
    hide Silenced, Next, Enabled, UpdateCount, Poised;
    if run == [] {
    } else {
      SilencedRun(s, Front(run), k, sid, token);
      RunKeepsInvariant(s, Front(run));
      var mid := After(s, Front(run)).value;
      assert Ownership(mid);
      hide Invariant;
      SilencedStep(mid, Last(run), k, sid, token);
    }
  }

  /** After a turn's token fires, at most one more of its updates is ever queued, and that
      one only if an emit had already passed its last check. */
  lemma SilenceAfterCancel(maxSessions: nat, before: seq<Label>, s: State, k: nat, later: seq<Label>, end: State)
    requires Reachable(maxSessions, before, s) && k in s.tasks && s.tasks[k].token in s.reg.fired
    requires After(s, later) == Some(end)
    ensures var t := s.tasks[k];
            UpdateCount(end.main, t.sid, t.token)
            <= UpdateCount(s.main, t.sid, t.token) + (if t.phase.Armed? then 1 else 0)
  {
    ReachableInvariant(maxSessions, before, s);
    var t := s.tasks[k];
    assert Ownership(s) && Owns(s.reg, t);
    assert Silenced(s, k, t.sid, t.token);
    hide Invariant;
    SilencedRun(s, later, k, t.sid, t.token);
  }

  // ---------------------------------------------------------- cancelling by request id

  /** `$/cancel_request` reaches a running turn exactly under the id of the prompt that opened
      the session's busy period; for a promoted prompt that is not its own id unless the
      client reused it. */
  lemma CancelByRequestId(maxSessions: nat, run: seq<Label>, s: State, k: nat, id: RequestId)
    requires Reachable(maxSessions, run, s) && k in s.tasks
    ensures IsActive(s.reg.sessions, s.tasks[k].sid)
    ensures Turn(s.reg, s.tasks[k].sid).requestId == id <==> id == s.tasks[k].opener
  {
    ReachableInvariant(maxSessions, run, s);
    assert Owns(s.reg, s.tasks[k]);
  }

  const SomeSession := SessionId("s")
  const FirstPrompt := Prompt(Number(1), Some(Pair(SomeSession, "first")))
  const SecondPrompt := Prompt(Number(2), Some(Pair(SomeSession, "second")))

  lemma Extend(maxSessions: nat, run: seq<Label>, s: State, l: Label)
    requires Reachable(maxSessions, run, s) && Enabled(s, l)
    ensures Reachable(maxSessions, run + [l], Next(s, l))
  {
    assert Front(run + [l]) == run;
  }

  lemma FirstPromptStarts() returns (run: seq<Label>, s: State)
    ensures Reachable(1, run, s)
    ensures s.received == [FirstPrompt, SecondPrompt] && |s.routed| == 1 && s.dispatcher == Ready && s.writerAlive
    ensures s.reg == RegistryState(map[SomeSession := SessionState(Some(ActiveTurn(Number(1), 0, None)))], [SomeSession], 1, 1, 1, {})
    ensures s.tasks == map[0 := Task(SomeSession, Job(Number(1), "first"), 0, Running, Number(1))] && s.nextTask == 1
  {
    Extend(1, [], Initial(1), Receive(FirstPrompt));
    var s1 := Next(Initial(1), Receive(FirstPrompt));
    Extend(1, [] + [Receive(FirstPrompt)], s1, Receive(SecondPrompt));
    var s2 := Next(s1, Receive(SecondPrompt));
    run := [] + [Receive(FirstPrompt)] + [Receive(SecondPrompt)];
    Extend(1, run, s2, Dispatch);
    run := run + [Dispatch];
    s := Next(s2, Dispatch);
    var none: Sessions := map[];
    assert |none| == 0;
    assert Evict(none, [] + [SomeSession], 0, 0) == Pair(none, [] + [SomeSession]);
    assert MakeRoom(Empty(1), SomeSession) == Empty(1).(sessions := map[SomeSession := Idle], order := [SomeSession]);
  }

  lemma SecondPromptQueued() returns (run: seq<Label>, s: State)
    ensures Reachable(1, run, s) && s.writerAlive && s.nextTask == 1 && s.reg.fired == {}
    ensures s.tasks == map[0 := Task(SomeSession, Job(Number(1), "first"), 0, Running, Number(1))]
    ensures s.reg.sessions
         == map[SomeSession := SessionState(Some(ActiveTurn(Number(1), 0, Some(Job(Number(2), "second")))))]
  {
    var first, started := FirstPromptStarts();
    Extend(1, first, started, Dispatch);
    hide Reachable;
    run, s := first + [Dispatch], Next(started, Dispatch);
  }

  lemma FirstPromptAnswered() returns (run: seq<Label>, s: State)
    ensures Reachable(1, run, s) && Enabled(s, Label.Finish(0)) && s.nextTask == 1
    ensures s.tasks == map[0 := Task(SomeSession, Job(Number(1), "first"), 0, Answered, Number(1))]
    ensures s.reg.sessions
         == map[SomeSession := SessionState(Some(ActiveTurn(Number(1), 0, Some(Job(Number(2), "second")))))]
  {
    var queued, s4 := SecondPromptQueued();
    hide DispatchPrompt, Reachable, HandOff, ScanHits;
    Extend(1, queued, s4, BackendReturns(0, true));
    var s5 := Next(s4, BackendReturns(0, true));
    Extend(1, queued + [BackendReturns(0, true)], s5, Answer(0));
    run, s := queued + [BackendReturns(0, true)] + [Answer(0)], Next(s5, Answer(0));
  }

  /** The request id of a promoted prompt does not cancel it: two prompts of one session, the
      first answered, the second running. Its own id matches no turn, while the id of the
      prompt already answered still does. */
  lemma PromotedPromptKeepsOldRequestId()
    ensures exists run, s :: Reachable(1, run, s) && 1 in s.tasks
              && s.tasks[1].job.id == Number(2) && s.tasks[1].phase == Running
              && Enabled(s, CancelRequest(Number(2), None)) && Enabled(s, CancelRequest(Number(1), Some(SomeSession)))
  {
    var run, s := FirstPromptAnswered();
    hide Reachable;
    Extend(1, run, s, Label.Finish(0));
    var end := Next(s, Label.Finish(0));
    assert Reachable(1, run + [Label.Finish(0)], end);
    assert end.reg.sessions == map[SomeSession := SessionState(Some(ActiveTurn(Number(1), s.reg.nextToken, None)))];
  }
}
