/**
 What makes a turn end `cancelled`, traced back to the steps of a run: the cancels received while
 the turn was running.
 */
module CancelCauses {
  import opened Prelude
  import opened SessionRegistry
  import opened Runtime
  import opened RuntimeGuarantees

  /** The step cancels the session: by its id, with all others, or by a request id that hits it. */
  predicate Hits(l: Label, sid: SessionId) {
    l == CancelSession(sid) || l == CancelEverything || (l.CancelRequest? && l.hit == Some(sid))
  }

  /** A step of the run that hit the session when the token had already been created. */
  predicate HitSince(start: State, run: seq<Label>, sid: SessionId, token: Token) {
    if run == [] then false
    else match After(start, Front(run))
      case None => false
      case Some(mid) => HitSince(start, Front(run), sid, token) || (token < mid.reg.nextToken && Hits(Last(run), sid))
  }

  /** A cancel of a session with a running turn fires exactly that turn's token, and one of a
      session without a turn fires nothing. */
  lemma CancelSessionFires(s: State, sid: SessionId)
    ensures Next(s, CancelSession(sid))
         == if IsActive(s.reg.sessions, sid) then s.(reg := s.reg.(fired := s.reg.fired + {Turn(s.reg, sid).token})) else s
  {
  }

  /** Cancelling everything fires exactly the tokens of the running turns. */
  lemma CancelEverythingFires(s: State)
    ensures var s' := Next(s, CancelEverything);
            && s' == s.(reg := s.reg.(fired := s'.reg.fired))
            && forall t :: t in s'.reg.fired <==>
                 t in s.reg.fired || exists sid :: IsActive(s.reg.sessions, sid) && Turn(s.reg, sid).token == t
  {
    var sessions := s.reg.sessions;
    forall sid | IsActive(sessions, sid) ensures Turn(s.reg, sid).token in ActiveTokens(sessions) {
      assert sid in sessions && sessions[sid].active.Some?;
    }
    forall t | t in ActiveTokens(sessions) ensures exists sid :: IsActive(sessions, sid) && Turn(s.reg, sid).token == t {
      var sid :| sid in sessions && sessions[sid].active.Some? && sessions[sid].active.value.token == t;
      assert IsActive(sessions, sid);
    }
  }

  // ----------------------------------------------------------------------- every step

  /** The turn a session runs after a step is the one before, fired by the step exactly if it was
      hit, or a new one under an unfired token. */
  ghost predicate Continues(s: State, s': State, sid: SessionId, hit: bool) {
    IsActive(s'.reg.sessions, sid) ==>
      var token := Turn(s'.reg, sid).token;
      || (IsActive(s.reg.sessions, sid) && Turn(s.reg, sid).token == token
          && (token in s'.reg.fired <==> token in s.reg.fired || hit))
      || (token == s.reg.nextToken && token !in s'.reg.fired)
  }

  lemma DispatchContinues(s: State, p: Prompt, sid: SessionId)
    requires Ownership(s)
    ensures Continues(s, DispatchPrompt(s, p), sid, false)
  {
    DispatchRegistry(s, p);
    NewTokenIsUnfired(s.reg);
    if p.target.Some? { AdmitVerdict(s.reg, p.target.value.first, Job(p.id, p.target.value.second)); }
    hide Admit, DispatchPrompt, WellFormed, Ownership;
  }

  lemma FinishContinues(s: State, k: nat, sid: SessionId)
    requires Ownership(s) && k in s.tasks
    ensures Continues(s, HandOff(s, k), sid, false)
  {
    var t := s.tasks[k];
    HandOffRegistry(s, k);
    assert Owns(s.reg, t);
    FinishVerdict(s.reg, t.sid);
    hide SessionRegistry.Finish, HandOff, WellFormed, Ownership;
  }

  lemma FireContinues(s: State, target: SessionId, sid: SessionId)
    requires WellFormed(s.reg)
    ensures Continues(s, s.(reg := Fire(s.reg, target)), sid, sid == target)
  {
    hide Permutes, ActiveSessions;
  }

  lemma FireAllContinues(s: State, sid: SessionId)
    ensures Continues(s, s.(reg := FireAll(s.reg)), sid, true)
  {
    CancelEverythingFires(s);
    hide FireAll;
  }

  lemma StepContinues(s: State, l: Label, sid: SessionId)
    requires Ownership(s) && Enabled(s, l)
    ensures Continues(s, Next(s, l), sid, Hits(l, sid))
  {
    hide Ownership, DispatchPrompt, HandOff, Fire, FireAll, ScanHits, Continues, WellFormed;
    match l
    case Dispatch => DispatchContinues(s, s.received[|s.routed|], sid);
    case Finish(k) => FinishContinues(s, k, sid);
    case CancelSession(target) => OwnedRegistry(s); FireContinues(s, target, sid);
    case CancelEverything => FireAllContinues(s, sid);
    case CancelRequest(_, hit) =>
      OwnedRegistry(s);
      if hit.Some? { FireContinues(s, hit.value, sid); } else { SameContinues(s, Next(s, l), sid); }
    case _ => SameContinues(s, Next(s, l), sid);
  }

  lemma OwnedRegistry(s: State)
    requires Ownership(s)
    ensures WellFormed(s.reg)
  {
    hide WellFormed;
  }

  lemma SameContinues(s: State, s': State, sid: SessionId)
    requires s'.reg == s.reg
    ensures Continues(s, s', sid, false)
  {
  }

  lemma {:induction false} NotYetCreated(start: State, run: seq<Label>, sid: SessionId, token: Token)
    requires Invariant(start) && After(start, run).Some? && token >= After(start, run).value.reg.nextToken
    ensures !HitSince(start, run, sid, token)
  {
    hide Invariant, Next, Enabled, Hits;
    if run != [] {
      var mid := After(start, Front(run)).value;
      RunKeepsInvariant(start, Front(run));
      InvariantOwns(mid);
      FiredGrows(mid, Last(run));
      NotYetCreated(start, Front(run), sid, token);
    }
  }

  lemma InvariantOwns(s: State)
    requires Invariant(s)
    ensures Ownership(s)
  {
    hide Ownership, Fifo, Sequenced, CancelsJustified, Counted, InArrivalOrder, WithinCapacity;
  }

  /** A running turn's token has fired exactly if the run cancelled its session since the token was
      created. */
  lemma {:induction false} FiredExactlyIfHit(start: State, run: seq<Label>, sid: SessionId)
    requires Invariant(start) && start.reg.sessions == map[] && After(start, run).Some?
    ensures var s := After(start, run).value;
            IsActive(s.reg.sessions, sid) ==>
              (Turn(s.reg, sid).token in s.reg.fired <==> HitSince(start, run, sid, Turn(s.reg, sid).token))
    decreases |run|
  {
    if run != [] {
      var mid := After(start, Front(run)).value;
      var s := After(start, run).value;
      FiredExactlyIfHit(start, Front(run), sid);
      RunKeepsInvariant(start, Front(run));
      InvariantOwns(mid);
      StepContinues(mid, Last(run), sid);
      if IsActive(s.reg.sessions, sid) {
        TokenKnown(mid, sid);
        var token := Turn(s.reg, sid).token;
        if token >= mid.reg.nextToken { NotYetCreated(start, Front(run), sid, token); }
        hide Invariant, Ownership, Next, Enabled, Hits;
      }
    }
  }

  lemma TokenKnown(s: State, sid: SessionId)
    requires Ownership(s)
    ensures IsActive(s.reg.sessions, sid) ==> Turn(s.reg, sid).token < s.reg.nextToken
  {
    hide Permutes, DistinctTokens, ActiveSessions;
  }

  // ------------------------------------------------------------------------ the outcome

  lemma TurnOfTask(maxSessions: nat, run: seq<Label>, s: State, k: nat)
    requires Reachable(maxSessions, run, s) && k in s.tasks
    ensures var t := s.tasks[k];
            t.token in s.reg.fired <==> HitSince(Initial(maxSessions), run, t.sid, t.token)
  {
    InitialInvariant(maxSessions);
    ReachableOwnership(maxSessions, run, s);
    assert Owns(s.reg, s.tasks[k]);
    hide Invariant, Ownership, HitSince;
    FiredExactlyIfHit(Initial(maxSessions), run, s.tasks[k].sid);
  }

  /** A turn whose backend returns is answered `cancelled` exactly if, between the creation of its
      token and that return, its session was cancelled by its id, with all others, or by a request
      id that hit it. */
  lemma CancelledExactlyIfHit(maxSessions: nat, before: seq<Label>, s: State, k: nat, ok: bool, later: seq<Label>, end: State)
    requires Reachable(maxSessions, before, s)
    requires Enabled(s, BackendReturns(k, ok)) && After(Next(s, BackendReturns(k, ok)), later) == Some(end)
    ensures var t := s.tasks[k];
            forall f :: f in end.main && f.Terminal? && f.sid == t.sid && f.token == t.token ==>
              && (f.outcome == Cancelled <==> HitSince(Initial(maxSessions), before, t.sid, t.token))
              && (f.outcome == Completed <==> !HitSince(Initial(maxSessions), before, t.sid, t.token) && ok)
  {
    assert k in s.tasks;
    hide HitSince, Reachable, After, Next, Enabled;
    TurnOfTask(maxSessions, before, s, k);
    CancelDecidedAtTheFinalCheck(maxSessions, before, s, k, ok, later, end);
  }

  /** A backend that overstays the grace period is answered `cancelled`, which can only happen to a
      session that was cancelled; one that panics is answered as panicked, cancelled or not. */
  lemma OverstayOrPanicAnswered(maxSessions: nat, before: seq<Label>, s: State, k: nat, l: Label, later: seq<Label>, end: State)
    requires Reachable(maxSessions, before, s) && (l == GraceElapses(k) || l == BackendPanics(k))
    requires Enabled(s, l) && After(Next(s, l), later) == Some(end)
    ensures var t := s.tasks[k];
            && (forall f :: f in end.main && f.Terminal? && f.sid == t.sid && f.token == t.token ==>
                  f.outcome == if l.BackendPanics? then Panicked else Cancelled)
            && (l.GraceElapses? ==> HitSince(Initial(maxSessions), before, t.sid, t.token))
  {
    TurnOfTask(maxSessions, before, s, k);
    ReachableInvariant(maxSessions, before, s);
    InvariantStep(s, l);
    var t := s.tasks[k];
    var o := if l.BackendPanics? then Panicked else Cancelled;
    DecidedSeals(s, k, o);
    assert Next(s, l) == Enter(s, k, Decided(o));
    hide Invariant, Next, HitSince;
    SealedForever(Next(s, l), later, k, t.sid, t.token, o);
  }

  lemma DecidedSeals(s: State, k: nat, o: Outcome)
    requires Invariant(s) && InPhase(s, k, Running)
    ensures Sealed(Enter(s, k, Decided(o)), k, s.tasks[k].sid, s.tasks[k].token, o)
  {
    hide Ownership, Fifo, Sequenced, CancelsJustified, Counted, InArrivalOrder, WithinCapacity;
    DecisionSeals(s, k, o);
  }
}
