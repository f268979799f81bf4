/**
 Cancelling by request id: which turn `$/cancel_request` reaches. A turn carries the id of the
 prompt that opened its session's busy period, and keeps it when a queued prompt is promoted.
 */
module RequestCancellation {
  import opened Prelude
  import opened SessionRegistry
  import opened Runtime
  import opened RuntimeGuarantees

  // ------------------------------------------------------------------ where ids come from

  predicate RoutedAt(routed: seq<Entry>, i: nat, sid: SessionId, id: RequestId)
    requires i < |routed|
  {
    routed[i].first == Turns(sid) && routed[i].second.id == id
  }

  /** A prompt with this id was routed to the session's turns. */
  ghost predicate RoutedTo(routed: seq<Entry>, sid: SessionId, id: RequestId) {
    exists i :: 0 <= i < |routed| && RoutedAt(routed, i, sid, id)
  }

  /** A prompt with id `a` was routed there before one with id `b`. */
  ghost predicate RoutedBefore(routed: seq<Entry>, sid: SessionId, a: RequestId, b: RequestId) {
    exists i, j :: 0 <= i < j < |routed| && RoutedAt(routed, i, sid, a) && RoutedAt(routed, j, sid, b)
  }

  ghost predicate TurnLaw(routed: seq<Entry>, sid: SessionId, turn: ActiveTurn) {
    && RoutedTo(routed, sid, turn.requestId)
    && (turn.queued.Some? ==> RoutedBefore(routed, sid, turn.requestId, turn.queued.value.id))
  }

  /** A task started by admission runs the prompt that opened the busy period; a promoted one
      runs a later prompt. */
  ghost predicate TaskLaw(routed: seq<Entry>, t: Task, admitted: bool) {
    if admitted then t.opener == t.job.id && RoutedTo(routed, t.sid, t.job.id)
    else RoutedBefore(routed, t.sid, t.opener, t.job.id)
  }

  ghost predicate History(s: State, admitted: set<nat>) {
    && (forall sid :: IsActive(s.reg.sessions, sid) ==> TurnLaw(s.routed, sid, Turn(s.reg, sid)))
    && (forall k :: k in s.tasks ==> TaskLaw(s.routed, s.tasks[k], k in admitted))
    && (forall k :: k in admitted ==> k < s.nextTask)
  }

  /** The task a step starts by admission. */
  function NewlyAdmitted(s: State, l: Label): set<nat>
    requires Enabled(s, l)
  {
    if l.Dispatch? && Next(s, l).nextTask > s.nextTask then {s.nextTask} else {}
  }

  /** The numbers of the tasks a run started by admission rather than by promotion. */
  function Admitted(s: State, run: seq<Label>): set<nat> {
    if run == [] then {}
    else match After(s, Front(run))
      case None => {}
      case Some(mid) =>
        Admitted(s, Front(run)) + (if Enabled(mid, Last(run)) then NewlyAdmitted(mid, Last(run)) else {})
  }

  // ----------------------------------------------------------------------- every step

  lemma RouteGrows(routed: seq<Entry>, e: Entry)
    ensures forall sid, id :: RoutedTo(routed, sid, id) ==> RoutedTo(routed + [e], sid, id)
    ensures forall sid, a, b :: RoutedBefore(routed, sid, a, b) ==> RoutedBefore(routed + [e], sid, a, b)
  {
    var more := routed + [e];
    assert forall i, sid, id :: 0 <= i < |routed| && RoutedAt(routed, i, sid, id) ==> RoutedAt(more, i, sid, id);
    hide RoutedAt;
  }

  lemma RouteAdds(routed: seq<Entry>, sid: SessionId, p: Prompt)
    ensures RoutedTo(routed + [Pair(Turns(sid), p)], sid, p.id)
    ensures forall a :: RoutedTo(routed, sid, a) ==> RoutedBefore(routed + [Pair(Turns(sid), p)], sid, a, p.id)
  {
    var more := routed + [Pair(Turns(sid), p)];
    assert RoutedAt(more, |routed|, sid, p.id);
    forall a | RoutedTo(routed, sid, a) ensures RoutedBefore(more, sid, a, p.id) {
      var i :| 0 <= i < |routed| && RoutedAt(routed, i, sid, a);
      assert RoutedAt(more, i, sid, a);
    }
  }

  lemma LawsGrow(routed: seq<Entry>, e: Entry)
    ensures forall sid, turn :: TurnLaw(routed, sid, turn) ==> TurnLaw(routed + [e], sid, turn)
    ensures forall t, admitted :: TaskLaw(routed, t, admitted) ==> TaskLaw(routed + [e], t, admitted)
  {
    RouteGrows(routed, e);
    hide RoutedTo, RoutedBefore;
  }

  /** A step that adds one entry to the routing, and a law-abiding turn where turns change. */
  lemma HistoryRouted(s: State, reg': RegistryState, e: Entry, sid: SessionId, admitted: set<nat>)
    requires History(s, admitted) && OthersUntouched(s.reg, reg', sid)
    requires IsActive(reg'.sessions, sid) ==> TurnLaw(s.routed + [e], sid, Turn(reg', sid))
    ensures History(Route(s.(reg := reg'), e.first, e.second), admitted)
  {
    LawsGrow(s.routed, e);
    assert e == Pair(e.first, e.second);
    hide TurnLaw, TaskLaw;
  }

  lemma HistorySpawn(s: State, t: Task, admitted: set<nat>, start: bool)
    requires History(s, admitted) && TaskLaw(s.routed, t, start)
    ensures History(Spawn(s, t), if start then admitted + {s.nextTask} else admitted)
  {
    hide TurnLaw, TaskLaw;
  }

  lemma HistoryFrame(s: State, s': State, admitted: set<nat>)
    requires History(s, admitted)
    requires s'.routed == s.routed && s'.reg.sessions == s.reg.sessions && s'.nextTask == s.nextTask
    requires forall k :: k in s'.tasks ==> k in s.tasks && s'.tasks[k] == s.tasks[k].(phase := s'.tasks[k].phase)
    ensures History(s', admitted)
  {
    hide TurnLaw, RoutedTo, RoutedBefore;
  }

  lemma DispatchHistory(s: State, p: Prompt, admitted: set<nat>)
    requires Ownership(s) && History(s, admitted)
    ensures var s' := DispatchPrompt(s, p);
            History(s', if s'.nextTask > s.nextTask then admitted + {s.nextTask} else admitted)
  {
    hide History, Admit, OthersUntouched, WellFormed, TurnLaw, TaskLaw, RoutedTo, RoutedBefore;
    match p.target
    case None => RefusalHistory(s, s.reg, p, p.target, admitted);
    case Some(target) =>
      var sid, job := target.first, Job(p.id, target.second);
      var a := Admit(s.reg, sid, job);
      AdmitVerdict(s.reg, sid, job);
      match a.second {
        case Start(_, token) => StartHistory(s, a.first, sid, p, job, token, admitted);
        case Queued => QueuedHistory(s, a.first, sid, p, job, admitted);
        case Busy => RefusalHistory(s, a.first, p, p.target, admitted);
        case Full => RefusalHistory(s, a.first, p, p.target, admitted);
      }
  }

  lemma RefusalHistory(s: State, reg': RegistryState, p: Prompt, target: Option<Pair<SessionId, string>>, admitted: set<nat>)
    requires History(s, admitted)
    requires if target.None? then reg' == s.reg else
               OthersUntouched(s.reg, reg', target.value.first)
               && (IsActive(reg'.sessions, target.value.first) ==>
                     IsActive(s.reg.sessions, target.value.first)
                     && Turn(reg', target.value.first) == Turn(s.reg, target.value.first))
    ensures History(Route(s.(reg := reg'), Refusals, p).(dispatcher := Refusing(p)), admitted)
  {
    var sid := if target.None? then SessionId("") else target.value.first;
    LawsGrow(s.routed, Pair(Refusals, p));
    assert OthersUntouched(s.reg, reg', sid);
    hide TurnLaw, TaskLaw, OthersUntouched;
    HistoryRouted(s, reg', Pair(Refusals, p), sid, admitted);
  }

  lemma StartHistory(s: State, reg': RegistryState, sid: SessionId, p: Prompt, job: Job, token: Token, admitted: set<nat>)
    requires History(s, admitted) && OthersUntouched(s.reg, reg', sid) && job.id == p.id
    requires IsActive(reg'.sessions, sid) && Turn(reg', sid) == ActiveTurn(job.id, token, None)
    ensures History(Spawn(Route(s.(reg := reg'), Turns(sid), p), Task(sid, job, token, Running, job.id)), admitted + {s.nextTask})
  {
    RouteAdds(s.routed, sid, p);
    hide RoutedTo, RoutedBefore, OthersUntouched, History;
    HistoryRouted(s, reg', Pair(Turns(sid), p), sid, admitted);
    HistorySpawn(Route(s.(reg := reg'), Turns(sid), p), Task(sid, job, token, Running, job.id), admitted, true);
  }

  lemma QueuedHistory(s: State, reg': RegistryState, sid: SessionId, p: Prompt, job: Job, admitted: set<nat>)
    requires History(s, admitted) && OthersUntouched(s.reg, reg', sid) && job.id == p.id
    requires IsActive(s.reg.sessions, sid) && IsActive(reg'.sessions, sid)
    requires Turn(reg', sid) == Turn(s.reg, sid).(queued := Some(job))
    ensures History(Route(s.(reg := reg'), Turns(sid), p), admitted)
  {
    assert TurnLaw(s.routed, sid, Turn(s.reg, sid));
    RouteAdds(s.routed, sid, p);
    RouteGrows(s.routed, Pair(Turns(sid), p));
    hide RoutedTo, RoutedBefore, OthersUntouched, History;
    HistoryRouted(s, reg', Pair(Turns(sid), p), sid, admitted);
  }

  lemma HandOffHistory(s: State, k: nat, admitted: set<nat>)
    requires Ownership(s) && History(s, admitted) && k in s.tasks
    ensures History(HandOff(s, k), admitted)
  {
    var t := s.tasks[k];
    assert Owns(s.reg, t);
    assert TurnLaw(s.routed, t.sid, Turn(s.reg, t.sid));
    hide Ownership, WellFormed, SessionRegistry.Finish, RoutedTo, RoutedBefore;
    FinishVerdict(s.reg, t.sid);
    var f := SessionRegistry.Finish(s.reg, t.sid, t.token);
    var s' := s.(reg := f.first, tasks := s.tasks - {k});
    HandedOverHistory(s, s', t.sid, admitted);
    hide OthersUntouched, History;
    if f.second.Some? {
      HistorySpawn(s', Task(t.sid, f.second.value.first, f.second.value.second, Running, t.opener), admitted, false);
    }
  }

  lemma HandedOverHistory(s: State, s': State, sid: SessionId, admitted: set<nat>)
    requires History(s, admitted) && OthersUntouched(s.reg, s'.reg, sid)
    requires s'.routed == s.routed && s'.nextTask == s.nextTask
    requires forall k :: k in s'.tasks ==> k in s.tasks && s'.tasks[k] == s.tasks[k]
    requires IsActive(s'.reg.sessions, sid) ==> TurnLaw(s.routed, sid, Turn(s'.reg, sid))
    ensures History(s', admitted)
  {
    hide TurnLaw, TaskLaw;
  }

  lemma HistoryStep(s: State, l: Label, admitted: set<nat>)
    requires Ownership(s) && History(s, admitted) && Enabled(s, l)
    ensures History(Next(s, l), admitted + NewlyAdmitted(s, l))
  {
    hide Ownership, History, DispatchPrompt, HandOff, ScanHits;
    assert admitted + {} == admitted;
    match l
    case Dispatch => DispatchHistory(s, s.received[|s.routed|], admitted);
    case Finish(k) => HandOffHistory(s, k, admitted);
    case _ => HistoryFrame(s, Next(s, l), admitted);
  }

  lemma {:induction false} HistoryOfRun(maxSessions: nat, run: seq<Label>, s: State)
    requires Reachable(maxSessions, run, s)
    ensures History(s, Admitted(Initial(maxSessions), run))
  {
    hide History, Next, Enabled, NewlyAdmitted;
    if run == [] {
      NoHistory(maxSessions);
    } else {
      var mid := After(Initial(maxSessions), Front(run)).value;
      HistoryOfRun(maxSessions, Front(run), mid);
      ReachableOwnership(maxSessions, Front(run), mid);
      HistoryStep(mid, Last(run), Admitted(Initial(maxSessions), Front(run)));
    }
  }

  lemma NoHistory(maxSessions: nat)
    ensures History(Initial(maxSessions), {})
  {
  }

  // ---------------------------------------------------------------- the effect of a cancel

  ghost predicate DistinctIds(received: seq<Prompt>) {
    forall i, j :: 0 <= i < j < |received| ==> received[i].id != received[j].id
  }

  lemma OnePlacePerId(s: State)
    requires InArrivalOrder(s) && DistinctIds(s.received)
    ensures forall a, b, id :: RoutedTo(s.routed, a, id) && RoutedTo(s.routed, b, id) ==> a == b
    ensures forall sid, a, b :: RoutedBefore(s.routed, sid, a, b) ==> a != b
    ensures forall sid, a, b :: RoutedBefore(s.routed, sid, a, b) ==> RoutedTo(s.routed, sid, a) && RoutedTo(s.routed, sid, b)
  {
  }

  lemma ReachableArrival(maxSessions: nat, run: seq<Label>, s: State)
    requires Reachable(maxSessions, run, s)
    ensures InArrivalOrder(s)
  {
    hide Ownership, Fifo, Sequenced, CancelsJustified, Counted, InArrivalOrder, WithinCapacity;
    ReachableInvariant(maxSessions, run, s);
  }

  /** If the client never reuses an id, no two running turns carry the same one. */
  lemma OpenersAreDistinct(maxSessions: nat, run: seq<Label>, s: State, a: SessionId, b: SessionId, id: RequestId)
    requires Reachable(maxSessions, run, s) && DistinctIds(s.received)
    requires Carries(s.reg, a, id) && Carries(s.reg, b, id)
    ensures a == b
  {
    HistoryOfRun(maxSessions, run, s);
    ReachableArrival(maxSessions, run, s);
    OnePlacePerId(s);
    assert TurnLaw(s.routed, a, Turn(s.reg, a)) && TurnLaw(s.routed, b, Turn(s.reg, b));
  }

  /** Cancelling a running prompt by its own id fires exactly its token if its turn was started
      by admission, and fires nothing at all if the prompt was promoted from the queue. */
  lemma CancelByOwnIdExactly(maxSessions: nat, run: seq<Label>, s: State, k: nat, hit: Option<SessionId>)
    requires Reachable(maxSessions, run, s) && DistinctIds(s.received) && k in s.tasks
    requires Enabled(s, CancelRequest(s.tasks[k].job.id, hit))
    ensures var fired := if k in Admitted(Initial(maxSessions), run) then {s.tasks[k].token} else {};
            Next(s, CancelRequest(s.tasks[k].job.id, hit)) == s.(reg := s.reg.(fired := s.reg.fired + fired))
  {
    var t := s.tasks[k];
    ReachableOwnership(maxSessions, run, s);
    assert Owns(s.reg, t);
    HistoryOfRun(maxSessions, run, s);
    ReachableArrival(maxSessions, run, s);
    OnePlacePerId(s);
    assert TaskLaw(s.routed, t, k in Admitted(Initial(maxSessions), run));
    if hit.Some? { assert TurnLaw(s.routed, hit.value, Turn(s.reg, hit.value)); }
    hide Ownership, InArrivalOrder, DistinctIds, RoutedTo, RoutedBefore, History, Admitted, Reachable;
    assert s.reg.fired + {} == s.reg.fired;
  }

  /** Whatever ids are reused, a cancel fires the turn of the session its scan hits; it is that of
      task `k` if no other running turn carries the id. */
  lemma CancelByOpenerId(maxSessions: nat, run: seq<Label>, s: State, k: nat, hit: Option<SessionId>)
    requires Reachable(maxSessions, run, s) && k in s.tasks
    requires Enabled(s, CancelRequest(s.tasks[k].opener, hit))
    requires forall sid :: sid != s.tasks[k].sid ==> !Carries(s.reg, sid, s.tasks[k].opener)
    ensures Next(s, CancelRequest(s.tasks[k].opener, hit))
         == s.(reg := s.reg.(fired := s.reg.fired + {s.tasks[k].token}))
  {
    CancelByRequestId(maxSessions, run, s, k, s.tasks[k].opener);
    ReachableOwnership(maxSessions, run, s);
    assert Owns(s.reg, s.tasks[k]);
    hide Ownership;
  }
}
