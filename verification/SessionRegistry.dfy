/**
 The per-connection session registry: at most one running turn and one queued
 prompt per session, with idle entries evicted by a bounded rotating scan.

 A cancellation token is identified by its allocation number: `nextToken` is the
 number the next `CancelToken::new` gets, and `fired` holds the tokens whose flag
 has been set. Equality of numbers is therefore pointer equality of tokens.
 */
module SessionRegistry {
  import opened Prelude

  datatype SessionId = SessionId(name: string)
  type Token = nat

  datatype RequestId = Number(n: nat) | Text(s: string)
  datatype Job = Job(id: RequestId, text: string)
  datatype ActiveTurn = ActiveTurn(requestId: RequestId, token: Token, queued: Option<Job>)
  datatype SessionState = SessionState(active: Option<ActiveTurn>)
  type Sessions = map<SessionId, SessionState>

  datatype RegistryState = RegistryState(
    sessions: Sessions,
    order: seq<SessionId>,
    maxSessions: nat,
    activeTurns: nat,
    nextToken: Token,
    fired: set<Token>)

  datatype Admission = Start(job: Job, token: Token) | Queued | Busy | Full

  const Idle := SessionState(None)

  // ------------------------------------------------------------------ specification

  predicate IsActive(sessions: Sessions, sid: SessionId) {
    sid in sessions && sessions[sid].active.Some?
  }

  function ActiveSessions(sessions: Sessions): set<SessionId> {
    set sid | sid in sessions && sessions[sid].active.Some?
  }

  function Turn(r: RegistryState, sid: SessionId): ActiveTurn
    requires IsActive(r.sessions, sid)
  {
    r.sessions[sid].active.value
  }

  /** Visit the head of the rotation: drop a stale key, evict an idle entry, revisit an active one later. */
  function Visit(sessions: Sessions, order: seq<SessionId>): Pair<Sessions, seq<SessionId>>
    requires order != []
  {
    var oldest := order[0];
    if oldest !in sessions then Pair(sessions, order[1..])
    else if sessions[oldest].active.None? then Pair(sessions - {oldest}, order[1..])
    else Pair(sessions, order[1..] + [oldest])
  }

  /** The bounded rotating scan, from the point where `scanned` entries were visited. */
  function Evict(sessions: Sessions, order: seq<SessionId>, scanned: nat, target: nat): (r: Pair<Sessions,
      seq<SessionId>>)
    ensures |r.first| <= |sessions|
    decreases |sessions| - scanned
  {
    if |sessions| <= target || scanned >= |sessions| || order == [] then Pair(sessions, order)
    else
      var next := Visit(sessions, order);
      assert next.first.Keys <= sessions.Keys && |next.first| <= |sessions| by { SubsetSize(next.first.Keys, sessions.Keys); }
      Evict(next.first, next.second, scanned + 1, target)
  }

  /** Track `sid`: a new key joins the back of the rotation, then idle entries make room. */
  function MakeRoom(r: RegistryState, sid: SessionId): (m: RegistryState)
    ensures sid in m.sessions
  {
    if sid in r.sessions then r
    else
      var target := if r.maxSessions == 0 then 0 else r.maxSessions - 1;
      var kept := Evict(r.sessions, r.order + [sid], 0, target);
      r.(sessions := kept.first[sid := Idle], order := kept.second)
  }

  function Admit(r: RegistryState, sid: SessionId, job: Job): Pair<RegistryState, Admission> {
    Place(MakeRoom(r, sid), sid, job)
  }

  /** Start, queue or refuse a prompt of a tracked session. */
  function Place(m: RegistryState, sid: SessionId, job: Job): Pair<RegistryState, Admission>
    requires sid in m.sessions
  {
    match m.sessions[sid].active
      case Some(turn) =>
        if turn.queued.None? then
          Pair(m.(sessions := m.sessions[sid := SessionState(Some(turn.(queued := Some(job))))]), Queued)
        else Pair(m, Busy)
      case None =>
        if m.activeTurns >= m.maxSessions && m.maxSessions > 0 then Pair(m, Full)
        else
          var turn := ActiveTurn(job.id, m.nextToken, None);
          Pair(m.(sessions := m.sessions[sid := SessionState(Some(turn))],
                  activeTurns := m.activeTurns + 1,
                  nextToken := m.nextToken + 1),
               Start(job, m.nextToken))
  }

  function Finish(r: RegistryState, sid: SessionId, token: Token): Pair<RegistryState, Option<Pair<Job, Token>>> {
    if !IsActive(r.sessions, sid) || Turn(r, sid).token != token then Pair(r, None)
    else match Turn(r, sid).queued
      case Some(job) =>
        var turn := Turn(r, sid).(queued := None, token := r.nextToken);
        Pair(r.(sessions := r.sessions[sid := SessionState(Some(turn))], nextToken := r.nextToken + 1),
             Some(Pair(job, r.nextToken)))
      case None =>
        Pair(r.(sessions := r.sessions[sid := Idle],
                activeTurns := if r.activeTurns == 0 then 0 else r.activeTurns - 1),
             None)
  }

  function Fire(r: RegistryState, sid: SessionId): RegistryState {
    if IsActive(r.sessions, sid) then r.(fired := r.fired + {Turn(r, sid).token}) else r
  }

  function ActiveTokens(sessions: Sessions): set<Token> {
    set sid | sid in sessions && sessions[sid].active.Some? :: sessions[sid].active.value.token
  }

  function FireAll(r: RegistryState): RegistryState {
    r.(fired := r.fired + ActiveTokens(r.sessions))
  }

  // ---------------------------------------------------------------------- invariant

  /** `order` lists each of `keys` exactly once. */
  predicate Permutes(order: seq<SessionId>, keys: set<SessionId>) {
    multiset(order) == multiset(keys)
  }

  ghost predicate DistinctTokens(sessions: Sessions) {
    forall a, b :: IsActive(sessions, a) && IsActive(sessions, b) && a != b ==>
      sessions[a].active.value.token != sessions[b].active.value.token
  }

  /** What every sequence of registry operations keeps. */
  ghost predicate WellFormed(r: RegistryState) {
    && Permutes(r.order, r.sessions.Keys)
    && r.activeTurns == |ActiveSessions(r.sessions)|
    && (forall sid :: IsActive(r.sessions, sid) ==> r.sessions[sid].active.value.token < r.nextToken)
    && DistinctTokens(r.sessions)
    && (forall t :: t in r.fired ==> t < r.nextToken)
  }

  /** The resource bound, meaningful for a positive session limit. */
  predicate WithinCapacity(r: RegistryState) {
    r.maxSessions >= 1 ==> r.activeTurns <= r.maxSessions && |r.sessions| <= r.maxSessions + 1
  }

  // ------------------------------------------------------------------ eviction proofs

  /** The new key sits far enough back that the bounded scan never pops it. */
  ghost predicate Scanning(sessions: Sessions, order: seq<SessionId>, scanned: nat, joining: SessionId, at: nat) {
    && joining !in sessions
    && at < |order| && order[at] == joining
    && at + scanned >= |sessions|
    && Permutes(order, sessions.Keys + {joining})
  }

  /** Only idle sessions disappear, and nothing else changes. */
  ghost predicate Retains(before: Sessions, after: Sessions) {
    && after.Keys <= before.Keys
    && (forall sid :: sid in after ==> after[sid] == before[sid])
    && (forall sid :: IsActive(before, sid) ==> sid in after)
  }

  lemma RetainsTransitive(a: Sessions, b: Sessions, c: Sessions)
    requires Retains(a, b) && Retains(b, c)
    ensures Retains(a, c)
  {
  }

  lemma NoRepeats(order: seq<SessionId>, keys: set<SessionId>, j: nat)
    requires Permutes(order, keys) && 0 < j < |order|
    ensures order[0] != order[j]
  {
    assert order == [order[0]] + order[1..];
    assert multiset(order)[order[0]] == 1 + multiset(order[1..])[order[0]];
    assert order[j] == order[1..][j - 1] && order[j] in multiset(order[1..]);
    assert order[0] in multiset(order);
  }

  lemma VisitKeeps(sessions: Sessions, order: seq<SessionId>, scanned: nat, joining: SessionId, at: nat)
    requires Scanning(sessions, order, scanned, joining, at) && scanned < |sessions|
    ensures var next := Visit(sessions, order);
            && order[0] in sessions
            && at > 0 && Scanning(next.first, next.second, scanned + 1, joining, at - 1)
            && Retains(sessions, next.first)
            && (if IsActive(sessions, order[0]) then next == Pair(sessions, order[1..] + [order[0]])
                else |next.first| == |sessions| - 1)
  {
    var keys := sessions.Keys + {joining};
    var oldest := order[0];
    NoRepeats(order, keys, at);
    assert order == [oldest] + order[1..];
    assert oldest in multiset(order) && oldest in keys;
    if sessions[oldest].active.None? {
      var rest := sessions - {oldest};
      assert rest.Keys == sessions.Keys - {oldest};
      assert rest.Keys + {joining} == keys - {oldest};
      assert multiset(order[1..]) == multiset(order) - multiset{oldest};
      assert multiset(keys - {oldest}) == multiset(keys) - multiset{oldest};
      assert order[1..][at - 1] == joining;
    } else {
      assert multiset(order[1..] + [oldest]) == multiset(order);
      assert (order[1..] + [oldest])[at - 1] == joining;
    }
  }

  /** Eviction removes only idle sessions, keeps the rest as they were, and keeps the rotation
      a duplicate-free list of the surviving keys and the key being admitted. */
  lemma {:induction false} EvictKeeps(sessions: Sessions, order: seq<SessionId>, scanned: nat, target: nat,
      joining: SessionId, at: nat)
    requires Scanning(sessions, order, scanned, joining, at)
    ensures var r := Evict(sessions, order, scanned, target);
            && Permutes(r.second, r.first.Keys + {joining})
            && Retains(sessions, r.first)
    decreases |sessions| - scanned
  {
    hide Permutes, Visit;
    if |sessions| <= target || scanned >= |sessions| || order == [] {
    } else {
      var next := Visit(sessions, order);
      var r := Evict(sessions, order, scanned, target);
      assert r == Evict(next.first, next.second, scanned + 1, target);
      hide *;
      VisitKeeps(sessions, order, scanned, joining, at);
      EvictKeeps(next.first, next.second, scanned + 1, target, joining, at - 1);
      RetainsTransitive(sessions, next.first, r.first);
    }
  }

  /** A scan that evicts nothing has seen only active sessions: the bound on the
      number of visits never hides an idle entry when no entry was removed. */
  lemma {:induction false} EvictNothingMeansAllActive(sessions: Sessions, order: seq<SessionId>, scanned: nat,
      target: nat, joining: SessionId, at: nat)
    requires Scanning(sessions, order, scanned, joining, at)
    requires |sessions| > target
    requires |Evict(sessions, order, scanned, target).first| == |sessions|
    ensures forall i :: 0 <= i < |sessions| - scanned && i < |order| ==> IsActive(sessions, order[i])
    decreases |sessions| - scanned
  {
    hide Permutes, Retains, Visit;
    if scanned < |sessions| {
      var next := Visit(sessions, order);
      VisitKeeps(sessions, order, scanned, joining, at);
      EvictNothingMeansAllActive(sessions, next.second, scanned + 1, target, joining, at - 1);
      forall i | 0 <= i < |sessions| - scanned && i < |order|
        ensures IsActive(sessions, order[i])
      {
        if i > 0 { assert next.second[i - 1] == order[i]; }
      }
    }
  }

  /** The sessions among `keys` that could be evicted. */
  function IdleCount(sessions: Sessions, keys: seq<SessionId>): nat {
    if keys == [] then 0
    else (if keys[0] in sessions && !IsActive(sessions, keys[0]) then 1 else 0) + IdleCount(sessions, keys[1..])
  }

  lemma {:induction false} IdleCountWithout(sessions: Sessions, keys: seq<SessionId>, gone: SessionId)
    requires gone !in keys
    ensures IdleCount(sessions - {gone}, keys) == IdleCount(sessions, keys)
  {
    if keys != [] {
      assert keys[0] != gone;
      IdleCountWithout(sessions, keys[1..], gone);
    }
  }

  function Window(order: seq<SessionId>, n: int): seq<SessionId> {
    if n <= 0 then [] else if n < |order| then order[..n] else order
  }

  lemma VisitWindow(sessions: Sessions, order: seq<SessionId>, scanned: nat, joining: SessionId, at: nat, n: nat)
    requires Scanning(sessions, order, scanned, joining, at) && scanned < |sessions| && 1 <= n <= at
    ensures var next := Visit(sessions, order);
            IdleCount(sessions, Window(order, n)) == IdleCount(next.first, Window(next.second, n - 1))
                                                     + (if IsActive(sessions, order[0]) then 0 else 1)
  {
    VisitKeeps(sessions, order, scanned, joining, at);
    var next := Visit(sessions, order);
    var tail := order[1..n];
    assert Window(order, n)[1..] == tail;
    assert Window(next.second, n - 1) == tail;
    forall j | 0 < j < |order| ensures order[0] != order[j] { NoRepeats(order, sessions.Keys + {joining}, j); }
    IdleCountWithout(sessions, tail, order[0]);
    hide Permutes, Scanning;
  }

  /** The bounded scan reaches its target exactly when enough of the entries it is sure to
      visit are idle: every removal shrinks the bound on the visits as well. */
  lemma {:induction false} EvictReaches(sessions: Sessions, order: seq<SessionId>, scanned: nat, target: nat,
      joining: SessionId, at: nat)
    requires Scanning(sessions, order, scanned, joining, at)
    ensures |Evict(sessions, order, scanned, target).first| <= target
       <==> |sessions| <= target || IdleCount(sessions, Window(order, target + 1 - scanned)) >= |sessions| - target
    decreases |sessions| - scanned
  {
    hide *;
    ScanningBounds(sessions, order, scanned, joining, at);
    EmptyWindow(sessions, order, target + 1 - scanned);
    if |sessions| > target && scanned < |sessions| {
      VisitKeeps(sessions, order, scanned, joining, at);
      var next := Visit(sessions, order);
      EvictOnce(sessions, order, scanned, target);
      EvictReaches(next.first, next.second, scanned + 1, target, joining, at - 1);
      EmptyWindow(next.first, next.second, target - scanned);
      if scanned <= target { VisitWindow(sessions, order, scanned, joining, at, target + 1 - scanned); }
    } else {
      EvictStops(sessions, order, scanned, target);
    }
  }

  lemma EvictStops(sessions: Sessions, order: seq<SessionId>, scanned: nat, target: nat)
    requires |sessions| <= target || scanned >= |sessions|
    ensures Evict(sessions, order, scanned, target) == Pair(sessions, order)
  {
  }

  lemma ScanningBounds(sessions: Sessions, order: seq<SessionId>, scanned: nat, joining: SessionId, at: nat)
    requires Scanning(sessions, order, scanned, joining, at)
    ensures at < |order| && at + scanned >= |sessions|
  {
  }

  lemma EvictOnce(sessions: Sessions, order: seq<SessionId>, scanned: nat, target: nat)
    requires |sessions| > target && scanned < |sessions| && order != []
    ensures Evict(sessions, order, scanned, target)
         == Evict(Visit(sessions, order).first, Visit(sessions, order).second, scanned + 1, target)
  {
    hide Visit;
  }

  lemma EmptyWindow(sessions: Sessions, order: seq<SessionId>, n: int)
    ensures n <= 0 ==> IdleCount(sessions, Window(order, n)) == 0
  {
  }

  /** Making room leaves at most `target` of the tracked sessions exactly when, of the first
      `target` + 1 in the rotation, at least as many are idle as there are too many. */
  lemma MakeRoomReachesTargetExactly(r: RegistryState, sid: SessionId, target: nat)
    requires WellFormed(r) && sid !in r.sessions
    ensures |Evict(r.sessions, r.order + [sid], 0, target).first| <= target
       <==> |r.sessions| <= target
            || (target < |r.order| && IdleCount(r.sessions, r.order[..target + 1]) >= |r.sessions| - target)
  {
    hide *;
    StartScanning(r, sid);
    WindowOfRotation(r.order, sid, target);
    EvictReaches(r.sessions, r.order + [sid], 0, target, sid, |r.sessions|);
  }

  lemma WindowOfRotation(order: seq<SessionId>, sid: SessionId, target: nat)
    ensures target < |order| ==> Window(order + [sid], target + 1) == order[..target + 1]
  {
  }

  lemma StartScanning(r: RegistryState, sid: SessionId)
    requires WellFormed(r) && sid !in r.sessions
    ensures |r.order| == |r.sessions| && Scanning(r.sessions, r.order + [sid], 0, sid, |r.sessions|)
  {
    hide DistinctTokens, ActiveSessions;
    assert |r.order| == |multiset(r.sessions.Keys)|;
    assert Permutes(r.order + [sid], r.sessions.Keys + {sid});
  }

  lemma MakeRoomRetains(r: RegistryState, sid: SessionId)
    requires WellFormed(r) && sid !in r.sessions
    ensures var n := |r.sessions|;
            var target := if r.maxSessions == 0 then 0 else r.maxSessions - 1;
            && n == |r.order|
            && Scanning(r.sessions, r.order + [sid], 0, sid, n)
            && Retains(r.sessions, Evict(r.sessions, r.order + [sid], 0, target).first)
            && Permutes(MakeRoom(r, sid).order, MakeRoom(r, sid).sessions.Keys)
  {
    var target := if r.maxSessions == 0 then 0 else r.maxSessions - 1;
    var kept := Evict(r.sessions, r.order + [sid], 0, target);
    MakeRoomUnfolds(r, sid);
    assert kept.first[sid := Idle].Keys == kept.first.Keys + {sid};
    hide *;
    StartScanning(r, sid);
    EvictKeeps(r.sessions, r.order + [sid], 0, target, sid, |r.order|);
  }

  lemma MakeRoomUnfolds(r: RegistryState, sid: SessionId)
    requires sid !in r.sessions
    ensures var target := if r.maxSessions == 0 then 0 else r.maxSessions - 1;
            var kept := Evict(r.sessions, r.order + [sid], 0, target);
            MakeRoom(r, sid) == r.(sessions := kept.first[sid := Idle], order := kept.second)
  {
    hide Evict;
  }

  lemma FullScanMeansAllActive(r: RegistryState, sid: SessionId, target: nat)
    requires WellFormed(r) && sid !in r.sessions
    requires Scanning(r.sessions, r.order + [sid], 0, sid, |r.sessions|)
    requires |r.sessions| > target && |r.sessions| == |r.order|
    requires |Evict(r.sessions, r.order + [sid], 0, target).first| == |r.sessions|
    ensures |r.sessions| <= r.activeTurns
  {
    EvictNothingMeansAllActive(r.sessions, r.order + [sid], 0, target, sid, |r.sessions|);
    hide Scanning, Evict;
    forall s | s in r.sessions ensures IsActive(r.sessions, s) {
      assert s in multiset(r.sessions.Keys);
      assert s in multiset(r.order);
      var i :| 0 <= i < |r.order| && r.order[i] == s;
      assert (r.order + [sid])[i] == s;
    }
    assert r.sessions.Keys <= ActiveSessions(r.sessions);
    SubsetSize(r.sessions.Keys, ActiveSessions(r.sessions));
  }

  lemma AddedKeyCount(sessions: Sessions, sid: SessionId)
    ensures |sessions[sid := Idle]| <= |sessions| + 1
  {
    assert sessions[sid := Idle].Keys == sessions.Keys + {sid};
  }

  /** Tracking a new key leaves at most max + 1 sessions: if the maximum plus one were
      already tracked, at least one of them was idle and the scan has removed it. */
  lemma MakeRoomBound(r: RegistryState, sid: SessionId)
    requires WellFormed(r) && WithinCapacity(r)
    ensures WithinCapacity(MakeRoom(r, sid))
  {
    if sid !in r.sessions && r.maxSessions >= 1 {
      SurvivorCount(r, sid);
    }
  }

  lemma SurvivorCount(r: RegistryState, sid: SessionId)
    requires WellFormed(r) && sid !in r.sessions
    requires 1 <= r.maxSessions && r.activeTurns <= r.maxSessions && |r.sessions| <= r.maxSessions + 1
    ensures |MakeRoom(r, sid).sessions| <= r.maxSessions + 1
  {
    var target := r.maxSessions - 1;
    var kept := Evict(r.sessions, r.order + [sid], 0, target).first;
    hide *;
    MakeRoomUnfolds(r, sid);
    MakeRoomRetains(r, sid);
    AddedKeyCount(kept, sid);
    if |kept| == |r.sessions| && |r.sessions| > target {
      FullScanMeansAllActive(r, sid, target);
    }
  }

  /** The running turns of two session maps are the same turns. */
  ghost predicate SameTurns(a: Sessions, b: Sessions) {
    forall sid :: (IsActive(a, sid) <==> IsActive(b, sid)) && (IsActive(a, sid) ==> a[sid] == b[sid])
  }

  lemma SameTurnsSameActive(a: Sessions, b: Sessions)
    requires SameTurns(a, b)
    ensures ActiveSessions(a) == ActiveSessions(b)
  {
    assert forall sid :: sid in ActiveSessions(a) <==> IsActive(a, sid);
    assert forall sid :: sid in ActiveSessions(b) <==> IsActive(b, sid);
  }

  lemma RetainsTurns(before: Sessions, after: Sessions, sid: SessionId)
    requires Retains(before, after) && sid !in before
    ensures SameTurns(before, after[sid := Idle])
  {
  }

  lemma MakeRoomKeeps(r: RegistryState, sid: SessionId)
    requires WellFormed(r)
    ensures var m := MakeRoom(r, sid);
            && WellFormed(m)
            && sid in m.sessions
            && SameTurns(r.sessions, m.sessions)
  {
    if sid !in r.sessions {
      var m := MakeRoom(r, sid);
      var target := if r.maxSessions == 0 then 0 else r.maxSessions - 1;
      var kept := Evict(r.sessions, r.order + [sid], 0, target).first;
      assert m.sessions == kept[sid := Idle];
      assert m == r.(sessions := m.sessions, order := m.order);
      MakeRoomRetains(r, sid);
      RetainsTurns(r.sessions, kept, sid);
      SameTurnsSameActive(r.sessions, m.sessions);
      hide Permutes, Scanning, Evict, MakeRoom, Retains, ActiveSessions;
      assert DistinctTokens(m.sessions);
      assert WellFormed(m);
    }
  }

  lemma MakeRoomPreserves(r: RegistryState, sid: SessionId)
    ensures MakeRoom(r, sid) == r.(sessions := MakeRoom(r, sid).sessions, order := MakeRoom(r, sid).order)
  {
  }

  // ------------------------------------------------------------------ operation proofs

  /** Giving a tracked session a turn under its own token or a new one keeps the registry well formed. */
  lemma InstallTurn(r: RegistryState, sid: SessionId, turn: ActiveTurn, next: Token)
    requires WellFormed(r) && sid in r.sessions && r.nextToken <= next
    requires r.nextToken <= turn.token < next || (IsActive(r.sessions, sid) && turn.token == Turn(r, sid).token)
    ensures WellFormed(r.(sessions := r.sessions[sid := SessionState(Some(turn))],
                          activeTurns := r.activeTurns + (if IsActive(r.sessions, sid) then 0 else 1),
                          nextToken := next))
  {
    InstallCount(r.sessions, sid, turn);
    InstallTokens(r, sid, turn, next);
    hide ActiveSessions, DistinctTokens, Permutes, IsActive;
  }

  lemma InstallCount(sessions: Sessions, sid: SessionId, turn: ActiveTurn)
    requires sid in sessions
    ensures var after := sessions[sid := SessionState(Some(turn))];
            && after.Keys == sessions.Keys
            && |ActiveSessions(after)| == |ActiveSessions(sessions)| + (if IsActive(sessions, sid) then 0 else 1)
  {
    var before := ActiveSessions(sessions);
    var after := sessions[sid := SessionState(Some(turn))];
    assert ActiveSessions(after) == before + {sid};
    assert sid in before <==> IsActive(sessions, sid);
    if sid in before { assert before + {sid} == before; }
  }

  lemma InstallTokens(r: RegistryState, sid: SessionId, turn: ActiveTurn, next: Token)
    requires WellFormed(r) && sid in r.sessions && r.nextToken <= next
    requires r.nextToken <= turn.token < next || (IsActive(r.sessions, sid) && turn.token == Turn(r, sid).token)
    ensures var after := r.sessions[sid := SessionState(Some(turn))];
            && DistinctTokens(after)
            && (forall s :: IsActive(after, s) ==> after[s].active.value.token < next)
            && (forall t :: t in r.fired ==> t < next)
  {
    hide ActiveSessions, Permutes;
  }

  lemma ParkSession(r: RegistryState, sid: SessionId)
    requires WellFormed(r) && IsActive(r.sessions, sid)
    ensures r.activeTurns > 0
    ensures WellFormed(r.(sessions := r.sessions[sid := Idle], activeTurns := r.activeTurns - 1))
  {
    var before := ActiveSessions(r.sessions);
    assert r.sessions[sid := Idle].Keys == r.sessions.Keys;
    hide Permutes;
    assert sid in before;
    assert ActiveSessions(r.sessions[sid := Idle]) == before - {sid};
  }

  lemma AdmitBound(r: RegistryState, sid: SessionId, job: Job)
    requires WellFormed(r) && WithinCapacity(r)
    ensures WithinCapacity(Admit(r, sid, job).first)
  {
    MakeRoomKeeps(r, sid);
    MakeRoomBound(r, sid);
    hide MakeRoom, SameTurns, WellFormed;
    assert Admit(r, sid, job).first.sessions.Keys == MakeRoom(r, sid).sessions.Keys;
  }

  lemma AdmitKeeps(r: RegistryState, sid: SessionId, job: Job)
    requires WellFormed(r)
    ensures WellFormed(Admit(r, sid, job).first)
  {
    MakeRoomKeeps(r, sid);
    hide MakeRoom, SameTurns, Permutes;
    var m := MakeRoom(r, sid);
    var after := Admit(r, sid, job).first;
    if after != m {
      assert IsActive(m.sessions, sid) ==> Turn(m, sid).token < m.nextToken;
      InstallTurn(m, sid, Turn(after, sid), after.nextToken);
    }
  }

  lemma FinishKeeps(r: RegistryState, sid: SessionId, token: Token)
    requires WellFormed(r)
    ensures WellFormed(Finish(r, sid, token).first)
    ensures WithinCapacity(r) ==> WithinCapacity(Finish(r, sid, token).first)
  {
    if IsActive(r.sessions, sid) && Turn(r, sid).token == token {
      var after := Finish(r, sid, token).first;
      if Turn(r, sid).queued.Some? {
        InstallTurn(r, sid, Turn(after, sid), after.nextToken);
      } else {
        ParkSession(r, sid);
      }
      hide WellFormed;
      assert after.sessions.Keys == r.sessions.Keys;
    }
  }

  /** The turns of every session but `sid` are the same. */
  ghost predicate OthersUntouched(r: RegistryState, r': RegistryState, sid: SessionId) {
    forall s :: s != sid ==>
      && (IsActive(r.sessions, s) <==> IsActive(r'.sessions, s))
      && (IsActive(r.sessions, s) ==> r.sessions[s] == r'.sessions[s])
  }

  /** Which answer `admit` gives, in terms of the registry it was called on. The capacity
      refusal means exactly that the maximum number of turns is running, and no answer
      disturbs another session's turn. */
  lemma AdmitVerdict(r: RegistryState, sid: SessionId, job: Job)
    requires WellFormed(r)
    ensures var a := Admit(r, sid, job);
            && (a.second.Full? <==> !IsActive(r.sessions, sid) && 0 < r.maxSessions <= r.activeTurns)
            && (a.second.Busy? <==> IsActive(r.sessions, sid) && Turn(r, sid).queued.Some?)
            && (a.second.Queued? <==> IsActive(r.sessions, sid) && Turn(r, sid).queued.None?)
            && (a.second.Start? ==> a.second == Start(job, r.nextToken) && r.nextToken !in a.first.fired
                                    && IsActive(a.first.sessions, sid)
                                    && Turn(a.first, sid) == ActiveTurn(job.id, r.nextToken, None))
            && (a.second.Queued? ==> IsActive(a.first.sessions, sid)
                                     && Turn(a.first, sid) == Turn(r, sid).(queued := Some(job)))
            && (a.second.Busy? ==> IsActive(a.first.sessions, sid) && Turn(a.first, sid) == Turn(r, sid))
            && (a.second.Full? ==> !IsActive(a.first.sessions, sid))
            && OthersUntouched(r, a.first, sid)
            && a.first.fired == r.fired
            && a.first.nextToken == r.nextToken + (if a.second.Start? then 1 else 0)
            && a.first.activeTurns == r.activeTurns + (if a.second.Start? then 1 else 0)
  {
    MakeRoomKeeps(r, sid);
    MakeRoomPreserves(r, sid);
    SameTurnsFacts(r, MakeRoom(r, sid), sid);
    NewTokenIsUnfired(r);
    PlaceVerdict(MakeRoom(r, sid), sid, job);
    hide MakeRoom, Place, WellFormed, SameTurns, IsActive;
  }

  lemma NewTokenIsUnfired(r: RegistryState)
    requires WellFormed(r)
    ensures r.nextToken !in r.fired
  {
    hide Permutes, DistinctTokens, ActiveSessions;
  }

  lemma SameTurnsFacts(r: RegistryState, m: RegistryState, sid: SessionId)
    requires SameTurns(r.sessions, m.sessions)
    ensures IsActive(m.sessions, sid) <==> IsActive(r.sessions, sid)
    ensures IsActive(r.sessions, sid) ==> Turn(m, sid) == Turn(r, sid)
    ensures OthersUntouched(r, m, sid)
  {
  }

  lemma PlaceVerdict(m: RegistryState, sid: SessionId, job: Job)
    requires sid in m.sessions
    ensures var a := Place(m, sid, job);
            && (a.second.Full? <==> !IsActive(m.sessions, sid) && 0 < m.maxSessions <= m.activeTurns)
            && (a.second.Busy? <==> IsActive(m.sessions, sid) && Turn(m, sid).queued.Some?)
            && (a.second.Queued? <==> IsActive(m.sessions, sid) && Turn(m, sid).queued.None?)
            && (a.second.Start? ==> a.second == Start(job, m.nextToken) && IsActive(a.first.sessions, sid)
                                    && Turn(a.first, sid) == ActiveTurn(job.id, m.nextToken, None))
            && (a.second.Queued? ==> IsActive(a.first.sessions, sid)
                                     && Turn(a.first, sid) == Turn(m, sid).(queued := Some(job)))
            && (a.second.Busy? || a.second.Full? ==> a.first == m)
            && OthersUntouched(m, a.first, sid)
            && a.first.fired == m.fired
            && a.first.nextToken == m.nextToken + (if a.second.Start? then 1 else 0)
            && a.first.activeTurns == m.activeTurns + (if a.second.Start? then 1 else 0)
  {
  }

  /** What `finish` does for the task that holds the session's current token: it promotes
      the queued prompt under a new, unfired token, or parks the session. */
  lemma FinishVerdict(r: RegistryState, sid: SessionId)
    requires WellFormed(r) && IsActive(r.sessions, sid)
    ensures var turn := Turn(r, sid);
            var f := Finish(r, sid, turn.token);
            && (f.second.Some? <==> turn.queued.Some?)
            && (f.second.Some? ==> f.second.value == Pair(turn.queued.value, r.nextToken)
                                   && r.nextToken !in f.first.fired
                                   && IsActive(f.first.sessions, sid)
                                   && Turn(f.first, sid) == ActiveTurn(turn.requestId, r.nextToken, None))
            && (f.second.None? ==> !IsActive(f.first.sessions, sid))
            && OthersUntouched(r, f.first, sid)
            && f.first.fired == r.fired
            && r.nextToken <= f.first.nextToken
            && r.activeTurns > 0
            && f.first.activeTurns == r.activeTurns - (if turn.queued.Some? then 0 else 1)
  {
    ParkSession(r, sid);
    hide Permutes, DistinctTokens, ActiveSessions;
  }

  // ------------------------------------------------------------- sequences of operations

  /** One call on the registry. `CancelRequest` names the session its scan found. */
  datatype Op =
    | DoAdmit(sid: SessionId, job: Job)
    | DoFinish(sid: SessionId, token: Token)
    | DoCancel(sid: SessionId)
    | DoCancelAll

  function Perform(r: RegistryState, op: Op): RegistryState {
    match op
    case DoAdmit(sid, job) => Admit(r, sid, job).first
    case DoFinish(sid, token) => Finish(r, sid, token).first
    case DoCancel(sid) => Fire(r, sid)
    case DoCancelAll => FireAll(r)
  }

  function PerformAll(r: RegistryState, ops: seq<Op>): RegistryState {
    if ops == [] then r else Perform(PerformAll(r, Front(ops)), Last(ops))
  }

  function Empty(maxSessions: nat): RegistryState {
    RegistryState(map[], [], maxSessions, 0, 0, {})
  }

  lemma PerformKeeps(r: RegistryState, op: Op)
    requires WellFormed(r)
    ensures WellFormed(Perform(r, op))
    ensures WithinCapacity(r) ==> WithinCapacity(Perform(r, op))
    ensures Perform(r, op).maxSessions == r.maxSessions
  {
    match op
    case DoAdmit(sid, job) => AdmitKeeps(r, sid, job); if WithinCapacity(r) { AdmitBound(r, sid, job); }
    case DoFinish(sid, token) => FinishKeeps(r, sid, token);
    case DoCancel(sid) =>
    case DoCancelAll =>
  }

  /** After any sequence of calls: the counter is exactly the number of running turns, the
      rotation lists every tracked session once, at most the configured number of turns runs,
      and at most one session more than that is tracked. */
  lemma {:induction false} CapacityOverAllRuns(maxSessions: nat, ops: seq<Op>)
    ensures var r := PerformAll(Empty(maxSessions), ops);
            && r.maxSessions == maxSessions
            && WellFormed(r)
            && r.activeTurns == |ActiveSessions(r.sessions)|
            && Permutes(r.order, r.sessions.Keys)
            && (maxSessions >= 1 ==> r.activeTurns <= maxSessions && |r.sessions| <= maxSessions + 1)
  {
    if ops == [] {
    } else {
      CapacityOverAllRuns(maxSessions, Front(ops));
      PerformKeeps(PerformAll(Empty(maxSessions), Front(ops)), Last(ops));
    }
  }

  // ------------------------------------------------ a scan that stops above its target

  lemma PerformOneMore(r: RegistryState, ops: seq<Op>, op: Op)
    ensures PerformAll(r, ops + [op]) == Perform(PerformAll(r, ops), op)
  {
    assert Front(ops + [op]) == ops;
  }

  function Running(job: Job, token: Token): SessionState {
    SessionState(Some(ActiveTurn(job.id, token, None)))
  }

  lemma VisitHead(sessions: Sessions, head: SessionId, tail: seq<SessionId>)
    requires head in sessions
    ensures Visit(sessions, [head] + tail)
         == if IsActive(sessions, head) then Pair(sessions, tail + [head]) else Pair(sessions - {head}, tail)
  {
    assert ([head] + tail)[1..] == tail;
  }

  lemma AdmitStarts(r: RegistryState, sid: SessionId, job: Job)
    requires sid !in r.sessions && |r.sessions| <= r.maxSessions - 1 && r.activeTurns < r.maxSessions
    ensures Admit(r, sid, job).first
         == r.(sessions := r.sessions[sid := Running(job, r.nextToken)], order := r.order + [sid],
               activeTurns := r.activeTurns + 1, nextToken := r.nextToken + 1)
  {
    MakeRoomUnfolds(r, sid);
    EvictStops(r.sessions, r.order + [sid], 0, r.maxSessions - 1);
    hide Evict, MakeRoom;
    assert r.sessions[sid := Idle][sid := Running(job, r.nextToken)] == r.sessions[sid := Running(job, r.nextToken)];
  }

  lemma TwoTurns(a: SessionId, b: SessionId, job: Job) returns (ops: seq<Op>)
    requires a != b
    ensures PerformAll(Empty(2), ops)
         == RegistryState(map[a := Running(job, 0)][b := Running(job, 1)], [a] + [b], 2, 2, 2, {})
  {
    var none: Sessions := map[];
    var one := RegistryState(none[a := Running(job, 0)], [] + [a], 2, 1, 1, {});
    assert PerformAll(Empty(2), []) == Empty(2) && |none| == 0 && |one.sessions| == 1;
    AdmitStarts(Empty(2), a, job);
    AdmitStarts(one, b, job);
    hide Admit, PerformAll;
    PerformOneMore(Empty(2), [], DoAdmit(a, job));
    PerformOneMore(Empty(2), [] + [DoAdmit(a, job)], DoAdmit(b, job));
    assert [] + [a] == [a];
    ops := [] + [DoAdmit(a, job)] + [DoAdmit(b, job)];
  }

  /** With both turns running a third session is tracked but refused, and rotates to the front. */
  lemma ThirdIsRefused(r: RegistryState, a: SessionId, b: SessionId, c: SessionId, job: Job)
    requires a != b && a != c && b != c && r.maxSessions == r.activeTurns == 2 && r.order == [a] + [b]
    requires r.sessions.Keys == {a, b} && IsActive(r.sessions, a) && IsActive(r.sessions, b)
    ensures Admit(r, c, job).first == r.(sessions := r.sessions[c := Idle], order := [c] + [a] + [b])
  {
    assert |r.sessions| == |r.sessions.Keys| == 2;
    VisitHead(r.sessions, a, [b] + [c]);
    VisitHead(r.sessions, b, [c] + [a]);
    EvictOnce(r.sessions, [a] + ([b] + [c]), 0, 1);
    EvictOnce(r.sessions, [b] + ([c] + [a]), 1, 1);
    EvictStops(r.sessions, [c] + [a] + [b], 2, 1);
    assert [a] + [b] + [c] == [a] + ([b] + [c]) && ([b] + [c]) + [a] == [b] + ([c] + [a]);
    assert r.order + [c] == [a] + [b] + [c];
    MakeRoomUnfolds(r, c);
    hide Evict, MakeRoom, Visit;
  }

  lemma OneTurnAndTwoIdle(a: SessionId, b: SessionId, c: SessionId, job: Job) returns (ops: seq<Op>)
    requires a != b && a != c && b != c
    ensures var r := PerformAll(Empty(2), ops);
            && r.order == [c] + [a] + [b] && r.sessions.Keys == {a, b, c}
            && IsActive(r.sessions, a) && !IsActive(r.sessions, b) && !IsActive(r.sessions, c)
  {
    ops := TwoTurns(a, b, job);
    var two := PerformAll(Empty(2), ops);
    ThirdIsRefused(two, a, b, c, job);
    hide Admit, PerformAll;
    PerformOneMore(Empty(2), ops, DoAdmit(c, job));
    PerformOneMore(Empty(2), ops + [DoAdmit(c, job)], DoFinish(b, 1));
    ops := ops + [DoAdmit(c, job)] + [DoFinish(b, 1)];
  }

  /** The scan may stop above its target although an idle session is left: with a limit of two,
      admit three sessions, finish the second and admit a fourth. Removing the third shrinks the
      bound on the visits, and the idle second is never looked at. */
  lemma IdleSessionSurvives(a: SessionId, b: SessionId, c: SessionId, d: SessionId, job: Job) returns (ops: seq<Op>)
    requires a != b && a != c && b != c && d !in {a, b, c}
    ensures var r := PerformAll(Empty(2), ops);
            && r.maxSessions == 2 && WellFormed(r) && d !in r.sessions
            && var kept := Evict(r.sessions, r.order + [d], 0, 1).first;
               kept.Keys == {a, b} && |kept| > 1 && !IsActive(kept, b)
  {
    ops := OneTurnAndTwoIdle(a, b, c, job);
    CapacityOverAllRuns(2, ops);
    var r := PerformAll(Empty(2), ops);
    var left := r.sessions - {c};
    assert |r.sessions| == |{a, b, c}| == 3 && left.Keys == {a, b} && |left| == |left.Keys| == 2;
    hide PerformAll, WellFormed, Permutes;
    VisitHead(r.sessions, c, [a] + [b] + [d]);
    VisitHead(left, a, [b] + [d]);
    assert r.order + [d] == [c] + ([a] + [b] + [d]) && [a] + [b] + [d] == [a] + ([b] + [d]);
    EvictOnce(r.sessions, [c] + ([a] + [b] + [d]), 0, 1);
    EvictOnce(left, [a] + ([b] + [d]), 1, 1);
    EvictStops(left, [b] + [d] + [a], 2, 1);
  }

  // -------------------------------------------------------------- the mutable registry

  /** The registry behind its lock: each method is one critical section. */
  class Registry {
    var sessions: Sessions
    var order: seq<SessionId>
    const maxSessions: nat
    var activeTurns: nat
    var nextToken: Token
    var fired: set<Token>

    function State(): RegistryState
      reads this
    {
      RegistryState(sessions, order, maxSessions, activeTurns, nextToken, fired)
    }

    ghost predicate Valid()
      reads this
    {
      WellFormed(State()) && WithinCapacity(State())
    }

    constructor (maxSessions: nat)
      ensures Valid() && State() == Empty(maxSessions)
    {
      sessions, order, activeTurns, nextToken, fired := map[], [], 0, 0, {};
      this.maxSessions := maxSessions;
    }

    method NewToken() returns (token: Token)
      modifies this`nextToken
      ensures token == old(nextToken) && nextToken == old(nextToken) + 1
    {
      token := nextToken;
      nextToken := nextToken + 1;
    }

    method EvictIdleTo(target: nat)
      modifies this`sessions, this`order
      ensures Pair(sessions, order) == Evict(old(sessions), old(order), 0, target)
    {
      var scanned := 0;
      while |sessions| > target && scanned < |sessions|
        invariant Evict(sessions, order, scanned, target) == Evict(old(sessions), old(order), 0, target)
        decreases |sessions| - scanned
      {
        if order == [] { break; }
        var oldest := order[0];
        order := order[1..];
        ghost var before := sessions;
        if oldest in sessions {
          if sessions[oldest].active.None? {
            sessions := sessions - {oldest};
            SubsetSize(sessions.Keys, before.Keys);
          } else {
            order := order + [oldest];
          }
        }
        scanned := scanned + 1;
      }
    }

    method Track(sid: SessionId)
      modifies this`sessions, this`order
      ensures State() == MakeRoom(old(State()), sid)
    {
      if sid !in sessions {
        order := order + [sid];
        EvictIdleTo(if maxSessions == 0 then 0 else maxSessions - 1);
        sessions := sessions[sid := Idle];
      }
    }

    method AdmitPrompt(sid: SessionId, job: Job) returns (answer: Admission)
      requires Valid()
      modifies this
      ensures Valid()
      ensures Pair(State(), answer) == Admit(old(State()), sid, job)
      ensures answer.Full? <==> !IsActive(old(sessions), sid) && 0 < maxSessions <= old(activeTurns)
    {
      hide WellFormed, WithinCapacity, MakeRoom, SameTurns;
      AdmitKeeps(State(), sid, job);
      AdmitBound(State(), sid, job);
      AdmitVerdict(State(), sid, job);
      Track(sid);
      match sessions[sid].active {
        case Some(turn) =>
          if turn.queued.None? {
            sessions := sessions[sid := SessionState(Some(turn.(queued := Some(job))))];
            answer := Queued;
          } else {
            answer := Busy;
          }
        case None =>
          if activeTurns >= maxSessions && maxSessions > 0 {
            answer := Full;
          } else {
            var token := NewToken();
            sessions := sessions[sid := SessionState(Some(ActiveTurn(job.id, token, None)))];
            activeTurns := activeTurns + 1;
            answer := Start(job, token);
          }
      }
    }

    method FinishTurn(sid: SessionId, token: Token) returns (next: Option<Pair<Job, Token>>)
      requires Valid()
      modifies this
      ensures Valid()
      ensures Pair(State(), next) == Finish(old(State()), sid, token)
    {
      FinishKeeps(State(), sid, token);
      hide WellFormed, WithinCapacity;
      if sid !in sessions || sessions[sid].active.None? { return None; }
      var turn := sessions[sid].active.value;
      if turn.token != token { return None; }
      match turn.queued {
        case Some(job) =>
          var promoted := NewToken();
          sessions := sessions[sid := SessionState(Some(turn.(queued := None, token := promoted)))];
          next := Some(Pair(job, promoted));
        case None =>
          sessions := sessions[sid := Idle];
          activeTurns := if activeTurns == 0 then 0 else activeTurns - 1;
          next := None;
      }
    }

    method Cancel(sid: SessionId) returns (hit: bool)
      requires Valid()
      modifies this`fired
      ensures Valid()
      ensures State() == Fire(old(State()), sid)
      ensures hit <==> IsActive(sessions, sid)
    {
      hit := sid in sessions && sessions[sid].active.Some?;
      if hit { fired := fired + {sessions[sid].active.value.token}; }
    }

    method CancelAll()
      requires Valid()
      modifies this`fired
      ensures Valid()
      ensures State() == FireAll(old(State()))
    {
      var remaining := sessions.Keys;
      while remaining != {}
        invariant remaining <= sessions.Keys
        invariant old(fired) <= fired <= old(fired) + ActiveTokens(sessions)
        invariant forall sid :: IsActive(sessions, sid) && sid !in remaining ==> sessions[sid].active.value.token in fired
      {
        var sid :| sid in remaining;
        if sessions[sid].active.Some? { fired := fired + {sessions[sid].active.value.token}; }
        remaining := remaining - {sid};
      }
    }

    /** The sessions are visited in an unspecified order; the first whose turn carries
        the request id is the one that is cancelled. */
    method CancelRequest(id: RequestId) returns (hit: Option<SessionId>)
      requires Valid()
      modifies this`fired
      ensures Valid()
      ensures hit.Some? ==> IsActive(sessions, hit.value) && Turn(State(), hit.value).requestId == id
                            && State() == Fire(old(State()), hit.value)
      ensures hit.None? ==> State() == old(State())
                            && forall sid :: IsActive(sessions, sid) ==> Turn(State(), sid).requestId != id
    {
      var remaining := sessions.Keys;
      while remaining != {}
        invariant remaining <= sessions.Keys
        invariant forall sid :: IsActive(sessions, sid) && sid !in remaining ==> sessions[sid].active.value.requestId != id
      {
        var sid :| sid in remaining;
        remaining := remaining - {sid};
        if sessions[sid].active.Some? && sessions[sid].active.value.requestId == id {
          fired := fired + {sessions[sid].active.value.token};
          return Some(sid);
        }
      }
      hit := None;
    }
  }
}
