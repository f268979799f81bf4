/** Left to itself the writer writes everything that is queued, soon, and ends once every sender is
    gone. */
module WriterProgress {
  import opened Prelude
  import opened Writer

  /** The writer takes `n` steps while nobody else does anything. */
  function Moves<T>(s: WriterState<T>, n: nat): WriterState<T>
    decreases n
  {
    if n == 0 then s else Moves(Move(s), n - 1)
  }

  function OnlyMoves<T>(n: nat): seq<Step<T>> {
    if n == 0 then [] else OnlyMoves(n - 1) + [WriterMoves]
  }

  lemma OneMore<T>(s: WriterState<T>, mid: WriterState<T>, run: seq<Step<T>>)
    requires After(s, run) == Some(mid)
    ensures After(s, run + [WriterMoves]) == Some(Move(mid))
  {
    assert Front(run + [WriterMoves]) == run && Last(run + [WriterMoves]) == WriterMoves;
    hide Move;
  }

  lemma {:induction false} MovesAreARun<T>(s: WriterState<T>, n: nat)
    ensures After(s, OnlyMoves(n)) == Some(Moves(s, n))
  {
    if n > 0 {
      var run := OnlyMoves<T>(n - 1);
      assert OnlyMoves(n) == run + [WriterMoves];
      MovesAreARun(s, n - 1);
      MoveLast(s, n - 1);
      hide Move, Moves, OnlyMoves;
      OneMore(s, Moves(s, n - 1), run);
    }
  }

  lemma {:induction false} MoveLast<T>(s: WriterState<T>, n: nat)
    ensures Moves(s, n + 1) == Move(Moves(s, n))
    decreases n
  {
    if n > 0 { MoveLast(Move(s), n - 1); }
    hide Move;
  }

  lemma {:induction false} MovesAdd<T>(s: WriterState<T>, a: nat, b: nat)
    ensures Moves(Moves(s, a), b) == Moves(s, a + b)
    decreases a
  {
    if a > 0 { MovesAdd(Move(s), a - 1, b); }
    hide Move;
  }

  function Waiting<T>(s: WriterState<T>): nat {
    |s.lane| + |s.main|
  }

  /** How many steps the next write is away when something waits. */
  function Distance<T>(s: WriterState<T>): nat {
    var polled := if s.lane != [] then 1 else if s.laneOpen && s.laneClosed then 3 else 2;
    match s.at
    case DrainLane => if s.lane != [] then 1 else 2
    case TryMain => if s.main != [] then 1 else 1 + 1 + polled
    case Decide => 1 + polled
    case PollLane => polled
    case PollMain => if s.main != [] then 1 else 2
    case _ => 0
  }

  /** Every step of the writer writes the oldest frame of a queue, or brings it nearer to doing so. */
  lemma MoveMakesProgress<T>(s: WriterState<T>)
    requires NothingLost(s) && s.at != Failed && Waiting(s) > 0
    ensures NothingLost(Move(s)) && Move(s).at != Failed
    ensures || Waiting(Move(s)) == Waiting(s) - 1
            || (Waiting(Move(s)) == Waiting(s) && 1 <= Distance(Move(s)) < Distance(s))
  {
    StepKeeps(s, WriterMoves);
    OpenQueues(s);
    hide LaneFrames, MainFrames, NothingLost;
  }

  lemma OpenQueues<T>(s: WriterState<T>)
    requires NothingLost(s)
    ensures (s.lane != [] ==> s.laneOpen) && (s.main != [] ==> s.mainOpen)
    ensures s.at == Done ==> s.lane == [] && s.main == []
  {
  }

  lemma DistanceIsShort<T>(s: WriterState<T>)
    ensures Distance(s) <= 5
  {
  }

  /** While the writer has not failed and nobody pushes, at most five steps pass between two writes
      as long as something waits: after so many steps per waiting frame everything pushed has been
      written, each queue in order. */
  lemma {:induction false} WriterCatchesUp<T>(s: WriterState<T>) returns (n: nat)
    requires NothingLost(s) && s.at != Failed
    ensures n <= 5 * Waiting(s)
    ensures var after := Moves(s, n);
            && NothingLost(after) && after.at != Failed && Waiting(after) == 0 && SameSenders(after, s)
            && LaneFrames(after.wire) == s.lanePushed && MainFrames(after.wire) == s.mainPushed
    decreases Waiting(s)
  {
    assert Moves(s, 0) == s && SameSenders(s, s);
    hide *;
    if Waiting(s) == 0 {
      n := 0;
      AllWritten(s);
    } else {
      DistanceIsShort(s);
      var k := WriteIsNear(s);
      var next := Moves(s, k);
      n := WriterCatchesUp(next);
      MovesAdd(s, k, n);
      SendersStay(s, next, Moves(s, k + n));
      SamePushed(s, next);
      n := k + n;
    }
  }

  lemma AllWritten<T>(s: WriterState<T>)
    requires NothingLost(s) && Waiting(s) == 0
    ensures LaneFrames(s.wire) == s.lanePushed && MainFrames(s.wire) == s.mainPushed
  {
    assert LaneFrames(s.wire) + [] == LaneFrames(s.wire) && MainFrames(s.wire) + [] == MainFrames(s.wire);
  }

  lemma SamePushed<T>(a: WriterState<T>, b: WriterState<T>)
    requires SameSenders(b, a)
    ensures b.lanePushed == a.lanePushed && b.mainPushed == a.mainPushed
  {
  }

  ghost predicate SameSenders<T>(a: WriterState<T>, b: WriterState<T>) {
    && a.lanePushed == b.lanePushed && a.mainPushed == b.mainPushed
    && a.laneClosed == b.laneClosed && a.mainClosed == b.mainClosed
  }

  lemma MoveLeaves<T>(s: WriterState<T>)
    ensures SameSenders(Move(s), s)
  {
  }

  lemma MovesUnfold<T>(s: WriterState<T>, n: nat)
    ensures Moves(s, 1) == Move(s) && Moves(s, n + 1) == Moves(Move(s), n)
  {
    assert Moves(s, 1) == Moves(Move(s), 0) == Move(s);
    hide Move;
  }

  lemma SendersStay<T>(a: WriterState<T>, b: WriterState<T>, c: WriterState<T>)
    requires SameSenders(b, a) && SameSenders(c, b)
    ensures SameSenders(c, a)
  {
  }

  lemma {:induction false} WriteIsNear<T>(s: WriterState<T>) returns (k: nat)
    requires NothingLost(s) && s.at != Failed && Waiting(s) > 0
    ensures 1 <= k <= if Distance(s) > 1 then Distance(s) else 1
    ensures var after := Moves(s, k);
            NothingLost(after) && after.at != Failed && Waiting(after) == Waiting(s) - 1 && SameSenders(after, s)
    decreases Distance(s)
  {
    hide *;
    MoveMakesProgress(s);
    MoveLeaves(s);
    MovesUnfold(s, 0);
    if Waiting(Move(s)) < Waiting(s) {
      k := 1;
    } else {
      var more := WriteIsNear(Move(s));
      MovesUnfold(s, more);
      SendersStay(s, Move(s), Moves(s, more + 1));
      k := more + 1;
    }
  }

  /** The writer waits on its queues only while one is open. */
  predicate Awake<T>(s: WriterState<T>) {
    s.at == PollLane || s.at == PollMain ==> s.laneOpen || s.mainOpen
  }

  lemma {:induction false} AlwaysAwake<T>(run: seq<Step<T>>)
    requires After(Start<T>(), run).Some?
    ensures Awake(After(Start<T>(), run).value)
  {
    if run != [] {
      AlwaysAwake(Front(run));
      StaysAwake(After(Start<T>(), Front(run)).value, Last(run));
      hide Next, Enabled, Awake;
    }
  }

  lemma StaysAwake<T>(s: WriterState<T>, step: Step<T>)
    requires Awake(s) && Enabled(s, step)
    ensures Awake(Next(s, step))
  {
  }

  lemma {:induction false} MovesStayAwake<T>(s: WriterState<T>, n: nat)
    requires Awake(s)
    ensures Awake(Moves(s, n))
    decreases n
  {
    if n > 0 {
      StaysAwake(s, WriterMoves);
      assert Next(s, WriterMoves) == Move(s);
      hide Awake, Move;
      MovesStayAwake(Move(s), n - 1);
    }
  }

  /** How far a writer with nothing to write is from its end when every sender is gone. */
  function ToEnd<T>(s: WriterState<T>): nat {
    var polled := if s.laneOpen then (if s.mainOpen then 4 else 1) else 2;
    match s.at
    case DrainLane => 3
    case TryMain => if s.laneOpen then 3 else 2
    case Decide => if s.laneOpen || s.mainOpen then 1 + polled else 1
    case PollLane => polled
    case PollMain => if s.mainOpen then (if s.laneOpen then 4 else 1) else 2
    case _ => 0
  }

  ghost predicate Idle<T>(s: WriterState<T>) {
    s.lane == [] && s.main == [] && s.laneClosed && s.mainClosed && s.at != Failed && Awake(s)
  }

  lemma IdleMoves<T>(s: WriterState<T>)
    requires Idle(s) && s.at != Done
    ensures Idle(Move(s)) && ToEnd(Move(s)) < ToEnd(s) && Move(s).wire == s.wire
    ensures ToEnd(s) <= 5
  {
  }

  lemma {:induction false} WriterEnds<T>(s: WriterState<T>) returns (n: nat)
    requires Idle(s)
    ensures n <= ToEnd(s) && Moves(s, n).at == Done && Moves(s, n).wire == s.wire
    decreases ToEnd(s)
  {
    if s.at == Done {
      n := 0;
    } else {
      IdleMoves(s);
      hide Idle, Move, ToEnd;
      var m := WriterEnds(Move(s));
      n := m + 1;
    }
  }

  /** From every reachable state of a writer that has not failed: if nobody else does anything, all
      that was ever pushed is written, in order, within five steps for each waiting frame; and if
      every sender is gone, the writer then ends within five more. */
  lemma EverythingIsWritten<T>(run: seq<Step<T>>, s: WriterState<T>) returns (n: nat, end: WriterState<T>)
    requires After(Start<T>(), run) == Some(s) && s.at != Failed
    ensures n <= 5 * (|s.lane| + |s.main|) + 5 && After(s, OnlyMoves(n)) == Some(end)
    ensures LaneFrames(end.wire) == s.lanePushed && MainFrames(end.wire) == s.mainPushed
    ensures s.laneClosed && s.mainClosed ==> end.at == Done
  {
    hide *;
    WireIsAMerge(run);
    AlwaysAwake(run);
    var m := WriterCatchesUp(s);
    MovesStayAwake(s, m);
    end, n := Moves(s, m), m;
    if s.laneClosed && s.mainClosed {
      SendersAreGone(s, end);
      var k := WriterEnds(end);
      EndIsNear(end);
      MovesAdd(s, m, k);
      n := m + k;
      end := Moves(s, n);
    }
    WaitingIs(s);
    MovesAreARun(s, n);
  }

  lemma WaitingIs<T>(s: WriterState<T>)
    ensures Waiting(s) == |s.lane| + |s.main|
  {
  }

  lemma SendersAreGone<T>(s: WriterState<T>, end: WriterState<T>)
    requires s.laneClosed && s.mainClosed && SameSenders(end, s) && end.at != Failed && Waiting(end) == 0 && Awake(end)
    ensures Idle(end)
  {
  }

  lemma EndIsNear<T>(s: WriterState<T>)
    ensures ToEnd(s) <= 5
  {
  }
}
