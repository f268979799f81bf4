/**
 The writer task as a step system. Senders push on two queues, the cancel lane and the main
 queue; the writer drains the lane strictly before each main frame and, when both are
 empty, waits on both with the lane preferred. One step is one queue operation.
 */
module Writer {
  import opened Prelude

  datatype Sent<T> = OnLane(frame: T) | OnMain(frame: T)

  /** The points of the loop at which the writer looks at a queue, plus its end. `PollLane`
      and `PollMain` are the two branches of the biased wait. */
  datatype Point = DrainLane | TryMain | Decide | PollLane | PollMain | Done | Failed

  /** `laneClosed`/`mainClosed`: every sender is gone. `laneOpen`/`mainOpen`: the writer has
      not noticed that yet. `wire` lists the frames whose write began, oldest first, and
      `lanePushed`/`mainPushed` everything ever queued. */
  datatype WriterState<T> = WriterState(
    lane: seq<T>, main: seq<T>,
    laneClosed: bool, mainClosed: bool,
    laneOpen: bool, mainOpen: bool,
    at: Point,
    wire: seq<Sent<T>>,
    lanePushed: seq<T>, mainPushed: seq<T>)

  datatype Step<T> = PushLane(frame: T) | PushMain(frame: T) | CloseLane | CloseMain | WriterMoves | WriteFails

  function LoopHead<T>(s: WriterState<T>): WriterState<T> {
    s.(at := if s.laneOpen || s.mainOpen then DrainLane else Done)
  }

  function WriteLane<T>(s: WriterState<T>): WriterState<T>
    requires s.lane != []
  {
    s.(lane := s.lane[1..], wire := s.wire + [OnLane(s.lane[0])])
  }

  function WriteMain<T>(s: WriterState<T>): WriterState<T>
    requires s.main != []
  {
    s.(main := s.main[1..], wire := s.wire + [OnMain(s.main[0])])
  }

  function Move<T>(s: WriterState<T>): WriterState<T> {
    match s.at
    case DrainLane =>
      if s.laneOpen && s.lane != [] then WriteLane(s)
      else if s.laneOpen && s.laneClosed then s.(laneOpen := false, at := TryMain)
      else s.(at := TryMain)
    case TryMain =>
      if s.mainOpen && s.main != [] then LoopHead(WriteMain(s))
      else if s.mainOpen && s.mainClosed then s.(mainOpen := false, at := Decide)
      else s.(at := Decide)
    case Decide => s.(at := if s.laneOpen || s.mainOpen then PollLane else Done)
    case PollLane =>
      if s.laneOpen && s.lane != [] then LoopHead(WriteLane(s))
      else if s.laneOpen && s.laneClosed then LoopHead(s.(laneOpen := false))
      else s.(at := PollMain)
    case PollMain =>
      if s.mainOpen && s.main != [] then LoopHead(WriteMain(s))
      else if s.mainOpen && s.mainClosed then LoopHead(s.(mainOpen := false))
      else s.(at := PollLane)
    case Done => s
    case Failed => s
  }

  predicate Enabled<T>(s: WriterState<T>, step: Step<T>) {
    match step
    case PushLane(_) => !s.laneClosed
    case PushMain(_) => !s.mainClosed
    case _ => true
  }

  function Next<T>(s: WriterState<T>, step: Step<T>): WriterState<T>
    requires Enabled(s, step)
  {
    match step
    case PushLane(f) => s.(lane := s.lane + [f], lanePushed := s.lanePushed + [f])
    case PushMain(f) => s.(main := s.main + [f], mainPushed := s.mainPushed + [f])
    case CloseLane => s.(laneClosed := true)
    case CloseMain => s.(mainClosed := true)
    case WriterMoves => Move(s)
    case WriteFails => s.(at := Failed)
  }

  function Start<T>(): WriterState<T> {
    WriterState([], [], false, false, true, true, DrainLane, [], [], [])
  }

  function After<T>(s: WriterState<T>, run: seq<Step<T>>): Option<WriterState<T>> {
    if run == [] then Some(s)
    else match After(s, Front(run))
      case None => None
      case Some(s') => if Enabled(s', Last(run)) then Some(Next(s', Last(run))) else None
  }

  /** The frames of one queue, in the order their writes began. */
  function LaneFrames<T>(wire: seq<Sent<T>>): seq<T> {
    if wire == [] then []
    else LaneFrames(Front(wire)) + (if Last(wire).OnLane? then [Last(wire).frame] else [])
  }

  function MainFrames<T>(wire: seq<Sent<T>>): seq<T> {
    if wire == [] then []
    else MainFrames(Front(wire)) + (if Last(wire).OnMain? then [Last(wire).frame] else [])
  }

  lemma FramesAppend<T>(wire: seq<Sent<T>>, sent: Sent<T>)
    ensures LaneFrames(wire + [sent]) == LaneFrames(wire) + (if sent.OnLane? then [sent.frame] else [])
    ensures MainFrames(wire + [sent]) == MainFrames(wire) + (if sent.OnMain? then [sent.frame] else [])
  {
    assert Front(wire + [sent]) == wire;
  }

  lemma WrittenFrames<T>(s: WriterState<T>)
    ensures s.lane != [] ==> LaneFrames(WriteLane(s).wire) == LaneFrames(s.wire) + [s.lane[0]]
                             && MainFrames(WriteLane(s).wire) == MainFrames(s.wire)
    ensures s.main != [] ==> MainFrames(WriteMain(s).wire) == MainFrames(s.wire) + [s.main[0]]
                             && LaneFrames(WriteMain(s).wire) == LaneFrames(s.wire)
  {
    hide LaneFrames, MainFrames;
    if s.lane != [] { FramesAppend(s.wire, OnLane(s.lane[0])); }
    if s.main != [] { FramesAppend(s.wire, OnMain(s.main[0])); }
  }

  lemma HeadMoves<T>(written: seq<T>, queue: seq<T>)
    requires queue != []
    ensures (written + [queue[0]]) + queue[1..] == written + queue
  {
  }

  /** Written frames followed by waiting ones are exactly the pushed ones, per queue and in
      order; a queue the writer has given up on is closed and empty. */
  ghost predicate NothingLost<T>(s: WriterState<T>) {
    && LaneFrames(s.wire) + s.lane == s.lanePushed
    && MainFrames(s.wire) + s.main == s.mainPushed
    && (!s.laneOpen ==> s.laneClosed && s.lane == [])
    && (!s.mainOpen ==> s.mainClosed && s.main == [])
    && (s.at == Done ==> !s.laneOpen && !s.mainOpen)
  }

  lemma PushKeeps<T>(s: WriterState<T>, f: T)
    requires NothingLost(s)
    ensures !s.laneClosed ==> NothingLost(Next(s, PushLane(f)))
    ensures !s.mainClosed ==> NothingLost(Next(s, PushMain(f)))
  {
    assert LaneFrames(s.wire) + (s.lane + [f]) == LaneFrames(s.wire) + s.lane + [f];
    assert MainFrames(s.wire) + (s.main + [f]) == MainFrames(s.wire) + s.main + [f];
  }

  lemma WriteKeeps<T>(s: WriterState<T>)
    requires NothingLost(s)
    ensures s.lane != [] ==> NothingLost(WriteLane(s))
    ensures s.main != [] ==> NothingLost(WriteMain(s))
  {
    hide LaneFrames, MainFrames;
    WrittenFrames(s);
    if s.lane != [] { HeadMoves(LaneFrames(s.wire), s.lane); }
    if s.main != [] { HeadMoves(MainFrames(s.wire), s.main); }
  }

  lemma StepKeeps<T>(s: WriterState<T>, step: Step<T>)
    requires NothingLost(s) && Enabled(s, step)
    ensures NothingLost(Next(s, step))
  {
    hide LaneFrames, MainFrames;
    match step
    case PushLane(f) => PushKeeps(s, f);
    case PushMain(f) => PushKeeps(s, f);
    case WriterMoves => WriteKeeps(s);
    case _ =>
  }

  /** In every run the wire is an order-preserving merge of what the two queues were given,
      with the unwritten rest still queued; a writer that ends cleanly has written it all. */
  lemma {:induction false} WireIsAMerge<T>(run: seq<Step<T>>)
    requires After(Start<T>(), run).Some?
    ensures var s := After(Start<T>(), run).value;
            && NothingLost(s)
            && LaneFrames(s.wire) <= s.lanePushed && MainFrames(s.wire) <= s.mainPushed
            && (s.at == Done ==> LaneFrames(s.wire) == s.lanePushed && MainFrames(s.wire) == s.mainPushed)
  {
    if run == [] {
    } else {
      WireIsAMerge(Front(run));
      StepKeeps(After(Start<T>(), Front(run)).value, Last(run));
      hide Next, Enabled, LaneFrames, MainFrames;
    }
  }

  // ------------------------------------------------------------------ bounded overtaking

  /** Main frames begun so far, plus one if the writer is past its last look at the lane. */
  function Committed<T>(s: WriterState<T>): nat {
    |MainFrames(s.wire)| + (if s.at == TryMain || s.at == PollMain then 1 else 0)
  }

  lemma CommittedStep<T>(s: WriterState<T>, step: Step<T>)
    requires NothingLost(s) && Enabled(s, step) && s.lane != []
    ensures Committed(Next(s, step)) <= Committed(s)
    ensures |LaneFrames(s.wire)| <= |LaneFrames(Next(s, step).wire)|
  {
    hide LaneFrames, MainFrames;
    WrittenFrames(s);
  }

  /** While the `n`-th cancel acknowledgement is queued and unwritten, the count never grows. */
  lemma {:induction false} CommittedRun<T>(s: WriterState<T>, run: seq<Step<T>>, n: nat)
    requires NothingLost(s) && n < |s.lanePushed| && After(s, run).Some?
    requires |LaneFrames(After(s, run).value.wire)| <= n
    ensures NothingLost(After(s, run).value) && n < |After(s, run).value.lanePushed|
    ensures Committed(After(s, run).value) <= Committed(s)
  {
    if run == [] {
    } else {
      var mid := After(s, Front(run)).value;
      LaneNeverShrinks(mid, Last(run));
      CommittedRun(s, Front(run), n);
      StepKeeps(mid, Last(run));
      CommittedStep(mid, Last(run));
      hide LaneFrames, MainFrames;
    }
  }

  lemma LaneNeverShrinks<T>(s: WriterState<T>, step: Step<T>)
    requires Enabled(s, step)
    ensures |LaneFrames(s.wire)| <= |LaneFrames(Next(s, step).wire)|
    ensures |MainFrames(s.wire)| <= |MainFrames(Next(s, step).wire)|
    ensures |s.lanePushed| <= |Next(s, step).lanePushed|
  {
    MoveNeverShrinks(s);
    hide LaneFrames, MainFrames, Move;
  }

  lemma MoveNeverShrinks<T>(s: WriterState<T>)
    ensures |LaneFrames(s.wire)| <= |LaneFrames(Move(s).wire)|
    ensures |MainFrames(s.wire)| <= |MainFrames(Move(s).wire)|
    ensures Move(s).lanePushed == s.lanePushed
  {
    WrittenFrames(s);
    MoveWrites(s);
    hide LaneFrames, MainFrames, Move, WriteLane, WriteMain;
  }

  lemma LoopHeadWrites<T>(s: WriterState<T>)
    ensures LoopHead(s).wire == s.wire && LoopHead(s).lanePushed == s.lanePushed
  {
  }

  lemma WritesPushNothing<T>(s: WriterState<T>)
    ensures s.lane != [] ==> WriteLane(s).lanePushed == s.lanePushed
    ensures s.main != [] ==> WriteMain(s).lanePushed == s.lanePushed
  {
  }

  /** The writer begins at most one frame per move. */
  lemma MoveWrites<T>(s: WriterState<T>)
    ensures Move(s).lanePushed == s.lanePushed
    ensures || Move(s).wire == s.wire
            || (s.lane != [] && Move(s).wire == WriteLane(s).wire)
            || (s.main != [] && Move(s).wire == WriteMain(s).wire)
  {
    WritesPushNothing(s);
    LoopHeadWrites(s.(laneOpen := false));
    LoopHeadWrites(s.(mainOpen := false));
    if s.lane != [] { LoopHeadWrites(WriteLane(s)); }
    if s.main != [] { LoopHeadWrites(WriteMain(s)); }
    hide LoopHead, WriteLane, WriteMain;
  }

  /** A queued cancel acknowledgement is overtaken by at most one main frame: from the moment
      it is queued until its own write begins, at most one main frame begins to be written,
      and none unless the writer had already looked past the empty lane. Before it only the
      acknowledgements queued earlier are written. */
  lemma AcknowledgementOvertakenAtMostOnce<T>(before: seq<Step<T>>, ack: T, later: seq<Step<T>>,
      s: WriterState<T>, end: WriterState<T>)
    requires After(Start<T>(), before) == Some(s) && Enabled(s, PushLane(ack))
    requires After(Next(s, PushLane(ack)), later) == Some(end)
    requires |LaneFrames(end.wire)| <= |s.lanePushed|
    ensures LaneFrames(end.wire) <= s.lanePushed && ack in end.lane
    ensures |MainFrames(end.wire)| <= |MainFrames(s.wire)| + (if s.at == TryMain || s.at == PollMain then 1 else 0)
  {
    hide LaneFrames, MainFrames, Next, NothingLost;
    WireIsAMerge(before);
    var queued := Next(s, PushLane(ack));
    StepKeeps(s, PushLane(ack));
    PushedAt(s, ack);
    CommittedRun(queued, later, |s.lanePushed|);
    PushedGrows(queued, later);
    StillQueued(end, |s.lanePushed|);
  }

  lemma PushedAt<T>(s: WriterState<T>, ack: T)
    requires Enabled(s, PushLane(ack))
    ensures var queued := Next(s, PushLane(ack));
            queued.lanePushed == s.lanePushed + [ack] && Committed(queued) == Committed(s)
  {
  }

  lemma StillQueued<T>(s: WriterState<T>, n: nat)
    requires NothingLost(s) && n < |s.lanePushed| && |LaneFrames(s.wire)| <= n
    ensures LaneFrames(s.wire) <= s.lanePushed[..n] && s.lanePushed[n] in s.lane
  {
    hide LaneFrames, MainFrames;
    var written := LaneFrames(s.wire);
    assert (written + s.lane)[n] == s.lane[n - |written|];
    assert written == s.lanePushed[..|written|];
  }

  lemma {:induction false} PushedGrows<T>(s: WriterState<T>, run: seq<Step<T>>)
    requires After(s, run).Some?
    ensures s.lanePushed <= After(s, run).value.lanePushed
  {
    if run == [] {
    } else {
      PushedGrows(s, Front(run));
    }
  }
}
