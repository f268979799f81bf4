/** The updates of a turn on the main queue are those its backend emitted, in order. */
module TurnUpdates {
  import opened Prelude
  import opened SessionRegistry
  import opened Runtime
  import opened RuntimeGuarantees
  import opened CancelCauses

  /** The updates of one turn among the frames, oldest first. */
  function UpdatesOf(main: seq<Frame>, sid: SessionId, token: Token): seq<nat> {
    if main == [] then []
    else UpdatesOf(Front(main), sid, token)
         + (if Last(main).Update? && Last(main).sid == sid && Last(main).token == token then [Last(main).update] else [])
  }

  /** The update that task `k` last began to emit. */
  function LastBegun(run: seq<Label>, k: nat): Option<nat> {
    if run == [] then None
    else if Last(run).BeginEmit? && Last(run).k == k then Some(Last(run).update)
    else LastBegun(Front(run), k)
  }

  /** The updates that task `k` began to emit and got onto the queue. */
  function Emitted(run: seq<Label>, k: nat): seq<nat> {
    if run == [] then []
    else Emitted(Front(run), k)
         + (if Last(run) == PushUpdate(k) && LastBegun(Front(run), k).Some? then [LastBegun(Front(run), k).value] else [])
  }

  ghost predicate TaskEmits(main: seq<Frame>, t: Task, k: nat, run: seq<Label>) {
    && UpdatesOf(main, t.sid, t.token) == Emitted(run, k)
    && (t.phase.Armed? ==> LastBegun(run, k) == Some(t.phase.update))
  }

  ghost predicate Emits(s: State, run: seq<Label>) {
    && (forall k :: k in s.tasks ==> TaskEmits(s.main, s.tasks[k], k, run))
    && (forall k: nat :: k >= s.nextTask ==> Emitted(run, k) == [])
  }

  lemma UpdatesAppend(main: seq<Frame>, f: Frame, sid: SessionId, token: Token)
    ensures UpdatesOf(main + [f], sid, token)
         == UpdatesOf(main, sid, token) + (if f.Update? && f.sid == sid && f.token == token then [f.update] else [])
  {
    assert Front(main + [f]) == main;
  }

  lemma {:induction false} NoOldUpdates(main: seq<Frame>, sid: SessionId, token: Token)
    requires forall f :: f in main && !f.Refusal? ==> f.token < token
    ensures UpdatesOf(main, sid, token) == []
  {
    if main != [] {
      assert Last(main) in main;
      assert forall f :: f in Front(main) ==> f in main;
      NoOldUpdates(Front(main), sid, token);
    }
  }

  /** How one step moves the phase of a task, and what it puts on the queue for it. */
  lemma PhaseStep(s: State, l: Label, k: nat)
    requires Ownership(s) && Enabled(s, l) && k in Next(s, l).tasks && k in s.tasks
    ensures var t, t' := s.tasks[k], Next(s, l).tasks[k];
            && t' == t.(phase := t'.phase)
            && (t'.phase.Armed? && l != BeginEmit(k, t'.phase.update) ==>
                  t'.phase == t.phase && l != PushUpdate(k) && !(l.BeginEmit? && l.k == k))
    ensures l == PushUpdate(k) ==>
              var t := s.tasks[k];
              t.phase.Armed? && Next(s, l).main == s.main + [Update(t.sid, t.token, t.phase.update)]
  {
    hide WellFormed, DispatchPrompt, HandOff, ScanHits, Owns;
    if l.Dispatch? { DispatchKeepsTask(s, s.received[|s.routed|], k); }
    if l.Finish? { HandOffKeepsTask(s, l.k, k); }
  }

  lemma DispatchKeepsTask(s: State, p: Prompt, k: nat)
    requires Ownership(s) && k in s.tasks
    ensures k in DispatchPrompt(s, p).tasks && DispatchPrompt(s, p).tasks[k] == s.tasks[k]
  {
    hide WellFormed, Admit, Owns;
  }

  lemma HandOffKeepsTask(s: State, j: nat, k: nat)
    requires Ownership(s) && k in s.tasks && j in s.tasks
    ensures k in HandOff(s, j).tasks ==> HandOff(s, j).tasks[k] == s.tasks[k]
  {
    hide WellFormed, SessionRegistry.Finish, Owns;
  }

  lemma NewTaskRuns(s: State, l: Label, k: nat)
    requires Ownership(s) && Enabled(s, l) && k in Next(s, l).tasks && k !in s.tasks
    ensures Next(s, l).tasks[k].phase == Running && Next(s, l).main == s.main && (l.Dispatch? || l.Finish?)
  {
    hide WellFormed, Admit, SessionRegistry.Finish, ScanHits;
  }

  lemma OldTaskStep(s: State, l: Label, k: nat, run: seq<Label>)
    requires Ownership(s) && Enabled(s, l) && k in Next(s, l).tasks && k in s.tasks
    requires TaskEmits(s.main, s.tasks[k], k, run)
    ensures TaskEmits(Next(s, l).main, Next(s, l).tasks[k], k, run + [l])
  {
    var t := s.tasks[k];
    assert Front(run + [l]) == run;
    PhaseStep(s, l, k);
    FrameOrigin(s, l);
    hide Next, Enabled, Owns, WellFormed;
    if Next(s, l).main != s.main {
      var f := Last(Next(s, l).main);
      assert f.Update? && f.sid == t.sid && f.token == t.token ==> l == PushUpdate(k) by { hide TaskEmits; }
      hide Ownership;
      UpdatesAppend(s.main, f, t.sid, t.token);
    }
    hide Ownership;
  }

  lemma NewTaskStep(s: State, l: Label, k: nat, run: seq<Label>)
    requires Ownership(s) && Sequenced(s) && Enabled(s, l) && k in Next(s, l).tasks && k !in s.tasks && Emitted(run, k) == []
    ensures TaskEmits(Next(s, l).main, Next(s, l).tasks[k], k, run + [l])
  {
    NewTaskRuns(s, l, k);
    TaskOrigin(s, l);
    FramesAreOld(s);
    assert Front(run + [l]) == run;
    hide Next, Enabled, Ownership, Sequenced;
    NoOldUpdates(s.main, Next(s, l).tasks[k].sid, Next(s, l).tasks[k].token);
  }

  lemma EmitsStep(s: State, l: Label, run: seq<Label>)
    requires Ownership(s) && Sequenced(s) && Enabled(s, l) && Emits(s, run)
    ensures Emits(Next(s, l), run + [l])
  {
    TaskOrigin(s, l);
    PusherIsOld(s, l);
    assert Front(run + [l]) == run && Last(run + [l]) == l;
    forall k: nat | k >= Next(s, l).nextTask ensures Emitted(run + [l], k) == [] {
      assert Emitted(run, k) == [] && l != PushUpdate(k);
    }
    hide Ownership, Sequenced, Next, Enabled, TaskEmits;
    forall k | k in Next(s, l).tasks ensures TaskEmits(Next(s, l).main, Next(s, l).tasks[k], k, run + [l]) {
      if k in s.tasks { OldTaskStep(s, l, k, run); } else { NewTaskStep(s, l, k, run); }
    }
  }

  lemma PusherIsOld(s: State, l: Label)
    requires Ownership(s) && Enabled(s, l)
    ensures l.PushUpdate? ==> l.k < s.nextTask
  {
    hide WellFormed, Owns;
  }

  /** In every run the updates of a running turn on the main queue are exactly those its task began
      to emit and pushed, in that order: none is lost, altered, repeated or taken from another. */
  lemma {:induction false} UpdatesAreThoseEmitted(maxSessions: nat, run: seq<Label>, s: State)
    requires Reachable(maxSessions, run, s)
    ensures Emits(s, run)
  {
    hide Emits, Next, Enabled;
    if run == [] {
      NothingEmitted(maxSessions);
    } else {
      var mid := After(Initial(maxSessions), Front(run)).value;
      UpdatesAreThoseEmitted(maxSessions, Front(run), mid);
      ReachableInvariant(maxSessions, Front(run), mid);
      InvariantOwns(mid);
      InvariantSequenced(mid);
      EmitsStep(mid, Last(run), Front(run));
      assert run == Front(run) + [Last(run)];
    }
  }

  lemma NothingEmitted(maxSessions: nat)
    ensures Emits(Initial(maxSessions), [])
  {
  }

  lemma InvariantSequenced(s: State)
    requires Invariant(s)
    ensures Sequenced(s)
  {
    hide Ownership, Fifo, Sequenced, CancelsJustified, Counted, InArrivalOrder, WithinCapacity;
  }
}
