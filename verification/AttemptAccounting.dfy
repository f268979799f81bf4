/**
 The money state machine of one provider attempt. The budget authority is an oracle that
 may refuse any call; `log` records the calls it accepted, in order.
 */
module Accounting {
  import opened Prelude

  type Reservation = nat

  datatype AuthorityCall = Dispatched | Settled | Refunded | Uncertain

  datatype BudgetError = NotOpen(reservation: nat, status: string) | CannotRefundDispatched(reservation: nat) | Refused
  datatype Reply<T> = Ok(value: T) | Err(error: BudgetError)

  datatype Machine = Machine(reservation: Option<Reservation>, dispatched: bool, closed: bool, log: seq<AuthorityCall>)

  datatype Op = MarkDispatched | SettleUsage | FailAfterDispatch | FailBeforeDispatch
  datatype Attempt = Attempt(op: Op, accepted: bool)

  function Raw(m: Machine): nat {
    match m.reservation case Some(r) => r case None => 0
  }

  const CLOSED_STATUS := "settled/refunded/uncertain"

  /** One call by the runtime; `accepted` is the authority's answer if it is reached. */
  function Step(m: Machine, a: Attempt): Pair<Machine, Reply<()>> {
    if m.closed then Pair(m, Err(NotOpen(Raw(m), CLOSED_STATUS)))
    else match a.op
      case MarkDispatched =>
        if m.reservation.None? then Pair(m, Ok(()))
        else if !a.accepted then Pair(m, Err(Refused))
        else Pair(m.(dispatched := true, log := m.log + [Dispatched]), Ok(()))
      case SettleUsage =>
        if !m.dispatched then Pair(m, Err(NotOpen(Raw(m), "reserved")))
        else if m.reservation.None? then Pair(m, Ok(()))
        else if !a.accepted then Pair(m, Err(Refused))
        else Pair(m.(closed := true, log := m.log + [Settled]), Ok(()))
      case FailAfterDispatch =>
        if !m.dispatched then Pair(m, Err(NotOpen(Raw(m), "reserved")))
        else if m.reservation.None? then Pair(m, Ok(()))
        else if !a.accepted then Pair(m, Err(Refused))
        else Pair(m.(closed := true, log := m.log + [Uncertain]), Ok(()))
      case FailBeforeDispatch =>
        if m.dispatched then Pair(m, Err(CannotRefundDispatched(Raw(m))))
        else if m.reservation.None? then Pair(m.(closed := true), Ok(()))
        else if !a.accepted then Pair(m, Err(Refused))
        else Pair(m.(closed := true, log := m.log + [Refunded]), Ok(()))
  }

  function Run(reservation: Option<Reservation>, attempts: seq<Attempt>): Machine {
    if attempts == [] then Machine(reservation, false, false, [])
    else Step(Run(reservation, Front(attempts)), Last(attempts)).first
  }

  /** The bills an attempt may leave: nothing, one refund, or dispatches closed at most once. */
  predicate LegalLog(log: seq<AuthorityCall>) {
    || log == []
    || log == [Refunded]
    || (log != [] && log[0] == Dispatched && Last(log) != Refunded
        && forall i :: 0 <= i < |log| - 1 ==> log[i] == Dispatched)
  }

  ghost predicate Consistent(m: Machine) {
    && LegalLog(m.log)
    && (m.reservation.None? ==> m.log == [] && !m.dispatched)
    && (m.dispatched <==> m.log != [] && m.log[0] == Dispatched)
    && (m.reservation.Some? ==> (m.closed <==> m.log != [] && Last(m.log) != Dispatched))
  }

  lemma StepConsistent(m: Machine, a: Attempt)
    requires Consistent(m)
    ensures Consistent(Step(m, a).first)
  {
    var m' := Step(m, a).first;
    if m'.log != m.log {
      assert Last(m'.log) == m'.log[|m.log|];
      assert forall i :: 0 <= i < |m.log| ==> m'.log[i] == m.log[i];
      assert m.log != [] ==> m.log[|m.log| - 1] == Dispatched;
    }
  }

  lemma {:induction false} RunConsistent(reservation: Option<Reservation>, attempts: seq<Attempt>)
    ensures Consistent(Run(reservation, attempts)) && Run(reservation, attempts).reservation == reservation
  {
    if attempts == [] {
    } else {
      RunConsistent(reservation, Front(attempts));
      StepConsistent(Run(reservation, Front(attempts)), Last(attempts));
    }
  }

  /** Whatever is called in whatever order, and whichever calls the authority refuses: the
      accepted calls form a legal log, an attempt without a reservation bills nothing, and a
      reserved attempt is closed exactly when its money has moved for good. */
  lemma BillsAreAlwaysLegal(reservation: Option<Reservation>, attempts: seq<Attempt>)
    ensures var m := Run(reservation, attempts);
            && LegalLog(m.log)
            && (reservation.None? ==> m.log == [])
            && (reservation.Some? ==> (m.closed <==> m.log != [] && Last(m.log) != Dispatched))
            && (m.dispatched <==> m.log != [] && m.log[0] == Dispatched)
  {
    RunConsistent(reservation, attempts);
  }

  /** Once money has moved for good nothing more is billed. */
  lemma {:induction false} ClosedForGood(reservation: Option<Reservation>, attempts: seq<Attempt>, more: seq<Attempt>)
    requires Run(reservation, attempts).closed
    ensures Run(reservation, attempts + more) == Run(reservation, attempts)
  {
    if more == [] {
      assert attempts + more == attempts;
    } else {
      ClosedForGood(reservation, attempts, Front(more));
      assert Front(attempts + more) == attempts + Front(more);
    }
  }

  function AttemptFor(c: AuthorityCall): Attempt {
    match c
    case Dispatched => Attempt(MarkDispatched, true)
    case Settled => Attempt(SettleUsage, true)
    case Uncertain => Attempt(FailAfterDispatch, true)
    case Refunded => Attempt(FailBeforeDispatch, true)
  }

  function AttemptsFor(log: seq<AuthorityCall>): seq<Attempt> {
    if log == [] then [] else AttemptsFor(Front(log)) + [AttemptFor(Last(log))]
  }

  lemma {:induction false} LegalLogHappens(r: Reservation, log: seq<AuthorityCall>)
    requires LegalLog(log)
    ensures Run(Some(r), AttemptsFor(log)).log == log
  {
    if log == [] {
    } else {
      var before := Front(log);
      assert log == before + [Last(log)];
      assert Front(AttemptsFor(log)) == AttemptsFor(before);
      LegalLogHappens(r, before);
      RunConsistent(Some(r), AttemptsFor(before));
      assert before != [] ==> Last(before) == log[|log| - 2];
    }
  }

  /** The legal logs are exactly the ones that happen. */
  lemma BillsExactly(r: Reservation, log: seq<AuthorityCall>)
    ensures LegalLog(log) <==> exists attempts :: Run(Some(r), attempts).log == log
  {
    if LegalLog(log) { LegalLogHappens(r, log); }
    forall attempts | Run(Some(r), attempts).log == log ensures LegalLog(log) {
      RunConsistent(Some(r), attempts);
    }
  }

  // ------------------------------------------------------------------------- the replies

  /** What a call asks of the authority. */
  function Asked(op: Op): AuthorityCall {
    match op
    case MarkDispatched => Dispatched
    case SettleUsage => Settled
    case FailAfterDispatch => Uncertain
    case FailBeforeDispatch => Refunded
  }

  predicate ClosedLog(log: seq<AuthorityCall>) {
    log != [] && Last(log) != Dispatched
  }

  predicate OpenLog(log: seq<AuthorityCall>) {
    log != [] && Last(log) == Dispatched
  }

  predicate NeedsDispatch(op: Op) {
    op == SettleUsage || op == FailAfterDispatch
  }

  /** What the log lets through to the authority. */
  predicate Allowed(log: seq<AuthorityCall>, op: Op) {
    (log == [] && !NeedsDispatch(op)) || (OpenLog(log) && op != FailBeforeDispatch)
  }

  /** On a reserved attempt a caller can trust every reply. It is `Ok` exactly if the authority
      accepted this very call, which is then the last of the log, and after an error nothing has
      changed. Which error it is follows from the log alone: a closed attempt answers so whatever is
      asked; otherwise settling needs a dispatch, refunding must not follow one, and all that is
      left is a refusal by the authority. */
  lemma RepliesExactly(r: Reservation, attempts: seq<Attempt>, a: Attempt)
    ensures var m := Run(Some(r), attempts);
            var m', reply := Step(m, a).first, Step(m, a).second;
            && (reply.Ok? <==> m'.log == m.log + [Asked(a.op)])
            && (reply.Err? <==> m' == m)
            && (reply == Err(NotOpen(r, CLOSED_STATUS)) <==> ClosedLog(m.log))
            && (reply == Err(NotOpen(r, "reserved")) <==> m.log == [] && NeedsDispatch(a.op))
            && (reply == Err(CannotRefundDispatched(r)) <==> OpenLog(m.log) && a.op == FailBeforeDispatch)
            && (reply.Ok? <==> a.accepted && Allowed(m.log, a.op))
            && (reply == Err(Refused) <==> !a.accepted && Allowed(m.log, a.op))
            && (reply.Ok? && a.op == MarkDispatched ==> m'.dispatched && Last(m'.log) == Dispatched)
  {
    RunConsistent(Some(r), attempts);
    var m := Run(Some(r), attempts);
    assert m.dispatched && !m.closed ==> m.log != [] && Last(m.log) == Dispatched;
    assert |m.log + [Asked(a.op)]| == |m.log| + 1;
    assert "reserved" != CLOSED_STATUS;
  }

  predicate GaveUp(attempts: seq<Attempt>) {
    exists i :: 0 <= i < |attempts| && attempts[i].op == FailBeforeDispatch
  }

  /** Without a reservation the authority is never asked: marking and giving up succeed, settling is
      refused, and after giving up everything is. */
  lemma {:induction false} UnreservedReplies(attempts: seq<Attempt>, a: Attempt)
    ensures Step(Run(None, attempts), a).second
         == if GaveUp(attempts) then Err(NotOpen(0, CLOSED_STATUS))
            else if NeedsDispatch(a.op) then Err(NotOpen(0, "reserved"))
            else Ok(())
  {
    UnreservedRun(attempts);
  }

  lemma {:induction false} UnreservedRun(attempts: seq<Attempt>)
    ensures var m := Run(None, attempts);
            && m.reservation.None? && !m.dispatched && m.log == []
            && (m.closed <==> GaveUp(attempts))
  {
    if attempts != [] {
      UnreservedRun(Front(attempts));
      assert forall i :: 0 <= i < |attempts| - 1 ==> attempts[i] == Front(attempts)[i];
    }
  }

  /** The accounting object the runtime holds; each method awaits at most one authority call. */
  class AttemptAccounting {
    const reservation: Option<Reservation>
    var dispatched: bool
    var closed: bool
    ghost var log: seq<AuthorityCall>

    ghost function State(): Machine
      reads this
    {
      Machine(reservation, dispatched, closed, log)
    }

    constructor (reservation: Option<Reservation>)
      ensures State() == Run(reservation, [])
    {
      this.reservation := reservation;
      dispatched, closed, log := false, false, [];
    }

    method GuardNotClosed() returns (r: Reply<()>)
      ensures r == if closed then Err(NotOpen(Raw(State()), CLOSED_STATUS)) else Ok(())
    {
      if closed {
        r := Err(NotOpen(match reservation case Some(raw) => raw case None => 0, CLOSED_STATUS));
      } else {
        r := Ok(());
      }
    }

    method Mark(accepted: bool) returns (r: Reply<()>)
      modifies this
      ensures Pair(State(), r) == Step(old(State()), Attempt(MarkDispatched, accepted))
    {
      r := GuardNotClosed();
      if r.Err? { return; }
      if reservation.None? { return Ok(()); }
      if !accepted { return Err(Refused); }
      log := log + [Dispatched];
      dispatched := true;
      r := Ok(());
    }

    method Settle(accepted: bool) returns (r: Reply<()>)
      modifies this
      ensures Pair(State(), r) == Step(old(State()), Attempt(SettleUsage, accepted))
    {
      r := GuardNotClosed();
      if r.Err? { return; }
      if !dispatched { return Err(NotOpen(match reservation case Some(raw) => raw case None => 0, "reserved")); }
      if reservation.None? { return Ok(()); }
      if !accepted { return Err(Refused); }
      log := log + [Settled];
      closed := true;
      r := Ok(());
    }

    method FailAfter(accepted: bool) returns (r: Reply<()>)
      modifies this
      ensures Pair(State(), r) == Step(old(State()), Attempt(FailAfterDispatch, accepted))
    {
      r := GuardNotClosed();
      if r.Err? { return; }
      if !dispatched { return Err(NotOpen(match reservation case Some(raw) => raw case None => 0, "reserved")); }
      if reservation.None? { return Ok(()); }
      if !accepted { return Err(Refused); }
      log := log + [Uncertain];
      closed := true;
      r := Ok(());
    }

    method FailBefore(accepted: bool) returns (r: Reply<()>)
      modifies this
      ensures Pair(State(), r) == Step(old(State()), Attempt(FailBeforeDispatch, accepted))
    {
      r := GuardNotClosed();
      if r.Err? { return; }
      if dispatched { return Err(CannotRefundDispatched(match reservation case Some(raw) => raw case None => 0)); }
      if reservation.None? { closed := true; return Ok(()); }
      if !accepted { return Err(Refused); }
      log := log + [Refunded];
      closed := true;
      r := Ok(());
    }
  }
}
