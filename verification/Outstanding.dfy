/**
 The bounded table of outstanding server-to-client requests, keyed by 64-bit ids that wrap
 around. A ticket stands for the one-shot channel a request waits on.
 */
module OutstandingRequests {
  import opened Prelude

  const U64_MAX: nat := 0xffff_ffff_ffff_ffff

  type U64 = n: int | 0 <= n <= 0xffff_ffff_ffff_ffff witness 0
  type Ticket = nat

  /** `id.wrapping_add(1).max(1)`: the successor in the cycle 1, 2, .., 2^64 - 1, 1, .. */
  function Successor(id: U64): (next: U64)
    ensures next >= 1
  {
    if id == U64_MAX then 1 else id + 1
  }

  function AtLeastOne(id: U64): (r: U64)
    ensures r >= 1
  {
    if id == 0 then 1 else id
  }

  /** The bounded scan for an id that is not outstanding. */
  function Scan(taken: set<U64>, id: U64, scanned: nat): U64
    decreases |taken| + 1 - scanned
  {
    if id in taken && scanned <= |taken| then Scan(taken, Successor(id), scanned + 1) else id
  }

  /** The `k`-th id after `id` in the cycle of length 2^64 - 1. */
  function Nth(id: U64, k: nat): U64
    requires id >= 1
  {
    (id - 1 + k) % U64_MAX + 1
  }

  lemma NthSuccessor(id: U64, k: nat)
    requires id >= 1
    ensures Successor(Nth(id, k)) == Nth(id, k + 1)
    ensures Nth(id, 0) == id
  {
    var m := id - 1 + k;
    assert m == U64_MAX * (m / U64_MAX) + m % U64_MAX;
    if m % U64_MAX == U64_MAX - 1 {
      assert m + 1 == U64_MAX * (m / U64_MAX + 1) + 0;
    } else {
      assert m + 1 == U64_MAX * (m / U64_MAX) + (m % U64_MAX + 1);
    }
    ModUnique(m + 1, (m + 1) / U64_MAX, (m + 1) % U64_MAX, if m % U64_MAX == U64_MAX - 1 then m / U64_MAX + 1 else m / U64_MAX,
              if m % U64_MAX == U64_MAX - 1 then 0 else m % U64_MAX + 1);
  }

  lemma ModUnique(n: int, q: int, r: int, q': int, r': int)
    requires n == U64_MAX * q + r && n == U64_MAX * q' + r'
    requires 0 <= r < U64_MAX && 0 <= r' < U64_MAX
    ensures q == q' && r == r'
  {
  }

  /** Fewer than 2^64 - 1 consecutive ids of the cycle are all different. */
  lemma NthDistinct(id: U64, j: nat, k: nat)
    requires id >= 1 && j < k && k - j < U64_MAX
    ensures Nth(id, j) != Nth(id, k)
  {
  }

  /** The first `n` ids the scan visits. */
  function Visited(start: U64, n: nat): set<U64>
    requires start >= 1
  {
    if n == 0 then {} else Visited(start, n - 1) + {Nth(start, n - 1)}
  }

  lemma {:induction false} NotVisitedAgain(start: U64, n: nat, k: nat)
    requires start >= 1 && n <= k < U64_MAX
    ensures Nth(start, k) !in Visited(start, n)
  {
    if n > 0 {
      NotVisitedAgain(start, n - 1, k);
      NthDistinct(start, n - 1, k);
    }
  }

  lemma {:induction false} VisitedSize(start: U64, n: nat)
    requires start >= 1 && n <= U64_MAX
    ensures |Visited(start, n)| == n
  {
    if n > 0 {
      VisitedSize(start, n - 1);
      NotVisitedAgain(start, n - 1, n - 1);
      hide Nth;
    }
  }

  lemma {:induction false} VisitedTaken(taken: set<U64>, start: U64, n: nat)
    requires start >= 1
    requires forall k :: 0 <= k < n ==> Nth(start, k) in taken
    ensures Visited(start, n) <= taken
  {
    hide Nth;
    if n > 0 { VisitedTaken(taken, start, n - 1); }
  }

  /** Pigeonhole: the scan cannot visit |taken| + 1 different ids all of which are taken. */
  lemma ScanVisits(taken: set<U64>, start: U64, n: nat)
    requires start >= 1 && n <= U64_MAX
    requires forall k :: 0 <= k < n ==> Nth(start, k) in taken
    ensures n <= |taken|
  {
    hide Nth, Visited;
    VisitedSize(start, n);
    VisitedTaken(taken, start, n);
    SubsetSize(Visited(start, n), taken);
  }

  /** The bounded scan always ends on a free id, even when ids have wrapped around. */
  lemma ScanFindsFree(taken: set<U64>, start: U64, scanned: nat)
    requires start >= 1 && |taken| < U64_MAX && scanned <= |taken| + 1
    requires forall k :: 0 <= k < scanned ==> Nth(start, k) in taken
    ensures var id := Scan(taken, Nth(start, scanned), scanned);
            id >= 1 && id !in taken
    decreases |taken| + 1 - scanned
  {
    ScanVisits(taken, start, scanned);
    var id := Nth(start, scanned);
    if id in taken {
      NthSuccessor(start, scanned);
      ScanFindsFree(taken, start, scanned + 1);
    }
  }

  // ------------------------------------------------------------------------- the table

  /** `delivered` records, in order, the tickets that received a response. */
  datatype Table = Table(
    waiters: map<U64, Ticket>,
    nextId: U64,
    max: nat,
    nextTicket: Ticket,
    delivered: seq<Ticket>)

  function Register(t: Table): Pair<Table, Option<U64>> {
    if |t.waiters| >= t.max then Pair(t, None)
    else
      var id := Scan(t.waiters.Keys, AtLeastOne(t.nextId), 0);
      Pair(t.(waiters := t.waiters[id := t.nextTicket], nextId := Successor(id), nextTicket := t.nextTicket + 1), Some(id))
  }

  /** Deliver a response; `listening` says whether the request still waits on its ticket. */
  function Resolve(t: Table, id: U64, listening: bool): Table {
    if id !in t.waiters then t
    else t.(waiters := t.waiters - {id}, delivered := if listening then t.delivered + [t.waiters[id]] else t.delivered)
  }

  function Remove(t: Table, id: U64): Table {
    t.(waiters := t.waiters - {id})
  }

  function Drain(t: Table): Table {
    t.(waiters := map[])
  }

  /** The ids in the table are positive, each waits on its own ticket, and no waiting ticket
      has been answered already. */
  ghost predicate Valid(t: Table) {
    && |t.waiters| <= t.max
    && (forall id :: id in t.waiters ==> id >= 1 && t.waiters[id] < t.nextTicket && t.waiters[id] !in t.delivered)
    && (forall a, b :: a in t.waiters && b in t.waiters && a != b ==> t.waiters[a] != t.waiters[b])
    && (forall x :: x in t.delivered ==> x < t.nextTicket)
    && (forall i, j :: 0 <= i < j < |t.delivered| ==> t.delivered[i] != t.delivered[j])
  }

  /** `register` hands out a positive id that is not outstanding, refuses exactly at the cap,
      and disturbs no waiting request. The cap is a machine word. */
  lemma RegisterGivesFreshId(t: Table)
    requires Valid(t) && t.max <= U64_MAX
    ensures var r := Register(t);
            && (r.second.None? <==> |t.waiters| == t.max)
            && (r.second.None? ==> r.first == t)
            && (r.second.Some? ==> var id := r.second.value;
                  && id >= 1 && id !in t.waiters
                  && r.first.waiters == t.waiters[id := t.nextTicket]
                  && |r.first.waiters| == |t.waiters| + 1)
            && Valid(r.first)
  {
    if |t.waiters| < t.max {
      var start := AtLeastOne(t.nextId);
      NthSuccessor(start, 0);
      ScanFindsFree(t.waiters.Keys, start, 0);
      hide Scan, Nth;
      var id := Scan(t.waiters.Keys, start, 0);
      assert t.waiters[id := t.nextTicket].Keys == t.waiters.Keys + {id};
    }
  }

  datatype Call = DoRegister | DoResolve(id: U64, listening: bool) | DoRemove(id: U64) | DoDrain

  function Perform(t: Table, c: Call): Table {
    match c
    case DoRegister => Register(t).first
    case DoResolve(id, listening) => Resolve(t, id, listening)
    case DoRemove(id) => Remove(t, id)
    case DoDrain => Drain(t)
  }

  function PerformAll(t: Table, calls: seq<Call>): Table {
    if calls == [] then t else Perform(PerformAll(t, Front(calls)), Last(calls))
  }

  function NewTable(max: nat): Table {
    Table(map[], 1, max, 0, [])
  }

  lemma ResolveKeeps(t: Table, id: U64, listening: bool)
    requires Valid(t)
    ensures Valid(Resolve(t, id, listening))
  {
    if id in t.waiters {
      assert |t.waiters - {id}| <= |t.waiters| by { assert (t.waiters - {id}).Keys == t.waiters.Keys - {id}; }
    }
  }

  lemma RemoveKeeps(t: Table, id: U64)
    requires Valid(t)
    ensures Valid(Remove(t, id))
  {
    SubsetSize((t.waiters - {id}).Keys, t.waiters.Keys);
  }

  lemma PerformKeeps(t: Table, c: Call)
    requires Valid(t) && t.max <= U64_MAX
    ensures Valid(Perform(t, c)) && Perform(t, c).max == t.max
  {
    match c
    case DoRegister => RegisterGivesFreshId(t); hide Scan, Valid;
    case DoResolve(id, listening) => ResolveKeeps(t, id, listening); hide Valid;
    case DoRemove(id) => RemoveKeeps(t, id); hide Valid;
    case DoDrain =>
  }

  /** In every run no registration is answered twice and the cap is never exceeded. */
  lemma {:induction false} ResolvedAtMostOnce(max: nat, calls: seq<Call>)
    requires max <= U64_MAX
    ensures var t := PerformAll(NewTable(max), calls);
            && t.max == max && |t.waiters| <= max
            && Valid(t)
            && (forall i, j :: 0 <= i < j < |t.delivered| ==> t.delivered[i] != t.delivered[j])
            && (forall id :: id in t.waiters ==> t.waiters[id] !in t.delivered)
  {
    if calls == [] {
    } else {
      ResolvedAtMostOnce(max, Front(calls));
      PerformKeeps(PerformAll(NewTable(max), Front(calls)), Last(calls));
      hide Perform;
    }
  }

  // ------------------------------------------------------- which requests are answered

  /** A call that ends the wait of whoever waits under the id. */
  predicate Touches(c: Call, id: U64) {
    match c
    case DoRegister => false
    case DoResolve(other, _) => other == id
    case DoRemove(other) => other == id
    case DoDrain => true
  }

  ghost predicate Untouched(calls: seq<Call>, id: U64) {
    forall i :: 0 <= i < |calls| ==> !Touches(calls[i], id)
  }

  /** The first call that ends the wait is a response, and somebody listens. */
  ghost predicate AnsweredIn(calls: seq<Call>, id: U64) {
    exists i :: 0 <= i < |calls| && calls[i] == DoResolve(id, true) && Untouched(calls[..i], id)
  }

  lemma AnsweredMore(calls: seq<Call>, c: Call, id: U64)
    ensures Untouched(calls + [c], id) <==> Untouched(calls, id) && !Touches(c, id)
    ensures AnsweredIn(calls + [c], id) <==> AnsweredIn(calls, id) || (Untouched(calls, id) && c == DoResolve(id, true))
  {
    var more := calls + [c];
    assert more[|calls|] == c && more[..|calls|] == calls && forall i :: 0 <= i < |calls| ==> more[i] == calls[i];
    assert forall i :: 0 <= i <= |calls| ==> more[..i] == calls[..i];
    if AnsweredIn(calls, id) {
      var i :| 0 <= i < |calls| && calls[i] == DoResolve(id, true) && Untouched(calls[..i], id);
      assert more[i] == DoResolve(id, true) && Untouched(more[..i], id);
    }
    if Untouched(calls, id) && c == DoResolve(id, true) { assert Untouched(more[..|calls|], id); }
    hide Touches;
  }

  /** What has become of the ticket that was handed out under the id. */
  ghost predicate Fate(t: Table, id: U64, ticket: Ticket, calls: seq<Call>) {
    && ticket < t.nextTicket
    && (Untouched(calls, id) ==> id in t.waiters && t.waiters[id] == ticket)
    && (!Untouched(calls, id) ==> forall other :: other in t.waiters ==> t.waiters[other] != ticket)
    && (ticket in t.delivered <==> AnsweredIn(calls, id))
  }

  lemma FateGoesOn(t: Table, id: U64, ticket: Ticket, calls: seq<Call>, c: Call)
    requires Valid(t) && t.max <= U64_MAX && Fate(t, id, ticket, calls)
    ensures Fate(Perform(t, c), id, ticket, calls + [c])
  {
    AnsweredMore(calls, c, id);
    match c
    case DoRegister =>
      RegisterGivesFreshId(t);
      assert Perform(t, c).delivered == t.delivered;
      hide Untouched, AnsweredIn, Scan, Register, Valid;
    case DoResolve(other, listening) => hide Untouched, AnsweredIn, Register;
    case DoRemove(other) => hide Untouched, AnsweredIn, Register;
    case DoDrain => hide Untouched, AnsweredIn, Register;
  }

  /** In every run, a request is answered exactly if the first call that ends its wait is a response
      under its id while it listens: not a removal, nor a drained table, nor a response that nobody
      listens to. Responses under other ids, and registrations, never disturb it. */
  lemma {:induction false} AnsweredExactly(t: Table, calls: seq<Call>)
    requires Valid(t) && t.max <= U64_MAX && Register(t).second.Some?
    ensures var after := PerformAll(Register(t).first, calls);
            && (t.nextTicket in after.delivered <==> AnsweredIn(calls, Register(t).second.value))
            && Fate(after, Register(t).second.value, t.nextTicket, calls)
            && Valid(after) && after.max == t.max
  {
    var id, first := Register(t).second.value, Register(t).first;
    RegisterGivesFreshId(t);
    if calls == [] {
      hide Scan;
    } else {
      AnsweredExactly(t, Front(calls));
      var before := PerformAll(first, Front(calls));
      assert Front(calls) + [Last(calls)] == calls;
      hide Register, Valid, Perform, Fate, AnsweredIn;
      PerformKeeps(before, Last(calls));
      FateGoesOn(before, id, t.nextTicket, Front(calls), Last(calls));
      FateTells(PerformAll(first, calls), id, t.nextTicket, calls);
    }
  }

  lemma FateTells(t: Table, id: U64, ticket: Ticket, calls: seq<Call>)
    requires Fate(t, id, ticket, calls)
    ensures ticket in t.delivered <==> AnsweredIn(calls, id)
  {
  }

  /** The table behind its lock. */
  class Outstanding {
    var waiters: map<U64, Ticket>
    var nextId: U64
    const max: nat
    var nextTicket: Ticket
    var delivered: seq<Ticket>

    function State(): Table
      reads this
    {
      Table(waiters, nextId, max, nextTicket, delivered)
    }

    constructor (max: nat)
      ensures State() == NewTable(max)
    {
      waiters, nextId, nextTicket, delivered := map[], 1, 0, [];
      this.max := max;
    }

    method RegisterRequest() returns (id: Option<U64>)
      requires Valid(State()) && max <= U64_MAX
      modifies this
      ensures Pair(State(), id) == Register(old(State()))
      ensures Valid(State())
      ensures id.Some? ==> id.value >= 1 && id.value !in old(waiters)
    {
      RegisterGivesFreshId(State());
      if |waiters| >= max { return None; }
      var candidate := AtLeastOne(nextId);
      var scanned := 0;
      while candidate in waiters && scanned <= |waiters|
        invariant Scan(waiters.Keys, candidate, scanned) == Scan(waiters.Keys, AtLeastOne(nextId), 0)
        decreases |waiters| + 1 - scanned
      {
        candidate := Successor(candidate);
        scanned := scanned + 1;
      }
      nextId := Successor(candidate);
      waiters := waiters[candidate := nextTicket];
      nextTicket := nextTicket + 1;
      id := Some(candidate);
    }

    method ResolveRequest(id: U64, listening: bool) returns (ok: bool)
      modifies this`waiters, this`delivered
      ensures State() == Resolve(old(State()), id, listening)
      ensures ok <==> id in old(waiters) && listening
    {
      if id !in waiters { return false; }
      var ticket := waiters[id];
      waiters := waiters - {id};
      if listening { delivered := delivered + [ticket]; }
      ok := listening;
    }

    method RemoveRequest(id: U64)
      modifies this`waiters
      ensures State() == Remove(old(State()), id)
    {
      waiters := waiters - {id};
    }

    method DrainRequests()
      modifies this`waiters
      ensures State() == Drain(old(State()))
    {
      waiters := map[];
    }
  }
}
