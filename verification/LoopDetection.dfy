/**
 The loop detectors: constant-state online monitors over tool-call keys, repository
 fingerprints, tool evidence and failures, each proved equal to a predicate over the
 whole history of observations. Keys hold one character per UTF-8 byte.
 */
module LoopDetection {
  import opened Prelude

  datatype Key = Key(text: string)

  const MAX_KEY_BYTES := 4096
  const EVIDENCE_RING_CAP := 16
  const FAILURE_FP_CAP := 64
  const REPEATED_EVIDENCE_MIN := 3

  // ------------------------------------------------------------------ repeated keys

  datatype KeyState = KeyState(last: Option<Key>, prevLast: Option<Key>, altRun: nat, seen: map<Key, nat>)

  const NoKeys := KeyState(None, None, 0, map[])

  function Record(t: nat, s: KeyState, key: Key): Pair<KeyState, bool> {
    if |key.text| > MAX_KEY_BYTES then Pair(s, false)
    else
      var two := s.last.Some? && s.prevLast.Some?;
      var continues := two && key != s.last.value && key == s.prevLast.value;
      if continues && s.altRun + 1 >= t then Pair(NoKeys, true)
      else
        var run := if continues then s.altRun + 1
                   else if two && key != s.prevLast.value then 0
                   else s.altRun;
        var count := (if key in s.seen then s.seen[key] else 0) + 1;
        Pair(KeyState(Some(key), s.last, run, if count >= t then map[] else s.seen[key := count]), count >= t)
  }

  function RecordAll(t: nat, keys: seq<Key>): KeyState {
    if keys == [] then NoKeys else Record(t, RecordAll(t, Front(keys)), Last(keys)).first
  }

  function Suffix<T>(h: seq<T>, n: nat): seq<T> {
    if |h| <= n then h else h[|h| - n..]
  }

  /** The last `n` entries alternate between two different values. */
  predicate AlternatesAtEnd(h: seq<Key>, n: nat) {
    && 2 <= n <= |h|
    && h[|h| - n] != h[|h| - n + 1]
    && (forall i :: |h| - n + 2 <= i < |h| ==> h[i] == h[i - 2])
  }

  /** The keys recorded since the last alternation trip. */
  function SinceAlternation(t: nat, keys: seq<Key>): seq<Key> {
    if keys == [] then []
    else if |Last(keys).text| > MAX_KEY_BYTES then SinceAlternation(t, Front(keys))
    else
      var h := SinceAlternation(t, Front(keys)) + [Last(keys)];
      if AlternatesAtEnd(h, t + 2) then [] else h
  }

  /** The keys recorded since the last trip of either kind. */
  function SinceTrip(t: nat, keys: seq<Key>): seq<Key>
    decreases |keys|, 1
  {
    if keys == [] then []
    else if |Last(keys).text| > MAX_KEY_BYTES then SinceTrip(t, Front(keys))
    else if KeyTrips(t, keys) then []
    else SinceTrip(t, Front(keys)) + [Last(keys)]
  }

  /** Whether the last key of a history trips, said without counters: it completes t + 2
      alternating keys, or is its t-th occurrence in the current window. */
  predicate KeyTrips(t: nat, keys: seq<Key>)
    requires keys != []
    decreases |keys|, 0
  {
    && |Last(keys).text| <= MAX_KEY_BYTES
    && (|| AlternatesAtEnd(SinceAlternation(t, Front(keys)) + [Last(keys)], t + 2)
        || multiset(SinceTrip(t, Front(keys)) + [Last(keys)])[Last(keys)] >= t)
  }

  /** The number of trailing keys that each equal the key two back and differ from the one before. */
  function AltRun(h: seq<Key>): nat {
    if |h| < 3 then 0
    else if h[|h| - 1] == h[|h| - 3] && h[|h| - 1] != h[|h| - 2] then AltRun(Front(h)) + 1
    else 0
  }

  lemma {:induction false} AlternatingNeighbours(h: seq<Key>, m: nat, i: nat)
    requires m <= i && i + 1 < |h| && h[m] != h[m + 1] && forall j :: m + 2 <= j < |h| ==> h[j] == h[j - 2]
    ensures h[i] != h[i + 1]
  {
    if i > m { AlternatingNeighbours(h, m, i - 1); }
  }

  lemma AlternatesLonger(h: seq<Key>, n: nat)
    requires 3 <= n <= |h|
    ensures AlternatesAtEnd(h, n)
       <==> AlternatesAtEnd(Front(h), n - 1) && h[|h| - 1] == h[|h| - 3] && h[|h| - 1] != h[|h| - 2]
  {
    var f := Front(h);
    assert forall i :: 0 <= i < |f| ==> f[i] == h[i];
    if AlternatesAtEnd(h, n) { AlternatingNeighbours(h, |h| - n, |h| - 2); }
  }

  lemma {:induction false} AltRunMeaning(h: seq<Key>, n: nat)
    requires n >= 1
    ensures AltRun(h) >= n <==> AlternatesAtEnd(h, n + 2)
  {
    if |h| >= n + 2 {
      AlternatesLonger(h, n + 2);
      if n > 1 { AltRunMeaning(Front(h), n - 1); hide AlternatesAtEnd; }
    } else if |h| >= 3 {
      AltRunMeaning(Front(h), n - 1);
    }
  }

  function LastKey(h: seq<Key>): Option<Key> {
    if h == [] then None else Some(Last(h))
  }

  /** The detector's fields are a summary of the two windows. */
  ghost predicate KeySummary(t: nat, s: KeyState, alt: seq<Key>, counted: seq<Key>) {
    && s.last == LastKey(alt)
    && s.prevLast == (if alt == [] then None else LastKey(Front(alt)))
    && s.altRun == AltRun(alt) < t
    && (forall k :: (if k in s.seen then s.seen[k] else 0) == multiset(counted)[k])
  }

  lemma AltRunMore(alt: seq<Key>, key: Key)
    ensures AltRun(alt + [key])
         == if |alt| >= 2 && key == alt[|alt| - 2] && key != alt[|alt| - 1] then AltRun(alt) + 1 else 0
    ensures |alt| >= 2 && alt[|alt| - 1] == alt[|alt| - 2] ==> AltRun(alt) == 0
    ensures AltRun([]) == 0
  {
    assert Front(alt + [key]) == alt;
  }

  lemma RecordSummary(t: nat, s: KeyState, alt: seq<Key>, counted: seq<Key>, key: Key)
    requires t >= 2 && KeySummary(t, s, alt, counted) && |key.text| <= MAX_KEY_BYTES
    ensures var r := Record(t, s, key);
            var trips := AlternatesAtEnd(alt + [key], t + 2);
            var repeats := multiset(counted + [key])[key] >= t;
            && (r.second <==> trips || repeats)
            && KeySummary(t, r.first, if trips then [] else alt + [key], if trips || repeats then [] else counted + [key])
  {
    assert Front(alt + [key]) == alt;
    AltRunMeaning(alt + [key], t);
    AltRunMore(alt, key);
    hide AlternatesAtEnd, AltRun;
    assert multiset(counted + [key]) == multiset(counted) + multiset{key};
  }

  lemma {:induction false} RecordInvariant(t: nat, keys: seq<Key>)
    requires t >= 2
    ensures KeySummary(t, RecordAll(t, keys), SinceAlternation(t, keys), SinceTrip(t, keys))
  {
    if keys == [] {
    } else {
      RecordInvariant(t, Front(keys));
      if |Last(keys).text| <= MAX_KEY_BYTES {
        RecordSummary(t, RecordAll(t, Front(keys)), SinceAlternation(t, Front(keys)), SinceTrip(t, Front(keys)), Last(keys));
      }
      hide Record, KeySummary, AlternatesAtEnd;
    }
  }

  /** The online detector trips on a key exactly when the history says so. */
  lemma RecordTripsExactly(t: nat, keys: seq<Key>, key: Key)
    requires t >= 2
    ensures Record(t, RecordAll(t, keys), key).second <==> KeyTrips(t, keys + [key])
  {
    RecordInvariant(t, keys);
    assert Front(keys + [key]) == keys;
    if |key.text| <= MAX_KEY_BYTES {
      RecordSummary(t, RecordAll(t, keys), SinceAlternation(t, keys), SinceTrip(t, keys), key);
      hide Record, KeySummary, AlternatesAtEnd;
    }
  }

  // ---------------------------------------------------------- patch, revert, patch

  datatype Fingerprint = Fingerprint(repoState: nat, failure: nat, criterion: nat, actionClass: string)
  datatype PatchState = PatchState(prev2: Option<Fingerprint>, prev1: Option<Fingerprint>, run: nat)

  const NoSteps := PatchState(None, None, 0)

  predicate SameContext(a: Fingerprint, b: Fingerprint) {
    a.failure == b.failure && a.criterion == b.criterion && a.actionClass == b.actionClass
  }

  function StateStep(t: nat, s: PatchState, fp: Fingerprint): Pair<PatchState, bool> {
    if s.prev2.Some? && s.prev1.Some? then
      var prev2, prev1 := s.prev2.value, s.prev1.value;
      var held := SameContext(prev2, fp) && SameContext(prev1, fp);
      if held && fp.repoState == prev2.repoState && fp.repoState != prev1.repoState then
        if s.run + 1 >= t then Pair(NoSteps, true)
        else Pair(PatchState(s.prev1, Some(fp), s.run + 1), false)
      else if fp.repoState != prev1.repoState || !held then Pair(PatchState(s.prev1, Some(fp), 0), false)
      else Pair(PatchState(s.prev1, Some(fp), s.run), false)
    else Pair(PatchState(s.prev1, Some(fp), s.run), false)
  }

  function StateStepAll(t: nat, fps: seq<Fingerprint>): PatchState {
    if fps == [] then NoSteps else StateStep(t, StateStepAll(t, Front(fps)), Last(fps)).first
  }

  /** The last `n` steps swing between two repository states under one context. */
  predicate SwingsAtEnd(h: seq<Fingerprint>, n: nat) {
    && 2 <= n <= |h|
    && h[|h| - n].repoState != h[|h| - n + 1].repoState
    && (forall i :: |h| - n < i < |h| ==> SameContext(h[|h| - n], h[i]))
    && (forall i :: |h| - n + 2 <= i < |h| ==> h[i].repoState == h[i - 2].repoState)
  }

  /** The steps since the last trip. */
  function SincePatchTrip(t: nat, fps: seq<Fingerprint>): seq<Fingerprint> {
    if fps == [] then []
    else
      var h := SincePatchTrip(t, Front(fps)) + [Last(fps)];
      if SwingsAtEnd(h, t + 2) then [] else h
  }

  predicate SwingsBack(a: Fingerprint, b: Fingerprint, c: Fingerprint) {
    SameContext(a, c) && SameContext(b, c) && c.repoState == a.repoState && c.repoState != b.repoState
  }

  function SwingRun(h: seq<Fingerprint>): nat {
    if |h| < 3 then 0
    else if SwingsBack(h[|h| - 3], h[|h| - 2], h[|h| - 1]) then SwingRun(Front(h)) + 1
    else 0
  }

  lemma {:induction false} SwingingNeighbours(h: seq<Fingerprint>, m: nat, i: nat)
    requires m <= i && i + 1 < |h| && h[m].repoState != h[m + 1].repoState
    requires forall j :: m + 2 <= j < |h| ==> h[j].repoState == h[j - 2].repoState
    ensures h[i].repoState != h[i + 1].repoState
  {
    if i > m { SwingingNeighbours(h, m, i - 1); }
  }

  lemma SwingsLonger(h: seq<Fingerprint>, n: nat)
    requires 3 <= n <= |h|
    ensures n > 3 ==>
      (SwingsAtEnd(h, n) <==> SwingsAtEnd(Front(h), n - 1) && SwingsBack(h[|h| - 3], h[|h| - 2], h[|h| - 1]))
    ensures n == 3 ==> (SwingsAtEnd(h, n) <==> SwingsBack(h[|h| - 3], h[|h| - 2], h[|h| - 1]))
  {
    var f := Front(h);
    var m := |h| - n;
    assert forall i :: 0 <= i < |f| ==> f[i] == h[i];
    if SwingsAtEnd(h, n) {
      SwingingNeighbours(h, m, |h| - 2);
      assert n > 3 ==> SameContext(h[m], h[|h| - 3]);
      assert SameContext(h[m], h[|h| - 2]) && SameContext(h[m], h[|h| - 1]);
    }
  }

  lemma {:induction false} SwingRunMeaning(h: seq<Fingerprint>, n: nat)
    requires n >= 1
    ensures SwingRun(h) >= n <==> SwingsAtEnd(h, n + 2)
  {
    if |h| >= n + 2 {
      SwingsLonger(h, n + 2);
      if n > 1 { SwingRunMeaning(Front(h), n - 1); hide SwingsAtEnd, SwingsBack; }
    } else if |h| >= 3 {
      SwingRunMeaning(Front(h), n - 1);
    }
  }

  function LastStep(h: seq<Fingerprint>): Option<Fingerprint> {
    if h == [] then None else Some(Last(h))
  }

  /** The counter equals the run only while the last two repository states differ; a stutter
      step leaves it stale, which is harmless because the next move resets it. */
  ghost predicate PatchSummary(t: nat, s: PatchState, h: seq<Fingerprint>) {
    && s.prev1 == LastStep(h)
    && s.prev2 == (if h == [] then None else LastStep(Front(h)))
    && s.run < t
    && (|h| < 2 ==> s.run == 0)
    && (|h| >= 2 && h[|h| - 1].repoState != h[|h| - 2].repoState ==> s.run == SwingRun(h))
  }

  lemma StateStepSummary(t: nat, s: PatchState, h: seq<Fingerprint>, fp: Fingerprint)
    requires t >= 2 && PatchSummary(t, s, h)
    ensures var r := StateStep(t, s, fp);
            && (r.second <==> SwingsAtEnd(h + [fp], t + 2))
            && PatchSummary(t, r.first, if r.second then [] else h + [fp])
  {
    var h' := h + [fp];
    assert Front(h') == h;
    SwingRunMeaning(h', t);
    hide SwingsAtEnd;
    assert SwingRun(h') == if |h| >= 2 && SwingsBack(h[|h| - 2], h[|h| - 1], fp) then SwingRun(h) + 1 else 0;
    hide SwingRun;
  }

  lemma {:induction false} StateStepInvariant(t: nat, fps: seq<Fingerprint>)
    requires t >= 2
    ensures PatchSummary(t, StateStepAll(t, fps), SincePatchTrip(t, fps))
  {
    if fps == [] {
    } else {
      StateStepInvariant(t, Front(fps));
      StateStepSummary(t, StateStepAll(t, Front(fps)), SincePatchTrip(t, Front(fps)), Last(fps));
      hide StateStep, PatchSummary, SwingsAtEnd;
    }
  }

  /** A patch-revert-patch trip happens exactly when the last t + 2 steps since the previous trip
      swing between two repository states under one unchanged context. */
  lemma StateStepTripsExactly(t: nat, fps: seq<Fingerprint>, fp: Fingerprint)
    requires t >= 2
    ensures StateStep(t, StateStepAll(t, fps), fp).second <==> SwingsAtEnd(SincePatchTrip(t, fps) + [fp], t + 2)
  {
    StateStepInvariant(t, fps);
    StateStepSummary(t, StateStepAll(t, fps), SincePatchTrip(t, fps), fp);
  }

  // ------------------------------------------------------------- repeated evidence

  datatype Evidence = Evidence(command: nat, hash: nat)
  datatype EvidenceState = EvidenceState(ring: seq<Evidence>, last: Option<Evidence>, run: nat)

  const NoEvidence := EvidenceState([], None, 0)

  function EvidenceStep(s: EvidenceState, e: Evidence): Pair<EvidenceState, bool> {
    var run := match s.last
               case None => 1
               case Some(prev) => if e.command == prev.command then 0 else if e.hash == prev.hash then s.run + 1 else 1;
    if run >= REPEATED_EVIDENCE_MIN then Pair(NoEvidence, true)
    else Pair(EvidenceState(Suffix(s.ring + [e], EVIDENCE_RING_CAP), Some(e), run), false)
  }

  function EvidenceAll(es: seq<Evidence>): EvidenceState {
    if es == [] then NoEvidence else EvidenceStep(EvidenceAll(Front(es)), Last(es)).first
  }

  /** Three different commands in a row returned the same evidence, and the first of them
      was not itself a repeat of the command before it. */
  predicate SameEvidenceThrice(h: seq<Evidence>) {
    var n := |h|;
    && n >= 3
    && h[n - 1].hash == h[n - 2].hash == h[n - 3].hash
    && h[n - 1].command != h[n - 2].command && h[n - 2].command != h[n - 3].command
    && (n > 3 ==> h[n - 3].command != h[n - 4].command)
  }

  /** The observations since the last trip. */
  function SinceEvidenceTrip(es: seq<Evidence>): seq<Evidence> {
    if es == [] then []
    else
      var h := SinceEvidenceTrip(Front(es)) + [Last(es)];
      if SameEvidenceThrice(h) then [] else h
  }

  function EvidenceRun(h: seq<Evidence>): nat {
    if |h| == 0 then 0
    else if |h| == 1 then 1
    else if h[|h| - 1].command == h[|h| - 2].command then 0
    else if h[|h| - 1].hash == h[|h| - 2].hash then EvidenceRun(Front(h)) + 1
    else 1
  }

  lemma EvidenceRunMeaning(h: seq<Evidence>)
    ensures EvidenceRun(h) >= 3 <==> SameEvidenceThrice(h)
  {
    if |h| >= 3 {
      var f := Front(h);
      var g := Front(f);
      assert f[|f| - 1] == h[|h| - 2] && f[|f| - 2] == h[|h| - 3];
      assert g[|g| - 1] == h[|h| - 3];
      assert EvidenceRun(g) >= 1 <==> (|h| > 3 ==> h[|h| - 3].command != h[|h| - 4].command);
    }
  }

  ghost predicate EvidenceSummary(s: EvidenceState, h: seq<Evidence>) {
    && s.last == (if h == [] then None else Some(Last(h)))
    && s.run == EvidenceRun(h)
    && s.ring == Suffix(h, EVIDENCE_RING_CAP)
  }

  lemma EvidenceStepSummary(s: EvidenceState, h: seq<Evidence>, e: Evidence)
    requires EvidenceSummary(s, h)
    ensures var r := EvidenceStep(s, e);
            && (r.second <==> SameEvidenceThrice(h + [e]))
            && EvidenceSummary(r.first, if r.second then [] else h + [e])
  {
    assert Front(h + [e]) == h;
    EvidenceRunMeaning(h + [e]);
    hide SameEvidenceThrice;
    assert Suffix(Suffix(h, EVIDENCE_RING_CAP) + [e], EVIDENCE_RING_CAP) == Suffix(h + [e], EVIDENCE_RING_CAP);
  }

  lemma {:induction false} EvidenceInvariant(es: seq<Evidence>)
    ensures EvidenceSummary(EvidenceAll(es), SinceEvidenceTrip(es))
  {
    if es == [] {
    } else {
      EvidenceInvariant(Front(es));
      EvidenceStepSummary(EvidenceAll(Front(es)), SinceEvidenceTrip(Front(es)), Last(es));
      hide EvidenceStep, EvidenceSummary, SameEvidenceThrice;
    }
  }

  /** The evidence detector trips exactly on three same-evidence observations by changing
      commands, and its ring holds the last (at most 16) observations since the last trip. */
  lemma EvidenceTripsExactly(es: seq<Evidence>, e: Evidence)
    ensures EvidenceStep(EvidenceAll(es), e).second <==> SameEvidenceThrice(SinceEvidenceTrip(es) + [e])
    ensures EvidenceAll(es).ring == Suffix(SinceEvidenceTrip(es), EVIDENCE_RING_CAP)
    ensures |EvidenceAll(es).ring| <= EVIDENCE_RING_CAP
  {
    EvidenceInvariant(es);
    EvidenceStepSummary(EvidenceAll(es), SinceEvidenceTrip(es), e);
  }

  // ------------------------------------------------------------- repeated failures

  /** One failure report; `victim` is the entry dropped if the bounded map is full. */
  datatype Failure = Failure(key: Key, fingerprint: nat, victim: Key)
  type FailureState = map<Key, Pair<nat, nat>>

  predicate Ignored(key: Key) {
    |key.text| == 0 || |key.text| > MAX_KEY_BYTES
  }

  function FailureStep(t: nat, m: FailureState, f: Failure): Pair<FailureState, bool> {
    if Ignored(f.key) then Pair(m, false)
    else
      var room := if f.key !in m && |m| >= FAILURE_FP_CAP then m - {f.victim} else m;
      var entry := if f.key in room then room[f.key] else Pair(f.fingerprint, 0);
      if entry.first != f.fingerprint then Pair(room[f.key := Pair(f.fingerprint, 1)], false)
      else if entry.second + 1 >= t then Pair(room[f.key := Pair(f.fingerprint, 0)], true)
      else Pair(room[f.key := Pair(f.fingerprint, entry.second + 1)], false)
  }

  function FailureAll(t: nat, fs: seq<Failure>): FailureState {
    if fs == [] then map[] else FailureStep(t, FailureAll(t, Front(fs)), Last(fs)).first
  }

  /** The last `n` fingerprints reported are the same. */
  predicate SameAtEnd(h: seq<nat>, n: nat) {
    1 <= n <= |h| && forall i :: |h| - n <= i < |h| ==> h[i] == h[|h| - 1]
  }

  /** For each remembered message, the fingerprints it was reported with since it last tripped
      or was last (re)entered into the map. */
  function FailureWindows(t: nat, fs: seq<Failure>): map<Key, seq<nat>> {
    if fs == [] then map[]
    else
      var w, f := FailureWindows(t, Front(fs)), Last(fs);
      if Ignored(f.key) then w
      else
        var room := if f.key !in w && |w| >= FAILURE_FP_CAP then w - {f.victim} else w;
        room[f.key := if FailureTrips(t, room, f) then [] else WindowOf(room, f.key) + [f.fingerprint]]
  }

  function WindowOf(w: map<Key, seq<nat>>, key: Key): seq<nat> {
    if key in w then w[key] else []
  }

  /** A report trips when it is the t-th in a row with one fingerprint for its message. */
  predicate FailureTrips(t: nat, w: map<Key, seq<nat>>, f: Failure) {
    !Ignored(f.key) && SameAtEnd(WindowOf(w, f.key) + [f.fingerprint], t)
  }

  function SameRun(h: seq<nat>): nat {
    if |h| == 0 then 0
    else if |h| >= 2 && h[|h| - 1] == h[|h| - 2] then SameRun(Front(h)) + 1
    else 1
  }

  lemma {:induction false} SameRunMeaning(h: seq<nat>, n: nat)
    requires n >= 1
    ensures SameRun(h) >= n <==> SameAtEnd(h, n)
  {
    if |h| >= 2 && n > 1 {
      SameRunMeaning(Front(h), n - 1);
      assert forall i :: 0 <= i < |h| - 1 ==> Front(h)[i] == h[i];
    }
  }

  ghost predicate EntrySummary(t: nat, entry: Pair<nat, nat>, h: seq<nat>) {
    entry.second == SameRun(h) < t && (h != [] ==> entry.first == Last(h))
  }

  ghost predicate FailureSummary(t: nat, m: FailureState, w: map<Key, seq<nat>>) {
    m.Keys == w.Keys && forall k :: k in w ==> EntrySummary(t, m[k], w[k])
  }

  lemma EntryStep(t: nat, entry: Pair<nat, nat>, h: seq<nat>, fp: nat)
    requires t >= 2 && EntrySummary(t, entry, h)
    ensures entry.first == fp && entry.second + 1 >= t <==> SameAtEnd(h + [fp], t)
    ensures entry.first != fp ==> EntrySummary(t, Pair(fp, 1), h + [fp])
    ensures entry.first == fp && entry.second + 1 < t ==> EntrySummary(t, Pair(fp, entry.second + 1), h + [fp])
  {
    assert Front(h + [fp]) == h;
    SameRunMeaning(h + [fp], t);
    hide SameAtEnd;
  }

  lemma FailureStepSummary(t: nat, m: FailureState, w: map<Key, seq<nat>>, f: Failure)
    requires t >= 2 && FailureSummary(t, m, w) && !Ignored(f.key)
    ensures var room := if f.key !in w && |w| >= FAILURE_FP_CAP then w - {f.victim} else w;
            var trips := FailureTrips(t, room, f);
            && (FailureStep(t, m, f).second <==> trips)
            && FailureSummary(t, FailureStep(t, m, f).first,
                              room[f.key := if trips then [] else WindowOf(room, f.key) + [f.fingerprint]])
  {
    assert |m| == |w| by { assert |m.Keys| == |w.Keys|; }
    var full := f.key !in w && |w| >= FAILURE_FP_CAP;
    var mRoom := if full then m - {f.victim} else m;
    var wRoom := if full then w - {f.victim} else w;
    assert FailureSummary(t, mRoom, wRoom);
    var entry := if f.key in mRoom then mRoom[f.key] else Pair(f.fingerprint, 0);
    assert EntrySummary(t, entry, WindowOf(wRoom, f.key));
    EntryStep(t, entry, WindowOf(wRoom, f.key), f.fingerprint);
    assert EntrySummary(t, Pair(f.fingerprint, 0), []);
    hide EntrySummary, SameAtEnd, SameRun;
  }

  lemma {:induction false} FailureInvariant(t: nat, fs: seq<Failure>)
    requires t >= 2
    ensures FailureSummary(t, FailureAll(t, fs), FailureWindows(t, fs))
  {
    if fs == [] {
    } else {
      FailureInvariant(t, Front(fs));
      if !Ignored(Last(fs).key) {
        FailureStepSummary(t, FailureAll(t, Front(fs)), FailureWindows(t, Front(fs)), Last(fs));
      }
      hide FailureStep, FailureSummary, FailureTrips;
    }
  }

  function Evicted(w: map<Key, seq<nat>>, f: Failure): map<Key, seq<nat>> {
    if !Ignored(f.key) && f.key !in w && |w| >= FAILURE_FP_CAP then w - {f.victim} else w
  }

  /** A failure trips exactly on the t-th consecutive report of a message with an unchanged
      fingerprint since the message last tripped or entered the bounded map. */
  lemma FailureTripsExactly(t: nat, fs: seq<Failure>, f: Failure)
    requires t >= 2
    ensures FailureStep(t, FailureAll(t, fs), f).second <==> FailureTrips(t, Evicted(FailureWindows(t, fs), f), f)
  {
    FailureInvariant(t, fs);
    if !Ignored(f.key) {
      FailureStepSummary(t, FailureAll(t, fs), FailureWindows(t, fs), f);
      hide FailureStep, FailureSummary, FailureTrips;
    }
  }

  lemma FailureMapBounded(t: nat, m: FailureState, f: Failure)
    requires |m| <= FAILURE_FP_CAP
    requires f.key !in m && |m| >= FAILURE_FP_CAP && !Ignored(f.key) ==> f.victim in m
    ensures |FailureStep(t, m, f).first| <= FAILURE_FP_CAP
  {
    if !Ignored(f.key) {
      var room := if f.key !in m && |m| >= FAILURE_FP_CAP then m - {f.victim} else m;
      assert room.Keys == if f.key !in m && |m| >= FAILURE_FP_CAP then m.Keys - {f.victim} else m.Keys;
      assert FailureStep(t, m, f).first.Keys == room.Keys + {f.key};
      if f.key in room { assert room.Keys + {f.key} == room.Keys; }
    }
  }

  // ------------------------------------------------------------------- the detector

  datatype ReasonCode = LoopDetected | PatchRevertPatch | RepeatedEvidenceSet

  class LoopDetector {
    const threshold: nat
    var trips: nat
    var lastTrip: Option<ReasonCode>
    var last: Option<Key>
    var prevLast: Option<Key>
    var altRun: nat
    var seen: map<Key, nat>
    var fpPrev2: Option<Fingerprint>
    var fpPrev1: Option<Fingerprint>
    var patchRun: nat
    var evidenceRing: seq<Evidence>
    var evLast: Option<Evidence>
    var evRun: nat
    var failState: FailureState

    function Keys(): KeyState
      reads this
    {
      KeyState(last, prevLast, altRun, seen)
    }

    function Patches(): PatchState
      reads this
    {
      PatchState(fpPrev2, fpPrev1, patchRun)
    }

    function Seen(): EvidenceState
      reads this
    {
      EvidenceState(evidenceRing, evLast, evRun)
    }

    constructor (threshold: nat)
      ensures this.threshold == (if threshold < 2 then 2 else threshold)
      ensures Keys() == NoKeys && Patches() == NoSteps && Seen() == NoEvidence && failState == map[]
      ensures trips == 0 && lastTrip == None
    {
      this.threshold := if threshold < 2 then 2 else threshold;
      trips, lastTrip := 0, None;
      last, prevLast, altRun, seen := None, None, 0, map[];
      fpPrev2, fpPrev1, patchRun := None, None, 0;
      evidenceRing, evLast, evRun := [], None, 0;
      failState := map[];
    }

    method RecordKey(key: Key) returns (tripped: bool)
      modifies this`last, this`prevLast, this`altRun, this`seen, this`trips
      ensures Pair(Keys(), tripped) == Record(threshold, old(Keys()), key)
      ensures trips == old(trips) + (if tripped then 1 else 0)
    {
      if |key.text| > MAX_KEY_BYTES { return false; }
      if last.Some? && prevLast.Some? {
        if key != last.value && key == prevLast.value {
          altRun := altRun + 1;
          if altRun >= threshold {
            trips := trips + 1;
            altRun, last, prevLast, seen := 0, None, None, map[];
            return true;
          }
        } else if key != prevLast.value {
          altRun := 0;
        }
      }
      prevLast := last;
      last := Some(key);
      var count := (if key in seen then seen[key] else 0) + 1;
      seen := seen[key := count];
      if count >= threshold {
        trips := trips + 1;
        seen := map[];
        tripped := true;
      } else {
        tripped := false;
      }
    }

    method RecordStateStep(fp: Fingerprint) returns (code: Option<ReasonCode>)
      modifies this`fpPrev2, this`fpPrev1, this`patchRun, this`trips, this`lastTrip
      ensures Pair(Patches(), code.Some?) == StateStep(threshold, old(Patches()), fp)
      ensures code.Some? ==> code.value == PatchRevertPatch && lastTrip == code
      ensures code.None? ==> lastTrip == old(lastTrip)
      ensures trips == old(trips) + (if code.Some? then 1 else 0)
    {
      if fpPrev2.Some? && fpPrev1.Some? {
        var prev2, prev1 := fpPrev2.value, fpPrev1.value;
        var held := SameContext(prev2, fp) && SameContext(prev1, fp);
        if held && fp.repoState == prev2.repoState && fp.repoState != prev1.repoState {
          patchRun := patchRun + 1;
          if patchRun >= threshold {
            patchRun, fpPrev1, fpPrev2 := 0, None, None;
            trips := trips + 1;
            lastTrip := Some(PatchRevertPatch);
            return lastTrip;
          }
        } else if fp.repoState != prev1.repoState || !held {
          patchRun := 0;
        }
      }
      fpPrev2 := fpPrev1;
      fpPrev1 := Some(fp);
      code := None;
    }

    method PushEvidence(e: Evidence)
      modifies this`evidenceRing
      ensures evidenceRing == Suffix(old(evidenceRing) + [e], EVIDENCE_RING_CAP)
    {
      evidenceRing := evidenceRing + [e];
      ghost var pushed := evidenceRing;
      while |evidenceRing| > EVIDENCE_RING_CAP
        invariant |evidenceRing| <= |pushed| && evidenceRing == pushed[|pushed| - |evidenceRing|..]
        invariant evidenceRing == pushed || |evidenceRing| >= EVIDENCE_RING_CAP
      {
        evidenceRing := evidenceRing[1..];
      }
    }

    method RecordToolEvidence(command: nat, hash: nat) returns (code: Option<ReasonCode>)
      modifies this`evidenceRing, this`evLast, this`evRun, this`trips, this`lastTrip
      ensures Pair(Seen(), code.Some?) == EvidenceStep(old(Seen()), Evidence(command, hash))
      ensures |evidenceRing| <= EVIDENCE_RING_CAP
      ensures code.Some? ==> code.value == RepeatedEvidenceSet && lastTrip == code
      ensures code.None? ==> lastTrip == old(lastTrip)
      ensures trips == old(trips) + (if code.Some? then 1 else 0)
    {
      PushEvidence(Evidence(command, hash));
      var run := 1;
      if evLast.Some? {
        if command == evLast.value.command {
          run := 0;
        } else if hash == evLast.value.hash {
          run := evRun + 1;
        }
      }
      evRun := run;
      if run >= REPEATED_EVIDENCE_MIN {
        evRun, evidenceRing, evLast := 0, [], None;
        trips := trips + 1;
        lastTrip := Some(RepeatedEvidenceSet);
        return lastTrip;
      }
      evLast := Some(Evidence(command, hash));
      code := None;
    }

    /** `key` is the trimmed failure message; the map gives up an arbitrary entry when full. */
    method RecordFailure(key: Key, fingerprint: nat) returns (code: Option<ReasonCode>, ghost victim: Key)
      requires |failState| <= FAILURE_FP_CAP
      modifies this`failState, this`trips, this`lastTrip
      ensures Pair(failState, code.Some?) == FailureStep(threshold, old(failState), Failure(key, fingerprint, victim))
      ensures |failState| <= FAILURE_FP_CAP
      ensures code.Some? ==> code.value == LoopDetected && lastTrip == code
      ensures code.None? ==> lastTrip == old(lastTrip)
      ensures trips == old(trips) + (if code.Some? then 1 else 0)
    {
      victim := key;
      if Ignored(key) { return None, key; }
      if key !in failState && |failState| >= FAILURE_FP_CAP {
        var oldest :| oldest in failState;
        victim := oldest;
        failState := failState - {oldest};
      }
      FailureMapBounded(threshold, old(failState), Failure(key, fingerprint, victim));
      ghost var expected := FailureStep(threshold, old(failState), Failure(key, fingerprint, victim)).first;
      var entry := if key in failState then failState[key] else Pair(fingerprint, 0);
      if entry.first != fingerprint {
        failState := failState[key := Pair(fingerprint, 1)];
        assert failState == expected;
        return None, victim;
      }
      if entry.second + 1 >= threshold {
        failState := failState[key := Pair(fingerprint, 0)];
        assert failState == expected;
        trips := trips + 1;
        lastTrip := Some(LoopDetected);
        return lastTrip, victim;
      }
      failState := failState[key := Pair(fingerprint, entry.second + 1)];
      assert failState == expected;
      code := None;
    }
  }
}
