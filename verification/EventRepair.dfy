/**
 * When the repair recursion ends. Announcing a loss emits, emitting may overflow, and
 * an overflow on an attached port announces at once, with nothing in the program to
 * stop it. It ends when the announcements and snapshots of the sessions concerned
 * fit the queue together, one nested overflow deep at most; and it never ends when
 * one open session's snapshot alone is larger than the queue. `EventRepairLimit` says
 * exactly when it ends.
 */
module EventRepair {
  import opened Sequences
  import opened Wrappers
  import opened EventStream

  // ---- What an emission leaves alone ----------------------------------------

  ghost predicate DistinctGaps(gaps: seq<Gap>) {
    forall i, j :: 0 <= i < j < |gaps| ==> gaps[i].session != gaps[j].session
  }

  /** Every session that waits or lost something is one of `known`. */
  ghost predicate Within(st: State, known: seq<SessionId>) {
    && (forall e :: e in st.pending && e.session.Some? ==> e.session.value in known)
    && (forall gap :: gap in st.dropped ==> gap.session in known)
    && DistinctGaps(st.dropped)
  }

  ghost predicate SameHosts(st: State, next: State) {
    next.attached == st.attached && next.hosts == st.hosts && next.open == st.open
  }

  /** While a port is attached, a loss never outlives the emission that caused it. */
  ghost predicate Announced(st: State) {
    st.attached ==> st.dropped == []
  }

  lemma {:induction false} BumpWithin(gaps: seq<Gap>, s: SessionId)
    requires DistinctGaps(gaps)
    ensures DistinctGaps(Bump(gaps, s))
    ensures forall gap :: gap in Bump(gaps, s) ==>
            gap.session == s || exists before :: before in gaps && before.session == gap.session
  {
    if gaps != [] && gaps[0].session != s {
      BumpWithin(gaps[1..], s);
      forall gap | gap in Bump(gaps[1..], s) ensures gap.session != gaps[0].session {
        if gap.session != s {
          var earlier :| earlier in gaps[1..] && earlier.session == gap.session;
          var i :| 1 <= i < |gaps| && gaps[i] == earlier;
        }
      }
    }
  }

  lemma {:induction false} BumpAllWithin(gaps: seq<Gap>, envelopes: seq<Envelope>, known: seq<SessionId>)
    requires DistinctGaps(gaps)
    requires forall gap :: gap in gaps ==> gap.session in known
    requires forall e :: e in envelopes && e.session.Some? ==> e.session.value in known
    ensures DistinctGaps(BumpAll(gaps, envelopes))
    ensures forall gap :: gap in BumpAll(gaps, envelopes) ==> gap.session in known
  {
    if envelopes != [] {
      var n := |envelopes| - 1;
      assert envelopes[n] in envelopes;
      BumpAllWithin(gaps, envelopes[..n], known);
      if envelopes[n].session.Some? {
        BumpWithin(BumpAll(gaps, envelopes[..n]), envelopes[n].session.value);
      }
    }
  }

  lemma {:induction false} DrainKeeps(size: Size, st: State, known: seq<SessionId>)
    ensures SameHosts(st, Drain(size, st)) && Drain(size, st).dropped == st.dropped
    ensures Within(st, known) ==> Within(Drain(size, st), known)
    ensures Bytes(size, Drain(size, st).pending) <= Bytes(size, st.pending)
    decreases |st.pending|
  {
    if st.attached && st.pending != [] && !Blocked(size, st) {
      BytesOfRest(size, st.pending);
      DrainKeeps(size, PostFirst(size, st), known);
    }
  }

  lemma {:induction false} BytesOfRest(size: Size, envelopes: seq<Envelope>)
    requires envelopes != []
    ensures Bytes(size, envelopes) == size(envelopes[0]) + Bytes(size, envelopes[1..])
  {
    if |envelopes| > 1 {
      BytesOfRest(size, envelopes[..|envelopes| - 1]);
      assert envelopes[1..][..|envelopes| - 2] == envelopes[..|envelopes| - 1][1..];
    }
  }

  lemma EnqueueKeeps(st: State, payload: Payload, session: Option<SessionId>, known: seq<SessionId>)
    requires session.Some? ==> session.value in known
    ensures SameHosts(st, Enqueue(st, payload, session)) && Enqueue(st, payload, session).dropped == st.dropped
    ensures Within(st, known) ==> Within(Enqueue(st, payload, session), known)
  {
  }

  lemma LoseKeeps(st: State, payload: Payload, session: Option<SessionId>, known: seq<SessionId>)
    requires session.Some? ==> session.value in known
    ensures SameHosts(st, Lose(st, payload, session))
    ensures Within(st, known) ==> Within(Lose(st, payload, session), known)
  {
    if Within(st, known) {
      BumpAllWithin(st.dropped, st.pending + [Next(st, payload, session)], known);
    }
  }

  lemma {:induction false} EmitKeeps(
      size: Size, depth: nat, st: State, payload: Payload, session: Option<SessionId>, known: seq<SessionId>)
    requires Emit(size, depth, st, payload, session).Some?
    requires session.Some? ==> session.value in known
    ensures var next := Emit(size, depth, st, payload, session).value;
            && SameHosts(st, next)
            && (Announced(st) ==> Announced(next))
            && (Within(st, known) ==> Within(next, known))
    decreases depth, 0
  {
    hide Next, BumpAll, Bytes, Drain, Lookup, Enqueue, Lose;
    if !Overflows(size, st, payload, session) {
      EnqueueKeeps(st, payload, session, known);
      DrainKeeps(size, Enqueue(st, payload, session), known);
    } else {
      var lost := Lose(st, payload, session);
      LoseKeeps(st, payload, session, known);
      if lost.attached {
        AnnounceKeeps(size, depth - 1, lost, known);
        DrainKeeps(size, Announce(size, depth - 1, lost).value, known);
      }
    }
  }

  lemma {:induction false} AnnounceKeeps(size: Size, depth: nat, st: State, known: seq<SessionId>)
    requires Announce(size, depth, st).Some?
    ensures var next := Announce(size, depth, st).value;
            && SameHosts(st, next)
            && Announced(next)
            && (Within(st, known) ==> Within(next, known))
    decreases depth, 4
  {
    AnnounceEachKeeps(size, depth, st.(dropped := []), st.dropped, known);
  }

  lemma {:induction false} AnnounceEachKeeps(size: Size, depth: nat, st: State, gaps: seq<Gap>, known: seq<SessionId>)
    requires AnnounceEach(size, depth, st, gaps).Some?
    ensures var next := AnnounceEach(size, depth, st, gaps).value;
            && SameHosts(st, next)
            && (Announced(st) ==> Announced(next))
            && (Within(st, known) && (forall gap :: gap in gaps ==> gap.session in known) ==> Within(next, known))
    decreases depth, 3, |gaps|
  {
    if gaps != [] {
      var s := gaps[0].session;
      var all := if s in known then known else known + [s];
      EmitKeeps(size, depth, st, StreamGap(gaps[0].count), Some(s), all);
      var told := Emit(size, depth, st, StreamGap(gaps[0].count), Some(s)).value;
      if s in told.hosts {
        ResyncKeeps(size, depth, told, s, true, all);
      }
      AnnounceEachKeeps(size, depth, OnGap(size, depth, told, s).value, gaps[1..], known);
    }
  }

  lemma {:induction false} ResyncKeeps(
      size: Size, depth: nat, st: State, s: SessionId, afterGap: bool, known: seq<SessionId>)
    requires s in st.hosts && s in known
    requires Resync(size, depth, st, s, afterGap).Some?
    ensures var next := Resync(size, depth, st, s, afterGap).value;
            && SameHosts(st, next)
            && (Announced(st) ==> Announced(next))
            && (Within(st, known) ==> Within(next, known))
    decreases depth, 1
  {
    EmitKeeps(size, depth, Reset(st, s), Snapshot(SequenceFor(Reset(st, s), s), st.hosts[s], afterGap), Some(s), known);
  }

  // ---- Repairs that fit -----------------------------------------------------

  type Cost = SessionId -> nat

  /** `cost` covers one announcement and, for an open session, one snapshot of its current state. */
  ghost predicate Covers(size: Size, hosts: map<SessionId, seq<Change>>, cost: Cost) {
    && (forall s, q, n :: GapBytes(size, s, q, n) <= cost(s))
    && (forall s, q, n, flag :: s in hosts ==> GapBytes(size, s, q, n) + SnapshotBytes(size, hosts, s, flag) <= cost(s))
  }

  /** The part of that which repairing a gap needs: its snapshots say that they follow one. */
  ghost predicate CoversGaps(size: Size, hosts: map<SessionId, seq<Change>>, cost: Cost) {
    && (forall s, q, n :: GapBytes(size, s, q, n) <= cost(s))
    && (forall s, q, n :: s in hosts ==> GapBytes(size, s, q, n) + SnapshotBytes(size, hosts, s, true) <= cost(s))
  }

  function GapBytes(size: Size, s: SessionId, sequence: nat, count: nat): nat {
    size(Envelope(sequence, Some(s), StreamGap(count)))
  }

  function SnapshotBytes(size: Size, hosts: map<SessionId, seq<Change>>, s: SessionId, afterGap: bool): nat
    requires s in hosts
  {
    size(Envelope(1, Some(s), Snapshot(0, hosts[s], afterGap)))
  }

  function Total(cost: Cost, ids: seq<SessionId>): nat {
    if ids == [] then 0 else cost(ids[0]) + Total(cost, ids[1..])
  }

  function Ids(gaps: seq<Gap>): seq<SessionId> {
    seq(|gaps|, i requires 0 <= i < |gaps| => gaps[i].session)
  }

  /** The repairs of every session that could need one fit the queue together. */
  ghost predicate RepairsFit(size: Size, hosts: map<SessionId, seq<Change>>, known: seq<SessionId>, cost: Cost) {
    Covers(size, hosts, cost) && Total(cost, known) <= MAX_QUEUED_SESSION_BYTES
  }

  lemma {:induction false} TotalSplits(cost: Cost, a: seq<SessionId>, b: seq<SessionId>)
    ensures Total(cost, a + b) == Total(cost, a) + Total(cost, b)
  {
    if a == [] {
      assert a + b == b;
    } else {
      assert (a + b)[1..] == a[1..] + b;
      TotalSplits(cost, a[1..], b);
    }
  }

  lemma {:induction false} DistinctTotal(cost: Cost, ids: seq<SessionId>, known: seq<SessionId>)
    requires forall i, j :: 0 <= i < j < |ids| ==> ids[i] != ids[j]
    requires forall s :: s in ids ==> s in known
    ensures Total(cost, ids) <= Total(cost, known)
    decreases |ids|
  {
    if ids != [] {
      assert ids[0] in ids;
      var i :| 0 <= i < |known| && known[i] == ids[0];
      var others := known[..i] + known[i + 1..];
      forall s | s in ids[1..] ensures s in others {
        assert s in ids && s in known;
        var j :| 0 <= j < |known| && known[j] == s;
        assert s != ids[0];
        assert s == if j < i then others[j] else others[j - 1];
      }
      DistinctTotal(cost, ids[1..], others);
      TotalSplits(cost, known[..i], known[i + 1..]);
      TotalSplits(cost, known[..i], known[i..]);
      assert known == known[..i] + known[i..];
    }
  }

  /** One emission that fits returns at once and adds no more than its own bytes to the queue. */
  lemma EmitFits(size: Size, depth: nat, st: State, payload: Payload, session: Option<SessionId>)
    requires !Overflows(size, st, payload, session)
    ensures Emit(size, depth, st, payload, session).Some?
    ensures var next := Emit(size, depth, st, payload, session).value;
            && SameHosts(st, next)
            && Bytes(size, next.pending) <= Bytes(size, st.pending) + size(Next(st, payload, session))
  {
    DrainKeeps(size, Enqueue(st, payload, session), []);
  }

  lemma ResyncFits(size: Size, depth: nat, st: State, s: SessionId, afterGap: bool)
    requires s in st.hosts
    requires Bytes(size, st.pending) + SnapshotBytes(size, st.hosts, s, afterGap) <= MAX_QUEUED_SESSION_BYTES
    ensures Resync(size, depth, st, s, afterGap).Some?
    ensures var next := Resync(size, depth, st, s, afterGap).value;
            && SameHosts(st, next)
            && Bytes(size, next.pending) <= Bytes(size, st.pending) + SnapshotBytes(size, st.hosts, s, afterGap)
  {
    var fenced := Reset(st, s);
    var snapshot := Snapshot(0, st.hosts[s], afterGap);
    assert Next(fenced, snapshot, Some(s)) == Envelope(1, Some(s), snapshot);
    EmitFits(size, depth, fenced, snapshot, Some(s));
  }

  /** A pass that fits the room left in the queue overflows nowhere, at any depth. */
  lemma {:induction false} AnnounceEachFits(size: Size, depth: nat, st: State, gaps: seq<Gap>, cost: Cost)
    requires CoversGaps(size, st.hosts, cost)
    requires Bytes(size, st.pending) + Total(cost, Ids(gaps)) <= MAX_QUEUED_SESSION_BYTES
    ensures AnnounceEach(size, depth, st, gaps).Some?
    decreases |gaps|
  {
    if gaps != [] {
      var s := gaps[0].session;
      assert Ids(gaps)[0] == s && Ids(gaps)[1..] == Ids(gaps[1..]);
      var gap := StreamGap(gaps[0].count);
      var e := Next(st, gap, Some(s));
      assert size(e) == GapBytes(size, s, e.sequence, gaps[0].count) <= cost(s);
      EmitFits(size, depth, st, gap, Some(s));
      var told := Emit(size, depth, st, gap, Some(s)).value;
      if s in told.hosts {
        assert GapBytes(size, s, e.sequence, gaps[0].count) + SnapshotBytes(size, st.hosts, s, true) <= cost(s);
        ResyncFits(size, depth, told, s, true);
      }
      AnnounceEachFits(size, depth, OnGap(size, depth, told, s).value, gaps[1..], cost);
    }
  }

  /** From an empty queue, announcing every known session cannot overflow. */
  lemma AnnounceFits(size: Size, depth: nat, st: State, known: seq<SessionId>, cost: Cost)
    requires RepairsFit(size, st.hosts, known, cost)
    requires Within(st, known) && st.pending == []
    ensures Announce(size, depth, st).Some?
  {
    DistinctTotal(cost, Ids(st.dropped), known);
    AnnounceEachFits(size, depth, st.(dropped := []), st.dropped, cost);
  }

  lemma EmitTerminates(
      size: Size, st: State, payload: Payload, session: Option<SessionId>, known: seq<SessionId>, cost: Cost)
    requires RepairsFit(size, st.hosts, known, cost)
    requires Within(st, known)
    requires session.Some? ==> session.value in known
    ensures Emit(size, 1, st, payload, session).Some?
  {
    if Overflows(size, st, payload, session) && st.attached {
      var lost := Lose(st, payload, session);
      BumpAllWithin(st.dropped, st.pending + [Next(st, payload, session)], known);
      AnnounceFits(size, 0, lost, known, cost);
    }
  }

  lemma {:induction false} AnnounceEachTerminates(
      size: Size, st: State, gaps: seq<Gap>, known: seq<SessionId>, cost: Cost)
    requires RepairsFit(size, st.hosts, known, cost)
    requires Within(st, known)
    requires forall gap :: gap in gaps ==> gap.session in known
    ensures AnnounceEach(size, 1, st, gaps).Some?
    decreases |gaps|
  {
    if gaps != [] {
      var s := gaps[0].session;
      assert gaps[0] in gaps;
      EmitTerminates(size, st, StreamGap(gaps[0].count), Some(s), known, cost);
      EmitKeeps(size, 1, st, StreamGap(gaps[0].count), Some(s), known);
      var told := Emit(size, 1, st, StreamGap(gaps[0].count), Some(s)).value;
      if s in told.hosts {
        ResyncTerminates(size, told, s, true, known, cost);
      }
      AnnounceEachTerminates(size, OnGap(size, 1, told, s).value, gaps[1..], known, cost);
    }
  }

  lemma ResyncTerminates(size: Size, st: State, s: SessionId, afterGap: bool, known: seq<SessionId>, cost: Cost)
    requires RepairsFit(size, st.hosts, known, cost)
    requires Within(st, known)
    requires s in st.hosts && s in known
    ensures Resync(size, 1, st, s, afterGap).Some?
    ensures var next := Resync(size, 1, st, s, afterGap).value; SameHosts(st, next) && Within(next, known)
  {
    var fenced := Reset(st, s);
    EmitTerminates(size, fenced, Snapshot(SequenceFor(fenced, s), st.hosts[s], afterGap), Some(s), known, cost);
    ResyncKeeps(size, 1, st, s, afterGap, known);
  }

  lemma {:induction false} ResyncEachTerminates(
      size: Size, st: State, ids: seq<SessionId>, already: set<SessionId>, known: seq<SessionId>, cost: Cost)
    requires RepairsFit(size, st.hosts, known, cost)
    requires Within(st, known)
    requires forall s :: s in ids ==> s in known
    ensures ResyncEach(size, 1, st, ids, already).Some?
    decreases |ids|
  {
    if ids == [] {
    } else if ids[0] in already || ids[0] !in st.hosts {
      ResyncEachTerminates(size, st, ids[1..], already, known, cost);
    } else {
      ResyncTerminates(size, st, ids[0], false, known, cost);
      ResyncEachTerminates(size, Resync(size, 1, st, ids[0], false).value, ids[1..], already, known, cost);
    }
  }

  lemma AttachTerminates(size: Size, st: State, restore: bool, known: seq<SessionId>, cost: Cost)
    requires RepairsFit(size, st.hosts, known, cost)
    requires Within(st, known)
    requires forall s :: s in st.open ==> s in known
    ensures Attach(size, 1, st, restore).Some?
  {
    DrainKeeps(size, TakePort(st), known);
    var flushed := Drain(size, TakePort(st));
    AnnounceEachTerminates(size, flushed.(dropped := []), flushed.dropped, known, cost);
    AnnounceKeeps(size, 1, flushed, known);
    var announced := Announce(size, 1, flushed).value;
    EmitTerminates(size, announced, HostNotice(HOST_READY), None, known, cost);
    EmitKeeps(size, 1, announced, HostNotice(HOST_READY), None, known);
    var ready := Emit(size, 1, announced, HostNotice(HOST_READY), None).value;
    EmitTerminates(size, ready, HostNotice(WORKSPACE_CHANGED), None, known, cost);
    EmitKeeps(size, 1, ready, HostNotice(WORKSPACE_CHANGED), None, known);
    var restored := if restore then Emit(size, 1, ready, HostNotice(WORKSPACE_CHANGED), None).value else ready;
    ResyncEachTerminates(size, restored, restored.open, GapSessions(flushed.dropped), known, cost);
  }

  // ---- Operations -----------------------------------------------------------

  /** The host states once the operation has moved them, before anything is emitted. */
  function HostsAfter(st: State, op: Op): map<SessionId, seq<Change>> {
    match op
    case DoRegister(s, history) => st.hosts[s := history]
    case DoChange(s, change) => Apply(st, s, change).hosts
    case DoReplace(s, history) => if s in st.hosts then st.hosts[s := history] else st.hosts
    case _ => st.hosts
  }

  predicate OpWithin(op: Op, known: seq<SessionId>) {
    match op
    case DoRegister(s, _) => s in known
    case DoChange(s, _) => s in known
    case _ => true
  }

  /** `open` lists the keys of the map of hosts. */
  ghost predicate OpenWithin(st: State, known: seq<SessionId>) {
    && (forall s :: s in st.open <==> s in st.hosts)
    && (forall s :: s in st.open ==> s in known)
  }

  /** One nested overflow is enough for every operation whose repairs fit the queue together. */
  lemma StepTerminates(size: Size, st: State, op: Op, known: seq<SessionId>, cost: Cost)
    requires Within(st, known) && OpenWithin(st, known) && OpWithin(op, known)
    requires RepairsFit(size, HostsAfter(st, op), known, cost)
    ensures Step(size, 1, st, op).Some?
  {
    match op
    case DoChange(s, change) => EmitTerminates(size, Apply(st, s, change), Changed(change), Some(s), known, cost);
    case DoNotice(notice) => EmitTerminates(size, st, HostNotice(notice), None, known, cost);
    case DoReplace(s, history) =>
      if s in st.hosts {
        ResyncTerminates(size, st.(hosts := st.hosts[s := history]), s, false, known, cost);
      }
    case DoResync(s) => if s in st.hosts { ResyncTerminates(size, st, s, true, known, cost); }
    case DoAttach(restore) => AttachTerminates(size, st, restore, known, cost);
    case _ =>
  }

  lemma {:induction false} RemoveKeeps(ids: seq<SessionId>, s: SessionId)
    ensures forall t :: t in Remove(ids, s) <==> t in ids && t != s
  {
    if ids != [] {
      RemoveKeeps(ids[1..], s);
      assert forall t :: t in ids <==> t == ids[0] || t in ids[1..];
    }
  }

  lemma {:induction false} WithoutWithin(gaps: seq<Gap>, s: SessionId)
    requires DistinctGaps(gaps)
    ensures DistinctGaps(Without(gaps, s))
    ensures forall gap :: gap in Without(gaps, s) ==> gap in gaps && gap.session != s
  {
    if gaps != [] {
      WithoutWithin(gaps[1..], s);
    }
  }

  lemma {:induction false} ResyncEachKeeps(
      size: Size, depth: nat, st: State, ids: seq<SessionId>, already: set<SessionId>, known: seq<SessionId>)
    requires ResyncEach(size, depth, st, ids, already).Some?
    requires forall s :: s in ids ==> s in known
    requires Within(st, known) && Announced(st)
    ensures var next := ResyncEach(size, depth, st, ids, already).value;
            SameHosts(st, next) && Announced(next) && Within(next, known)
    decreases |ids|
  {
    if ids == [] {
    } else if ids[0] in already || ids[0] !in st.hosts {
      ResyncEachKeeps(size, depth, st, ids[1..], already, known);
    } else {
      ResyncKeeps(size, depth, st, ids[0], false, known);
      ResyncEachKeeps(size, depth, Resync(size, depth, st, ids[0], false).value, ids[1..], already, known);
    }
  }

  lemma AttachKeeps(size: Size, depth: nat, st: State, restore: bool, known: seq<SessionId>)
    requires Attach(size, depth, st, restore).Some?
    requires Within(st, known)
    requires forall s :: s in st.open ==> s in known
    ensures var next := Attach(size, depth, st, restore).value;
            SameHosts(TakePort(st), next) && Announced(next) && Within(next, known)
  {
    DrainKeeps(size, TakePort(st), known);
    var flushed := Drain(size, TakePort(st));
    AnnounceKeeps(size, depth, flushed, known);
    var announced := Announce(size, depth, flushed).value;
    EmitKeeps(size, depth, announced, HostNotice(HOST_READY), None, known);
    var ready := Emit(size, depth, announced, HostNotice(HOST_READY), None).value;
    if restore {
      EmitKeeps(size, depth, ready, HostNotice(WORKSPACE_CHANGED), None, known);
    }
    var restored := if restore then Emit(size, depth, ready, HostNotice(WORKSPACE_CHANGED), None).value else ready;
    ResyncEachKeeps(size, depth, restored, restored.open, GapSessions(flushed.dropped), known);
    DrainKeeps(size, OnAttach(size, depth, announced, GapSessions(flushed.dropped), restore).value, known);
  }

  /** Every operation keeps what the termination argument needs, and announces what it lost. */
  lemma StepKeeps(size: Size, depth: nat, st: State, op: Op, known: seq<SessionId>)
    requires Step(size, depth, st, op).Some?
    requires Within(st, known) && OpenWithin(st, known) && OpWithin(op, known) && Announced(st)
    ensures var next := Step(size, depth, st, op).value;
            && Within(next, known) && OpenWithin(next, known) && Announced(next)
            && (!op.DoClose? ==> next.hosts == HostsAfter(st, op))
  {
    hide Emit, Resync, Attach, Drain, Next, BumpAll, Bytes, Lookup, SequenceFor;
    match op
    case DoRegister(s, history) =>
    case DoAnswer(s) =>
    case DoChange(s, change) => EmitKeeps(size, depth, Apply(st, s, change), Changed(change), Some(s), known);
    case DoNotice(notice) => EmitKeeps(size, depth, st, HostNotice(notice), None, known);
    case DoReplace(s, history) =>
      if s in st.hosts {
        ResyncKeeps(size, depth, st.(hosts := st.hosts[s := history]), s, false, known);
      }
    case DoResync(s) => if s in st.hosts { ResyncKeeps(size, depth, st, s, true, known); }
    case DoClose(s) =>
      if s in st.hosts {
        RemoveKeeps(st.open, s);
        WithoutWithin(st.dropped, s);
      }
    case DoAttach(restore) => AttachKeeps(size, depth, st, restore, known);
    case DoDetach =>
    case DoAck(count) => DrainKeeps(size, st.(inFlight := st.inFlight[Min(count, |st.inFlight|)..]), known);
  }

  // ---- The depth only matters when it is too small ---------------------------

  lemma {:induction false} EmitDeeper(size: Size, depth: nat, st: State, payload: Payload, session: Option<SessionId>)
    requires Emit(size, depth, st, payload, session).Some?
    ensures Emit(size, depth + 1, st, payload, session) == Emit(size, depth, st, payload, session)
    decreases depth, 0
  {
    if Overflows(size, st, payload, session) && st.attached {
      var lost := Lose(st, payload, session);
      AnnounceEachDeeper(size, depth - 1, lost.(dropped := []), lost.dropped);
    }
  }

  lemma {:induction false} AnnounceEachDeeper(size: Size, depth: nat, st: State, gaps: seq<Gap>)
    requires AnnounceEach(size, depth, st, gaps).Some?
    ensures AnnounceEach(size, depth + 1, st, gaps) == AnnounceEach(size, depth, st, gaps)
    decreases depth, 3, |gaps|
  {
    if gaps != [] {
      var s := gaps[0].session;
      EmitDeeper(size, depth, st, StreamGap(gaps[0].count), Some(s));
      var told := Emit(size, depth, st, StreamGap(gaps[0].count), Some(s)).value;
      OnGapDeeper(size, depth, told, s);
      var repaired := OnGap(size, depth, told, s).value;
      AnnounceEachDeeper(size, depth, repaired, gaps[1..]);
    }
  }

  lemma {:induction false} OnGapDeeper(size: Size, depth: nat, st: State, s: SessionId)
    requires OnGap(size, depth, st, s).Some?
    ensures OnGap(size, depth + 1, st, s) == OnGap(size, depth, st, s)
    decreases depth, 2
  {
    if s in st.hosts {
      var fenced := Reset(st, s);
      var snapshot := Snapshot(SequenceFor(fenced, s), st.hosts[s], true);
      assert OnGap(size, depth, st, s) == Resync(size, depth, st, s, true);
      EmitDeeper(size, depth, fenced, snapshot, Some(s));
      assert Resync(size, depth, st, s, true) == Emit(size, depth, fenced, snapshot, Some(s));
    }
  }

  // ---- Repairs that never fit -----------------------------------------------

  predicate Oversized(size: Size, hosts: map<SessionId, seq<Change>>, s: SessionId)
    requires s in hosts
  {
    && SnapshotBytes(size, hosts, s, true) > MAX_QUEUED_SESSION_BYTES
    && SnapshotBytes(size, hosts, s, false) > MAX_QUEUED_SESSION_BYTES
  }

  lemma {:induction false} BumpAllNames(gaps: seq<Gap>, envelopes: seq<Envelope>, s: SessionId)
    requires Mentions(envelopes, s)
    ensures exists gap :: gap in BumpAll(gaps, envelopes) && gap.session == s
  {
    var n := |envelopes| - 1;
    var before := BumpAll(gaps, envelopes[..n]);
    if envelopes[n].session == Some(s) {
      BumpNames(before, s, s);
    } else {
      BumpAllNames(gaps, envelopes[..n], s);
      if envelopes[n].session.Some? {
        BumpNames(before, envelopes[n].session.value, s);
      }
    }
  }

  lemma {:induction false} BumpNames(gaps: seq<Gap>, s: SessionId, t: SessionId)
    requires s == t || exists gap :: gap in gaps && gap.session == t
    ensures exists gap :: gap in Bump(gaps, s) && gap.session == t
  {
    if gaps == [] {
      assert Bump(gaps, s)[0].session == s;
    } else if gaps[0].session == t {
      assert Bump(gaps, s)[0].session == t;
    } else {
      if s != t {
        var gap :| gap in gaps && gap.session == t;
        assert gap in gaps[1..];
      }
      if gaps[0].session == s {
        var gap :| gap in gaps && gap.session == t;
        assert gap in Bump(gaps, s);
      } else {
        BumpNames(gaps[1..], s, t);
        var gap :| gap in Bump(gaps[1..], s) && gap.session == t;
        assert gap in Bump(gaps, s);
      }
    }
  }

  /** A snapshot larger than the queue is lost, announced and taken again, without end. */
  lemma {:induction false} OversizedResyncNeverReturns(size: Size, depth: nat, st: State, s: SessionId, afterGap: bool)
    requires st.attached && s in st.hosts && Oversized(size, st.hosts, s)
    ensures Resync(size, depth, st, s, afterGap).None?
    decreases depth, 1
  {
    var fenced := Reset(st, s);
    var snapshot := Snapshot(0, st.hosts[s], afterGap);
    assert Next(fenced, snapshot, Some(s)) == Envelope(1, Some(s), snapshot);
    assert size(Next(fenced, snapshot, Some(s))) == SnapshotBytes(size, st.hosts, s, afterGap);
    if depth > 0 {
      var lost := Lose(fenced, snapshot, Some(s));
      var gone := fenced.pending + [Next(fenced, snapshot, Some(s))];
      assert gone[|gone| - 1].session == Some(s);
      BumpAllNames(fenced.dropped, gone, s);
      OversizedGapNeverReturns(size, depth - 1, lost.(dropped := []), lost.dropped, s);
      assert Announce(size, depth - 1, lost).None?;
    }
    assert Emit(size, depth, fenced, snapshot, Some(s)).None?;
  }

  lemma {:induction false} OversizedGapNeverReturns(size: Size, depth: nat, st: State, gaps: seq<Gap>, s: SessionId)
    requires st.attached && s in st.hosts && Oversized(size, st.hosts, s)
    requires exists gap :: gap in gaps && gap.session == s
    ensures AnnounceEach(size, depth, st, gaps).None?
    decreases depth, 3, |gaps|
  {
    var first := gaps[0].session;
    var told := Emit(size, depth, st, StreamGap(gaps[0].count), Some(first));
    if told.Some? {
      EmitKeeps(size, depth, st, StreamGap(gaps[0].count), Some(first), [first]);
      if first == s {
        OversizedResyncNeverReturns(size, depth, told.value, s, true);
      } else {
        var repaired := OnGap(size, depth, told.value, first);
        if repaired.Some? {
          if first in told.value.hosts {
            ResyncKeeps(size, depth, told.value, first, true, [first]);
          }
          var gap :| gap in gaps && gap.session == s;
          assert gap in gaps[1..];
          OversizedGapNeverReturns(size, depth, repaired.value, gaps[1..], s);
        }
      }
    }
  }
}
