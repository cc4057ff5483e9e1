/**
 * What the receiver ends up with. A receiver folds what its port was handed: a
 * snapshot replaces a session's state and fences off every event at or below the
 * sequence it was taken at, any later event applies in order. Folding what was posted
 * and then what still waits gives exactly the host's own state of every session the
 * receiver holds, whatever was discarded on the way.
 */
module EventConvergence {
  import opened Sequences
  import opened Wrappers
  import opened EventStream
  import EventRepair

  // ---- The receiver ---------------------------------------------------------

  function Accept(client: Client, receipt: Receipt, s: SessionId): Client {
    match receipt
    case Posted(e) => Receive(client, e, s)
    case Answered(t, fence, history) => if t == s then Based(fence, history) else client
  }

  function Holds(receipts: seq<Receipt>, s: SessionId): Client {
    if receipts == [] then NoBase
    else Accept(Holds(receipts[..|receipts| - 1], s), receipts[|receipts| - 1], s)
  }

  /** What the receiver of the current port holds once everything that waits has reached it. */
  function View(st: State, s: SessionId): Client {
    CatchUp(Holds(st.trace.received, s), st.pending, s)
  }

  ghost predicate Converged(st: State, hosts: map<SessionId, seq<Change>>, s: SessionId)
    requires s in hosts
  {
    View(st, s).Based? && View(st, s).history == hosts[s] && View(st, s).fence <= SequenceFor(st, s)
  }

  // ---- Folding --------------------------------------------------------------

  lemma {:induction false} CatchUpFirst(client: Client, envelopes: seq<Envelope>, s: SessionId)
    requires envelopes != []
    ensures CatchUp(client, envelopes, s) == CatchUp(Receive(client, envelopes[0], s), envelopes[1..], s)
  {
    if |envelopes| > 1 {
      CatchUpFirst(client, envelopes[..|envelopes| - 1], s);
      assert envelopes[1..][..|envelopes| - 2] == envelopes[..|envelopes| - 1][1..];
    }
  }

  lemma {:induction false} FencedRest(envelopes: seq<Envelope>, s: SessionId, sequence: nat)
    requires envelopes != []
    requires Fenced(envelopes, s, sequence)
    ensures Fenced(envelopes[1..], s, sequence)
  {
    var n := |envelopes| - 1;
    if n > 0 && !(envelopes[n].session == Some(s) && envelopes[n].payload.Snapshot?) {
      FencedRest(envelopes[..n], s, sequence);
      assert envelopes[1..][..n - 1] == envelopes[..n][1..];
    }
  }

  lemma {:induction false} FencedRises(envelopes: seq<Envelope>, s: SessionId, low: nat, high: nat)
    requires low <= high
    requires Fenced(envelopes, s, low)
    ensures Fenced(envelopes, s, high)
  {
    var n := |envelopes| - 1;
    if envelopes != [] && !(envelopes[n].session == Some(s) && envelopes[n].payload.Snapshot?) {
      FencedRises(envelopes[..n], s, low, high);
    }
  }

  /** With a snapshot waiting, what the receiver held before does not matter. */
  lemma {:induction false} SnapshotDecides(a: Client, b: Client, envelopes: seq<Envelope>, s: SessionId)
    requires HasSnapshot(envelopes, s)
    ensures CatchUp(a, envelopes, s) == CatchUp(b, envelopes, s)
  {
    var n := |envelopes| - 1;
    var i :| 0 <= i < |envelopes| && envelopes[i].session == Some(s) && envelopes[i].payload.Snapshot?;
    if i < n {
      assert envelopes[..n][i] == envelopes[i];
      SnapshotDecides(a, b, envelopes[..n], s);
    }
  }

  /** With no snapshot waiting, the receiver keeps a state exactly when the fence covers what waits. */
  lemma {:induction false} FenceDecides(envelopes: seq<Envelope>, s: SessionId, fence: nat, history: seq<Change>)
    requires !HasSnapshot(envelopes, s)
    ensures var after := CatchUp(Based(fence, history), envelopes, s);
            && after.Based? && after.fence == fence && |after.history| >= |history|
            && (Fenced(envelopes, s, fence) <==> after.history == history)
            && (!Fenced(envelopes, s, fence) ==> |after.history| > |history|)
  {
    if envelopes != [] {
      var n := |envelopes| - 1;
      forall i | 0 <= i < n
        ensures !(envelopes[..n][i].session == Some(s) && envelopes[..n][i].payload.Snapshot?)
      {
        assert envelopes[..n][i] == envelopes[i];
      }
      FenceDecides(envelopes[..n], s, fence, history);
    }
  }

  lemma {:induction false} UnmentionedFold(client: Client, envelopes: seq<Envelope>, s: SessionId)
    requires !Mentions(envelopes, s)
    ensures CatchUp(client, envelopes, s) == client
  {
    if envelopes != [] {
      var n := |envelopes| - 1;
      assert envelopes[n] in envelopes;
      UnmentionedFold(client, envelopes[..n], s);
    }
  }

  lemma {:induction false} UnmentionedFenced(envelopes: seq<Envelope>, s: SessionId, sequence: nat)
    requires !Mentions(envelopes, s)
    ensures Fenced(envelopes, s, sequence) && !HasSnapshot(envelopes, s)
  {
    if envelopes != [] {
      var n := |envelopes| - 1;
      assert envelopes[n] in envelopes;
      UnmentionedFenced(envelopes[..n], s, sequence);
    }
  }

  // ---- The invariant --------------------------------------------------------

  predicate DroppedFrom(st: State, s: SessionId) {
    exists gap :: gap in st.dropped && gap.session == s
  }

  /**
   * What is kept for one open session. `hosts` are the host states the receiver is
   * compared with; `behind` are the sessions whose snapshot is still to be emitted.
   */
  ghost predicate Tracks(st: State, hosts: map<SessionId, seq<Change>>, behind: set<SessionId>, s: SessionId)
    requires s in hosts
  {
    && (s in st.trace.clean ==> Fenced(st.pending, s, SequenceFor(st, s)))
    && (s in st.trace.clean && st.attached && s !in behind && s !in st.trace.based ==> !HasSnapshot(st.pending, s))
    && (st.attached && s !in behind && s in st.trace.based && !DroppedFrom(st, s) ==> Converged(st, hosts, s))
  }

  ghost predicate TracksAll(st: State, hosts: map<SessionId, seq<Change>>, behind: set<SessionId>) {
    && st.hosts.Keys == hosts.Keys
    && forall s :: s in hosts ==> Tracks(st, hosts, behind, s)
  }

  predicate Refreshes(payload: Payload, session: Option<SessionId>, s: SessionId) {
    payload.Snapshot? && session == Some(s)
  }

  function Repaired(payload: Payload, session: Option<SessionId>): set<SessionId> {
    match session
    case None => {}
    case Some(s) => if payload.Snapshot? then {s} else {}
  }

  /** The host moves before it emits: by the change the event carries, or anyhow when the event is a snapshot. */
  ghost predicate Moves(was: map<SessionId, seq<Change>>, now: map<SessionId, seq<Change>>,
                        payload: Payload, session: Option<SessionId>)
  {
    && was.Keys == now.Keys
    && (payload.Snapshot? ==> session.Some? && session.value in now && payload.history == now[session.value])
    && forall s :: s in now && !Refreshes(payload, session, s) ==>
         now[s] == if session == Some(s) && payload.Changed? then was[s] + [payload.change] else was[s]
  }

  /** Before the emission every session is tracked, save the one a snapshot is about to replace. */
  ghost predicate ReadyToEmit(st: State, was: map<SessionId, seq<Change>>, behind: set<SessionId>,
                              payload: Payload, session: Option<SessionId>)
  {
    && Moves(was, st.hosts, payload, session)
    && (payload.Snapshot? ==> payload.fence == SequenceFor(st, session.value))
    && forall s :: s in was && !Refreshes(payload, session, s) ==> Tracks(st, was, behind, s)
  }

  lemma EnqueueTracksOne(st: State, was: map<SessionId, seq<Change>>, behind: set<SessionId>,
                         payload: Payload, session: Option<SessionId>, s: SessionId)
    requires ReadyToEmit(st, was, behind, payload, session)
    requires s in st.hosts
    ensures Tracks(Enqueue(st, payload, session), st.hosts, behind - Repaired(payload, session), s)
  {
    var next := Enqueue(st, payload, session);
    var e := Next(st, payload, session);
    assert next.pending[..|st.pending|] == st.pending;
    if !Refreshes(payload, session, s) {
      assert Tracks(st, was, behind, s);
      if s in st.trace.clean {
        FencedRises(st.pending, s, SequenceFor(st, s), SequenceFor(next, s));
      }
      assert !HasSnapshot(st.pending, s) ==> !HasSnapshot(next.pending, s);
    }
  }

  lemma {:induction false} BumpAllDrops(gaps: seq<Gap>, envelopes: seq<Envelope>, s: SessionId)
    requires !exists gap :: gap in BumpAll(gaps, envelopes) && gap.session == s
    ensures !Mentions(envelopes, s)
    ensures !exists gap :: gap in gaps && gap.session == s
  {
    if Mentions(envelopes, s) {
      EventRepair.BumpAllNames(gaps, envelopes, s);
    }
    if envelopes != [] {
      var n := |envelopes| - 1;
      var before := BumpAll(gaps, envelopes[..n]);
      if exists gap :: gap in before && gap.session == s {
        if envelopes[n].session.Some? {
          EventRepair.BumpNames(before, envelopes[n].session.value, s);
        }
      }
      BumpAllDrops(gaps, envelopes[..n], s);
    }
  }

  lemma LoseTracksOne(st: State, was: map<SessionId, seq<Change>>, behind: set<SessionId>,
                      payload: Payload, session: Option<SessionId>, s: SessionId)
    requires ReadyToEmit(st, was, behind, payload, session)
    requires s in st.hosts
    ensures Tracks(Lose(st, payload, session), st.hosts, behind - Repaired(payload, session), s)
  {
    var lost := Lose(st, payload, session);
    var gone := st.pending + [Next(st, payload, session)];
    if !DroppedFrom(lost, s) {
      BumpAllDrops(st.dropped, gone, s);
      assert gone[|st.pending|] in gone && session != Some(s);
      forall e | e in st.pending ensures e.session != Some(s) {
        assert e in gone;
      }
      assert Tracks(st, was, behind, s);
      UnmentionedFold(Holds(st.trace.received, s), st.pending, s);
    }
  }

  lemma PostFirstTracks(size: Size, st: State, hosts: map<SessionId, seq<Change>>, behind: set<SessionId>, s: SessionId)
    requires st.pending != [] && s in hosts
    requires Tracks(st, hosts, behind, s)
    ensures Tracks(PostFirst(size, st), hosts, behind, s)
  {
    var next := PostFirst(size, st);
    if s in st.trace.clean {
      FencedRest(st.pending, s, SequenceFor(st, s));
    }
    CatchUpFirst(Holds(st.trace.received, s), st.pending, s);
    assert next.trace.received[..|st.trace.received|] == st.trace.received;
    if i :| 0 <= i < |next.pending| && next.pending[i].session == Some(s) && next.pending[i].payload.Snapshot? {
      assert st.pending[i + 1] == next.pending[i];
    }
  }

  lemma {:induction false} DrainTracks(size: Size, st: State, behind: set<SessionId>)
    requires TracksAll(st, st.hosts, behind)
    ensures var next := Drain(size, st);
            && next.hosts == st.hosts && next.trace.clean == st.trace.clean && next.trace.based == st.trace.based
            && TracksAll(next, next.hosts, behind)
    decreases |st.pending|
  {
    if st.attached && st.pending != [] && !Blocked(size, st) {
      forall s | s in st.hosts ensures Tracks(PostFirst(size, st), st.hosts, behind, s) {
        PostFirstTracks(size, st, st.hosts, behind, s);
      }
      DrainTracks(size, PostFirst(size, st), behind);
    }
  }

  lemma Weaken(st: State, hosts: map<SessionId, seq<Change>>, behind: set<SessionId>, more: set<SessionId>)
    requires TracksAll(st, hosts, behind) && behind <= more
    ensures TracksAll(st, hosts, more)
  {
    forall s | s in hosts ensures Tracks(st, hosts, more, s) {
      assert Tracks(st, hosts, behind, s);
    }
  }

  /** Emptying the map of drops puts its sessions behind instead. */
  lemma TakeTracks(st: State, behind: set<SessionId>)
    requires TracksAll(st, st.hosts, behind)
    ensures TracksAll(st.(dropped := []), st.hosts, behind + GapSessions(st.dropped))
  {
    var taken := st.(dropped := []);
    forall s | s in st.hosts
      ensures Tracks(taken, st.hosts, behind + GapSessions(st.dropped), s)
    {
      assert Tracks(st, st.hosts, behind, s);
      if s !in GapSessions(st.dropped) {
        assert !DroppedFrom(st, s);
      }
      assert View(taken, s) == View(st, s);
    }
  }

  // ---- The repair recursion -------------------------------------------------

  ghost predicate Grows(st: State, next: State) {
    && EventRepair.SameHosts(st, next)
    && st.trace.clean <= next.trace.clean
    && st.trace.based <= next.trace.based
  }

  ghost predicate HoldsSnapshot(st: State, s: SessionId) {
    s in st.trace.based
  }

  lemma {:induction false} EmitTracks(
      size: Size, depth: nat, st: State, payload: Payload, session: Option<SessionId>,
      was: map<SessionId, seq<Change>>, behind: set<SessionId>)
    requires ReadyToEmit(st, was, behind, payload, session)
    requires Emit(size, depth, st, payload, session).Some?
    ensures var next := Emit(size, depth, st, payload, session).value;
            && Grows(st, next)
            && TracksAll(next, next.hosts, behind - Repaired(payload, session))
            && forall s :: s in Repaired(payload, session) ==> HoldsSnapshot(next, s)
    decreases depth, 0
  {
    hide ReadyToEmit, TracksAll, HoldsSnapshot, Enqueue, Lose, Drain;
    var after := behind - Repaired(payload, session);
    if !Overflows(size, st, payload, session) {
      QueuedTracks(st, was, behind, payload, session);
      DrainedTracks(size, Enqueue(st, payload, session), after, Repaired(payload, session));
    } else {
      LostTracks(st, was, behind, payload, session);
      var lost := Lose(st, payload, session);
      if lost.attached {
        AnnounceTracks(size, depth - 1, lost, after);
        var repaired := Announce(size, depth - 1, lost).value;
        SnapshotsStay(lost, repaired);
        Weaken(repaired, repaired.hosts, after - GapSessions(lost.dropped), after);
        DrainedTracks(size, repaired, after, Repaired(payload, session));
      }
    }
  }

  lemma QueuedTracks(
      st: State, was: map<SessionId, seq<Change>>, behind: set<SessionId>, payload: Payload, session: Option<SessionId>)
    requires ReadyToEmit(st, was, behind, payload, session)
    ensures var queued := Enqueue(st, payload, session);
            && Grows(st, queued)
            && TracksAll(queued, queued.hosts, behind - Repaired(payload, session))
            && forall s :: s in Repaired(payload, session) ==> HoldsSnapshot(queued, s)
  {
    var queued := Enqueue(st, payload, session);
    forall s | s in st.hosts
      ensures Tracks(queued, st.hosts, behind - Repaired(payload, session), s)
    {
      EnqueueTracksOne(st, was, behind, payload, session, s);
    }
  }

  lemma LostTracks(
      st: State, was: map<SessionId, seq<Change>>, behind: set<SessionId>, payload: Payload, session: Option<SessionId>)
    requires ReadyToEmit(st, was, behind, payload, session)
    ensures var lost := Lose(st, payload, session);
            && Grows(st, lost)
            && TracksAll(lost, lost.hosts, behind - Repaired(payload, session))
            && forall s :: s in Repaired(payload, session) ==> HoldsSnapshot(lost, s)
  {
    var lost := Lose(st, payload, session);
    forall s | s in st.hosts
      ensures Tracks(lost, st.hosts, behind - Repaired(payload, session), s)
    {
      LoseTracksOne(st, was, behind, payload, session, s);
    }
  }

  lemma DrainedTracks(size: Size, st: State, behind: set<SessionId>, repaired: set<SessionId>)
    requires TracksAll(st, st.hosts, behind)
    requires forall s :: s in repaired ==> HoldsSnapshot(st, s)
    ensures var next := Drain(size, st);
            && Grows(st, next)
            && TracksAll(next, next.hosts, behind)
            && forall s :: s in repaired ==> HoldsSnapshot(next, s)
  {
    DrainTracks(size, st, behind);
    EventRepair.DrainKeeps(size, st, []);
  }

  lemma {:induction false} AnnounceTracks(size: Size, depth: nat, st: State, behind: set<SessionId>)
    requires TracksAll(st, st.hosts, behind)
    requires Announce(size, depth, st).Some?
    ensures var next := Announce(size, depth, st).value;
            && Grows(st, next)
            && TracksAll(next, next.hosts, behind - GapSessions(st.dropped))
            && forall s :: s in GapSessions(st.dropped) && s in st.hosts ==> HoldsSnapshot(next, s)
    decreases depth, 4
  {
    TakeTracks(st, behind);
    AnnounceEachTracks(size, depth, st.(dropped := []), st.dropped, behind + GapSessions(st.dropped));
    var next := Announce(size, depth, st).value;
    Weaken(next, next.hosts,
           behind + GapSessions(st.dropped) - GapSessions(st.dropped), behind - GapSessions(st.dropped));
  }

  lemma {:induction false} AnnounceEachTracks(
      size: Size, depth: nat, st: State, gaps: seq<Gap>, behind: set<SessionId>)
    requires TracksAll(st, st.hosts, behind)
    requires AnnounceEach(size, depth, st, gaps).Some?
    ensures var next := AnnounceEach(size, depth, st, gaps).value;
            && Grows(st, next)
            && TracksAll(next, next.hosts, behind - GapSessions(gaps))
            && forall s :: s in GapSessions(gaps) && s in st.hosts ==> HoldsSnapshot(next, s)
    decreases depth, 3, |gaps|
  {
    hide TracksAll, GapSessions, HoldsSnapshot, Emit, OnGap;
    GapSessionsSplit(gaps, behind);
    if gaps != [] {
      var s := gaps[0].session;
      TellTracks(size, depth, st, gaps[0], behind);
      var told := Emit(size, depth, st, StreamGap(gaps[0].count), Some(s)).value;
      OnGapTracks(size, depth, told, s, behind);
      var repaired := OnGap(size, depth, told, s).value;
      AnnounceEachTracks(size, depth, repaired, gaps[1..], behind - {s});
      SnapshotsStay(repaired, AnnounceEach(size, depth, repaired, gaps[1..]).value);
    }
  }

  /** Announcing one gap repairs nothing yet. */
  lemma {:induction false} TellTracks(size: Size, depth: nat, st: State, gap: Gap, behind: set<SessionId>)
    requires TracksAll(st, st.hosts, behind)
    requires Emit(size, depth, st, StreamGap(gap.count), Some(gap.session)).Some?
    ensures var told := Emit(size, depth, st, StreamGap(gap.count), Some(gap.session)).value;
            Grows(st, told) && TracksAll(told, told.hosts, behind)
    decreases depth, 2
  {
    EmitTracks(size, depth, st, StreamGap(gap.count), Some(gap.session), st.hosts, behind);
    assert behind - Repaired(StreamGap(gap.count), Some(gap.session)) == behind;
  }

  /** A gap repaired, or one of a session that is no longer open, leaves the session behind no more. */
  lemma {:induction false} OnGapTracks(size: Size, depth: nat, st: State, s: SessionId, behind: set<SessionId>)
    requires TracksAll(st, st.hosts, behind)
    requires OnGap(size, depth, st, s).Some?
    ensures var next := OnGap(size, depth, st, s).value;
            && Grows(st, next)
            && TracksAll(next, next.hosts, behind - {s})
            && (s in st.hosts ==> HoldsSnapshot(next, s))
    decreases depth, 2
  {
    if s in st.hosts {
      ResyncTracks(size, depth, st, s, true, st.hosts, behind);
    } else {
      forall t | t in st.hosts
        ensures Tracks(st, st.hosts, behind - {s}, t)
      {
        assert Tracks(st, st.hosts, behind, t);
      }
    }
  }

  lemma GapSessionsSplit(gaps: seq<Gap>, behind: set<SessionId>)
    ensures gaps == [] ==> GapSessions(gaps) == {} && behind - GapSessions(gaps) == behind
    ensures gaps != [] ==>
              var s := gaps[0].session;
              && GapSessions(gaps) == {s} + GapSessions(gaps[1..])
              && behind - {s} - GapSessions(gaps[1..]) == behind - GapSessions(gaps)
  {
    if gaps != [] {
      assert gaps == [gaps[0]] + gaps[1..];
    }
  }

  lemma SnapshotsStay(st: State, next: State)
    requires Grows(st, next)
    ensures forall s :: HoldsSnapshot(st, s) ==> HoldsSnapshot(next, s)
  {
  }

  /** A resync needs nothing of its own session: whatever the host's state has become, the snapshot carries it. */
  lemma {:induction false} ResyncTracks(
      size: Size, depth: nat, st: State, s: SessionId, afterGap: bool, was: map<SessionId, seq<Change>>,
      behind: set<SessionId>)
    requires s in st.hosts && was.Keys == st.hosts.Keys
    requires forall t :: t in st.hosts && t != s ==> was[t] == st.hosts[t]
    requires forall t :: t in was && t != s ==> Tracks(st, was, behind, t)
    requires Resync(size, depth, st, s, afterGap).Some?
    ensures var next := Resync(size, depth, st, s, afterGap).value;
            && Grows(st, next)
            && TracksAll(next, next.hosts, behind - {s})
            && HoldsSnapshot(next, s)
    decreases depth, 1
  {
    var fenced := Reset(st, s);
    var snapshot := Snapshot(SequenceFor(fenced, s), st.hosts[s], afterGap);
    forall t | t in was && t != s ensures Tracks(fenced, was, behind, t) {
      assert Tracks(st, was, behind, t);
      assert View(fenced, t) == View(st, t);
    }
    EmitTracks(size, depth, fenced, snapshot, Some(s), was, behind);
    assert Repaired(snapshot, Some(s)) == {s};
  }

  lemma {:induction false} ResyncEachTracks(
      size: Size, depth: nat, st: State, ids: seq<SessionId>, already: set<SessionId>, behind: set<SessionId>)
    requires TracksAll(st, st.hosts, behind)
    requires ResyncEach(size, depth, st, ids, already).Some?
    requires forall s :: s in already && s in st.hosts ==> HoldsSnapshot(st, s)
    ensures var next := ResyncEach(size, depth, st, ids, already).value;
            && Grows(st, next)
            && TracksAll(next, next.hosts, behind - (set s | s in ids && s !in already))
            && forall s :: s in ids && s in st.hosts ==> HoldsSnapshot(next, s)
    decreases |ids|
  {
    if ids == [] {
      assert behind - (set s | s in ids && s !in already) == behind;
    } else {
      var rest := set s | s in ids[1..] && s !in already;
      var all := set s | s in ids && s !in already;
      assert ids == [ids[0]] + ids[1..];
      if ids[0] in already || ids[0] !in st.hosts {
        ResyncEachTracks(size, depth, st, ids[1..], already, behind);
        var next := ResyncEach(size, depth, st, ids, already).value;
        forall t | t in next.hosts ensures Tracks(next, next.hosts, behind - all, t) {
          assert Tracks(next, next.hosts, behind - rest, t);
          assert t in all ==> t in rest;
        }
      } else {
        ResyncTracks(size, depth, st, ids[0], false, st.hosts, behind);
        ResyncEachTracks(size, depth, Resync(size, depth, st, ids[0], false).value, ids[1..], already,
                         behind - {ids[0]});
        assert behind - {ids[0]} - rest == behind - all;
      }
    }
  }

  // ---- Operations -----------------------------------------------------------

  lemma NoticeTracks(size: Size, depth: nat, st: State, notice: nat, behind: set<SessionId>)
    requires TracksAll(st, st.hosts, behind)
    requires Emit(size, depth, st, HostNotice(notice), None).Some?
    ensures var next := Emit(size, depth, st, HostNotice(notice), None).value;
            Grows(st, next) && TracksAll(next, next.hosts, behind)
  {
    EmitTracks(size, depth, st, HostNotice(notice), None, st.hosts, behind);
    assert behind - Repaired(HostNotice(notice), None) == behind;
  }

  /** A new port starts with nothing and ends holding, or about to receive, every open session. */
  lemma AttachTracks(size: Size, depth: nat, st: State, restore: bool)
    requires TracksAll(st, st.hosts, {})
    requires forall s :: s in st.open <==> s in st.hosts
    requires Attach(size, depth, st, restore).Some?
    ensures var next := Attach(size, depth, st, restore).value;
            && EventRepair.SameHosts(TakePort(st), next)
            && TracksAll(next, next.hosts, {})
            && forall s :: s in next.hosts ==> HoldsSnapshot(next, s)
  {
    var all := st.hosts.Keys;
    var taken := TakePort(st);
    forall s | s in st.hosts ensures Tracks(taken, st.hosts, all, s) {
      assert Tracks(st, st.hosts, {}, s);
    }
    DrainTracks(size, taken, all);
    EventRepair.DrainKeeps(size, taken, []);
    var flushed := Drain(size, taken);
    var already := GapSessions(flushed.dropped);
    AnnounceTracks(size, depth, flushed, all);
    var announced := Announce(size, depth, flushed).value;
    NoticeTracks(size, depth, announced, HOST_READY, all - already);
    var ready := Emit(size, depth, announced, HostNotice(HOST_READY), None).value;
    if restore {
      NoticeTracks(size, depth, ready, WORKSPACE_CHANGED, all - already);
    }
    var restored := if restore then Emit(size, depth, ready, HostNotice(WORKSPACE_CHANGED), None).value else ready;
    assert forall s :: s in restored.open <==> s in restored.hosts;
    ResyncEachTracks(size, depth, restored, restored.open, already, all - already);
    var fenced := OnAttach(size, depth, announced, already, restore).value;
    assert all - already - (set s | s in restored.open && s !in already) == {};
    DrainTracks(size, fenced, {});
    EventRepair.DrainKeeps(size, fenced, []);
  }

  /**
   * When a snapshot answered to a command leaves the receiver right, for every state, as the
   * waiting envelopes alone decide: with no snapshot of the session among them, exactly when
   * every change of it among them is at or below the fence; with one, exactly when from that
   * one on they fold to the host's own state.
   */
  lemma AnswerConverges(st: State, s: SessionId)
    requires s in st.hosts
    ensures Converged(Answer(st, s), st.hosts, s) <==> AnswersRightly(st, s)
  {
    var next := Answer(st, s);
    assert next.trace.received[..|st.trace.received|] == st.trace.received;
    if HasSnapshot(st.pending, s) {
      SnapshotDecides(NoBase, Holds(next.trace.received, s), st.pending, s);
    } else {
      FenceDecides(st.pending, s, SequenceFor(st, s), st.hosts[s]);
    }
  }

  /** A clean session is always answered rightly. */
  lemma CleanIsAnsweredRightly(st: State, s: SessionId)
    requires TracksAll(st, st.hosts, {}) && EventRepair.Announced(st) && st.attached
    requires s in st.hosts && s in st.trace.clean
    ensures AnswersRightly(st, s)
  {
    assert Tracks(st, st.hosts, {}, s);
    if HasSnapshot(st.pending, s) {
      SnapshotDecides(NoBase, Holds(st.trace.received, s), st.pending, s);
    }
  }

  lemma AnswerTracks(st: State, s: SessionId)
    requires TracksAll(st, st.hosts, {}) && EventRepair.Announced(st)
    requires s in st.hosts
    ensures TracksAll(Answer(st, s), st.hosts, {})
  {
    var next := Answer(st, s);
    assert next.trace.received[..|st.trace.received|] == st.trace.received;
    AnswerConverges(st, s);
    if s in st.trace.clean && st.attached {
      CleanIsAnsweredRightly(st, s);
    }
    hide AnswersRightly, Converged;
    forall t | t in next.hosts ensures Tracks(next, st.hosts, {}, t) {
      assert Tracks(st, st.hosts, {}, t);
      if t != s {
        SameWhenOthersAnswered(st, s, t);
      }
    }
  }

  lemma SameWhenOthersAnswered(st: State, s: SessionId, t: SessionId)
    requires s in st.hosts && t in st.hosts && t != s
    ensures Converged(Answer(st, s), st.hosts, t) <==> Converged(st, st.hosts, t)
  {
    var next := Answer(st, s);
    assert next.trace.received[..|st.trace.received|] == st.trace.received;
    assert View(next, t) == View(st, t);
  }

  lemma RegisterTracks(st: State, s: SessionId, history: seq<Change>)
    requires TracksAll(st, st.hosts, {})
    ensures TracksAll(Register(st, s, history), Register(st, s, history).hosts, {})
  {
    var next := Register(st, s, history);
    forall t | t in next.hosts ensures Tracks(next, next.hosts, {}, t) {
      if t == s {
        if !Mentions(st.pending, s) {
          UnmentionedFenced(st.pending, s, SequenceFor(st, s));
        }
      } else {
        assert Tracks(st, st.hosts, {}, t);
        assert View(next, t) == View(st, t);
      }
    }
  }

  lemma {:induction false} WithoutDrops(gaps: seq<Gap>, s: SessionId, t: SessionId)
    requires t != s
    ensures (exists gap :: gap in Without(gaps, s) && gap.session == t) <==>
            (exists gap :: gap in gaps && gap.session == t)
  {
    if gaps != [] {
      WithoutDrops(gaps[1..], s, t);
      assert forall gap :: gap in gaps <==> gap == gaps[0] || gap in gaps[1..];
      if gaps[0].session != s {
        assert forall gap :: gap in Without(gaps, s) <==> gap == gaps[0] || gap in Without(gaps[1..], s);
      }
    }
  }

  lemma CloseTracks(st: State, s: SessionId)
    requires TracksAll(st, st.hosts, {})
    ensures TracksAll(Close(st, s), Close(st, s).hosts, {})
  {
    var next := Close(st, s);
    forall t | t in next.hosts ensures Tracks(next, next.hosts, {}, t) {
      assert Tracks(st, st.hosts, {}, t);
      assert View(next, t) == View(st, t);
      WithoutDrops(st.dropped, s, t);
    }
  }

  lemma AckTracks(size: Size, st: State, count: nat)
    requires TracksAll(st, st.hosts, {})
    ensures var next := Acknowledge(size, st, count); Grows(st, next) && TracksAll(next, next.hosts, {})
  {
    var credited := st.(inFlight := st.inFlight[Min(count, |st.inFlight|)..]);
    forall s | s in st.hosts ensures Tracks(credited, st.hosts, {}, s) {
      assert Tracks(st, st.hosts, {}, s);
      assert View(credited, s) == View(st, s);
    }
    DrainTracks(size, credited, {});
    EventRepair.DrainKeeps(size, credited, []);
  }

  lemma ChangeTracks(size: Size, depth: nat, st: State, s: SessionId, change: Change)
    requires TracksAll(st, st.hosts, {})
    requires Emit(size, depth, Apply(st, s, change), Changed(change), Some(s)).Some?
    ensures var next := Emit(size, depth, Apply(st, s, change), Changed(change), Some(s)).value;
            Grows(Apply(st, s, change), next) && TracksAll(next, next.hosts, {})
  {
    var moved := Apply(st, s, change);
    forall t | t in st.hosts ensures Tracks(moved, st.hosts, {}, t) {
      assert Tracks(st, st.hosts, {}, t);
      assert View(moved, t) == View(st, t);
    }
    EmitTracks(size, depth, moved, Changed(change), Some(s), st.hosts, {});
    assert {} - Repaired(Changed(change), Some(s)) == {};
  }

  lemma ReplaceTracks(size: Size, depth: nat, st: State, s: SessionId, history: seq<Change>, afterGap: bool)
    requires TracksAll(st, st.hosts, {})
    requires s in st.hosts
    requires Resync(size, depth, st.(hosts := st.hosts[s := history]), s, afterGap).Some?
    ensures var next := Resync(size, depth, st.(hosts := st.hosts[s := history]), s, afterGap).value;
            Grows(st.(hosts := st.hosts[s := history]), next) && TracksAll(next, next.hosts, {})
  {
    var replaced := st.(hosts := st.hosts[s := history]);
    forall t | t in st.hosts && t != s ensures Tracks(replaced, st.hosts, {}, t) {
      assert Tracks(st, st.hosts, {}, t);
      assert View(replaced, t) == View(st, t);
    }
    ResyncTracks(size, depth, replaced, s, afterGap, st.hosts, {});
    assert {} - {s} == {};
  }

  lemma DetachTracks(st: State)
    requires TracksAll(st, st.hosts, {})
    ensures TracksAll(Detach(st), st.hosts, {})
  {
    forall t | t in st.hosts ensures Tracks(Detach(st), st.hosts, {}, t) {
      assert Tracks(st, st.hosts, {}, t);
    }
  }

  /** Open, and with a port attached given to its receiver. */
  predicate Given(st: State, s: SessionId) {
    s in st.hosts && (st.attached ==> s in st.trace.based)
  }

  /** Whether an operation registers, answers or closes a session. */
  predicate Concerns(op: Op, s: SessionId) {
    match op
    case DoRegister(t, _) => t == s
    case DoAnswer(t) => t == s
    case DoClose(t) => t == s
    case _ => false
  }

  lemma StepTracks(size: Size, depth: nat, st: State, op: Op)
    requires TracksAll(st, st.hosts, {}) && EventRepair.Announced(st)
    requires forall s :: s in st.open <==> s in st.hosts
    requires Step(size, depth, st, op).Some?
    ensures var next := Step(size, depth, st, op).value;
            && TracksAll(next, next.hosts, {})
            && forall s :: Given(st, s) && !Concerns(op, s) ==> Given(next, s)
  {
    hide Tracks, TracksAll, Emit, Resync, Drain, AnswersRightly;
    match op
    case DoRegister(s, history) => RegisterTracks(st, s, history);
    case DoAnswer(s) => if s in st.hosts { AnswerTracks(st, s); }
    case DoChange(s, change) => ChangeTracks(size, depth, st, s, change);
    case DoNotice(notice) => NoticeTracks(size, depth, st, notice, {});
    case DoReplace(s, history) => if s in st.hosts { ReplaceTracks(size, depth, st, s, history, false); }
    case DoResync(s) =>
      if s in st.hosts {
        assert st.(hosts := st.hosts[s := st.hosts[s]]) == st;
        ReplaceTracks(size, depth, st, s, st.hosts[s], true);
      }
    case DoClose(s) => if s in st.hosts { CloseTracks(st, s); }
    case DoAttach(restore) => AttachTracks(size, depth, st, restore);
    case DoDetach => DetachTracks(st);
    case DoAck(count) => AckTracks(size, st, count);
  }
}
