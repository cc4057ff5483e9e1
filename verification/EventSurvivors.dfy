/**
 * Announcements behind what survived. A renderer that attaches may find something of a session
 * with losses still waiting behind the flush; if another session's repair overflows before the
 * first has been announced, what waited is lost and announced ahead of the losses before it.
 * That is the one way a count goes wrong, and this is exactly when it happens.
 */
module EventSurvivors {
  import Sequences
  import opened Wrappers
  import opened EventStream
  import opened EventConservation
  import opened EventRepair
  import opened EventGaps
  import EventRepairLimit
  import EventRuns

  // ---- A pass behind what survived -----------------------------------------------------------

  lemma {:induction false} OnlyListed(envelopes: seq<Envelope>)
    ensures forall s :: s in EventRepairLimit.SessionList(envelopes) ==> Mentions(envelopes, s)
  {
    if envelopes != [] {
      OnlyListed(envelopes[1..]);
      forall s | s in EventRepairLimit.SessionList(envelopes)
        ensures Mentions(envelopes, s)
      {
        if envelopes[0].session == Some(s) {
          assert envelopes[0] in envelopes;
        } else {
          assert Mentions(envelopes[1..], s);
          var e :| e in envelopes[1..] && e.session == Some(s);
          assert e in envelopes;
        }
      }
    }
  }

  /** No session still to be announced is among what waits. */
  predicate Spares(st: State, gaps: seq<Gap>) {
    forall gap :: gap in gaps ==> !Mentions(st.pending, gap.session)
  }

  /** The envelope of a session that a pass owes nothing more of discards nothing of those it still owes. */
  ghost predicate EmissionSpares(size: Size, st: State, payload: Payload, s: SessionId, owed: seq<Gap>) {
    Overflows(size, st, payload, Some(s)) ==> Spares(st, owed)
  }

  /** Whenever an emission of the pass overflows, nothing of a session it has yet to announce is lost with it. */
  ghost predicate PassSpares(size: Size, depth: nat, st: State, gaps: seq<Gap>)
    decreases |gaps|
  {
    gaps == [] ||
    (var s, gap, rest := gaps[0].session, StreamGap(gaps[0].count), gaps[1..];
     var told := Emit(size, depth, st, gap, Some(s));
     && EmissionSpares(size, st, gap, s, rest)
     && (told.Some? ==>
           var repaired := OnGap(size, depth, told.value, s);
           && (s in told.value.hosts ==> SnapshotSpares(size, told.value, s, rest))
           && (repaired.Some? ==> PassSpares(size, depth, repaired.value, rest))))
  }

  ghost predicate SnapshotSpares(size: Size, told: State, s: SessionId, owed: seq<Gap>)
    requires s in told.hosts
  {
    var fenced := Reset(told, s);
    EmissionSpares(size, fenced, Snapshot(SequenceFor(fenced, s), told.hosts[s], true), s, owed)
  }

  predicate Positive(gaps: seq<Gap>) {
    forall gap :: gap in gaps ==> gap.count > 0
  }

  lemma {:induction false} CountsOne(gaps: seq<Gap>, gap: Gap)
    requires gap in gaps
    ensures CountFor(gaps, gap.session) >= gap.count
  {
    if gaps[0] != gap {
      assert gap in gaps[1..];
      CountsOne(gaps[1..], gap);
    }
  }

  /** A pass that announces a session an outer one owes as well counts some session wrongly. */
  lemma {:induction false} OwedIsMiscounted(
      size: Size, depth: nat, st: State, gaps: seq<Gap>, owed: seq<Gap>, t: SessionId)
    requires Sound(st, gaps + owed) && CountFor(owed, t) > 0
    requires exists gap :: gap in gaps && gap.session == t
    requires AnnounceEach(size, depth, st, gaps).Some?
    ensures !PassExact(size, depth, st, gaps)
    decreases |gaps|
  {
    hide Sound, Emit, OnGap, EmitExact, OnGapExact;
    var s, gap, rest := gaps[0].session, StreamGap(gaps[0].count), gaps[1..] + owed;
    assert gaps + owed == [gaps[0]] + rest;
    if s == t {
      CountAppends(gaps[1..], owed, t);
      ExactExactlyWhen(st, s, gaps[0].count, rest);
      NotExactNotEmitted(size, depth, st, s, gaps[0].count);
    } else {
      var told := Emit(size, depth, st, gap, Some(s)).value;
      assert Charge(gap, Some(s)) + rest == [gaps[0]] + rest;
      EmitSound(size, depth, st, gap, Some(s), rest);
      OnGapSound(size, depth, told, s, rest);
      var other :| other in gaps && other.session == t;
      assert other in gaps[1..];
      OwedIsMiscounted(size, depth, OnGap(size, depth, told, s).value, gaps[1..], owed, t);
    }
  }

  lemma NotExactNotEmitted(size: Size, depth: nat, st: State, s: SessionId, count: nat)
    requires !Exact(st, s, count)
    ensures !EmitExact(size, depth, st, StreamGap(count), Some(s))
  {
  }

  lemma OnGapSound(size: Size, depth: nat, st: State, s: SessionId, owed: seq<Gap>)
    requires Sound(st, owed) && OnGap(size, depth, st, s).Some?
    ensures Sound(OnGap(size, depth, st, s).value, owed)
  {
    hide Sound;
    if s in st.hosts {
      ResyncSound(size, depth, st, s, true, owed);
    }
  }

  /** One emission of a pass announces exactly, nested passes included, if and only if it spares what the pass owes. */
  lemma EmitExactExactlyWhen(
      size: Size, depth: nat, st: State, payload: Payload, s: SessionId, owed: seq<Gap>)
    requires Sound(st, Charge(payload, Some(s)) + owed) && st.attached && st.dropped == []
    requires CountFor(owed, s) == 0 && Positive(owed)
    requires Emit(size, depth, st, payload, Some(s)).Some?
    ensures EmitExact(size, depth, st, payload, Some(s)) <==> EmissionSpares(size, st, payload, s, owed)
  {
    hide Sound, Emit, Overflows, PassExact;
    if payload.StreamGap? {
      ExactExactlyWhen(st, s, payload.droppedEvents, owed);
    }
    if Overflows(size, st, payload, Some(s)) {
      if Spares(st, owed) {
        SparedIsExact(size, depth, st, payload, s, owed);
      } else {
        EventRepairLimit.EmitIsPass(size, depth, st, payload, Some(s));
        LostIsMiscounted(size, depth - 1, st, payload, s, owed);
      }
    }
  }

  lemma SparedIsExact(size: Size, depth: nat, st: State, payload: Payload, s: SessionId, owed: seq<Gap>)
    requires Sound(st, Charge(payload, Some(s)) + owed) && st.attached && st.dropped == []
    requires CountFor(owed, s) == 0 && Spares(st, owed)
    ensures EmitExact(size, depth, st, payload, Some(s))
  {
    hide Sound, EmitExact;
    var known := EventRepairLimit.SessionList(st.pending) + [s];
    OnlyListed(st.pending);
    forall t | t in known
      ensures CountFor(owed, t) == 0
    {
      if t != s {
        assert Mentions(st.pending, t);
        NotCounted(owed, t);
      }
    }
    EmitIsExact(size, depth, st, payload, Some(s), owed, known);
  }

  lemma LostIsMiscounted(size: Size, depth: nat, st: State, payload: Payload, s: SessionId, owed: seq<Gap>)
    requires Sound(st, Charge(payload, Some(s)) + owed) && st.dropped == []
    requires !Spares(st, owed) && Positive(owed)
    requires var lost := Lose(st, payload, Some(s));
             AnnounceEach(size, depth, lost.(dropped := []), lost.dropped).Some?
    ensures var lost := Lose(st, payload, Some(s));
            !PassExact(size, depth, lost.(dropped := []), lost.dropped)
  {
    hide Sound, PassExact, AnnounceEach;
    var lost := Lose(st, payload, Some(s));
    var gap :| gap in owed && Mentions(st.pending, gap.session);
    var gone := st.pending + [Next(st, payload, Some(s))];
    var e :| e in st.pending && e.session == Some(gap.session);
    assert e in gone;
    BumpAllNames([], gone, gap.session);
    CountsOne(owed, gap);
    LoseSound(st, payload, Some(s), owed);
    TakeSound(lost, owed);
    OwedIsMiscounted(size, depth, lost.(dropped := []), lost.dropped, owed, gap.session);
  }

  /**
   * A pass that returns announces exactly throughout, nested passes included, if and only if none
   * of its overflows discards anything of a session it has yet to announce.
   */
  lemma {:induction false} PassExactExactlyWhen(size: Size, depth: nat, st: State, gaps: seq<Gap>)
    requires Sound(st, gaps) && st.attached && st.dropped == [] && DistinctGaps(gaps) && Positive(gaps)
    requires AnnounceEach(size, depth, st, gaps).Some?
    ensures PassExact(size, depth, st, gaps) <==> PassSpares(size, depth, st, gaps)
    decreases |gaps|
  {
    if gaps != [] {
      hide Sound, Emit, OnGap, EmitExact, OnGapExact, EmissionSpares, SnapshotSpares, Within, CountFor;
      var s, gap, rest := gaps[0].session, StreamGap(gaps[0].count), gaps[1..];
      assert gaps == Charge(gap, Some(s)) + rest;
      NotCounted(rest, s);
      EmitExactExactlyWhen(size, depth, st, gap, s, rest);
      EmitSound(size, depth, st, gap, Some(s), rest);
      EmitKeeps(size, depth, st, gap, Some(s), [s]);
      var told := Emit(size, depth, st, gap, Some(s)).value;
      OnGapExactExactlyWhen(size, depth, told, s, rest);
      OnGapSound(size, depth, told, s, rest);
      PassExactExactlyWhen(size, depth, OnGap(size, depth, told, s).value, rest);
    }
  }

  lemma OnGapExactExactlyWhen(size: Size, depth: nat, st: State, s: SessionId, owed: seq<Gap>)
    requires Sound(st, owed) && st.attached && st.dropped == []
    requires CountFor(owed, s) == 0 && Positive(owed)
    requires OnGap(size, depth, st, s).Some?
    ensures OnGapExact(size, depth, st, s) <==> (s in st.hosts ==> SnapshotSpares(size, st, s, owed))
    ensures var repaired := OnGap(size, depth, st, s).value; repaired.attached && repaired.dropped == []
  {
    hide Sound, Emit, EmitExact, EmissionSpares;
    if s in st.hosts {
      var fenced := Reset(st, s);
      var snapshot := Snapshot(SequenceFor(fenced, s), st.hosts[s], true);
      ResetSound(st, s, owed);
      assert Charge(snapshot, Some(s)) + owed == owed;
      EmitExactExactlyWhen(size, depth, fenced, snapshot, s, owed);
      ResyncKeeps(size, depth, st, s, true, [s]);
    }
  }

  // ---- The condition before the pass begins ---------------------------------------------------

  /** What announcing and repairing one session adds to the queue. */
  function RepairBytes(size: Size, st: State, gap: Gap): nat {
    size(Next(st, StreamGap(gap.count), Some(gap.session)))
    + if gap.session in st.hosts then SnapshotBytes(size, st.hosts, gap.session, true) else 0
  }

  /** How many sessions of a pass are repaired before it first overflows, while nothing can be posted. */
  function RepairedBefore(size: Size, st: State, gaps: seq<Gap>, bytes: nat): (n: nat)
    ensures n <= |gaps|
  {
    if gaps == [] || bytes + RepairBytes(size, st, gaps[0]) > MAX_QUEUED_SESSION_BYTES then 0
    else 1 + RepairedBefore(size, st, gaps[1..], bytes + RepairBytes(size, st, gaps[0]))
  }

  /** Nothing waits of the sessions that come after the one at which the pass first overflows. */
  predicate LaterSpared(size: Size, st: State, gaps: seq<Gap>) {
    var n := RepairedBefore(size, st, gaps, Bytes(size, st.pending));
    Spares(st, if n < |gaps| then gaps[n + 1..] else [])
  }

  lemma {:induction false} SameRepairs(size: Size, st: State, other: State, gaps: seq<Gap>, bytes: nat)
    requires st.hosts == other.hosts
    requires forall gap :: gap in gaps ==> SequenceFor(st, gap.session) == SequenceFor(other, gap.session)
    ensures RepairedBefore(size, st, gaps, bytes) == RepairedBefore(size, other, gaps, bytes)
  {
    if gaps != [] {
      assert gaps[0] in gaps;
      SameRepairs(size, st, other, gaps[1..], bytes + RepairBytes(size, st, gaps[0]));
    }
  }

  /** A pass that owes nothing to any session that waits spares them all, whatever it overflows on. */
  lemma {:induction false} OthersAreSpared(size: Size, depth: nat, st: State, gaps: seq<Gap>, queued: seq<SessionId>)
    requires Within(st, queued) && st.attached && st.dropped == [] && DistinctGaps(gaps)
    requires forall gap :: gap in gaps ==> gap.session !in queued
    ensures PassSpares(size, depth, st, gaps)
    decreases |gaps|
  {
    if gaps != [] {
      hide Emit, OnGap, Overflows, Within;
      var s, gap, rest := gaps[0].session, StreamGap(gaps[0].count), gaps[1..];
      var known := queued + [s];
      NoneOf(st, queued, rest);
      WithinMore(st, queued, s);
      forall g | g in rest
        ensures g.session !in known
      {
        assert g in gaps;
      }
      if told: State :| Emit(size, depth, st, gap, Some(s)) == Some(told) {
        EmitKeeps(size, depth, st, gap, Some(s), known);
        NoneOf(told, known, rest);
        if repaired: State :| OnGap(size, depth, told, s) == Some(repaired) {
          OnGapKeeps(size, depth, told, s, known);
          OthersAreSpared(size, depth, repaired, rest, known);
        }
      }
    }
  }

  lemma NoneOf(st: State, queued: seq<SessionId>, gaps: seq<Gap>)
    requires Within(st, queued)
    requires forall gap :: gap in gaps ==> gap.session !in queued
    ensures Spares(st, gaps)
  {
  }

  lemma OnGapKeeps(size: Size, depth: nat, st: State, s: SessionId, known: seq<SessionId>)
    requires Within(st, known) && st.attached && st.dropped == [] && s in known
    requires OnGap(size, depth, st, s).Some?
    ensures var next := OnGap(size, depth, st, s).value; Within(next, known) && next.attached && next.dropped == []
  {
    hide Within;
    if s in st.hosts {
      ResyncKeeps(size, depth, st, s, true, known);
    }
  }

  /** Behind envelopes that cannot be posted, an emission that fits waits with them. */
  lemma WaitsBehind(size: Size, depth: nat, st: State, payload: Payload, s: SessionId)
    requires st.pending != [] && Blocked(size, st) && !Overflows(size, st, payload, Some(s))
    ensures Emit(size, depth, st, payload, Some(s)) == Some(Enqueue(st, payload, Some(s)))
    ensures Blocked(size, Enqueue(st, payload, Some(s)))
    ensures Bytes(size, Enqueue(st, payload, Some(s)).pending)
            == Bytes(size, st.pending) + size(Next(st, payload, Some(s)))
  {
    var queued := Enqueue(st, payload, Some(s));
    assert queued.pending[0] == st.pending[0];
    assert Drain(size, queued) == queued;
    EventRepairLimit.EmitQueues(size, depth, st, payload, Some(s));
    EventRepairLimit.BytesWithOne(size, st.pending, Next(st, payload, Some(s)));
  }

  lemma SparesWithOne(st: State, other: State, e: Envelope, gaps: seq<Gap>)
    requires other.pending == st.pending + [e]
    requires forall gap :: gap in gaps ==> e.session != Some(gap.session)
    ensures Spares(other, gaps) <==> Spares(st, gaps)
  {
    forall gap | gap in gaps
      ensures Mentions(other.pending, gap.session) <==> Mentions(st.pending, gap.session)
    {
      assert forall f :: f in other.pending <==> f in st.pending || f == e;
    }
  }

  /** An emission of the pass that overflows ends the question: the pass spares them all if this emission does. */
  lemma SparedFromHere(size: Size, depth: nat, st: State, gaps: seq<Gap>)
    requires st.attached && st.dropped == [] && gaps != [] && DistinctGaps(gaps) && Spares(st, gaps[1..])
    ensures PassSpares(size, depth, st, gaps)
  {
    hide Emit, OnGap, Overflows, Within, PassSpares, Mentions;
    var s, gap, rest := gaps[0].session, StreamGap(gaps[0].count), gaps[1..];
    var known := EventRepairLimit.SessionList(st.pending) + [s];
    OnlyListed(st.pending);
    ListedIsWithin(st, s);
    forall g | g in rest
      ensures g.session !in known
    {
      var i :| 0 <= i < |rest| && rest[i] == g;
      assert gaps[i + 1] == g;
    }
    NoneOf(st, known, rest);
    if told: State :| Emit(size, depth, st, gap, Some(s)) == Some(told) {
      EmitKeeps(size, depth, st, gap, Some(s), known);
      NoneOf(told, known, rest);
      if repaired: State :| OnGap(size, depth, told, s) == Some(repaired) {
        OnGapKeeps(size, depth, told, s, known);
        OthersAreSpared(size, depth, repaired, rest, known);
      }
    }
    FirstSpares(size, depth, st, gaps);
  }

  /** A pass spares what it owes if its first repair does and the rest of it does. */
  lemma FirstSpares(size: Size, depth: nat, st: State, gaps: seq<Gap>)
    requires gaps != []
    ensures PassSpares(size, depth, st, gaps) <==>
            var s, gap, rest := gaps[0].session, StreamGap(gaps[0].count), gaps[1..];
            var told := Emit(size, depth, st, gap, Some(s));
            && EmissionSpares(size, st, gap, s, rest)
            && (told.Some? ==>
                  var repaired := OnGap(size, depth, told.value, s);
                  && (s in told.value.hosts ==> SnapshotSpares(size, told.value, s, rest))
                  && (repaired.Some? ==> PassSpares(size, depth, repaired.value, rest)))
  {
    hide Emit, OnGap, EmissionSpares, SnapshotSpares;
  }

  lemma ListedIsWithin(st: State, s: SessionId)
    requires st.dropped == []
    ensures Within(st, EventRepairLimit.SessionList(st.pending) + [s])
  {
  }

  /** The state once one repair waits behind the rest. */
  function Repaired(st: State, gap: Gap): State {
    var told := Enqueue(st, StreamGap(gap.count), Some(gap.session));
    if gap.session in st.hosts
    then Enqueue(Reset(told, gap.session), Snapshot(0, st.hosts[gap.session], true), Some(gap.session))
    else told
  }

  lemma RepairWaits(size: Size, depth: nat, st: State, gap: Gap)
    requires st.pending != [] && Blocked(size, st)
    requires Bytes(size, st.pending) + RepairBytes(size, st, gap) <= MAX_QUEUED_SESSION_BYTES
    ensures var s, payload := gap.session, StreamGap(gap.count);
            var told, next := Enqueue(st, payload, Some(s)), Repaired(st, gap);
            && !Overflows(size, st, payload, Some(s)) && Emit(size, depth, st, payload, Some(s)) == Some(told)
            && (s in st.hosts ==> !Overflows(size, Reset(told, s), Snapshot(0, st.hosts[s], true), Some(s)))
            && OnGap(size, depth, told, s) == Some(next)
            && Blocked(size, next) && Bytes(size, next.pending) == Bytes(size, st.pending) + RepairBytes(size, st, gap)
  {
    hide Emit, Blocked, Bytes;
    var s := gap.session;
    WaitsBehind(size, depth, st, StreamGap(gap.count), s);
    var told := Enqueue(st, StreamGap(gap.count), Some(s));
    if s in st.hosts {
      EventRepairLimit.SnapshotAfterGap(size, depth, told, s);
      SameBlocked(size, told, Reset(told, s));
      WaitsBehind(size, depth, Reset(told, s), Snapshot(0, st.hosts[s], true), s);
    } else {
      EventRepairLimit.NotOpenAfterGap(size, depth, told, s);
    }
  }

  lemma SameBlocked(size: Size, st: State, other: State)
    requires st.pending != [] && other.pending == st.pending && other.inFlight == st.inFlight
    ensures Blocked(size, other) == Blocked(size, st)
  {
  }

  lemma RepairedHolds(st: State, gap: Gap, others: seq<Gap>)
    requires forall other :: other in others ==> other.session != gap.session
    ensures var next := Repaired(st, gap);
            && next.pending != [] && next.hosts == st.hosts
            && next.attached == st.attached && next.dropped == st.dropped
            && (forall other :: other in others ==>
                  SequenceFor(next, other.session) == SequenceFor(st, other.session))
            && (Spares(next, others) <==> Spares(st, others))
  {
    var s, payload := gap.session, StreamGap(gap.count);
    var told, next := Enqueue(st, payload, Some(s)), Repaired(st, gap);
    SparesWithOne(st, told, Next(st, payload, Some(s)), others);
    if s in st.hosts {
      var fenced, snapshot := Reset(told, s), Snapshot(0, st.hosts[s], true);
      SparesWithOne(told, next, Next(fenced, snapshot, Some(s)), others);
    }
  }

  /** A repair that does not fit discards what waits, and with it whatever waits of the sessions after it. */
  lemma RepairOverflows(size: Size, depth: nat, st: State, gaps: seq<Gap>)
    requires gaps != [] && DistinctGaps(gaps) && st.pending != [] && Blocked(size, st)
    requires Bytes(size, st.pending) + RepairBytes(size, st, gaps[0]) > MAX_QUEUED_SESSION_BYTES
    requires PassSpares(size, depth, st, gaps)
    ensures Spares(st, gaps[1..])
  {
    hide Emit, Blocked, Bytes, PassSpares, Spares;
    var s, gap, rest := gaps[0].session, StreamGap(gaps[0].count), gaps[1..];
    FirstSpares(size, depth, st, gaps);
    if !Overflows(size, st, gap, Some(s)) {
      WaitsBehind(size, depth, st, gap, s);
      var told := Enqueue(st, gap, Some(s));
      EventRepairLimit.SnapshotAfterGap(size, depth, told, s);
      SparesWithOne(st, told, Next(st, gap, Some(s)), rest);
      SameSpares(Reset(told, s), told, rest);
    }
  }

  lemma SameSpares(st: State, other: State, gaps: seq<Gap>)
    requires st.pending == other.pending
    ensures Spares(st, gaps) == Spares(other, gaps)
  {
  }

  /**
   * Behind envelopes that cannot be posted, a pass spares what it owes if and only if nothing waits
   * of the sessions after the one whose repair is the first not to fit the queue.
   */
  lemma {:induction false} PassSparesExactlyWhen(size: Size, depth: nat, st: State, gaps: seq<Gap>)
    requires st.attached && st.dropped == [] && DistinctGaps(gaps) && st.pending != [] && Blocked(size, st)
    ensures PassSpares(size, depth, st, gaps) <==> LaterSpared(size, st, gaps)
    decreases |gaps|
  {
    if gaps != [] {
      hide Emit, OnGap, Blocked, Bytes, Spares, PassSpares, RepairBytes, LaterSpared, RepairedBefore, Repaired;
      FirstDecides(size, st, gaps);
      if Bytes(size, st.pending) + RepairBytes(size, st, gaps[0]) > MAX_QUEUED_SESSION_BYTES {
        if Spares(st, gaps[1..]) {
          SparedFromHere(size, depth, st, gaps);
        }
        if PassSpares(size, depth, st, gaps) {
          RepairOverflows(size, depth, st, gaps);
        }
      } else {
        RepairJoins(size, st, gaps);
        FitsAndSpares(size, depth, st, gaps);
        PassSparesExactlyWhen(size, depth, Repaired(st, gaps[0]), gaps[1..]);
      }
    }
  }

  lemma RepairJoins(size: Size, st: State, gaps: seq<Gap>)
    requires gaps != [] && DistinctGaps(gaps) && st.pending != [] && Blocked(size, st)
    requires Bytes(size, st.pending) + RepairBytes(size, st, gaps[0]) <= MAX_QUEUED_SESSION_BYTES
    ensures var next := Repaired(st, gaps[0]);
            && next.attached == st.attached && next.dropped == st.dropped
            && next.pending != [] && Blocked(size, next) && DistinctGaps(gaps[1..])
  {
    hide Emit, OnGap, Blocked, Bytes, Repaired, RepairBytes, Spares;
    RepairWaits(size, 0, st, gaps[0]);
    RepairedHolds(st, gaps[0], gaps[1..]);
  }

  /** The first repair of a pass either overflows or joins what waits and leaves the question to the rest. */
  lemma FirstDecides(size: Size, st: State, gaps: seq<Gap>)
    requires gaps != [] && DistinctGaps(gaps) && st.pending != [] && Blocked(size, st)
    ensures LaterSpared(size, st, gaps) <==>
            if Bytes(size, st.pending) + RepairBytes(size, st, gaps[0]) > MAX_QUEUED_SESSION_BYTES
            then Spares(st, gaps[1..])
            else LaterSpared(size, Repaired(st, gaps[0]), gaps[1..])
  {
    hide Blocked, Bytes, Spares, RepairBytes;
    if Bytes(size, st.pending) + RepairBytes(size, st, gaps[0]) <= MAX_QUEUED_SESSION_BYTES {
      var next, rest := Repaired(st, gaps[0]), gaps[1..];
      var n := RepairedBefore(size, next, rest, Bytes(size, next.pending));
      hide Repaired;
      RepairWaits(size, 0, st, gaps[0]);
      RepairedHolds(st, gaps[0], rest);
      SameRepairs(size, st, next, rest, Bytes(size, next.pending));
      if n < |rest| {
        assert rest[n + 1..] == gaps[n + 2..];
        RepairedHolds(st, gaps[0], rest[n + 1..]);
      } else {
        RepairedHolds(st, gaps[0], []);
      }
    }
  }

  lemma FitsAndSpares(size: Size, depth: nat, st: State, gaps: seq<Gap>)
    requires gaps != [] && st.pending != [] && Blocked(size, st)
    requires Bytes(size, st.pending) + RepairBytes(size, st, gaps[0]) <= MAX_QUEUED_SESSION_BYTES
    ensures PassSpares(size, depth, st, gaps) <==> PassSpares(size, depth, Repaired(st, gaps[0]), gaps[1..])
  {
    hide Emit, OnGap, Blocked, Bytes, Spares, PassSpares, RepairBytes, Overflows;
    RepairWaits(size, depth, st, gaps[0]);
    FirstSpares(size, depth, st, gaps);
  }

  // ---- Attaching -----------------------------------------------------------------------------

  /** Whether anything of a session with losses survived its discard to wait behind the flush of an attachment. */
  predicate NothingSurvived(size: Size, st: State) {
    var flushed := Drain(size, TakePort(st));
    Spares(flushed, flushed.dropped)
  }

  /**
   * What decides an attachment, before it begins: announce and repair the sessions with losses in
   * turn behind what the flush leaves; of those after the first whose repair does not fit the
   * queue, nothing waits.
   */
  predicate SurvivorsSpared(size: Size, st: State) {
    var flushed := Drain(size, TakePort(st));
    LaterSpared(size, flushed.(dropped := []), flushed.dropped)
  }

  lemma {:induction false} DrainedIsBlocked(size: Size, st: State)
    requires st.attached
    ensures var next := Drain(size, st); next.pending == [] || Blocked(size, next)
    decreases |st.pending|
  {
    if st.pending != [] && !Blocked(size, st) {
      DrainedIsBlocked(size, PostFirst(size, st));
    }
  }

  /**
   * An attachment that returns announces exactly throughout if and only if what survived spares the
   * later sessions. Whether or not it returns it does when nothing of a session with losses waits.
   */
  lemma AttachIsExact(size: Size, depth: nat, st: State, restore: bool, known: seq<SessionId>)
    requires Between(st, known) && OpenWithin(st, known) && Positive(st.dropped)
    ensures NothingSurvived(size, st) ==> AttachExact(size, depth, st, restore)
    ensures Attach(size, depth, st, restore).Some? ==>
              (AttachExact(size, depth, st, restore) <==> SurvivorsSpared(size, st))
  {
    hide Sound, PassExact, Drain, Announce, OnAttachExact, OnAttach, Positive, SurvivorsSpared;
    var flushed := Drain(size, TakePort(st));
    SameLogSound(st, TakePort(st), []);
    DrainSound(size, TakePort(st), []);
    DrainKeeps(size, TakePort(st), known);
    if NothingSurvived(size, st) {
      AttachPassIsExact(size, depth, st, known);
    }
    var announced := Announce(size, depth, flushed);
    if announced.Some? {
      AttachPassExactlyWhen(size, depth, st, known);
      AnnounceSound(size, depth, flushed, []);
      AnnounceKeeps(size, depth, flushed, known);
      OnAttachIsExact(size, depth, announced.value, GapSessions(flushed.dropped), restore, known);
    }
  }

  lemma AttachPassIsExact(size: Size, depth: nat, st: State, known: seq<SessionId>)
    requires Sound(Drain(size, TakePort(st)), []) && Within(Drain(size, TakePort(st)), known)
    requires Drain(size, TakePort(st)).attached && NothingSurvived(size, st)
    ensures AttachPassExact(size, depth, st)
  {
    hide Sound, PassExact, Drain;
    var flushed := Drain(size, TakePort(st));
    TakeSound(flushed, []);
    OnlyListed(flushed.pending);
    PassIsExact(size, depth, flushed.(dropped := []), flushed.dropped, [],
                EventRepairLimit.SessionList(flushed.pending));
  }

  lemma AttachPassExactlyWhen(size: Size, depth: nat, st: State, known: seq<SessionId>)
    requires Sound(Drain(size, TakePort(st)), []) && Within(Drain(size, TakePort(st)), known)
    requires Drain(size, TakePort(st)).attached && Positive(Drain(size, TakePort(st)).dropped)
    requires Announce(size, depth, Drain(size, TakePort(st))).Some?
    ensures AttachPassExact(size, depth, st) <==> SurvivorsSpared(size, st)
  {
    hide Sound, PassExact, PassSpares, Drain, AnnounceEach, Positive, LaterSpared, Blocked;
    var flushed := Drain(size, TakePort(st));
    var taken := flushed.(dropped := []);
    TakeSound(flushed, []);
    assert flushed.dropped + [] == flushed.dropped;
    PassExactExactlyWhen(size, depth, taken, flushed.dropped);
    if flushed.pending == [] {
      OthersAreSpared(size, depth, taken, flushed.dropped, []);
      NothingWaitsSpares(size, taken, flushed.dropped);
    } else {
      DrainedIsBlocked(size, TakePort(st));
      SameBlocked(size, flushed, taken);
      PassSparesExactlyWhen(size, depth, taken, flushed.dropped);
    }
  }

  lemma NothingWaitsSpares(size: Size, st: State, gaps: seq<Gap>)
    requires st.pending == []
    ensures LaterSpared(size, st, gaps)
  {
  }

  // ---- Whole runs ----------------------------------------------------------------------------

  lemma {:induction false} BumpPositive(gaps: seq<Gap>, s: SessionId)
    requires Positive(gaps)
    ensures Positive(Bump(gaps, s))
  {
    if gaps != [] && gaps[0].session != s {
      BumpPositive(gaps[1..], s);
    }
  }

  lemma {:induction false} BumpAllPositive(gaps: seq<Gap>, envelopes: seq<Envelope>)
    requires Positive(gaps)
    ensures Positive(BumpAll(gaps, envelopes))
  {
    if envelopes != [] {
      var n := |envelopes| - 1;
      BumpAllPositive(gaps, envelopes[..n]);
      if envelopes[n].session.Some? {
        BumpPositive(BumpAll(gaps, envelopes[..n]), envelopes[n].session.value);
      }
    }
  }

  lemma {:induction false} WithoutPositive(gaps: seq<Gap>, s: SessionId)
    requires Positive(gaps)
    ensures Positive(Without(gaps, s))
  {
    if gaps != [] {
      WithoutPositive(gaps[1..], s);
    }
  }

  /** A detached emission only queues or counts what it discards. */
  lemma DetachedPositive(size: Size, depth: nat, st: State, payload: Payload, session: Option<SessionId>)
    requires !st.attached && Positive(st.dropped)
    ensures Emit(size, depth, st, payload, session).Some?
    ensures Positive(Emit(size, depth, st, payload, session).value.dropped)
  {
    hide Positive;
    BumpAllPositive(st.dropped, st.pending + [Next(st, payload, session)]);
  }

  lemma StepPositive(size: Size, depth: nat, st: State, op: Op, known: seq<SessionId>)
    requires Positive(st.dropped) && Announced(st) && Within(st, known) && OpenWithin(st, known)
    requires Step(size, depth, st, op).Some?
    ensures var next := Step(size, depth, st, op).value; Positive(next.dropped) || next.attached
  {
    hide Positive, Emit, Attach, Drain;
    var e := EventRepairLimit.EmissionOf(st, op);
    if e.Some? {
      EventRepairLimit.StepIsEmission(size, depth, st, op);
      if st.attached {
        EmitKeeps(size, depth, e.value.from, e.value.payload, e.value.session,
                  if e.value.session.Some? then [e.value.session.value] else []);
      } else {
        DetachedPositive(size, depth, e.value.from, e.value.payload, e.value.session);
      }
    } else {
      match op
      case DoClose(s) => WithoutPositive(st.dropped, s);
      case DoAttach(restore) => AttachKeeps(size, depth, st, restore, known);
      case DoAck(count) => DrainKeeps(size, st.(inFlight := st.inFlight[Sequences.Min(count, |st.inFlight|)..]), []);
      case _ =>
    }
  }

  lemma {:induction false} RunPositive(size: Size, depth: nat, ops: seq<Op>)
    requires Run(size, depth, ops).Some?
    ensures Positive(Run(size, depth, ops).value.dropped)
    decreases |ops|
  {
    if ops != [] {
      hide Step, Positive;
      var n := |ops| - 1;
      var known := EventRuns.SessionsIn(ops[..n]);
      RunPositive(size, depth, ops[..n]);
      EventRuns.RunKeeps(size, depth, ops[..n], known);
      EventRuns.RunKeeps(size, depth, ops, EventRuns.SessionsIn(ops));
      StepPositive(size, depth, Run(size, depth, ops[..n]).value, ops[n], known);
    }
    assert Positive([]);
  }

  /**
   * After any run every announcement of every next operation is exact, unless the operation
   * attaches; and an attachment that returns announces exactly if and only if what survived spares
   * the later sessions.
   */
  lemma OnlyAttachMiscounts(size: Size, depth: nat, ops: seq<Op>, op: Op)
    requires Run(size, depth, ops).Some?
    ensures var st := Run(size, depth, ops).value;
            && (!op.DoAttach? || NothingSurvived(size, st) ==> StepExact(size, depth, st, op))
            && (op.DoAttach? && Step(size, depth, st, op).Some? ==>
                  (StepExact(size, depth, st, op) <==> SurvivorsSpared(size, st)))
  {
    hide Run, Sound, EmitExact, AttachExact, NothingSurvived, SurvivorsSpared, Attach, Emit;
    var st := Run(size, depth, ops).value;
    var known := EventRuns.SessionsIn(ops);
    RunSound(size, depth, ops);
    RunPositive(size, depth, ops);
    EventRuns.RunKeeps(size, depth, ops, known);
    var e := EventRepairLimit.EmissionOf(st, op);
    if op.DoAttach? {
      AttachIsExact(size, depth, st, op.restore, known);
    } else if e.Some? {
      FromIsSound(st, op);
      var more := known + if e.value.session.Some? then [e.value.session.value] else [];
      assert Within(e.value.from, more);
      EmissionIsExact(size, depth, e.value.from, e.value.payload, e.value.session, more);
    }
  }
}
