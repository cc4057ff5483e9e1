/**
 * Nothing the stream is given disappears unaccounted for: every emitted envelope is
 * sent, pending or lost, sending keeps the order of emission, sequence numbers grow
 * between resets, and what was lost is exactly what was announced, waived by a close
 * or is still to be announced.
 */
module EventConservation {
  import opened Sequences
  import opened Wrappers
  import opened EventStream

  // ---- Reading the log ------------------------------------------------------

  /** The envelopes of the log that were sent, in the order they were emitted. */
  function SentOf(log: seq<Logged>, fates: seq<Fate>): seq<Envelope>
    requires |fates| <= |log|
  {
    if fates == [] then []
    else
      var n := |fates| - 1;
      SentOf(log, fates[..n]) + if fates[n].Sent? then [log[n].envelope] else []
  }

  /** How many of a session's envelopes were lost. */
  function LostOf(log: seq<Logged>, fates: seq<Fate>, s: SessionId): nat
    requires |fates| <= |log|
  {
    if fates == [] then 0
    else
      var n := |fates| - 1;
      LostOf(log, fates[..n], s) + if fates[n].Lost? && log[n].envelope.session == Some(s) then 1 else 0
  }

  /** How many lost events the receiver of a session was, or is about to be, told of. */
  function AnnouncedOf(log: seq<Logged>, s: SessionId): nat {
    if log == [] then 0
    else
      var e := log[|log| - 1].envelope;
      AnnouncedOf(log[..|log| - 1], s)
      + if e.session == Some(s) && e.payload.StreamGap? then e.payload.droppedEvents else 0
  }

  function Occurrences(envelopes: seq<Envelope>, s: SessionId): nat {
    if envelopes == [] then 0
    else
      Occurrences(envelopes[..|envelopes| - 1], s)
      + if envelopes[|envelopes| - 1].session == Some(s) then 1 else 0
  }

  // ---- Invariants -----------------------------------------------------------

  /** Every emitted envelope was sent, was lost, or waits, and the queue is the end of the log. */
  ghost predicate Conserved(st: State) {
    && |st.trace.log| == |st.trace.fates| + |st.pending|
    && (forall i :: 0 <= i < |st.pending| ==> st.pending[i] == st.trace.log[|st.trace.fates| + i].envelope)
    && st.trace.sent == SentOf(st.trace.log, st.trace.fates)
  }

  predicate SameCounter(a: Logged, b: Logged) {
    a.envelope.session == b.envelope.session && a.epoch == b.epoch
  }

  /** No counter has yet handed out a number above the one it holds. */
  ghost predicate Reached(st: State, entry: Logged) {
    match entry.envelope.session
    case None => entry.epoch == 0 && entry.envelope.sequence <= st.hostSequence
    case Some(s) =>
      && entry.epoch <= Lookup(st.trace.epochs, s)
      && (entry.epoch == Lookup(st.trace.epochs, s) ==> entry.envelope.sequence <= SequenceFor(st, s))
  }

  /** Sequence numbers are strictly monotonic per session between resets, and for the host always. */
  ghost predicate Sequenced(st: State) {
    && (forall i :: 0 <= i < |st.trace.log| ==> Reached(st, st.trace.log[i]))
    && (forall i, j :: 0 <= i < j < |st.trace.log| && SameCounter(st.trace.log[i], st.trace.log[j]) ==>
          st.trace.log[i].envelope.sequence < st.trace.log[j].envelope.sequence)
  }

  ghost predicate AccountedFor(st: State, owed: seq<Gap>, s: SessionId)
    requires |st.trace.fates| <= |st.trace.log|
  {
    LostOf(st.trace.log, st.trace.fates, s) ==
    AnnouncedOf(st.trace.log, s) + Lookup(st.trace.waived, s) + CountFor(st.dropped, s) + CountFor(owed, s)
  }

  /** `owed` are the announcements an unfinished pass has taken from the map and not made yet. */
  ghost predicate Sound(st: State, owed: seq<Gap>) {
    && Conserved(st)
    && Sequenced(st)
    && forall s: SessionId :: AccountedFor(st, owed, s)
  }

  // ---- Facts about the log --------------------------------------------------

  lemma {:induction false} SentStays(log: seq<Logged>, entry: Logged, fates: seq<Fate>)
    requires |fates| <= |log|
    ensures SentOf(log + [entry], fates) == SentOf(log, fates)
  {
    if fates != [] {
      SentStays(log, entry, fates[..|fates| - 1]);
    }
  }

  lemma {:induction false} LostStays(log: seq<Logged>, entry: Logged, fates: seq<Fate>, s: SessionId)
    requires |fates| <= |log|
    ensures LostOf(log + [entry], fates, s) == LostOf(log, fates, s)
  {
    if fates != [] {
      LostStays(log, entry, fates[..|fates| - 1], s);
    }
  }

  lemma AnnouncedGrows(log: seq<Logged>, entry: Logged, s: SessionId)
    ensures AnnouncedOf(log + [entry], s) ==
            AnnouncedOf(log, s)
            + if entry.envelope.session == Some(s) && entry.envelope.payload.StreamGap?
              then entry.envelope.payload.droppedEvents else 0
  {
    assert (log + [entry])[..|log|] == log;
  }

  /** Losing the rest of the log adds its envelopes to the lost and nothing to the sent. */
  lemma {:induction false} LoseRestSent(log: seq<Logged>, fates: seq<Fate>, n: nat)
    requires |log| >= |fates| + n
    ensures SentOf(log, fates + Losses(n)) == SentOf(log, fates)
  {
    var lost := Losses(n);
    if n == 0 {
      assert fates + lost == fates;
    } else {
      LoseRestSent(log, fates, n - 1);
      assert (fates + lost)[..|fates + lost| - 1] == fates + Losses(n - 1);
    }
  }

  lemma {:induction false} LoseRest(log: seq<Logged>, fates: seq<Fate>, rest: seq<Envelope>, s: SessionId)
    requires |log| >= |fates| + |rest|
    requires forall i :: 0 <= i < |rest| ==> rest[i] == log[|fates| + i].envelope
    ensures LostOf(log, fates + Losses(|rest|), s) == LostOf(log, fates, s) + Occurrences(rest, s)
  {
    var lost := Losses(|rest|);
    if rest == [] {
      assert fates + lost == fates;
    } else {
      var shorter := rest[..|rest| - 1];
      LoseRest(log, fates, shorter, s);
      assert (fates + lost)[..|fates + lost| - 1] == fates + Losses(|shorter|);
    }
  }

  lemma {:induction false} BumpCounts(gaps: seq<Gap>, s: SessionId, t: SessionId)
    ensures CountFor(Bump(gaps, s), t) == CountFor(gaps, t) + if s == t then 1 else 0
  {
    if gaps != [] && gaps[0].session != s {
      BumpCounts(gaps[1..], s, t);
    }
  }

  lemma {:induction false} BumpAllCounts(gaps: seq<Gap>, envelopes: seq<Envelope>, t: SessionId)
    ensures CountFor(BumpAll(gaps, envelopes), t) == CountFor(gaps, t) + Occurrences(envelopes, t)
  {
    if envelopes != [] {
      var shorter := envelopes[..|envelopes| - 1];
      BumpAllCounts(gaps, shorter, t);
      match envelopes[|envelopes| - 1].session
      case None =>
      case Some(s) => BumpCounts(BumpAll(gaps, shorter), s, t);
    }
  }

  lemma {:induction false} CountAppends(a: seq<Gap>, b: seq<Gap>, s: SessionId)
    ensures CountFor(a + b, s) == CountFor(a, s) + CountFor(b, s)
  {
    if a == [] {
      assert a + b == b;
    } else {
      assert (a + b)[1..] == a[1..] + b;
      CountAppends(a[1..], b, s);
    }
  }

  lemma {:induction false} WithoutCounts(gaps: seq<Gap>, s: SessionId, t: SessionId)
    ensures CountFor(Without(gaps, s), t) == if s == t then 0 else CountFor(gaps, t)
  {
    if gaps != [] {
      WithoutCounts(gaps[1..], s, t);
    }
  }

  // ---- One envelope ---------------------------------------------------------

  /** What an emission takes off the announcements that are owed. */
  function Charge(payload: Payload, session: Option<SessionId>): seq<Gap> {
    match session
    case None => []
    case Some(s) => if payload.StreamGap? then [Gap(s, payload.droppedEvents)] else []
  }

  lemma IssueSequenced(st: State, payload: Payload, session: Option<SessionId>)
    requires Sequenced(st)
    ensures Sequenced(Issue(st, payload, session))
  {
    var issued := Issue(st, payload, session);
    var n := |st.trace.log|;
    forall i | 0 <= i < |issued.trace.log|
      ensures Reached(issued, issued.trace.log[i])
      ensures i < n && SameCounter(issued.trace.log[i], issued.trace.log[n]) ==>
                issued.trace.log[i].envelope.sequence < issued.trace.log[n].envelope.sequence
    {
      if i < n {
        assert Reached(st, st.trace.log[i]);
      }
    }
  }

  lemma EnqueueAccounted(st: State, payload: Payload, session: Option<SessionId>, owed: seq<Gap>, s: SessionId)
    requires Conserved(st)
    requires AccountedFor(st, Charge(payload, session) + owed, s)
    ensures AccountedFor(Enqueue(st, payload, session), owed, s)
  {
    hide LostOf, AnnouncedOf;
    var entry := Enqueue(st, payload, session).trace.log[|st.trace.log|];
    LostStays(st.trace.log, entry, st.trace.fates, s);
    AnnouncedGrows(st.trace.log, entry, s);
    CountAppends(Charge(payload, session), owed, s);
  }

  lemma EnqueueSound(st: State, payload: Payload, session: Option<SessionId>, owed: seq<Gap>)
    requires Sound(st, Charge(payload, session) + owed)
    ensures Sound(Enqueue(st, payload, session), owed)
  {
    var next := Enqueue(st, payload, session);
    IssueSequenced(st, payload, session);
    SameSequenced(Issue(st, payload, session), next);
    SentStays(st.trace.log, next.trace.log[|st.trace.log|], st.trace.fates);
    forall s: SessionId ensures AccountedFor(next, owed, s) {
      EnqueueAccounted(st, payload, session, owed, s);
    }
  }

  lemma SameSequenced(st: State, next: State)
    requires Sequenced(st)
    requires next.sequences == st.sequences && next.hostSequence == st.hostSequence
    requires next.trace.log == st.trace.log && next.trace.epochs == st.trace.epochs
    ensures Sequenced(next)
  {
    forall i | 0 <= i < |next.trace.log| ensures Reached(next, next.trace.log[i]) {
      assert Reached(st, st.trace.log[i]);
    }
  }

  lemma LoseConserved(st: State, payload: Payload, session: Option<SessionId>)
    requires Conserved(st)
    ensures Conserved(Lose(st, payload, session))
  {
    var next := Lose(st, payload, session);
    SentStays(st.trace.log, next.trace.log[|st.trace.log|], st.trace.fates);
    LoseRestSent(next.trace.log, st.trace.fates, |st.pending| + 1);
  }

  /** What a discard loses of one session: every envelope of it that waited, and the breaching one. */
  lemma LoseLosses(st: State, payload: Payload, session: Option<SessionId>, s: SessionId)
    requires Conserved(st)
    ensures var next := Lose(st, payload, session);
            && |next.trace.fates| <= |next.trace.log|
            && LostOf(next.trace.log, next.trace.fates, s)
               == LostOf(st.trace.log, st.trace.fates, s) + Occurrences(st.pending + [Next(st, payload, session)], s)
  {
    hide LostOf, Occurrences, BumpAll;
    var next := Lose(st, payload, session);
    var entry := next.trace.log[|st.trace.log|];
    assert next.trace.log == st.trace.log + [entry];
    LoseRest(next.trace.log, st.trace.fates, st.pending + [entry.envelope], s);
    LostStays(st.trace.log, entry, st.trace.fates, s);
  }

  lemma LoseAccounted(st: State, payload: Payload, session: Option<SessionId>, owed: seq<Gap>, s: SessionId)
    requires Conserved(st)
    requires AccountedFor(st, Charge(payload, session) + owed, s)
    ensures AccountedFor(Lose(st, payload, session), owed, s)
  {
    LoseLosses(st, payload, session, s);
    AnnouncedGrows(st.trace.log, Lose(st, payload, session).trace.log[|st.trace.log|], s);
    CountAppends(Charge(payload, session), owed, s);
    BumpAllCounts(st.dropped, st.pending + [Next(st, payload, session)], s);
    hide LostOf, AnnouncedOf, Occurrences, BumpAll;
  }

  lemma LoseSound(st: State, payload: Payload, session: Option<SessionId>, owed: seq<Gap>)
    requires Sound(st, Charge(payload, session) + owed)
    ensures Sound(Lose(st, payload, session), owed)
  {
    var next := Lose(st, payload, session);
    IssueSequenced(st, payload, session);
    SameSequenced(Issue(st, payload, session), next);
    LoseConserved(st, payload, session);
    forall s: SessionId ensures AccountedFor(next, owed, s) {
      LoseAccounted(st, payload, session, owed, s);
    }
  }

  lemma PostFirstSound(size: Size, st: State, owed: seq<Gap>)
    requires st.pending != []
    requires Sound(st, owed)
    ensures Sound(PostFirst(size, st), owed)
  {
    var next := PostFirst(size, st);
    assert next.trace.fates[..|st.trace.fates|] == st.trace.fates;
    assert Sequenced(next) by {
      forall i | 0 <= i < |next.trace.log| ensures Reached(next, next.trace.log[i]) {
        assert Reached(st, st.trace.log[i]);
      }
    }
    forall s: SessionId ensures AccountedFor(next, owed, s) {
      assert AccountedFor(st, owed, s);
    }
  }

  lemma {:induction false} DrainSound(size: Size, st: State, owed: seq<Gap>)
    requires Sound(st, owed)
    ensures Sound(Drain(size, st), owed)
    decreases |st.pending|
  {
    if st.attached && st.pending != [] && !Blocked(size, st) {
      PostFirstSound(size, st, owed);
      DrainSound(size, PostFirst(size, st), owed);
    }
  }

  lemma ResetSound(st: State, s: SessionId, owed: seq<Gap>)
    requires Sound(st, owed)
    ensures Sound(Reset(st, s), owed)
  {
    var next := Reset(st, s);
    forall i | 0 <= i < |next.trace.log| ensures Reached(next, next.trace.log[i]) {
      assert Reached(st, st.trace.log[i]);
    }
    forall t: SessionId ensures AccountedFor(next, owed, t) {
      assert AccountedFor(st, owed, t);
    }
  }

  /** Taking the map moves its counts, all of them, to the announcements that are owed. */
  lemma TakeSound(st: State, owed: seq<Gap>)
    requires Sound(st, owed)
    ensures Sound(st.(dropped := []), st.dropped + owed)
  {
    var next := st.(dropped := []);
    forall i | 0 <= i < |next.trace.log| ensures Reached(next, next.trace.log[i]) {
      assert Reached(st, st.trace.log[i]);
    }
    forall t: SessionId ensures AccountedFor(next, st.dropped + owed, t) {
      assert AccountedFor(st, owed, t);
      CountAppends(st.dropped, owed, t);
    }
  }

  lemma CloseSound(st: State, s: SessionId)
    requires Sound(st, [])
    ensures Sound(Close(st, s), [])
  {
    var next := Close(st, s);
    forall i | 0 <= i < |next.trace.log| ensures Reached(next, next.trace.log[i]) {
      assert Reached(st, st.trace.log[i]);
    }
    forall t: SessionId ensures AccountedFor(next, [], t) {
      assert AccountedFor(st, [], t);
      WithoutCounts(st.dropped, s, t);
    }
  }

  /** Fields the invariant does not read may change freely. */
  lemma SameLogSound(st: State, next: State, owed: seq<Gap>)
    requires Sound(st, owed)
    requires next.sequences == st.sequences && next.hostSequence == st.hostSequence
    requires next.pending == st.pending && next.dropped == st.dropped
    requires next.trace.log == st.trace.log && next.trace.fates == st.trace.fates && next.trace.sent == st.trace.sent
    requires next.trace.epochs == st.trace.epochs && next.trace.waived == st.trace.waived
    ensures Sound(next, owed)
  {
    forall i | 0 <= i < |next.trace.log| ensures Reached(next, next.trace.log[i]) {
      assert Reached(st, st.trace.log[i]);
    }
    forall t: SessionId ensures AccountedFor(next, owed, t) {
      assert AccountedFor(st, owed, t);
    }
  }

  // ---- The repair recursion -------------------------------------------------

  lemma {:induction false} EmitSound(
      size: Size, depth: nat, st: State, payload: Payload, session: Option<SessionId>, owed: seq<Gap>)
    requires Sound(st, Charge(payload, session) + owed)
    requires Emit(size, depth, st, payload, session).Some?
    ensures Sound(Emit(size, depth, st, payload, session).value, owed)
    decreases depth, 0
  {
    if !Overflows(size, st, payload, session) {
      EnqueueSound(st, payload, session, owed);
      DrainSound(size, Enqueue(st, payload, session), owed);
    } else {
      LoseSound(st, payload, session, owed);
      var lost := Lose(st, payload, session);
      if lost.attached {
        AnnounceSound(size, depth - 1, lost, owed);
        DrainSound(size, Announce(size, depth - 1, lost).value, owed);
      }
    }
  }

  lemma {:induction false} AnnounceSound(size: Size, depth: nat, st: State, owed: seq<Gap>)
    requires Sound(st, owed)
    requires Announce(size, depth, st).Some?
    ensures Sound(Announce(size, depth, st).value, owed)
    decreases depth, 4
  {
    TakeSound(st, owed);
    AnnounceEachSound(size, depth, st.(dropped := []), st.dropped, owed);
  }

  lemma {:induction false} AnnounceEachSound(size: Size, depth: nat, st: State, gaps: seq<Gap>, owed: seq<Gap>)
    requires Sound(st, gaps + owed)
    requires AnnounceEach(size, depth, st, gaps).Some?
    ensures Sound(AnnounceEach(size, depth, st, gaps).value, owed)
    decreases depth, 3, |gaps|
  {
    if gaps == [] {
      assert gaps + owed == owed;
    } else {
      var first := gaps[0];
      var rest := gaps[1..] + owed;
      assert gaps + owed == Charge(StreamGap(first.count), Some(first.session)) + rest;
      EmitSound(size, depth, st, StreamGap(first.count), Some(first.session), rest);
      var told := Emit(size, depth, st, StreamGap(first.count), Some(first.session)).value;
      if first.session in told.hosts {
        ResyncSound(size, depth, told, first.session, true, rest);
      }
      var repaired := OnGap(size, depth, told, first.session).value;
      AnnounceEachSound(size, depth, repaired, gaps[1..], owed);
    }
  }

  lemma {:induction false} ResyncSound(size: Size, depth: nat, st: State, s: SessionId, afterGap: bool, owed: seq<Gap>)
    requires Sound(st, owed)
    requires s in st.hosts
    requires Resync(size, depth, st, s, afterGap).Some?
    ensures Sound(Resync(size, depth, st, s, afterGap).value, owed)
    decreases depth, 1
  {
    var fenced := Reset(st, s);
    var snapshot := Snapshot(SequenceFor(fenced, s), st.hosts[s], afterGap);
    ResetSound(st, s, owed);
    assert Charge(snapshot, Some(s)) + owed == owed;
    EmitSound(size, depth, fenced, snapshot, Some(s), owed);
  }

  lemma {:induction false} ResyncEachSound(
      size: Size, depth: nat, st: State, ids: seq<SessionId>, already: set<SessionId>)
    requires Sound(st, [])
    requires ResyncEach(size, depth, st, ids, already).Some?
    ensures Sound(ResyncEach(size, depth, st, ids, already).value, [])
    decreases |ids|
  {
    if ids == [] {
    } else if ids[0] in already || ids[0] !in st.hosts {
      ResyncEachSound(size, depth, st, ids[1..], already);
    } else {
      ResyncSound(size, depth, st, ids[0], false, []);
      ResyncEachSound(size, depth, Resync(size, depth, st, ids[0], false).value, ids[1..], already);
    }
  }

  lemma NoticeSound(size: Size, depth: nat, st: State, notice: nat)
    requires Sound(st, [])
    requires Emit(size, depth, st, HostNotice(notice), None).Some?
    ensures Sound(Emit(size, depth, st, HostNotice(notice), None).value, [])
  {
    assert Charge(HostNotice(notice), None) + [] == [];
    EmitSound(size, depth, st, HostNotice(notice), None, []);
  }

  lemma AttachSound(size: Size, depth: nat, st: State, restore: bool)
    requires Sound(st, [])
    requires Attach(size, depth, st, restore).Some?
    ensures Sound(Attach(size, depth, st, restore).value, [])
  {
    SameLogSound(st, TakePort(st), []);
    DrainSound(size, TakePort(st), []);
    var flushed := Drain(size, TakePort(st));
    AnnounceSound(size, depth, flushed, []);
    var announced := Announce(size, depth, flushed).value;
    NoticeSound(size, depth, announced, HOST_READY);
    var ready := Emit(size, depth, announced, HostNotice(HOST_READY), None).value;
    if restore {
      NoticeSound(size, depth, ready, WORKSPACE_CHANGED);
    }
    var restored := if restore then Emit(size, depth, ready, HostNotice(WORKSPACE_CHANGED), None).value else ready;
    ResyncEachSound(size, depth, restored, restored.open, GapSessions(flushed.dropped));
    DrainSound(size, OnAttach(size, depth, announced, GapSessions(flushed.dropped), restore).value, []);
  }

  lemma StepSound(size: Size, depth: nat, st: State, op: Op)
    requires Sound(st, [])
    requires Step(size, depth, st, op).Some?
    ensures Sound(Step(size, depth, st, op).value, [])
  {
    match op
    case DoRegister(s, history) => SameLogSound(st, Register(st, s, history), []);
    case DoAnswer(s) => if s in st.hosts { SameLogSound(st, Answer(st, s), []); }
    case DoChange(s, change) =>
      SameLogSound(st, Apply(st, s, change), []);
      assert Charge(Changed(change), Some(s)) + [] == [];
      EmitSound(size, depth, Apply(st, s, change), Changed(change), Some(s), []);
    case DoNotice(notice) => NoticeSound(size, depth, st, notice);
    case DoReplace(s, history) =>
      if s in st.hosts {
        var replaced := st.(hosts := st.hosts[s := history]);
        SameLogSound(st, replaced, []);
        ResyncSound(size, depth, replaced, s, false, []);
      }
    case DoResync(s) => if s in st.hosts { ResyncSound(size, depth, st, s, true, []); }
    case DoClose(s) => if s in st.hosts { CloseSound(st, s); }
    case DoAttach(restore) => AttachSound(size, depth, st, restore);
    case DoDetach => SameLogSound(st, Detach(st), []);
    case DoAck(count) =>
      var credited := st.(inFlight := st.inFlight[Min(count, |st.inFlight|)..]);
      SameLogSound(st, credited, []);
      DrainSound(size, credited, []);
  }

  /** Over every run: nothing is lost twice, sent twice, reordered or left out of the accounts. */
  lemma {:induction false} RunSound(size: Size, depth: nat, ops: seq<Op>)
    requires Run(size, depth, ops).Some?
    ensures Sound(Run(size, depth, ops).value, [])
    decreases |ops|
  {
    if ops != [] {
      RunSound(size, depth, ops[..|ops| - 1]);
      StepSound(size, depth, Run(size, depth, ops[..|ops| - 1]).value, ops[|ops| - 1]);
    }
  }

  // ---- What the counts say ---------------------------------------------------

  lemma {:induction false} DistinctCount(gaps: seq<Gap>, i: nat)
    requires i < |gaps|
    requires forall j, k :: 0 <= j < k < |gaps| ==> gaps[j].session != gaps[k].session
    ensures CountFor(gaps, gaps[i].session) == gaps[i].count
  {
    if i == 0 {
      NotCounted(gaps[1..], gaps[0].session);
    } else {
      DistinctCount(gaps[1..], i - 1);
    }
  }

  lemma {:induction false} NotCounted(gaps: seq<Gap>, s: SessionId)
    requires forall j :: 0 <= j < |gaps| ==> gaps[j].session != s
    ensures CountFor(gaps, s) == 0
  {
    if gaps != [] {
      NotCounted(gaps[1..], s);
    }
  }

  /** When a pass begins, each announcement it will make counts every loss not announced or waived before. */
  lemma GapCountsTheRest(st: State, i: nat)
    requires Sound(st, [])
    requires i < |st.dropped|
    requires forall j, k :: 0 <= j < k < |st.dropped| ==> st.dropped[j].session != st.dropped[k].session
    ensures var s := st.dropped[i].session;
            st.dropped[i].count ==
            LostOf(st.trace.log, st.trace.fates, s) - AnnouncedOf(st.trace.log, s) - Lookup(st.trace.waived, s)
  {
    DistinctCount(st.dropped, i);
    assert AccountedFor(st, [], st.dropped[i].session);
  }

  /** The total counts every envelope of a discard exactly when the one that breached the cap has a session. */
  lemma TotalCountsDiscard(st: State, payload: Payload, session: Option<SessionId>)
    requires Conserved(st)
    ensures var lost := Lose(st, payload, session);
            && Conserved(lost)
            && (lost.droppedWhileDetached - st.droppedWhileDetached == |lost.trace.fates| - |st.trace.fates|
                <==> session.Some?)
  {
    LoseConserved(st, payload, session);
  }
}
