/**
 * What the count in an announced gap is worth. An announcement is exact when its count is
 * everything its session lost that no earlier announcement told of. A pass that starts from
 * an empty queue makes only exact ones, however deep it nests; a pass that starts behind
 * envelopes that survived a discard can lose those again before it has announced their session.
 */
module EventGaps {
  import opened Wrappers
  import opened EventStream
  import opened EventConservation
  import opened EventRepair
  import EventRepairLimit

  /** What a session lost that no announcement has told of and no close has waived. */
  function Untold(st: State, s: SessionId): int
    requires |st.trace.fates| <= |st.trace.log|
  {
    LostOf(st.trace.log, st.trace.fates, s) - AnnouncedOf(st.trace.log, s) - Lookup(st.trace.waived, s)
  }

  ghost predicate Exact(st: State, s: SessionId, count: nat) {
    |st.trace.fates| <= |st.trace.log| && Untold(st, s) == count
  }

  /**
   * At the moment of announcing, with `rest` still owed by the passes under way, a count is
   * exact if and only if nothing more of the session is in the map or owed.
   */
  lemma ExactExactlyWhen(st: State, s: SessionId, count: nat, rest: seq<Gap>)
    requires Sound(st, [Gap(s, count)] + rest)
    ensures Exact(st, s, count) <==> CountFor(st.dropped, s) + CountFor(rest, s) == 0
    ensures Untold(st, s) == count + CountFor(st.dropped, s) + CountFor(rest, s)
  {
    assert AccountedFor(st, [Gap(s, count)] + rest, s);
    CountAppends([Gap(s, count)], rest, s);
  }

  /** An exact announcement leaves nothing untold, so what the next one tells was lost since. */
  lemma ExactLeavesNothing(st: State, s: SessionId, count: nat, rest: seq<Gap>)
    requires Sound(st, [Gap(s, count)] + rest) && Exact(st, s, count)
    ensures Untold(Issue(st, StreamGap(count), Some(s)), s) == 0
  {
    var entry := Issue(st, StreamGap(count), Some(s)).trace.log[|st.trace.log|];
    LostStays(st.trace.log, entry, st.trace.fates, s);
    AnnouncedGrows(st.trace.log, entry, s);
  }

  // ---- Every announcement an operation makes ---------------------------------------------

  /** Every announcement made in the course of an emission, however deep it nests, is exact. */
  ghost predicate EmitExact(size: Size, depth: nat, st: State, payload: Payload, session: Option<SessionId>)
    decreases depth, 0
  {
    && (payload.StreamGap? && session.Some? ==> Exact(st, session.value, payload.droppedEvents))
    && (Overflows(size, st, payload, session) && st.attached && depth > 0 ==>
          var lost := Lose(st, payload, session);
          PassExact(size, depth - 1, lost.(dropped := []), lost.dropped))
  }

  ghost predicate PassExact(size: Size, depth: nat, st: State, gaps: seq<Gap>)
    decreases depth, 3, |gaps|
  {
    gaps == [] ||
    (var s, gap := gaps[0].session, StreamGap(gaps[0].count);
     var told := Emit(size, depth, st, gap, Some(s));
     && EmitExact(size, depth, st, gap, Some(s))
     && (told.Some? ==>
           && OnGapExact(size, depth, told.value, s)
           && (OnGap(size, depth, told.value, s).Some? ==>
                 PassExact(size, depth, OnGap(size, depth, told.value, s).value, gaps[1..]))))
  }

  ghost predicate OnGapExact(size: Size, depth: nat, st: State, s: SessionId)
    decreases depth, 2
  {
    s in st.hosts ==> ResyncExact(size, depth, st, s, true)
  }

  ghost predicate ResyncExact(size: Size, depth: nat, st: State, s: SessionId, afterGap: bool)
    requires s in st.hosts
    decreases depth, 1
  {
    EmitExact(size, depth, Reset(st, s), Snapshot(SequenceFor(Reset(st, s), s), st.hosts[s], afterGap), Some(s))
  }

  /** The pass that attaching makes itself, once what waited is flushed. */
  ghost predicate AttachPassExact(size: Size, depth: nat, st: State) {
    var flushed := Drain(size, TakePort(st));
    PassExact(size, depth, flushed.(dropped := []), flushed.dropped)
  }

  /** What attaching sends once its pass is done. */
  ghost predicate OnAttachExact(size: Size, depth: nat, st: State, already: set<SessionId>, restore: bool) {
    var ready := Emit(size, depth, st, HostNotice(HOST_READY), None);
    && EmitExact(size, depth, st, HostNotice(HOST_READY), None)
    && (ready.Some? ==>
          var restored :=
            if restore then Emit(size, depth, ready.value, HostNotice(WORKSPACE_CHANGED), None) else ready;
          && (restore ==> EmitExact(size, depth, ready.value, HostNotice(WORKSPACE_CHANGED), None))
          && (restored.Some? ==> ResyncEachExact(size, depth, restored.value, restored.value.open, already)))
  }

  ghost predicate ResyncEachExact(size: Size, depth: nat, st: State, ids: seq<SessionId>, already: set<SessionId>)
    decreases |ids|
  {
    if ids == [] then true
    else if ids[0] in already || ids[0] !in st.hosts then ResyncEachExact(size, depth, st, ids[1..], already)
    else
      var fenced := Resync(size, depth, st, ids[0], false);
      ResyncExact(size, depth, st, ids[0], false)
      && (fenced.Some? ==> ResyncEachExact(size, depth, fenced.value, ids[1..], already))
  }

  ghost predicate AttachExact(size: Size, depth: nat, st: State, restore: bool) {
    var flushed := Drain(size, TakePort(st));
    var announced := Announce(size, depth, flushed);
    && AttachPassExact(size, depth, st)
    && (announced.Some? ==> OnAttachExact(size, depth, announced.value, GapSessions(flushed.dropped), restore))
  }

  /** Every announcement made in the course of an operation is exact. */
  ghost predicate StepExact(size: Size, depth: nat, st: State, op: Op) {
    match op
    case DoAttach(restore) => AttachExact(size, depth, st, restore)
    case _ =>
      var e := EventRepairLimit.EmissionOf(st, op);
      e.Some? ==> EmitExact(size, depth, e.value.from, e.value.payload, e.value.session)
  }

  // ---- A pass from an empty queue ------------------------------------------------------------

  /** No session of `known` is still owed an announcement by a pass under way. */
  ghost predicate NoneOwed(owed: seq<Gap>, known: seq<SessionId>) {
    forall s :: s in known ==> CountFor(owed, s) == 0
  }

  lemma {:induction false} EmitIsExact(
      size: Size, depth: nat, st: State, payload: Payload, session: Option<SessionId>, owed: seq<Gap>,
      known: seq<SessionId>)
    requires Sound(st, Charge(payload, session) + owed) && Announced(st) && (payload.StreamGap? ==> st.attached)
    requires Within(st, known) && (session.Some? ==> session.value in known) && NoneOwed(owed, known)
    ensures EmitExact(size, depth, st, payload, session)
    decreases depth, 0
  {
    hide Sound, Within;
    if payload.StreamGap? && session.Some? {
      ExactExactlyWhen(st, session.value, payload.droppedEvents, owed);
    }
    if Overflows(size, st, payload, session) && st.attached && depth > 0 {
      var lost := Lose(st, payload, session);
      LostIsFresh(st, payload, session, owed, known);
      PassIsExact(size, depth - 1, lost.(dropped := []), lost.dropped, owed, []);
    }
  }

  /** A discard leaves an empty queue and, to announce, sessions that nobody else owes a word. */
  lemma LostIsFresh(st: State, payload: Payload, session: Option<SessionId>, owed: seq<Gap>, known: seq<SessionId>)
    requires Sound(st, Charge(payload, session) + owed) && st.dropped == []
    requires Within(st, known) && (session.Some? ==> session.value in known) && NoneOwed(owed, known)
    ensures var lost := Lose(st, payload, session);
            && Sound(lost.(dropped := []), lost.dropped + owed)
            && Within(lost.(dropped := []), [])
            && DistinctGaps(lost.dropped)
            && forall gap :: gap in lost.dropped ==> CountFor(owed, gap.session) == 0
  {
    hide Sound;
    var lost := Lose(st, payload, session);
    LoseSound(st, payload, session, owed);
    TakeSound(lost, owed);
    BumpAllWithin([], st.pending + [Next(st, payload, session)], known);
  }

  lemma {:induction false} PassIsExact(
      size: Size, depth: nat, st: State, gaps: seq<Gap>, owed: seq<Gap>, queued: seq<SessionId>)
    requires Sound(st, gaps + owed) && st.attached && st.dropped == []
    requires Within(st, queued) && NoneOwed(owed, queued) && DistinctGaps(gaps)
    requires forall gap :: gap in gaps ==> gap.session !in queued && CountFor(owed, gap.session) == 0
    ensures PassExact(size, depth, st, gaps)
    decreases depth, 3, |gaps|
  {
    if gaps != [] {
      hide Sound, Within, EmitExact, DistinctGaps;
      var s, gap, rest := gaps[0].session, StreamGap(gaps[0].count), gaps[1..] + owed;
      var known := queued + [s];
      assert gaps + owed == Charge(gap, Some(s)) + rest;
      OthersAreOwed(gaps, owed, queued);
      WithinMore(st, queued, s);
      EmitIsExact(size, depth, st, gap, Some(s), rest, known);
      var told := Emit(size, depth, st, gap, Some(s));
      if told.Some? {
        EmitSound(size, depth, st, gap, Some(s), rest);
        EmitKeeps(size, depth, st, gap, Some(s), known);
        OnGapIsExact(size, depth, told.value, s, rest, known);
        var repaired := OnGap(size, depth, told.value, s);
        if repaired.Some? {
          PassIsExact(size, depth, repaired.value, gaps[1..], owed, known);
        }
      }
    }
  }

  /** What a pass still owes once it has come to its first session. */
  lemma OthersAreOwed(gaps: seq<Gap>, owed: seq<Gap>, queued: seq<SessionId>)
    requires gaps != [] && DistinctGaps(gaps) && NoneOwed(owed, queued)
    requires forall gap :: gap in gaps ==> gap.session !in queued && CountFor(owed, gap.session) == 0
    ensures var known := queued + [gaps[0].session];
            && NoneOwed(gaps[1..] + owed, known) && NoneOwed(owed, known) && DistinctGaps(gaps[1..])
            && forall gap :: gap in gaps[1..] ==> gap.session !in known && CountFor(owed, gap.session) == 0
  {
    var known := queued + [gaps[0].session];
    assert gaps[0] in gaps;
    forall i | 0 <= i < |gaps[1..]|
      ensures gaps[1..][i].session !in known
    {
      assert gaps[i + 1] in gaps;
    }
    forall s | s in known
      ensures CountFor(gaps[1..] + owed, s) == 0
    {
      CountAppends(gaps[1..], owed, s);
      NotCounted(gaps[1..], s);
    }
  }

  lemma WithinMore(st: State, queued: seq<SessionId>, s: SessionId)
    requires Within(st, queued)
    ensures Within(st, queued + [s])
  {
  }

  lemma {:induction false} OnGapIsExact(
      size: Size, depth: nat, st: State, s: SessionId, owed: seq<Gap>, known: seq<SessionId>)
    requires Sound(st, owed) && st.attached && st.dropped == []
    requires Within(st, known) && s in known && NoneOwed(owed, known)
    ensures OnGapExact(size, depth, st, s)
    ensures OnGap(size, depth, st, s).Some? ==>
              var repaired := OnGap(size, depth, st, s).value;
              Sound(repaired, owed) && repaired.attached && repaired.dropped == [] && Within(repaired, known)
    decreases depth, 2
  {
    hide Sound, EmitExact;
    if s in st.hosts {
      var fenced := Reset(st, s);
      var snapshot := Snapshot(SequenceFor(fenced, s), st.hosts[s], true);
      ResetSound(st, s, owed);
      assert Charge(snapshot, Some(s)) + owed == owed;
      EmitIsExact(size, depth, fenced, snapshot, Some(s), owed, known);
      if OnGap(size, depth, st, s).Some? {
        ResyncSound(size, depth, st, s, true, owed);
        ResyncKeeps(size, depth, st, s, true, known);
      }
    }
  }

  // ---- Emissions between passes ----------------------------------------------------------------

  /** A state between operations, or between the emissions of an attachment. */
  ghost predicate Between(st: State, known: seq<SessionId>) {
    Sound(st, []) && Announced(st) && Within(st, known)
  }

  lemma EmissionIsExact(
      size: Size, depth: nat, st: State, payload: Payload, session: Option<SessionId>, known: seq<SessionId>)
    requires Between(st, known) && !payload.StreamGap? && (session.Some? ==> session.value in known)
    ensures EmitExact(size, depth, st, payload, session)
    ensures Emit(size, depth, st, payload, session).Some? ==>
              var next := Emit(size, depth, st, payload, session).value;
              Between(next, known) && SameHosts(st, next)
  {
    hide Sound, Within, EmitExact, Emit;
    assert Charge(payload, session) + [] == [];
    EmitIsExact(size, depth, st, payload, session, [], known);
    if Emit(size, depth, st, payload, session).Some? {
      EmitSound(size, depth, st, payload, session, []);
      EmitKeeps(size, depth, st, payload, session, known);
    }
  }

  lemma {:induction false} ResyncEachIsExact(
      size: Size, depth: nat, st: State, ids: seq<SessionId>, already: set<SessionId>, known: seq<SessionId>)
    requires Between(st, known) && forall s :: s in ids ==> s in known
    ensures ResyncEachExact(size, depth, st, ids, already)
    decreases |ids|
  {
    if ids != [] {
      hide Between, EmitExact, Emit;
      assert ids[0] in known;
      if ids[0] in already || ids[0] !in st.hosts {
        ResyncEachIsExact(size, depth, st, ids[1..], already, known);
      } else {
        var fenced := Reset(st, ids[0]);
        var snapshot := Snapshot(SequenceFor(fenced, ids[0]), st.hosts[ids[0]], false);
        ResetBetween(st, ids[0], known);
        EmissionIsExact(size, depth, fenced, snapshot, Some(ids[0]), known);
        var next := Resync(size, depth, st, ids[0], false);
        if next.Some? {
          ResyncEachIsExact(size, depth, next.value, ids[1..], already, known);
        }
      }
    }
  }

  lemma ResetBetween(st: State, s: SessionId, known: seq<SessionId>)
    requires Between(st, known)
    ensures Between(Reset(st, s), known)
  {
    hide Sound;
    ResetSound(st, s, []);
  }

  lemma OnAttachIsExact(size: Size, depth: nat, st: State, already: set<SessionId>, restore: bool,
                        known: seq<SessionId>)
    requires Between(st, known) && forall s :: s in st.open ==> s in known
    ensures OnAttachExact(size, depth, st, already, restore)
  {
    hide Between, EmitExact, Emit, ResyncEachExact;
    EmissionIsExact(size, depth, st, HostNotice(HOST_READY), None, known);
    var ready := Emit(size, depth, st, HostNotice(HOST_READY), None);
    if ready.Some? {
      if restore {
        EmissionIsExact(size, depth, ready.value, HostNotice(WORKSPACE_CHANGED), None, known);
      }
      var restored := if restore then Emit(size, depth, ready.value, HostNotice(WORKSPACE_CHANGED), None) else ready;
      if restored.Some? {
        ResyncEachIsExact(size, depth, restored.value, restored.value.open, already, known);
      }
    }
  }

  lemma FromIsSound(st: State, op: Op)
    requires Sound(st, []) && EventRepairLimit.EmissionOf(st, op).Some?
    ensures Sound(EventRepairLimit.EmissionOf(st, op).value.from, [])
  {
    hide Sound;
    match op
    case DoChange(s, change) => SameLogSound(st, Apply(st, s, change), []);
    case DoReplace(s, history) =>
      var replaced := st.(hosts := st.hosts[s := history]);
      SameLogSound(st, replaced, []);
      ResetSound(replaced, s, []);
    case DoResync(s) => ResetSound(st, s, []);
    case _ =>
  }
}
