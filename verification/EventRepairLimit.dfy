/**
 * How far repairs can be finished. A pass of announcements and snapshots that overflows starts
 * over, with less credit than before, with the sessions whose repairs were waiting, in the same
 * order, so it overflows again: the recursion ends exactly when the pass that a discard starts
 * does not overflow once. Whether it does is a matter of arithmetic, over the credit that is
 * left and the sizes of the repairs.
 */
module EventRepairLimit {
  import opened Wrappers
  import opened EventStream
  import opened EventRepair

  /** What an announcement costs does not depend on the number in it or on the one it carries. */
  ghost predicate GapsUniform(size: Size) {
    forall s, q, n :: GapBytes(size, s, q, n) == GapBytes(size, s, 1, 1)
  }

  // ---- The arithmetic of a pass ---------------------------------------------------------

  predicate Stuck(sum: nat, bytes: nat) {
    sum > 0 && sum + bytes > EVENT_DELIVERY_WINDOW_BYTES
  }

  /**
   * Whether envelopes of these sizes, emitted in turn from an empty queue with `sum` in flight
   * and no credit coming back, overflow nowhere: each goes out at once until one does not fit
   * the window, and that one and all behind it must fit the queue together.
   */
  predicate PassFits(sum: nat, sizes: seq<nat>)
    decreases |sizes|
  {
    if sizes == [] then true
    else if Stuck(sum, sizes[0]) then Sum(sizes) <= MAX_QUEUED_SESSION_BYTES
    else sizes[0] <= MAX_QUEUED_SESSION_BYTES && PassFits(sum + sizes[0], sizes[1..])
  }

  /** The snapshot that follows an announcement, if the session is open. */
  function SnapshotSizes(size: Size, hosts: map<SessionId, seq<Change>>, s: SessionId): seq<nat> {
    if s in hosts then [SnapshotBytes(size, hosts, s, true)] else []
  }

  function OneRepair(size: Size, hosts: map<SessionId, seq<Change>>, s: SessionId): seq<nat> {
    [GapBytes(size, s, 1, 1)] + SnapshotSizes(size, hosts, s)
  }

  function RepairSizes(size: Size, hosts: map<SessionId, seq<Change>>, ids: seq<SessionId>): seq<nat> {
    if ids == [] then [] else OneRepair(size, hosts, ids[0]) + RepairSizes(size, hosts, ids[1..])
  }

  lemma {:induction false} SumFirst(first: nat, rest: seq<nat>)
    ensures Sum([first] + rest) == first + Sum(rest)
  {
    var all := [first] + rest;
    if rest == [] {
      assert all[..0] == [];
    } else {
      var n := |rest| - 1;
      assert all[..|all| - 1] == [first] + rest[..n];
      SumFirst(first, rest[..n]);
    }
  }

  lemma {:induction false} SumSplits(a: seq<nat>, b: seq<nat>)
    ensures Sum(a + b) == Sum(a) + Sum(b)
  {
    if b == [] {
      assert a + b == a;
    } else {
      assert (a + b)[..|a + b| - 1] == a + b[..|b| - 1];
      SumSplits(a, b[..|b| - 1]);
    }
  }

  lemma {:induction false} RepairSizesSplit(
      size: Size, hosts: map<SessionId, seq<Change>>, a: seq<SessionId>, b: seq<SessionId>)
    ensures RepairSizes(size, hosts, a + b) == RepairSizes(size, hosts, a) + RepairSizes(size, hosts, b)
  {
    if a == [] {
      assert a + b == b;
    } else {
      assert (a + b)[1..] == a[1..] + b;
      RepairSizesSplit(size, hosts, a[1..], b);
    }
  }

  lemma RepairSizesOfOne(size: Size, hosts: map<SessionId, seq<Change>>, ids: seq<SessionId>, s: SessionId)
    ensures RepairSizes(size, hosts, ids + [s]) == RepairSizes(size, hosts, ids) + OneRepair(size, hosts, s)
    ensures RepairSizes(size, hosts, [s] + ids) == OneRepair(size, hosts, s) + RepairSizes(size, hosts, ids)
  {
    RepairSizesSplit(size, hosts, ids, [s]);
    RepairSizesSplit(size, hosts, [s], ids);
    assert [s][1..] == [];
    assert OneRepair(size, hosts, s) + [] == OneRepair(size, hosts, s);
  }

  /** Sizes that do not fit from some point on do not fit with one more before that point, whatever follows. */
  lemma DoesNotFit(sum: nat, skip: seq<nat>, tail: seq<nat>)
    requires |skip| <= 1 && tail != []
    requires Sum(tail) > MAX_QUEUED_SESSION_BYTES
    requires Stuck(sum, tail[0]) || tail[0] > MAX_QUEUED_SESSION_BYTES
    ensures !PassFits(sum, skip + tail)
  {
    if skip == [] {
      assert skip + tail == tail;
    } else {
      assert skip + tail == [skip[0]] + tail && (skip + tail)[1..] == tail;
      SumFirst(skip[0], tail);
    }
  }

  // ---- The queue of a pass under way --------------------------------------------------

  /** The sessions a discard of these envelopes would announce, in order. */
  function Sessions(envelopes: seq<Envelope>): seq<SessionId> {
    Ids(BumpAll([], envelopes))
  }

  lemma IdsFirst(gap: Gap, rest: seq<Gap>)
    ensures Ids([gap] + rest) == [gap.session] + Ids(rest)
  {
  }

  lemma {:induction false} IdsBump(gaps: seq<Gap>, s: SessionId)
    ensures Ids(Bump(gaps, s)) == if s in Ids(gaps) then Ids(gaps) else Ids(gaps) + [s]
  {
    hide Ids;
    if gaps == [] {
      IdsOne(s);
    } else {
      var first, rest := gaps[0], gaps[1..];
      assert gaps == [first] + rest;
      IdsFirst(first, rest);
      IdsFirst(Gap(first.session, first.count + 1), rest);
      if first.session != s {
        IdsBump(rest, s);
        IdsFirst(first, Bump(rest, s));
        assert [first.session] + (Ids(rest) + [s]) == [first.session] + Ids(rest) + [s];
      }
    }
  }

  lemma IdsOne(s: SessionId)
    ensures Ids([]) == [] && Ids(Bump([], s)) == [s]
  {
  }

  lemma SessionsExtend(envelopes: seq<Envelope>, e: Envelope, s: SessionId)
    requires e.session == Some(s)
    ensures Sessions(envelopes + [e]) ==
            if s in Sessions(envelopes) then Sessions(envelopes) else Sessions(envelopes) + [s]
  {
    assert (envelopes + [e])[..|envelopes|] == envelopes;
    IdsBump(BumpAll([], envelopes), s);
  }

  lemma BytesWithOne(size: Size, envelopes: seq<Envelope>, e: Envelope)
    ensures Bytes(size, envelopes + [e]) == Bytes(size, envelopes) + size(e)
  {
    assert (envelopes + [e])[..|envelopes|] == envelopes;
  }

  function SizesOf(size: Size, envelopes: seq<Envelope>): seq<nat> {
    if envelopes == [] then [] else SizesOf(size, envelopes[..|envelopes| - 1]) + [size(envelopes[|envelopes| - 1])]
  }

  lemma {:induction false} SizesAddUp(size: Size, envelopes: seq<Envelope>)
    ensures |SizesOf(size, envelopes)| == |envelopes|
    ensures Sum(SizesOf(size, envelopes)) == Bytes(size, envelopes)
    ensures envelopes != [] ==> SizesOf(size, envelopes)[0] == size(envelopes[0])
  {
    if envelopes != [] {
      var n := |envelopes| - 1;
      SizesAddUp(size, envelopes[..n]);
      assert SizesOf(size, envelopes)[..n] == SizesOf(size, envelopes[..n]);
    }
  }

  lemma SizesWithOne(size: Size, envelopes: seq<Envelope>, e: Envelope)
    ensures SizesOf(size, envelopes + [e]) == SizesOf(size, envelopes) + [size(e)]
  {
    assert (envelopes + [e])[..|envelopes|] == envelopes;
  }

  /**
   * What waits is the repairs of its own sessions, in order, except that the first of their
   * announcements may have been posted already.
   */
  ghost predicate Accounts(size: Size, hosts: map<SessionId, seq<Change>>, envelopes: seq<Envelope>, posted: seq<nat>) {
    && |posted| <= 1
    && RepairSizes(size, hosts, Sessions(envelopes)) == posted + SizesOf(size, envelopes)
  }

  /** Attached, with everything announced and nothing left to post. */
  ghost predicate AtRest(size: Size, st: State) {
    && st.attached && st.dropped == [] && Bytes(size, st.pending) <= MAX_QUEUED_SESSION_BYTES
    && (st.pending == [] || Blocked(size, st))
  }

  /** Whether envelopes of these sizes, emitted in turn from here, overflow nowhere. */
  predicate RestFits(size: Size, st: State, sizes: seq<nat>) {
    if st.pending == [] then PassFits(Sum(st.inFlight), sizes)
    else Bytes(size, st.pending) + Sum(sizes) <= MAX_QUEUED_SESSION_BYTES
  }

  /** One emission at rest: it is posted, or it waits with all that waited. */
  lemma EmissionAtRest(size: Size, st: State, payload: Payload, s: SessionId, rest: seq<nat>)
    requires AtRest(size, st)
    ensures var e, next := Next(st, payload, Some(s)), Drain(size, Enqueue(st, payload, Some(s)));
            && (RestFits(size, st, [size(e)] + rest) <==>
                !Overflows(size, st, payload, Some(s)) && RestFits(size, next, rest))
            && (!Overflows(size, st, payload, Some(s)) ==> AtRest(size, next))
            && next.hosts == st.hosts
            && (next.pending == st.pending + [e] || (st.pending == [] && next.pending == []))
  {
    var e, queued := Next(st, payload, Some(s)), Enqueue(st, payload, Some(s));
    SumFirst(size(e), rest);
    BytesWithOne(size, st.pending, e);
    assert ([size(e)] + rest)[1..] == rest;
    if st.pending == [] {
      assert queued.pending == [e];
      var sent := PostFirst(size, queued);
      assert sent.pending == [] && sent.inFlight[..|st.inFlight|] == st.inFlight;
      assert Drain(size, sent) == sent;
    } else {
      assert queued.pending[0] == st.pending[0];
      assert Drain(size, queued) == queued;
    }
  }

  /** The announcement that begins a repair, which is followed by its snapshot and by the other repairs. */
  lemma GapAtRest(size: Size, st: State, gap: Gap, others: seq<nat>)
    requires GapsUniform(size) && AtRest(size, st)
    ensures var s, payload := gap.session, StreamGap(gap.count);
            var e, told := Next(st, payload, Some(s)), Drain(size, Enqueue(st, payload, Some(s)));
            && size(e) == GapBytes(size, s, 1, 1) && e.session == Some(s)
            && (RestFits(size, st, OneRepair(size, st.hosts, s) + others) <==>
                !Overflows(size, st, payload, Some(s))
                && RestFits(size, told, SnapshotSizes(size, st.hosts, s) + others))
            && (!Overflows(size, st, payload, Some(s)) ==> AtRest(size, told))
            && told.hosts == st.hosts
            && (told.pending == st.pending + [e] || (st.pending == [] && told.pending == []))
  {
    hide AtRest, RestFits, Drain, Overflows, Enqueue;
    var s, payload := gap.session, StreamGap(gap.count);
    var e, snapshots := Next(st, payload, Some(s)), SnapshotSizes(size, st.hosts, s);
    assert size(e) == GapBytes(size, s, e.sequence, gap.count) == GapBytes(size, s, 1, 1);
    assert OneRepair(size, st.hosts, s) + others == [size(e)] + (snapshots + others);
    EmissionAtRest(size, st, payload, s, snapshots + others);
  }

  predicate Apart(made: seq<SessionId>, gaps: seq<Gap>) {
    && (forall i, j :: 0 <= i < j < |gaps| ==> gaps[i].session != gaps[j].session)
    && (forall i :: 0 <= i < |gaps| ==> gaps[i].session !in made)
  }

  lemma ApartRest(made: seq<SessionId>, gaps: seq<Gap>)
    requires gaps != [] && Apart(made, gaps)
    ensures gaps[0].session !in made
    ensures Apart(made + [gaps[0].session], gaps[1..]) && Apart([], gaps[1..])
  {
  }

  lemma FirstRepair(size: Size, hosts: map<SessionId, seq<Change>>, gaps: seq<Gap>)
    requires gaps != []
    ensures var s := gaps[0].session;
            RepairSizes(size, hosts, Ids(gaps)) == OneRepair(size, hosts, s) + RepairSizes(size, hosts, Ids(gaps[1..]))
  {
    assert gaps == [gaps[0]] + gaps[1..];
    IdsFirst(gaps[0], gaps[1..]);
    RepairSizesOfOne(size, hosts, Ids(gaps[1..]), gaps[0].session);
  }

  // ---- What waits, as the pass goes on ---------------------------------------------------------

  lemma GapAccounts(
      size: Size, hosts: map<SessionId, seq<Change>>, waiting: seq<Envelope>, posted: seq<nat>,
      e: Envelope, s: SessionId)
    requires Accounts(size, hosts, waiting, posted) && s !in Sessions(waiting)
    requires e.session == Some(s) && size(e) == GapBytes(size, s, 1, 1)
    ensures Sessions(waiting + [e]) == Sessions(waiting) + [s]
    ensures RepairSizes(size, hosts, Sessions(waiting + [e]))
            == posted + (SizesOf(size, waiting + [e]) + SnapshotSizes(size, hosts, s))
  {
    hide Sessions, RepairSizes, SizesOf;
    SessionsExtend(waiting, e, s);
    RepairSizesOfOne(size, hosts, Sessions(waiting), s);
    SizesWithOne(size, waiting, e);
  }

  /** With its snapshot too: unless its announcement was posted, a session's repair waits whole. */
  lemma SnapshotAccounts(
      size: Size, hosts: map<SessionId, seq<Change>>, waiting: seq<Envelope>, posted: seq<nat>,
      gap: Envelope, told: seq<Envelope>, snapshot: Envelope, s: SessionId)
    returns (still: seq<nat>)
    requires Accounts(size, hosts, waiting, posted) && s !in Sessions(waiting) && s in hosts
    requires gap.session == snapshot.session == Some(s)
    requires size(gap) == GapBytes(size, s, 1, 1) && size(snapshot) == SnapshotBytes(size, hosts, s, true)
    requires told == waiting + [gap] || (waiting == [] && told == [])
    ensures Accounts(size, hosts, told + [snapshot], still)
    ensures Sessions(told + [snapshot]) == Sessions(waiting) + [s]
  {
    hide Sessions, RepairSizes, SizesOf;
    GapAccounts(size, hosts, waiting, posted, gap, s);
    SessionsExtend(told, snapshot, s);
    SizesWithOne(size, told, snapshot);
    if told == waiting + [gap] {
      still := posted;
      assert s in Sessions(told);
    } else {
      still := [size(gap)];
      NothingWaits();
      RepairSizesOfOne(size, hosts, [], s);
      NoSizes(size, hosts);
      assert [] + [s] == [s];
    }
  }

  lemma NoSizes(size: Size, hosts: map<SessionId, seq<Change>>)
    ensures RepairSizes(size, hosts, []) == [] && SizesOf(size, []) == []
  {
  }

  /** The snapshot that follows an announcement: numbered one, taken at zero, whatever went before. */
  lemma SnapshotAfterGap(size: Size, depth: nat, told: State, s: SessionId)
    requires s in told.hosts
    ensures var fenced, snapshot := Reset(told, s), Snapshot(0, told.hosts[s], true);
            && OnGap(size, depth, told, s) == Emit(size, depth, fenced, snapshot, Some(s))
            && Next(fenced, snapshot, Some(s)) == Envelope(1, Some(s), snapshot)
            && size(Next(fenced, snapshot, Some(s))) == SnapshotBytes(size, told.hosts, s, true)
  {
    hide Emit;
    assert OnGap(size, depth, told, s) == Resync(size, depth, told, s, true);
  }

  lemma EmitIsPass(size: Size, depth: nat, st: State, payload: Payload, session: Option<SessionId>)
    requires st.attached && Overflows(size, st, payload, session)
    ensures var lost := Lose(st, payload, session);
            Emit(size, depth, st, payload, session).Some? <==>
            depth > 0 && AnnounceEach(size, depth - 1, lost.(dropped := []), lost.dropped).Some?
  {
    hide AnnounceEach, Drain;
  }

  lemma NotOpenAfterGap(size: Size, depth: nat, told: State, s: SessionId)
    requires s !in told.hosts
    ensures OnGap(size, depth, told, s) == Some(told)
  {
  }

  // ---- A pass that does not fit never returns ------------------------------------------------

  /**
   * An emission of one repair that overflows: what waited of the pass is lost with it, and the
   * pass that repairs that begins with the same sessions and cannot fit either.
   */
  lemma {:induction false} OverflowNeverReturns(
      size: Size, depth: nat, st: State, payload: Payload, s: SessionId, posted: seq<nat>, more: seq<nat>)
    requires GapsUniform(size) && AtRest(size, st) && Overflows(size, st, payload, Some(s)) && |posted| <= 1
    requires var gone := st.pending + [Next(st, payload, Some(s))];
             RepairSizes(size, st.hosts, Sessions(gone)) == posted + (SizesOf(size, gone) + more)
    ensures Emit(size, depth, st, payload, Some(s)).None?
    decreases depth, 0
  {
    hide Emit, AnnounceEach, Apart, Sessions, RepairSizes, PassFits, BumpAll;
    EmitIsPass(size, depth, st, payload, Some(s));
    if depth > 0 {
      var e, lost := Next(st, payload, Some(s)), Lose(st, payload, Some(s));
      var gone := st.pending + [e];
      AllDistinct(gone);
      SizesAddUp(size, gone);
      BytesWithOne(size, st.pending, e);
      SumSplits(SizesOf(size, gone), more);
      DoesNotFit(Sum(st.inFlight), posted, SizesOf(size, gone) + more);
      LostAtRest(size, st, payload, Some(s));
      PassNeverReturns(size, depth - 1, lost.(dropped := []), lost.dropped, []);
    }
  }

  /** A discard leaves an empty queue, and to announce what it discarded. */
  lemma LostAtRest(size: Size, st: State, payload: Payload, session: Option<SessionId>)
    requires st.attached && st.dropped == []
    ensures var lost := Lose(st, payload, session);
            && AtRest(size, lost.(dropped := []))
            && Accounts(size, st.hosts, lost.pending, [])
            && Sessions(lost.pending) == []
            && lost.hosts == st.hosts && lost.inFlight == st.inFlight && lost.pending == []
            && Ids(lost.dropped) == Sessions(st.pending + [Next(st, payload, session)])
  {
    hide BumpAll;
    NothingWaits();
  }

  lemma NothingWaits()
    ensures Sessions([]) == []
  {
  }

  lemma AllDistinct(envelopes: seq<Envelope>)
    ensures Apart([], BumpAll([], envelopes))
  {
    BumpAllWithin([], envelopes, SessionList(envelopes));
  }

  function SessionList(envelopes: seq<Envelope>): (ids: seq<SessionId>)
    ensures forall e :: e in envelopes && e.session.Some? ==> e.session.value in ids
  {
    if envelopes == [] then []
    else
      var rest := SessionList(envelopes[1..]);
      if envelopes[0].session.Some? then [envelopes[0].session.value] + rest else rest
  }

  lemma {:induction false} PassNeverReturns(size: Size, depth: nat, st: State, gaps: seq<Gap>, posted: seq<nat>)
    requires GapsUniform(size) && AtRest(size, st) && Apart(Sessions(st.pending), gaps)
    requires Accounts(size, st.hosts, st.pending, posted)
    requires !RestFits(size, st, RepairSizes(size, st.hosts, Ids(gaps)))
    ensures AnnounceEach(size, depth, st, gaps).None?
    decreases depth, 1, |gaps|
  {
    if gaps == [] {
      NoSizes(size, st.hosts);
    } else {
      hide Emit, OnGap, Sessions, PassFits, RepairSizes, Ids, SizesOf, RestFits, Drain, Overflows, Apart, Accounts;
      hide AtRest, SnapshotSizes, Enqueue, OneRepair, GapsUniform, Next;
      var s, gap := gaps[0].session, StreamGap(gaps[0].count);
      var e := Next(st, gap, Some(s));
      FirstRepair(size, st.hosts, gaps);
      ApartRest(Sessions(st.pending), gaps);
      GapAtRest(size, st, gaps[0], RepairSizes(size, st.hosts, Ids(gaps[1..])));
      GapAccounts(size, st.hosts, st.pending, posted, e, s);
      if Overflows(size, st, gap, Some(s)) {
        OverflowNeverReturns(size, depth, st, gap, s, posted, SnapshotSizes(size, st.hosts, s));
      } else {
        var told := Drain(size, Enqueue(st, gap, Some(s)));
        EmitQueues(size, depth, st, gap, Some(s));
        AfterGapNeverReturns(size, depth, st.pending, posted, e, told, gaps);
      }
    }
  }

  lemma EmitQueues(size: Size, depth: nat, st: State, payload: Payload, session: Option<SessionId>)
    requires !Overflows(size, st, payload, session)
    ensures Emit(size, depth, st, payload, session) == Some(Drain(size, Enqueue(st, payload, session)))
  {
    hide Drain, Overflows;
  }

  /** After an announcement that fits: the snapshot overflows, or the pass goes on with one more repair made. */
  lemma {:induction false} AfterGapNeverReturns(
      size: Size, depth: nat, waiting: seq<Envelope>, posted: seq<nat>, gap: Envelope, told: State, gaps: seq<Gap>)
    requires GapsUniform(size) && AtRest(size, told) && gaps != [] && Apart(Sessions(waiting), gaps)
    requires Accounts(size, told.hosts, waiting, posted)
    requires var s := gaps[0].session; gap.session == Some(s) && size(gap) == GapBytes(size, s, 1, 1)
    requires told.pending == waiting + [gap] || (waiting == [] && told.pending == [])
    requires !RestFits(size, told, SnapshotSizes(size, told.hosts, gaps[0].session)
                                   + RepairSizes(size, told.hosts, Ids(gaps[1..])))
    ensures var repaired := OnGap(size, depth, told, gaps[0].session);
            repaired.Some? ==> AnnounceEach(size, depth, repaired.value, gaps[1..]).None?
    decreases depth, 1, |gaps|, 0
  {
    hide Emit, OnGap, AnnounceEach, Sessions, PassFits, RepairSizes, Ids, SizesOf, Drain, Overflows, Apart;
    var s := gaps[0].session;
    var others := RepairSizes(size, told.hosts, Ids(gaps[1..]));
    ApartRest(Sessions(waiting), gaps);
    NothingWaits();
    NoSizes(size, told.hosts);
    if s in told.hosts {
      var fenced, snapshot := Reset(told, s), Snapshot(0, told.hosts[s], true);
      var e := Next(fenced, snapshot, Some(s));
      SnapshotAfterGap(size, depth, told, s);
      var still := SnapshotAccounts(size, told.hosts, waiting, posted, gap, told.pending, e, s);
      EmissionAtRest(size, fenced, snapshot, s, others);
      if Overflows(size, fenced, snapshot, Some(s)) {
        assert SizesOf(size, told.pending + [e]) + [] == SizesOf(size, told.pending + [e]);
        OverflowNeverReturns(size, depth, fenced, snapshot, s, still, []);
      } else {
        var next := Drain(size, Enqueue(fenced, snapshot, Some(s)));
        EmitQueues(size, depth, fenced, snapshot, Some(s));
        PassNeverReturns(size, depth, next, gaps[1..], if next.pending == [] then [] else still);
      }
    } else {
      NotOpenAfterGap(size, depth, told, s);
      GapAccounts(size, told.hosts, waiting, posted, gap, s);
      assert SizesOf(size, waiting + [gap]) + [] == SizesOf(size, waiting + [gap]);
      assert [] + others == others;
      PassNeverReturns(size, depth, told, gaps[1..], if told.pending == [] then [] else posted);
    }
  }

  // ---- A pass that fits returns without overflowing once -----------------------------------------

  lemma {:induction false} PassThatFits(size: Size, depth: nat, st: State, gaps: seq<Gap>)
    requires GapsUniform(size) && AtRest(size, st)
    requires RestFits(size, st, RepairSizes(size, st.hosts, Ids(gaps)))
    ensures AnnounceEach(size, depth, st, gaps).Some?
    decreases |gaps|
  {
    if gaps != [] {
      hide Emit, OnGap, PassFits, RepairSizes, Ids, RestFits, Drain, Overflows, Enqueue, OneRepair, GapsUniform;
      var s, gap := gaps[0].session, StreamGap(gaps[0].count);
      var snapshots, others := SnapshotSizes(size, st.hosts, s), RepairSizes(size, st.hosts, Ids(gaps[1..]));
      FirstRepair(size, st.hosts, gaps);
      GapAtRest(size, st, gaps[0], others);
      EmitQueues(size, depth, st, gap, Some(s));
      var told := Drain(size, Enqueue(st, gap, Some(s)));
      if s in told.hosts {
        var fenced, snapshot := Reset(told, s), Snapshot(0, told.hosts[s], true);
        SnapshotAfterGap(size, depth, told, s);
        SameRest(size, told, fenced, snapshots + others);
        EmissionAtRest(size, fenced, snapshot, s, others);
        EmitQueues(size, depth, fenced, snapshot, Some(s));
        PassThatFits(size, depth, Drain(size, Enqueue(fenced, snapshot, Some(s))), gaps[1..]);
      } else {
        assert [] + others == others;
        NotOpenAfterGap(size, depth, told, s);
        PassThatFits(size, depth, told, gaps[1..]);
      }
    }
  }

  lemma SameRest(size: Size, st: State, other: State, sizes: seq<nat>)
    requires other.pending == st.pending && other.inFlight == st.inFlight
    ensures RestFits(size, other, sizes) == RestFits(size, st, sizes)
  {
  }

  /** The one emission of an operation that emits once: the state it is made in, what and for whom. */
  datatype Emission = Emission(from: State, payload: Payload, session: Option<SessionId>)

  // ---- The exact condition ----------------------------------------------------------------------

  /** Some depth of nesting is enough for the pass to return. */
  ghost predicate PassReturns(size: Size, st: State, gaps: seq<Gap>) {
    exists depth: nat :: AnnounceEach(size, depth, st, gaps).Some?
  }

  ghost predicate EmitReturns(size: Size, st: State, payload: Payload, session: Option<SessionId>) {
    exists depth: nat :: Emit(size, depth, st, payload, session).Some?
  }

  /** From an empty queue a pass returns exactly when it overflows nowhere, whatever credit is left. */
  lemma PassReturnsExactlyWhen(size: Size, st: State, gaps: seq<Gap>)
    requires GapsUniform(size) && st.attached && st.pending == [] && st.dropped == []
    requires Apart([], gaps)
    ensures PassReturns(size, st, gaps) <==> PassFits(Sum(st.inFlight), RepairSizes(size, st.hosts, Ids(gaps)))
    ensures PassReturns(size, st, gaps) <==> AnnounceEach(size, 0, st, gaps).Some?
  {
    if PassFits(Sum(st.inFlight), RepairSizes(size, st.hosts, Ids(gaps))) {
      PassThatFits(size, 0, st, gaps);
    } else {
      NothingWaits();
      NoSizes(size, st.hosts);
      forall depth: nat
        ensures AnnounceEach(size, depth, st, gaps).None?
      {
        PassNeverReturns(size, depth, st, gaps, []);
      }
    }
  }

  /** Whether the repairs of what a discard at this emission would lose overflow nowhere. */
  predicate RepairsFitAfter(size: Size, e: Emission) {
    var gone := e.from.pending + [Next(e.from, e.payload, e.session)];
    PassFits(Sum(e.from.inFlight), RepairSizes(size, e.from.hosts, Sessions(gone)))
  }

  /**
   * An emission on an attached stream returns exactly when it fits the queue, or the announcements
   * and snapshots of the sessions it discards envelopes of overflow nowhere; then one nested pass
   * is enough.
   */
  lemma EmitReturnsExactlyWhen(size: Size, st: State, payload: Payload, session: Option<SessionId>)
    requires GapsUniform(size) && st.attached && st.dropped == []
    ensures EmitReturns(size, st, payload, session) <==>
            !Overflows(size, st, payload, session) || RepairsFitAfter(size, Emission(st, payload, session))
    ensures EmitReturns(size, st, payload, session) <==> Emit(size, 1, st, payload, session).Some?
  {
    hide AnnounceEach, Emit, RepairSizes, BumpAll, Overflows, PassFits, Sessions;
    if !Overflows(size, st, payload, session) {
      EmitQueues(size, 1, st, payload, session);
    } else {
      var lost := Lose(st, payload, session);
      var taken := lost.(dropped := []);
      AllDistinct(st.pending + [Next(st, payload, session)]);
      LostAtRest(size, st, payload, session);
      PassReturnsExactlyWhen(size, taken, lost.dropped);
      EmitIsPass(size, 1, st, payload, session);
      if EmitReturns(size, st, payload, session) {
        var depth: nat :| Emit(size, depth, st, payload, session).Some?;
        EmitIsPass(size, depth, st, payload, session);
      }
    }
  }

  function EmissionOf(st: State, op: Op): Option<Emission> {
    match op
    case DoChange(s, change) => Some(Emission(Apply(st, s, change), Changed(change), Some(s)))
    case DoNotice(notice) => Some(Emission(st, HostNotice(notice), None))
    case DoReplace(s, history) =>
      if s in st.hosts then
        Some(Emission(Reset(st.(hosts := st.hosts[s := history]), s), Snapshot(0, history, false), Some(s)))
      else None
    case DoResync(s) =>
      if s in st.hosts then Some(Emission(Reset(st, s), Snapshot(0, st.hosts[s], true), Some(s))) else None
    case _ => None
  }

  lemma StepIsEmission(size: Size, depth: nat, st: State, op: Op)
    requires EmissionOf(st, op).Some?
    ensures var e := EmissionOf(st, op).value;
            Step(size, depth, st, op) == Emit(size, depth, e.from, e.payload, e.session)
  {
    hide Emit;
  }

  /**
   * A change, a notice, a replacement or a resync on an attached stream returns exactly when its
   * emission fits the queue, or the repairs of the sessions the discard concerns overflow nowhere.
   */
  lemma StepReturnsExactlyWhen(size: Size, st: State, op: Op)
    requires GapsUniform(size) && st.attached && st.dropped == []
    requires EmissionOf(st, op).Some?
    ensures var e := EmissionOf(st, op).value;
            (exists depth: nat :: Step(size, depth, st, op).Some?) <==>
            !Overflows(size, e.from, e.payload, e.session) || RepairsFitAfter(size, e)
  {
    hide Emit, Step, Overflows;
    var e := EmissionOf(st, op).value;
    forall depth: nat
      ensures Step(size, depth, st, op) == Emit(size, depth, e.from, e.payload, e.session)
    {
      StepIsEmission(size, depth, st, op);
    }
    EmitReturnsExactlyWhen(size, e.from, e.payload, e.session);
  }
}
