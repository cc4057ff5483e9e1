/**
 * Flow control: what waits never exceeds the cap, what is in flight never exceeds the
 * window unless one envelope alone does, and an attached stream at rest is either
 * empty or waiting for credit it is certain to be able to get.
 */
module EventFlow {
  import opened Sequences
  import opened Wrappers
  import opened EventStream

  predicate Capped(size: Size, st: State) {
    Bytes(size, st.pending) <= MAX_QUEUED_SESSION_BYTES
  }

  /** More than the window is in flight only when a single envelope accounts for all of it. */
  predicate Windowed(inFlight: seq<nat>) {
    Sum(inFlight) <= EVENT_DELIVERY_WINDOW_BYTES || exists i :: 0 <= i < |inFlight| && Sum(inFlight) == inFlight[i]
  }

  predicate Flows(size: Size, st: State) {
    Capped(size, st) && Windowed(st.inFlight)
  }

  /** Nothing more can be posted until the receiver returns credit. */
  predicate AtRest(size: Size, st: State) {
    st.attached && st.pending != [] ==> Blocked(size, st)
  }

  lemma {:induction false} SumSplits(a: seq<nat>, b: seq<nat>)
    ensures Sum(a + b) == Sum(a) + Sum(b)
  {
    if b == [] {
      assert a + b == a;
    } else {
      assert (a + b)[..|a + b| - 1] == a + b[..|b| - 1];
      SumSplits(a, b[..|b| - 1]);
    }
  }

  lemma SumAt(bytes: seq<nat>, i: nat)
    requires i < |bytes|
    ensures bytes[i] <= Sum(bytes)
    ensures Sum(bytes) == Sum(bytes[..i]) + bytes[i] + Sum(bytes[i + 1..])
  {
    var before, at, after := bytes[..i], [bytes[i]], bytes[i + 1..];
    assert bytes == before + (at + after);
    SumSplits(before, at + after);
    SumSplits(at, after);
    assert at[..0] == [] && Sum(at) == bytes[i];
  }

  /** Acknowledging from the front keeps the bound, even while an oversized envelope is in flight. */
  lemma WindowedAfterAck(inFlight: seq<nat>, n: nat)
    requires Windowed(inFlight) && n <= |inFlight|
    ensures Windowed(inFlight[n..])
  {
    SumSplits(inFlight[..n], inFlight[n..]);
    assert inFlight == inFlight[..n] + inFlight[n..];
    if Sum(inFlight[n..]) > EVENT_DELIVERY_WINDOW_BYTES {
      var i :| 0 <= i < |inFlight| && Sum(inFlight) == inFlight[i];
      if i < n {
        SumAt(inFlight[..n], i);
      } else {
        SumAt(inFlight[n..], i - n);
        assert inFlight[n..][i - n] == inFlight[i];
      }
    }
  }

  lemma {:induction false} BytesSplit(size: Size, a: seq<Envelope>, b: seq<Envelope>)
    ensures Bytes(size, a + b) == Bytes(size, a) + Bytes(size, b)
  {
    if b == [] {
      assert a + b == a;
    } else {
      assert (a + b)[..|a + b| - 1] == a + b[..|b| - 1];
      BytesSplit(size, a, b[..|b| - 1]);
    }
  }

  lemma PostFirstFlows(size: Size, st: State)
    requires Flows(size, st)
    requires st.pending != [] && !Blocked(size, st)
    ensures Flows(size, PostFirst(size, st))
  {
    BytesSplit(size, st.pending[..1], st.pending[1..]);
    assert st.pending == st.pending[..1] + st.pending[1..];
    SumSplits(st.inFlight, [size(st.pending[0])]);
    var next := PostFirst(size, st);
    if Sum(st.inFlight) == 0 {
      assert Sum(next.inFlight) == next.inFlight[|st.inFlight|];
    }
  }

  lemma {:induction false} DrainFlows(size: Size, st: State)
    requires Flows(size, st)
    ensures Flows(size, Drain(size, st)) && AtRest(size, Drain(size, st))
    ensures Drain(size, st).attached == st.attached
    ensures |Drain(size, st).pending| + |Drain(size, st).inFlight| == |st.pending| + |st.inFlight|
    ensures |Drain(size, st).pending| <= |st.pending|
    decreases |st.pending|
  {
    if st.attached && st.pending != [] && !Blocked(size, st) {
      PostFirstFlows(size, st);
      DrainFlows(size, PostFirst(size, st));
    }
  }

  lemma {:induction false} EmitFlows(
      size: Size, depth: nat, st: State, payload: Payload, session: Option<SessionId>)
    requires Flows(size, st)
    requires Emit(size, depth, st, payload, session).Some?
    ensures var next := Emit(size, depth, st, payload, session).value; Flows(size, next) && AtRest(size, next)
    decreases depth, 0
  {
    if !Overflows(size, st, payload, session) {
      DrainFlows(size, Enqueue(st, payload, session));
    } else {
      var lost := Lose(st, payload, session);
      if lost.attached {
        AnnounceEachFlows(size, depth - 1, lost.(dropped := []), lost.dropped);
        DrainFlows(size, Announce(size, depth - 1, lost).value);
      }
    }
  }

  lemma {:induction false} AnnounceEachFlows(size: Size, depth: nat, st: State, gaps: seq<Gap>)
    requires Flows(size, st)
    requires AnnounceEach(size, depth, st, gaps).Some?
    ensures Flows(size, AnnounceEach(size, depth, st, gaps).value)
    decreases depth, 3, |gaps|
  {
    if gaps != [] {
      var s := gaps[0].session;
      EmitFlows(size, depth, st, StreamGap(gaps[0].count), Some(s));
      var told := Emit(size, depth, st, StreamGap(gaps[0].count), Some(s)).value;
      if s in told.hosts {
        ResyncFlows(size, depth, told, s, true);
      }
      AnnounceEachFlows(size, depth, OnGap(size, depth, told, s).value, gaps[1..]);
    }
  }

  lemma {:induction false} ResyncFlows(size: Size, depth: nat, st: State, s: SessionId, afterGap: bool)
    requires Flows(size, st)
    requires s in st.hosts
    requires Resync(size, depth, st, s, afterGap).Some?
    ensures var next := Resync(size, depth, st, s, afterGap).value; Flows(size, next) && AtRest(size, next)
    decreases depth, 1
  {
    var fenced := Reset(st, s);
    EmitFlows(size, depth, fenced, Snapshot(SequenceFor(fenced, s), st.hosts[s], afterGap), Some(s));
  }

  lemma {:induction false} ResyncEachFlows(
      size: Size, depth: nat, st: State, ids: seq<SessionId>, already: set<SessionId>)
    requires Flows(size, st)
    requires ResyncEach(size, depth, st, ids, already).Some?
    ensures Flows(size, ResyncEach(size, depth, st, ids, already).value)
    decreases |ids|
  {
    if ids == [] {
    } else if ids[0] in already || ids[0] !in st.hosts {
      ResyncEachFlows(size, depth, st, ids[1..], already);
    } else {
      ResyncFlows(size, depth, st, ids[0], false);
      ResyncEachFlows(size, depth, Resync(size, depth, st, ids[0], false).value, ids[1..], already);
    }
  }

  lemma AttachFlows(size: Size, depth: nat, st: State, restore: bool)
    requires Flows(size, st)
    requires Attach(size, depth, st, restore).Some?
    ensures var next := Attach(size, depth, st, restore).value; Flows(size, next) && AtRest(size, next)
  {
    DrainFlows(size, TakePort(st));
    var flushed := Drain(size, TakePort(st));
    AnnounceEachFlows(size, depth, flushed.(dropped := []), flushed.dropped);
    var announced := Announce(size, depth, flushed).value;
    EmitFlows(size, depth, announced, HostNotice(HOST_READY), None);
    var ready := Emit(size, depth, announced, HostNotice(HOST_READY), None).value;
    if restore {
      EmitFlows(size, depth, ready, HostNotice(WORKSPACE_CHANGED), None);
    }
    var restored := if restore then Emit(size, depth, ready, HostNotice(WORKSPACE_CHANGED), None).value else ready;
    ResyncEachFlows(size, depth, restored, restored.open, GapSessions(flushed.dropped));
    DrainFlows(size, OnAttach(size, depth, announced, GapSessions(flushed.dropped), restore).value);
  }

  lemma StepFlows(size: Size, depth: nat, st: State, op: Op)
    requires Flows(size, st) && AtRest(size, st)
    requires Step(size, depth, st, op).Some?
    ensures var next := Step(size, depth, st, op).value; Flows(size, next) && AtRest(size, next)
  {
    match op
    case DoChange(s, change) => EmitFlows(size, depth, Apply(st, s, change), Changed(change), Some(s));
    case DoNotice(notice) => EmitFlows(size, depth, st, HostNotice(notice), None);
    case DoReplace(s, history) =>
      if s in st.hosts { ResyncFlows(size, depth, st.(hosts := st.hosts[s := history]), s, false); }
    case DoResync(s) => if s in st.hosts { ResyncFlows(size, depth, st, s, true); }
    case DoAttach(restore) => AttachFlows(size, depth, st, restore);
    case DoAck(count) =>
      WindowedAfterAck(st.inFlight, Min(count, |st.inFlight|));
      DrainFlows(size, st.(inFlight := st.inFlight[Min(count, |st.inFlight|)..]));
    case _ =>
  }

  /** Over every run, between operations: both bounds hold and nothing postable is left waiting. */
  lemma {:induction false} RunFlows(size: Size, depth: nat, ops: seq<Op>)
    requires Run(size, depth, ops).Some?
    ensures var st := Run(size, depth, ops).value; Flows(size, st) && AtRest(size, st)
    decreases |ops|
  {
    if ops != [] {
      RunFlows(size, depth, ops[..|ops| - 1]);
      StepFlows(size, depth, Run(size, depth, ops[..|ops| - 1]).value, ops[|ops| - 1]);
    }
  }

  // ---- Credit is always enough -----------------------------------------------

  /** The receiver returns credit for one envelope at a time. */
  function Acks(size: Size, st: State, times: nat): State
    decreases times
  {
    if times == 0 then st else Acks(size, Acknowledge(size, st, 1), times - 1)
  }

  /** An attached stream at rest with envelopes waiting has bytes in flight, and enough acks empty it. */
  lemma {:induction false} AcksDrain(size: Size, st: State, times: nat)
    requires st.attached && Flows(size, st) && AtRest(size, st)
    requires times >= |st.inFlight| + 2 * |st.pending|
    ensures st.pending != [] ==> Sum(st.inFlight) > 0
    ensures Acks(size, st, times).pending == []
    decreases times
  {
    if times > 0 {
      var n := Min(1, |st.inFlight|);
      var credited := st.(inFlight := st.inFlight[n..]);
      WindowedAfterAck(st.inFlight, n);
      DrainFlows(size, credited);
      AcksDrain(size, Acknowledge(size, st, 1), times - 1);
    }
  }
}
