/**
 * What an acknowledgement is worth. The credit outstanding is told here by the operations alone:
 * what the port was handed since it was attached, less as many envelopes as its renderer has
 * acknowledged since. That is what the window bounds, and nothing waits while it has room.
 */
module EventCredit {
  import opened Sequences
  import opened Wrappers
  import opened EventStream
  import opened EventFlow
  import opened EventRepairLimit

  /** What the current port was handed. */
  function PostedOf(receipts: seq<Receipt>): seq<Envelope> {
    if receipts == [] then []
    else
      match receipts[|receipts| - 1]
      case Posted(e) => PostedOf(receipts[..|receipts| - 1]) + [e]
      case Answered(_, _, _) => PostedOf(receipts[..|receipts| - 1])
  }

  function Handed(st: State): seq<Envelope> {
    PostedOf(st.trace.received)
  }

  /** How many envelopes the current port's renderer has acknowledged: never more than it was handed. */
  function Acknowledged(size: Size, depth: nat, ops: seq<Op>): nat {
    if ops == [] then 0
    else
      var before := ops[..|ops| - 1];
      match ops[|ops| - 1]
      case DoAttach(_) => 0
      case DoDetach => 0
      case DoAck(count) =>
        var run := Run(size, depth, before);
        if run.None? then 0 else Min(Acknowledged(size, depth, before) + count, |Handed(run.value)|)
      case _ => Acknowledged(size, depth, before)
  }

  // ---- What an emission may do to the port -------------------------------------------------

  /** From one state to the next only envelopes were handed to the port, each spending its own size. */
  ghost predicate OnlyPosts(size: Size, st: State, next: State) {
    && next.attached == st.attached
    && Handed(st) <= Handed(next)
    && var more := Handed(next)[|Handed(st)|..];
       && next.inFlight == st.inFlight + SizesOf(size, more)
       && next.trace.sent == st.trace.sent + more
       && (!st.attached ==> more == [])
  }

  lemma {:induction false} SizesSplit(size: Size, a: seq<Envelope>, b: seq<Envelope>)
    ensures SizesOf(size, a + b) == SizesOf(size, a) + SizesOf(size, b)
  {
    if b == [] {
      assert a + b == a;
    } else {
      assert (a + b)[..|a + b| - 1] == a + b[..|b| - 1];
      SizesSplit(size, a, b[..|b| - 1]);
    }
  }

  lemma PostsNothing(size: Size, st: State, next: State)
    requires next.attached == st.attached && next.inFlight == st.inFlight
    requires next.trace.received == st.trace.received && next.trace.sent == st.trace.sent
    ensures OnlyPosts(size, st, next)
  {
  }

  lemma PostsChain(size: Size, st: State, mid: State, next: State)
    requires OnlyPosts(size, st, mid) && OnlyPosts(size, mid, next)
    ensures OnlyPosts(size, st, next)
  {
    hide SizesOf, PostedOf;
    var a, b := Handed(mid)[|Handed(st)|..], Handed(next)[|Handed(mid)|..];
    assert Handed(next)[|Handed(st)|..] == a + b;
    SizesSplit(size, a, b);
  }

  lemma PostFirstPosts(size: Size, st: State)
    requires st.attached && st.pending != []
    ensures OnlyPosts(size, st, PostFirst(size, st))
  {
    var e, next := st.pending[0], PostFirst(size, st);
    assert next.trace.received[..|st.trace.received|] == st.trace.received;
    assert Handed(next) == Handed(st) + [e];
    assert Handed(next)[|Handed(st)|..] == [] + [e];
    SizesWithOne(size, [], e);
  }

  lemma {:induction false} DrainPosts(size: Size, st: State)
    ensures OnlyPosts(size, st, Drain(size, st))
    decreases |st.pending|
  {
    if st.attached && st.pending != [] && !EventStream.Blocked(size, st) {
      hide OnlyPosts;
      PostFirstPosts(size, st);
      DrainPosts(size, PostFirst(size, st));
      PostsChain(size, st, PostFirst(size, st), Drain(size, st));
    } else {
      PostsNothing(size, st, st);
    }
  }

  lemma {:induction false} EmitPosts(
      size: Size, depth: nat, st: State, payload: Payload, session: Option<SessionId>)
    requires Emit(size, depth, st, payload, session).Some?
    ensures OnlyPosts(size, st, Emit(size, depth, st, payload, session).value)
    decreases depth, 0
  {
    hide OnlyPosts, Overflows, Drain;
    if !Overflows(size, st, payload, session) {
      var queued := Enqueue(st, payload, session);
      PostsNothing(size, st, queued);
      DrainPosts(size, queued);
      PostsChain(size, st, queued, Drain(size, queued));
    } else {
      var lost := Lose(st, payload, session);
      PostsNothing(size, st, lost);
      if lost.attached {
        var taken := lost.(dropped := []);
        PostsNothing(size, st, taken);
        AnnounceEachPosts(size, depth - 1, taken, lost.dropped);
        var repaired := Announce(size, depth - 1, lost).value;
        PostsChain(size, st, taken, repaired);
        DrainPosts(size, repaired);
        PostsChain(size, st, repaired, Drain(size, repaired));
      }
    }
  }

  lemma {:induction false} AnnounceEachPosts(size: Size, depth: nat, st: State, gaps: seq<Gap>)
    requires AnnounceEach(size, depth, st, gaps).Some?
    ensures OnlyPosts(size, st, AnnounceEach(size, depth, st, gaps).value)
    decreases depth, 3, |gaps|
  {
    if gaps == [] {
      PostsNothing(size, st, st);
    } else {
      hide OnlyPosts, Emit;
      var s := gaps[0].session;
      EmitPosts(size, depth, st, StreamGap(gaps[0].count), Some(s));
      var told := Emit(size, depth, st, StreamGap(gaps[0].count), Some(s)).value;
      var repaired := OnGap(size, depth, told, s).value;
      if s in told.hosts {
        ResyncPosts(size, depth, told, s, true);
      } else {
        PostsNothing(size, told, repaired);
      }
      PostsChain(size, st, told, repaired);
      AnnounceEachPosts(size, depth, repaired, gaps[1..]);
      PostsChain(size, st, repaired, AnnounceEach(size, depth, repaired, gaps[1..]).value);
    }
  }

  lemma {:induction false} ResyncPosts(size: Size, depth: nat, st: State, s: SessionId, afterGap: bool)
    requires s in st.hosts && Resync(size, depth, st, s, afterGap).Some?
    ensures OnlyPosts(size, st, Resync(size, depth, st, s, afterGap).value)
    decreases depth, 1
  {
    hide OnlyPosts, Emit;
    var fenced := Reset(st, s);
    PostsNothing(size, st, fenced);
    EmitPosts(size, depth, fenced, Snapshot(SequenceFor(fenced, s), st.hosts[s], afterGap), Some(s));
    PostsChain(size, st, fenced, Resync(size, depth, st, s, afterGap).value);
  }

  lemma {:induction false} ResyncEachPosts(
      size: Size, depth: nat, st: State, ids: seq<SessionId>, already: set<SessionId>)
    requires ResyncEach(size, depth, st, ids, already).Some?
    ensures OnlyPosts(size, st, ResyncEach(size, depth, st, ids, already).value)
    decreases |ids|
  {
    hide OnlyPosts, Resync;
    if ids == [] {
      PostsNothing(size, st, st);
    } else if ids[0] in already || ids[0] !in st.hosts {
      ResyncEachPosts(size, depth, st, ids[1..], already);
    } else {
      ResyncPosts(size, depth, st, ids[0], false);
      var next := Resync(size, depth, st, ids[0], false).value;
      ResyncEachPosts(size, depth, next, ids[1..], already);
      PostsChain(size, st, next, ResyncEach(size, depth, next, ids[1..], already).value);
    }
  }

  /** Attaching hands the new port envelopes, starting from a whole window and nothing handed. */
  lemma AttachPosts(size: Size, depth: nat, st: State, restore: bool)
    requires Attach(size, depth, st, restore).Some?
    ensures OnlyPosts(size, TakePort(st), Attach(size, depth, st, restore).value)
  {
    hide OnlyPosts, Emit, Drain, AnnounceEach, ResyncEach;
    var taken := TakePort(st);
    var flushed := Drain(size, taken);
    DrainPosts(size, taken);
    PostsNothing(size, flushed, flushed.(dropped := []));
    PostsChain(size, taken, flushed, flushed.(dropped := []));
    AnnounceEachPosts(size, depth, flushed.(dropped := []), flushed.dropped);
    var announced := Announce(size, depth, flushed).value;
    PostsChain(size, taken, flushed.(dropped := []), announced);
    EmitPosts(size, depth, announced, HostNotice(HOST_READY), None);
    var ready := Emit(size, depth, announced, HostNotice(HOST_READY), None).value;
    PostsChain(size, taken, announced, ready);
    if restore {
      EmitPosts(size, depth, ready, HostNotice(WORKSPACE_CHANGED), None);
      PostsChain(size, taken, ready, Emit(size, depth, ready, HostNotice(WORKSPACE_CHANGED), None).value);
    }
    var restored := if restore then Emit(size, depth, ready, HostNotice(WORKSPACE_CHANGED), None).value else ready;
    ResyncEachPosts(size, depth, restored, restored.open, GapSessions(flushed.dropped));
    var fenced := OnAttach(size, depth, announced, GapSessions(flushed.dropped), restore).value;
    PostsChain(size, taken, restored, fenced);
    DrainPosts(size, fenced);
    PostsChain(size, taken, fenced, Drain(size, fenced));
  }

  // ---- The credit outstanding ------------------------------------------------------------------

  /** What is in flight is what the port was handed and has not acknowledged; a detached stream has nothing out. */
  ghost predicate Credited(size: Size, st: State, acknowledged: nat) {
    && acknowledged <= |Handed(st)|
    && (st.attached ==> st.inFlight == SizesOf(size, Handed(st)[acknowledged..]))
    && (!st.attached ==> st.inFlight == [])
    && |Handed(st)| <= |st.trace.sent|
    && st.trace.sent[|st.trace.sent| - |Handed(st)|..] == Handed(st)
  }

  lemma PostsKeepCredit(size: Size, st: State, next: State, acknowledged: nat)
    requires Credited(size, st, acknowledged) && OnlyPosts(size, st, next)
    ensures Credited(size, next, acknowledged)
  {
    hide SizesOf, PostedOf;
    var more := Handed(next)[|Handed(st)|..];
    assert Handed(next) == Handed(st) + more;
    assert Handed(next)[acknowledged..] == Handed(st)[acknowledged..] + more;
    SizesSplit(size, Handed(st)[acknowledged..], more);
    var k := |st.trace.sent| - |Handed(st)|;
    assert next.trace.sent[k..] == st.trace.sent[k..] + more;
    NoSizes(size, st.hosts);
  }

  lemma {:induction false} SizesFrom(size: Size, envelopes: seq<Envelope>, n: nat)
    requires n <= |envelopes|
    ensures |SizesOf(size, envelopes)| == |envelopes|
    ensures SizesOf(size, envelopes)[n..] == SizesOf(size, envelopes[n..])
  {
    SizesAddUp(size, envelopes[..n]);
    SizesSplit(size, envelopes[..n], envelopes[n..]);
    assert envelopes == envelopes[..n] + envelopes[n..];
    SizesAddUp(size, envelopes);
  }

  lemma AckKeepsCredit(size: Size, st: State, count: nat, acknowledged: nat)
    requires Credited(size, st, acknowledged)
    ensures Credited(size, Step(size, 0, st, DoAck(count)).value, Min(acknowledged + count, |Handed(st)|))
  {
    hide SizesOf, PostedOf, Drain;
    var unacknowledged := Handed(st)[acknowledged..];
    var n := Min(count, |st.inFlight|);
    var credited := st.(inFlight := st.inFlight[n..]);
    if st.attached {
      SizesFrom(size, unacknowledged, 0);
      SizesFrom(size, unacknowledged, n);
      assert acknowledged + n == Min(acknowledged + count, |Handed(st)|);
      assert unacknowledged[n..] == Handed(st)[acknowledged + n..];
    }
    DrainPosts(size, credited);
    PostsKeepCredit(size, credited, Drain(size, credited), Min(acknowledged + count, |Handed(st)|));
  }

  lemma EmissionPosts(size: Size, depth: nat, st: State, op: Op)
    requires EmissionOf(st, op).Some? && Step(size, depth, st, op).Some?
    ensures OnlyPosts(size, st, Step(size, depth, st, op).value)
  {
    hide OnlyPosts, Emit;
    var e := EmissionOf(st, op).value;
    StepIsEmission(size, depth, st, op);
    PostsNothing(size, st, e.from);
    EmitPosts(size, depth, e.from, e.payload, e.session);
    PostsChain(size, st, e.from, Step(size, depth, st, op).value);
  }

  lemma AnswerPosts(size: Size, st: State, s: SessionId)
    requires s in st.hosts
    ensures OnlyPosts(size, st, Answer(st, s))
  {
    hide AnswersRightly;
    var next := Answer(st, s);
    assert next.trace.received[..|st.trace.received|] == st.trace.received;
    assert Handed(next) == Handed(st) && Handed(next)[|Handed(st)|..] == [];
  }

  lemma StepCredits(size: Size, depth: nat, st: State, op: Op, acknowledged: nat)
    requires Credited(size, st, acknowledged) && Step(size, depth, st, op).Some?
    ensures var next := Step(size, depth, st, op).value;
            Credited(size, next,
                     match op
                     case DoAttach(_) => 0
                     case DoDetach => 0
                     case DoAck(count) => Min(acknowledged + count, |Handed(st)|)
                     case _ => acknowledged)
  {
    hide Credited, OnlyPosts, Emit, Attach, Drain;
    var next := Step(size, depth, st, op).value;
    if EmissionOf(st, op).Some? {
      EmissionPosts(size, depth, st, op);
      PostsKeepCredit(size, st, next, acknowledged);
    } else {
      match op
      case DoAttach(restore) =>
        PortIsWhole(size, st);
        AttachPosts(size, depth, st, restore);
        PostsKeepCredit(size, TakePort(st), next, 0);
      case DoDetach => DetachCredits(size, st, acknowledged);
      case DoAck(count) => AckKeepsCredit(size, st, count, acknowledged);
      case DoAnswer(s) =>
        if s in st.hosts {
          AnswerPosts(size, st, s);
          PostsKeepCredit(size, st, next, acknowledged);
        }
      case _ =>
        PostsNothing(size, st, next);
        PostsKeepCredit(size, st, next, acknowledged);
    }
  }

  lemma DetachCredits(size: Size, st: State, acknowledged: nat)
    requires Credited(size, st, acknowledged)
    ensures Credited(size, Detach(st), 0)
  {
    hide PostedOf;
  }

  /** A port that was just taken has been handed nothing and has its whole window. */
  lemma PortIsWhole(size: Size, st: State)
    ensures Credited(size, TakePort(st), 0)
  {
    var taken := TakePort(st);
    assert Handed(taken) == [];
    assert taken.trace.sent[|taken.trace.sent|..] == [];
  }

  lemma {:induction false} RunCredits(size: Size, depth: nat, ops: seq<Op>)
    requires Run(size, depth, ops).Some?
    ensures Credited(size, Run(size, depth, ops).value, Acknowledged(size, depth, ops))
    decreases |ops|
  {
    hide Credited, Step, Handed;
    if ops == [] {
      StartCredits(size);
    } else {
      var n := |ops| - 1;
      RunCredits(size, depth, ops[..n]);
      StepCredits(size, depth, Run(size, depth, ops[..n]).value, ops[n], Acknowledged(size, depth, ops[..n]));
    }
  }

  lemma StartCredits(size: Size)
    ensures Credited(size, INITIAL, 0)
  {
    NoSizes(size, INITIAL.hosts);
  }

  // ---- The window, from the outside --------------------------------------------------------------

  /**
   * Over every run, by what the port was handed since it was attached and what was acknowledged
   * since: the bytes not acknowledged stay within the window unless they are one envelope, and
   * nothing waits but what would not fit the window with them.
   */
  lemma WindowIsKept(size: Size, depth: nat, ops: seq<Op>)
    requires Run(size, depth, ops).Some?
    ensures var st, n := Run(size, depth, ops).value, Acknowledged(size, depth, ops);
            && n <= |Handed(st)| <= |st.trace.sent|
            && st.trace.sent[|st.trace.sent| - |Handed(st)|..] == Handed(st)
            && (st.attached ==>
                  var out := Handed(st)[n..];
                  && st.inFlight == SizesOf(size, out)
                  && (Bytes(size, out) <= 1024 * 1024 || exists e :: e in out && Bytes(size, out) == size(e))
                  && (st.pending != [] ==>
                        Bytes(size, out) > 0 && Bytes(size, out) + size(st.pending[0]) > 1024 * 1024))
  {
    hide Run, Bytes, PostedOf;
    RunCredits(size, depth, ops);
    RunFlows(size, depth, ops);
    var st, n := Run(size, depth, ops).value, Acknowledged(size, depth, ops);
    if st.attached {
      var out := Handed(st)[n..];
      SizesAddUp(size, out);
      if Bytes(size, out) > EVENT_DELIVERY_WINDOW_BYTES {
        var i :| 0 <= i < |st.inFlight| && Sum(st.inFlight) == st.inFlight[i];
        SizeAt(size, out, i);
        assert out[i] in out;
      }
    }
  }

  lemma {:induction false} SizeAt(size: Size, envelopes: seq<Envelope>, i: nat)
    requires i < |envelopes|
    ensures |SizesOf(size, envelopes)| == |envelopes| && SizesOf(size, envelopes)[i] == size(envelopes[i])
  {
    SizesFrom(size, envelopes, i);
    SizesAddUp(size, envelopes[i..]);
  }
}
