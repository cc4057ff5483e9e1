/**
 * Nesting over whole runs: an operation that returns at all returns within one nested pass, and
 * so does every run. With it a run in which merely attaching a renderer never returns.
 */
module EventNesting {
  import opened Wrappers
  import opened EventStream
  import opened EventRepair
  import opened EventRepairLimit
  import EventRuns

  // ---- One nested pass is enough ---------------------------------------------------------------

  lemma {:induction false} EmitDeeperBy(
      size: Size, depth: nat, more: nat, st: State, payload: Payload, session: Option<SessionId>)
    requires Emit(size, depth, st, payload, session).Some?
    ensures Emit(size, depth + more, st, payload, session) == Emit(size, depth, st, payload, session)
    decreases more
  {
    if more > 0 {
      EmitDeeper(size, depth, st, payload, session);
      EmitDeeperBy(size, depth + 1, more - 1, st, payload, session);
    }
  }

  lemma EmitWithinOne(size: Size, depth: nat, st: State, payload: Payload, session: Option<SessionId>)
    requires GapsUniform(size) && Announced(st)
    requires Emit(size, depth, st, payload, session).Some?
    ensures Emit(size, 1, st, payload, session) == Emit(size, depth, st, payload, session)
    ensures var next := Emit(size, depth, st, payload, session).value; Announced(next) && SameHosts(st, next)
  {
    EmitKeeps(size, depth, st, payload, session, if session.Some? then [session.value] else []);
    if depth == 0 {
      EmitDeeperBy(size, 0, 1, st, payload, session);
    } else {
      if st.attached {
        hide Emit, Overflows, RepairsFitAfter;
        assert EmitReturns(size, st, payload, session);
        EmitReturnsExactlyWhen(size, st, payload, session);
      }
      EmitDeeperBy(size, 1, depth - 1, st, payload, session);
    }
  }

  lemma ResyncWithinOne(size: Size, depth: nat, st: State, s: SessionId, afterGap: bool)
    requires GapsUniform(size) && Announced(st) && s in st.hosts
    requires Resync(size, depth, st, s, afterGap).Some?
    ensures Resync(size, 1, st, s, afterGap) == Resync(size, depth, st, s, afterGap)
    ensures var next := Resync(size, depth, st, s, afterGap).value; Announced(next) && SameHosts(st, next)
  {
    hide Emit;
    var fenced := Reset(st, s);
    EmitWithinOne(size, depth, fenced, Snapshot(SequenceFor(fenced, s), st.hosts[s], afterGap), Some(s));
  }

  lemma {:induction false} PassWithinOne(size: Size, depth: nat, st: State, gaps: seq<Gap>)
    requires GapsUniform(size) && Announced(st)
    requires AnnounceEach(size, depth, st, gaps).Some?
    ensures AnnounceEach(size, 1, st, gaps) == AnnounceEach(size, depth, st, gaps)
    ensures var next := AnnounceEach(size, depth, st, gaps).value; Announced(next) && SameHosts(st, next)
    decreases |gaps|
  {
    if gaps != [] {
      hide Emit, Resync;
      var s := gaps[0].session;
      EmitWithinOne(size, depth, st, StreamGap(gaps[0].count), Some(s));
      var told := Emit(size, depth, st, StreamGap(gaps[0].count), Some(s)).value;
      if s in told.hosts {
        ResyncWithinOne(size, depth, told, s, true);
      }
      PassWithinOne(size, depth, OnGap(size, depth, told, s).value, gaps[1..]);
    }
  }

  lemma {:induction false} ResyncEachWithinOne(
      size: Size, depth: nat, st: State, ids: seq<SessionId>, already: set<SessionId>)
    requires GapsUniform(size) && Announced(st)
    requires ResyncEach(size, depth, st, ids, already).Some?
    ensures ResyncEach(size, 1, st, ids, already) == ResyncEach(size, depth, st, ids, already)
    decreases |ids|
  {
    if ids != [] {
      hide Resync;
      if ids[0] in already || ids[0] !in st.hosts {
        ResyncEachWithinOne(size, depth, st, ids[1..], already);
      } else {
        ResyncWithinOne(size, depth, st, ids[0], false);
        ResyncEachWithinOne(size, depth, Resync(size, depth, st, ids[0], false).value, ids[1..], already);
      }
    }
  }

  lemma AttachWithinOne(size: Size, depth: nat, st: State, restore: bool)
    requires GapsUniform(size)
    requires Attach(size, depth, st, restore).Some?
    ensures Attach(size, 1, st, restore) == Attach(size, depth, st, restore)
  {
    hide Emit, ResyncEach, AnnounceEach, Drain;
    var flushed := Drain(size, TakePort(st));
    PassWithinOne(size, depth, flushed.(dropped := []), flushed.dropped);
    var announced := Announce(size, depth, flushed).value;
    EmitWithinOne(size, depth, announced, HostNotice(HOST_READY), None);
    var ready := Emit(size, depth, announced, HostNotice(HOST_READY), None).value;
    if restore {
      EmitWithinOne(size, depth, ready, HostNotice(WORKSPACE_CHANGED), None);
    }
    var restored := if restore then Emit(size, depth, ready, HostNotice(WORKSPACE_CHANGED), None).value else ready;
    ResyncEachWithinOne(size, depth, restored, restored.open, GapSessions(flushed.dropped));
  }

  /** Any operation, attaching included, that returns at some depth returns the same within one nested pass. */
  lemma StepWithinOne(size: Size, depth: nat, st: State, op: Op)
    requires GapsUniform(size) && Announced(st)
    requires Step(size, depth, st, op).Some?
    ensures Step(size, 1, st, op) == Step(size, depth, st, op)
  {
    hide Emit, Attach;
    match op
    case DoChange(s, change) => EmitWithinOne(size, depth, Apply(st, s, change), Changed(change), Some(s));
    case DoNotice(notice) => EmitWithinOne(size, depth, st, HostNotice(notice), None);
    case DoReplace(s, history) =>
      if s in st.hosts {
        ResyncWithinOne(size, depth, st.(hosts := st.hosts[s := history]), s, false);
      }
    case DoResync(s) => if s in st.hosts { ResyncWithinOne(size, depth, st, s, true); }
    case DoAttach(restore) => AttachWithinOne(size, depth, st, restore);
    case _ =>
  }

  lemma {:induction false} RunWithinOne(size: Size, depth: nat, ops: seq<Op>)
    requires GapsUniform(size) && Run(size, depth, ops).Some?
    ensures Run(size, 1, ops) == Run(size, depth, ops)
    decreases |ops|
  {
    if ops != [] {
      hide Step;
      var n := |ops| - 1;
      RunWithinOne(size, depth, ops[..n]);
      EventRuns.RunKeeps(size, depth, ops[..n], EventRuns.SessionsIn(ops[..n]));
      StepWithinOne(size, depth, Run(size, depth, ops[..n]).value, ops[n]);
    }
  }

  ghost predicate RunReturns(size: Size, ops: seq<Op>) {
    exists depth: nat :: Run(size, depth, ops).Some?
  }

  /** Over every run: if each operation returns at all, then each returns within one nested pass. */
  lemma RunReturnsExactlyWhen(size: Size, ops: seq<Op>)
    requires GapsUniform(size)
    ensures RunReturns(size, ops) <==> Run(size, 1, ops).Some?
  {
    if RunReturns(size, ops) {
      var depth: nat :| Run(size, depth, ops).Some?;
      RunWithinOne(size, depth, ops);
    }
  }

  // ---- Two snapshots that fit one by one --------------------------------------------------------------

  const MEBIBYTE: nat := 1024 * 1024

  /** Snapshots of ten mebibytes, changes of one, and all else one byte. */
  function TenMebibytes(e: Envelope): nat {
    match e.payload
    case Snapshot(_, _, _) => 10 * MEBIBYTE
    case Changed(_) => MEBIBYTE
    case _ => 1
  }

  /** Two sessions, and one change of the first while no renderer is attached. */
  const TWO_OPEN := [DoRegister("a", [])] + [DoRegister("b", [])] + [DoChange("a", 7)]

  const CHANGE := Envelope(1, Some("a"), Changed(7))

  ghost predicate TwoOpen(st: State) {
    && !st.attached && st.open == ["a", "b"] && st.hosts == map["a" := [7], "b" := []]
    && st.pending == [CHANGE] && st.inFlight == [] && st.dropped == []
  }

  lemma TwoOpenReached(depth: nat)
    ensures Run(TenMebibytes, depth, TWO_OPEN).Some? && TwoOpen(Run(TenMebibytes, depth, TWO_OPEN).value)
  {
    var first := [DoRegister("a", [])];
    var both := first + [DoRegister("b", [])];
    assert first[..0] == [] && both[..1] == first && TWO_OPEN[..2] == both;
    assert Run(TenMebibytes, depth, first) == Some(Register(INITIAL, "a", []));
    var registered := Register(Register(INITIAL, "a", []), "b", []);
    assert Run(TenMebibytes, depth, both) == Some(registered);
    var changed := Apply(registered, "a", 7);
    assert registered.hosts["a"] + [7] == [7];
    assert Next(changed, Changed(7), Some("a")) == CHANGE;
    assert Emit(TenMebibytes, depth, changed, Changed(7), Some("a")) == Some(Enqueue(changed, Changed(7), Some("a")));
  }

  /** The change goes out and spends the window, so the opening notice waits behind it ... */
  function Noticed(st: State): State
    requires st.pending != []
  {
    Enqueue(PostFirst(TenMebibytes, TakePort(st)), HostNotice(HOST_READY), None)
  }

  /** ... and the first session's snapshot behind the notice. */
  function FirstWaits(st: State): State
    requires st.pending != [] && "a" in st.hosts
  {
    Enqueue(Reset(Noticed(st), "a"), Snapshot(0, st.hosts["a"], false), Some("a"))
  }

  lemma WindowSpent(st: State)
    requires st.inFlight == [MEBIBYTE] && st.pending != []
    ensures Blocked(TenMebibytes, st) && Drain(TenMebibytes, st) == st
  {
    assert st.inFlight[..0] == [];
    assert Sum(st.inFlight) == MEBIBYTE;
  }

  lemma ChangeIsPosted(st: State)
    requires TwoOpen(st)
    ensures var posted := PostFirst(TenMebibytes, TakePort(st));
            && Drain(TenMebibytes, TakePort(st)) == posted
            && posted.attached && posted.pending == [] && posted.inFlight == [MEBIBYTE] && posted.dropped == []
  {
    var posted := PostFirst(TenMebibytes, TakePort(st));
    assert posted.inFlight == [MEBIBYTE];
    assert Drain(TenMebibytes, posted) == posted;
  }

  lemma NoticeWaits(depth: nat, st: State)
    requires TwoOpen(st)
    ensures var flushed := Drain(TenMebibytes, TakePort(st));
            && flushed.dropped == [] && Announce(TenMebibytes, depth, flushed) == Some(flushed)
            && Emit(TenMebibytes, depth, flushed, HostNotice(HOST_READY), None) == Some(Noticed(st))
    ensures Noticed(st).inFlight == [MEBIBYTE] && |Noticed(st).pending| == 1
    ensures Noticed(st).pending[0].session == None && Noticed(st).pending[0].payload == HostNotice(HOST_READY)
  {
    ChangeIsPosted(st);
    var posted := PostFirst(TenMebibytes, TakePort(st));
    hide TwoOpen, TakePort, PostFirst;
    NothingToAnnounce(depth, posted);
    assert Noticed(st).pending == [Next(posted, HostNotice(HOST_READY), None)];
    assert Bytes(TenMebibytes, posted.pending) == 0;
    hide Drain, Announce;
    WindowSpent(Noticed(st));
    EmitQueues(TenMebibytes, depth, posted, HostNotice(HOST_READY), None);
  }

  lemma NothingToAnnounce(depth: nat, st: State)
    requires st.dropped == []
    ensures Announce(TenMebibytes, depth, st) == Some(st)
  {
    assert st.(dropped := []) == st;
  }

  lemma FirstSnapshotWaits(depth: nat, st: State)
    requires TwoOpen(st)
    ensures Resync(TenMebibytes, depth, Noticed(st), "a", false) == Some(FirstWaits(st))
    ensures var waiting := FirstWaits(st);
            && waiting.attached && waiting.dropped == [] && waiting.inFlight == [MEBIBYTE]
            && waiting.hosts == map["a" := [7], "b" := []] && waiting.open == ["a", "b"]
            && waiting.pending == Noticed(st).pending + [Envelope(1, Some("a"), Snapshot(0, [7], false))]
  {
    NoticeWaits(depth, st);
    var fenced, snapshot := Reset(Noticed(st), "a"), Snapshot(0, st.hosts["a"], false);
    assert fenced.pending[..0] == [];
    WindowSpent(FirstWaits(st));
    assert Emit(TenMebibytes, depth, fenced, snapshot, Some("a")) == Some(FirstWaits(st));
  }

  lemma ResyncBoth(size: Size, depth: nat, st: State, first: State)
    requires "a" in st.hosts && Resync(size, depth, st, "a", false) == Some(first) && "b" in first.hosts
    ensures ResyncEach(size, depth, st, ["a", "b"], {}).Some? ==> Resync(size, depth, first, "b", false).Some?
  {
    hide Resync;
    var both := ["a", "b"];
    assert both[1..] == ["b"];
    assert ResyncEach(size, depth, st, both, {}) == ResyncEach(size, depth, first, ["b"], {});
  }

  /** Attaching comes to the second session's snapshot with the first one's waiting. */
  lemma AttachReaches(depth: nat, st: State)
    requires TwoOpen(st)
    ensures FirstWaits(st).hosts == map["a" := [7], "b" := []]
    ensures Attach(TenMebibytes, depth, st, false).Some? ==>
              Resync(TenMebibytes, depth, FirstWaits(st), "b", false).Some?
  {
    NoticeWaits(depth, st);
    FirstSnapshotWaits(depth, st);
    ResyncBoth(TenMebibytes, depth, Noticed(st), FirstWaits(st));
    assert Noticed(st).open == ["a", "b"];
    hide Emit, Resync, ResyncEach, Announce, Drain, FirstWaits, Noticed;
    assert GapSessions([]) == {};
  }

  lemma BothAreNamed(notice: Envelope, a: Envelope, b: Envelope)
    requires notice.session == None && a.session == Some("a") && b.session == Some("b")
    ensures Sessions([notice] + [a] + [b]) == ["a"] + ["b"]
  {
    assert [notice][..0] == [] && Sessions([notice]) == Sessions([]);
    hide Sessions;
    NothingWaits();
    SessionsExtend([notice], a, "a");
    assert [] + ["a"] == ["a"];
    SessionsExtend([notice] + [a], b, "b");
  }

  /** With the window spent, two announcements and two snapshots have to wait together. */
  lemma BothDoNotFit(hosts: map<SessionId, seq<Change>>)
    requires hosts == map["a" := [7], "b" := []]
    ensures !PassFits(MEBIBYTE, RepairSizes(TenMebibytes, hosts, ["a"] + ["b"]))
  {
    NoSizes(TenMebibytes, hosts);
    RepairSizesOfOne(TenMebibytes, hosts, ["a"], "b");
    RepairSizesOfOne(TenMebibytes, hosts, [], "a");
    assert ["a"] + [] == ["a"];
    var one := [1] + [10 * MEBIBYTE];
    assert RepairSizes(TenMebibytes, hosts, ["a"] + ["b"]) == one + one;
    SumSplits(one, one);
    SumSplits([1], [10 * MEBIBYTE]);
    assert [1][..0] == [] && [10 * MEBIBYTE][..0] == [];
  }

  lemma SecondNeverReturns(depth: nat, st: State)
    requires TwoOpen(st)
    ensures Resync(TenMebibytes, depth, FirstWaits(st), "b", false).None?
  {
    FirstSnapshotWaits(depth, st);
    NoticeWaits(depth, st);
    var waiting := FirstWaits(st);
    var notice, first := waiting.pending[0], waiting.pending[1];
    assert waiting.pending == [notice] + [first];
    var fenced, snapshot := Reset(waiting, "b"), Snapshot(0, waiting.hosts["b"], false);
    var e := Next(fenced, snapshot, Some("b"));
    assert Resync(TenMebibytes, depth, waiting, "b", false) == Emit(TenMebibytes, depth, fenced, snapshot, Some("b"));
    BytesWithOne(TenMebibytes, [notice], first);
    assert Overflows(TenMebibytes, fenced, snapshot, Some("b"));
    assert waiting.inFlight[..0] == [] && Sum(waiting.inFlight) == MEBIBYTE;
    hide Emit, Resync, Bytes, BumpAll, Overflows, RepairSizes, PassFits, Noticed, FirstWaits, Sessions;
    BothAreNamed(notice, first, e);
    BothDoNotFit(waiting.hosts);
    EmitReturnsExactlyWhen(TenMebibytes, fenced, snapshot, Some("b"));
    assert !EmitReturns(TenMebibytes, fenced, snapshot, Some("b"));
  }

  /**
   * Two sessions whose snapshots fit the queue one by one and not together: neither is oversized,
   * and after one change made with no renderer attached, attaching one never returns.
   */
  lemma TwoSnapshotsNeverReturn(depth: nat)
    ensures Run(TenMebibytes, depth, TWO_OPEN).Some?
    ensures Run(TenMebibytes, depth, TWO_OPEN + [DoAttach(false)]).None?
  {
    TwoOpenReached(depth);
    hide Attach, Resync, TwoOpen;
    var st := Run(TenMebibytes, depth, TWO_OPEN).value;
    assert (TWO_OPEN + [DoAttach(false)])[..|TWO_OPEN|] == TWO_OPEN;
    TwoOpenHolds(st);
    AttachReaches(depth, st);
    SecondNeverReturns(depth, st);
  }

  lemma TwoOpenHolds(st: State)
    requires TwoOpen(st)
    ensures st.pending != [] && "a" in st.hosts && "b" in FirstWaits(st).hosts
  {
  }
}
