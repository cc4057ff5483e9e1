/**
 * A run in which an announcement is not exact. A renderer attaches while something of a
 * session with losses still waits; the repair of another session overflows before the first
 * has been announced, and what waited is lost and announced ahead of the losses before it.
 */
module EventMiscount {
  import opened Wrappers
  import opened EventStream
  import opened EventConservation
  import opened EventRepair
  import opened EventRepairLimit
  import opened EventRuns
  import opened EventGaps
  import opened EventSurvivors

  const MEBIBYTE: nat := 1024 * 1024

  /** Changes of seven mebibytes, a snapshot of nine and a half for one session and of one for the other. */
  function Survivors(e: Envelope): nat {
    match e.payload
    case Changed(_) => 7 * MEBIBYTE
    case Snapshot(_, _, _) => if e.session == Some("a") then 9 * MEBIBYTE + MEBIBYTE / 2 else MEBIBYTE
    case _ => 1
  }

  /** Detached: one change of the first session, four of the second, of which the second overflows. */
  const OPENED := [DoRegister("a", [])] + [DoRegister("c", [])]
  const DISCARDED := OPENED + [DoChange("a", 0)] + [DoChange("c", 0)] + [DoChange("c", 0)]
  const SURVIVED := DISCARDED + [DoChange("c", 0)] + [DoChange("c", 0)]

  lemma QueuedDetached(st: State, s: SessionId)
    requires !st.attached && s in st.hosts && Bytes(Survivors, st.pending) + 7 * MEBIBYTE <= MAX_QUEUED_SESSION_BYTES
    ensures Step(Survivors, 1, st, DoChange(s, 0)) == Some(Enqueue(Apply(st, s, 0), Changed(0), Some(s)))
  {
  }

  lemma LostDetached(st: State, s: SessionId)
    requires !st.attached && s in st.hosts && Bytes(Survivors, st.pending) + 7 * MEBIBYTE > MAX_QUEUED_SESSION_BYTES
    ensures Step(Survivors, 1, st, DoChange(s, 0)) == Some(Lose(Apply(st, s, 0), Changed(0), Some(s)))
  {
  }

  /** What the queue holds of two sessions, as far as the run below needs it. */
  ghost predicate Waits(st: State, sessions: seq<SessionId>, dropped: seq<Gap>) {
    && !st.attached && st.inFlight == [] && "a" in st.hosts && "c" in st.hosts && st.hosts.Keys == {"a", "c"}
    && st.open == ["a", "c"] && st.dropped == dropped
    && |st.pending| == |sessions|
    && (forall i :: 0 <= i < |sessions| ==>
        st.pending[i].session == Some(sessions[i]) && st.pending[i].payload == Changed(0))
  }

  lemma {:induction false} ChangesBytes(envelopes: seq<Envelope>)
    requires forall i :: 0 <= i < |envelopes| ==> envelopes[i].payload.Changed?
    ensures Bytes(Survivors, envelopes) == 7 * MEBIBYTE * |envelopes|
  {
    if envelopes != [] {
      ChangesBytes(envelopes[..|envelopes| - 1]);
    }
  }

  lemma OneWaits(st: State, sessions: seq<SessionId>, dropped: seq<Gap>, s: SessionId)
    requires Waits(st, sessions, dropped) && |sessions| < 2 && s in st.hosts
    ensures var next := Step(Survivors, 1, st, DoChange(s, 0));
            next.Some? && Waits(next.value, sessions + [s], dropped)
  {
    ChangesBytes(st.pending);
    QueuedDetached(st, s);
  }

  /** The run up to the discard, which loses one change of the first session and two of the second. */
  lemma DiscardedWaits()
    ensures Run(Survivors, 1, DISCARDED).Some?
    ensures Waits(Run(Survivors, 1, DISCARDED).value, [], [Gap("a", 1), Gap("c", 2)])
  {
    hide Run, Step, Waits;
    OpenedWaits();
    var st := Run(Survivors, 1, OPENED).value;
    WaitsOpen(st, [], []);
    OneWaits(st, [], [], "a");
    RunExtends(Survivors, 1, OPENED, DoChange("a", 0));
    var one := Step(Survivors, 1, st, DoChange("a", 0)).value;
    assert [] + ["a"] == ["a"];
    WaitsOpen(one, ["a"], []);
    OneWaits(one, ["a"], [], "c");
    RunExtends(Survivors, 1, OPENED + [DoChange("a", 0)], DoChange("c", 0));
    var two := Step(Survivors, 1, one, DoChange("c", 0)).value;
    assert ["a"] + ["c"] == ["a", "c"];
    ThirdIsLost(two);
    RunExtends(Survivors, 1, OPENED + [DoChange("a", 0)] + [DoChange("c", 0)], DoChange("c", 0));
  }

  lemma WaitsOpen(st: State, sessions: seq<SessionId>, dropped: seq<Gap>)
    requires Waits(st, sessions, dropped)
    ensures "a" in st.hosts && "c" in st.hosts
  {
  }

  lemma OpenedWaits()
    ensures Run(Survivors, 1, OPENED).Some? && Waits(Run(Survivors, 1, OPENED).value, [], [])
  {
    var first := [DoRegister("a", [])];
    assert first[..0] == [] && OPENED[..1] == first;
    assert Run(Survivors, 1, first) == Some(Register(INITIAL, "a", []));
    assert Run(Survivors, 1, OPENED) == Some(Register(Register(INITIAL, "a", []), "c", []));
  }

  lemma ThirdIsLost(st: State)
    requires Waits(st, ["a", "c"], [])
    ensures var next := Step(Survivors, 1, st, DoChange("c", 0));
            next.Some? && Waits(next.value, [], [Gap("a", 1), Gap("c", 2)])
  {
    ChangesBytes(st.pending);
    LostDetached(st, "c");
    var e := Next(Apply(st, "c", 0), Changed(0), Some("c"));
    assert st.pending == [st.pending[0]] + [st.pending[1]];
    CountsOfThree(st.pending[0], st.pending[1], e);
  }

  lemma CountsOfThree(a: Envelope, b: Envelope, c: Envelope)
    requires a.session == Some("a") && b.session == Some("c") && c.session == Some("c")
    ensures BumpAll([], [a] + [b] + [c]) == [Gap("a", 1), Gap("c", 2)]
  {
    BumpOne([], a);
    assert [] + [a] == [a];
    BumpOne([a], b);
    BumpOne([a] + [b], c);
    assert [Gap("a", 1)][1..] == [];
    assert Bump([Gap("a", 1)], "c") == [Gap("a", 1)] + [Gap("c", 1)];
    assert ([Gap("a", 1)] + [Gap("c", 1)])[1..] == [Gap("c", 1)];
    assert [Gap("c", 1)][1..] == [];
  }

  lemma BumpOne(envelopes: seq<Envelope>, e: Envelope)
    requires e.session.Some?
    ensures BumpAll([], envelopes + [e]) == Bump(BumpAll([], envelopes), e.session.value)
  {
    assert (envelopes + [e])[..|envelopes|] == envelopes;
  }

  lemma SurvivedWaits()
    ensures Run(Survivors, 1, SURVIVED).Some?
    ensures Waits(Run(Survivors, 1, SURVIVED).value, ["c", "c"], [Gap("a", 1), Gap("c", 2)])
  {
    hide Run, Step, Waits;
    DiscardedWaits();
    var lost := [Gap("a", 1), Gap("c", 2)];
    var st := Run(Survivors, 1, DISCARDED).value;
    WaitsOpen(st, [], lost);
    OneWaits(st, [], lost, "c");
    RunExtends(Survivors, 1, DISCARDED, DoChange("c", 0));
    var one := Step(Survivors, 1, st, DoChange("c", 0)).value;
    assert [] + ["c"] == ["c"];
    WaitsOpen(one, ["c"], lost);
    OneWaits(one, ["c"], lost, "c");
    RunExtends(Survivors, 1, DISCARDED + [DoChange("c", 0)], DoChange("c", 0));
    assert ["c"] + ["c"] == ["c", "c"];
  }

  // ---- Attaching ------------------------------------------------------------------------------------

  /** One change is posted and spends the window; the other waits. */
  lemma OneSurvives(st: State)
    requires Waits(st, ["c", "c"], [Gap("a", 1), Gap("c", 2)])
    ensures var flushed := Drain(Survivors, TakePort(st));
            && flushed.attached && flushed.hosts == st.hosts && flushed.dropped == st.dropped
            && flushed.pending == [st.pending[1]] && flushed.inFlight == [7 * MEBIBYTE]
            && Blocked(Survivors, flushed)
  {
    hide Sum, Bytes;
    var posted := PostFirst(Survivors, TakePort(st));
    assert posted.inFlight == [7 * MEBIBYTE];
    SpentBySeven(posted);
    FirstIsPosted(TakePort(st));
  }

  lemma SpentBySeven(st: State)
    requires st.inFlight == [7 * MEBIBYTE]
    ensures st.pending != [] ==> Blocked(Survivors, st)
  {
    assert st.inFlight[..0] == [];
    assert Sum(st.inFlight) == 7 * MEBIBYTE;
  }

  lemma FirstIsPosted(st: State)
    requires st.attached && st.inFlight == [] && |st.pending| == 2
    requires st.pending[0].payload.Changed? && st.pending[1].payload.Changed?
    ensures Drain(Survivors, st) == PostFirst(Survivors, st)
    ensures PostFirst(Survivors, st).pending == [st.pending[1]]
  {
    var posted := PostFirst(Survivors, st);
    assert posted.inFlight == [7 * MEBIBYTE];
    SpentBySeven(posted);
    assert Drain(Survivors, posted) == posted;
  }

  /** The first session's gap is announced behind what survived. */
  function Told(st: State): State {
    Enqueue(Drain(Survivors, TakePort(st)).(dropped := []), StreamGap(1), Some("a"))
  }

  /** Its snapshot does not fit behind both, so all three are lost. */
  function LostAgain(st: State): State
    requires "a" in st.hosts
  {
    Lose(Reset(Told(st), "a"), Snapshot(0, st.hosts["a"], true), Some("a"))
  }

  lemma QueuedBehind(st: State)
    requires st.pending != [] && Blocked(Survivors, st) && Bytes(Survivors, st.pending) < MAX_QUEUED_SESSION_BYTES
    ensures Emit(Survivors, 1, st, StreamGap(1), Some("a")) == Some(Enqueue(st, StreamGap(1), Some("a")))
  {
    var queued := Enqueue(st, StreamGap(1), Some("a"));
    assert queued.pending[0] == st.pending[0];
    assert Drain(Survivors, queued) == queued;
    EmitQueues(Survivors, 1, st, StreamGap(1), Some("a"));
  }

  lemma ToldHolds(st: State)
    requires Waits(st, ["c", "c"], [Gap("a", 1), Gap("c", 2)])
    ensures var told := Told(st);
            && told.attached && told.hosts == st.hosts && told.dropped == [] && "a" in told.hosts
            && told.pending
                == [st.pending[1]] + [Next(Drain(Survivors, TakePort(st)).(dropped := []), StreamGap(1), Some("a"))]
            && Bytes(Survivors, told.pending) == 7 * MEBIBYTE + 1
    ensures Emit(Survivors, 1, Drain(Survivors, TakePort(st)).(dropped := []), StreamGap(1), Some("a"))
            == Some(Told(st))
  {
    hide Drain;
    OneSurvives(st);
    var flushed := Drain(Survivors, TakePort(st)).(dropped := []);
    var gap := Next(flushed, StreamGap(1), Some("a"));
    assert [st.pending[1]][..0] == [];
    assert Bytes(Survivors, [st.pending[1]]) == 7 * MEBIBYTE;
    BytesWithOne(Survivors, [st.pending[1]], gap);
    QueuedBehind(flushed);
  }

  lemma LostAgainHolds(st: State)
    requires Waits(st, ["c", "c"], [Gap("a", 1), Gap("c", 2)])
    ensures LostAgain(st).dropped == [Gap("c", 1)] + [Gap("a", 2)] && LostAgain(st).attached
    ensures Overflows(Survivors, Reset(Told(st), "a"), Snapshot(0, st.hosts["a"], true), Some("a"))
  {
    hide Bytes, Drain, Told;
    ToldHolds(st);
    var fenced, snapshot := Reset(Told(st), "a"), Snapshot(0, st.hosts["a"], true);
    var e := Next(fenced, snapshot, Some("a"));
    assert e == Envelope(1, Some("a"), snapshot);
    CountsAgain(Told(st).pending[0], Told(st).pending[1], e);
    assert Told(st).pending == [Told(st).pending[0]] + [Told(st).pending[1]];
  }

  lemma CountsAgain(a: Envelope, b: Envelope, c: Envelope)
    requires a.session == Some("c") && b.session == Some("a") && c.session == Some("a")
    ensures BumpAll([], [a] + [b] + [c]) == [Gap("c", 1)] + [Gap("a", 2)]
  {
    BumpOne([], a);
    assert [] + [a] == [a];
    BumpOne([a], b);
    BumpOne([a] + [b], c);
    assert [Gap("c", 1)][1..] == [];
    assert Bump([Gap("c", 1)], "a") == [Gap("c", 1)] + [Gap("a", 1)];
    assert ([Gap("c", 1)] + [Gap("a", 1)])[1..] == [Gap("a", 1)];
    assert [Gap("a", 1)][1..] == [];
  }

  /** Every loss is accounted for up to there, two of the second session's being owed by the pass outside. */
  lemma LostAgainSound(st: State)
    requires Sound(st, []) && Waits(st, ["c", "c"], [Gap("a", 1), Gap("c", 2)])
    ensures Sound(LostAgain(st).(dropped := []), [Gap("c", 1)] + ([Gap("a", 2)] + [Gap("c", 2)]))
  {
    hide Sound, Drain, Waits;
    WaitsOpen(st, ["c", "c"], [Gap("a", 1), Gap("c", 2)]);
    OneSurvives(st);
    LostAgainHolds(st);
    var flushed := Drain(Survivors, TakePort(st));
    var owed, snapshot := [Gap("c", 2)], Snapshot(0, st.hosts["a"], true);
    SameLogSound(st, TakePort(st), []);
    DrainSound(Survivors, TakePort(st), []);
    TakeSound(flushed, []);
    assert flushed.dropped + [] == Charge(StreamGap(1), Some("a")) + owed by {
      WaitsDropped(st);
    }
    EnqueueSound(flushed.(dropped := []), StreamGap(1), Some("a"), owed);
    ResetSound(Told(st), "a", owed);
    assert Charge(snapshot, Some("a")) + owed == owed;
    LoseSound(Reset(Told(st), "a"), snapshot, Some("a"), owed);
    TakeSound(LostAgain(st), owed);
    assert [Gap("c", 1)] + [Gap("a", 2)] + owed == [Gap("c", 1)] + ([Gap("a", 2)] + owed);
  }

  lemma WaitsDropped(st: State)
    requires Waits(st, ["c", "c"], [Gap("a", 1), Gap("c", 2)])
    ensures st.dropped == [Gap("a", 1)] + [Gap("c", 2)]
  {
  }

  /** The first announcement of the nested pass tells of one loss of the session that lost three. */
  lemma OneOfThree(st: State)
    requires Sound(st, []) && Waits(st, ["c", "c"], [Gap("a", 1), Gap("c", 2)])
    ensures var announcing := LostAgain(st).(dropped := []);
            && |announcing.trace.fates| <= |announcing.trace.log|
            && Untold(announcing, "c") == 3 && !Exact(announcing, "c", 1)
  {
    hide Sound;
    LostAgainSound(st);
    var announcing := LostAgain(st).(dropped := []);
    assert |announcing.trace.fates| <= |announcing.trace.log| by {
      SoundFates(announcing, [Gap("c", 1)] + ([Gap("a", 2)] + [Gap("c", 2)]));
    }
    assert [Gap("c", 2)][1..] == [] && CountFor([Gap("c", 2)], "c") == 2;
    CountAppends([Gap("a", 2)], [Gap("c", 2)], "c");
    ExactExactlyWhen(announcing, "c", 1, [Gap("a", 2)] + [Gap("c", 2)]);
  }

  lemma SoundFates(st: State, owed: seq<Gap>)
    requires Sound(st, owed)
    ensures |st.trace.fates| <= |st.trace.log|
  {
  }

  lemma PassMiscounts(st: State)
    requires Sound(st, []) && Waits(st, ["c", "c"], [Gap("a", 1), Gap("c", 2)])
    ensures !AttachPassExact(Survivors, 1, st)
  {
    hide Sound, Drain, Exact, Emit, Overflows;
    OneOfThree(st);
    LostAgainHolds(st);
    ToldHolds(st);
    WaitsDropped(st);
    OneSurvives(st);
    var announcing := LostAgain(st).(dropped := []);
    assert !EmitExact(Survivors, 0, announcing, StreamGap(1), Some("c"));
    assert !PassExact(Survivors, 0, announcing, [Gap("c", 1)] + [Gap("a", 2)]);
    var fenced, snapshot := Reset(Told(st), "a"), Snapshot(0, st.hosts["a"], true);
    assert !EmitExact(Survivors, 1, fenced, snapshot, Some("a"));
    assert !OnGapExact(Survivors, 1, Told(st), "a");
    var flushed := Drain(Survivors, TakePort(st)).(dropped := []);
    assert !PassExact(Survivors, 1, flushed, [Gap("a", 1)] + [Gap("c", 2)]);
  }

  /**
   * After that run the attachment returns, and one of its announcements counts one of the
   * three losses its session was not told of.
   */
  lemma SurvivorIsMiscounted()
    ensures Run(Survivors, 1, SURVIVED + [DoAttach(false)]).Some?
    ensures var st := Run(Survivors, 1, SURVIVED).value;
            && !SurvivorsSpared(Survivors, st)
            && !StepExact(Survivors, 1, st, DoAttach(false))
  {
    hide Run, Step, Sound, Waits, Drain, AttachPassExact, SurvivorsSpared;
    SurvivedWaits();
    var st := Run(Survivors, 1, SURVIVED).value;
    RunSound(Survivors, 1, SURVIVED);
    PassMiscounts(st);
    OneSurvives(st);
    RunExtends(Survivors, 1, SURVIVED, DoAttach(false));
    AttachReturns(st);
    OnlyAttachMiscounts(Survivors, 1, SURVIVED, DoAttach(false));
  }

  lemma AttachReturns(st: State)
    requires Waits(st, ["c", "c"], [Gap("a", 1), Gap("c", 2)])
    ensures Step(Survivors, 1, st, DoAttach(false)).Some?
  {
    assert ["a", "c"][1..] == ["c"] && ["c"][1..] == [];
    RepairsOfBothFit(st.hosts);
    StepTerminates(Survivors, st, DoAttach(false), ["a", "c"], BothCost());
  }

  function BothCost(): Cost {
    (s: SessionId) => if s == "a" then 10 * MEBIBYTE else 2 * MEBIBYTE
  }

  lemma RepairsOfBothFit(hosts: map<SessionId, seq<Change>>)
    requires hosts.Keys == {"a", "c"}
    ensures RepairsFit(Survivors, hosts, ["a", "c"], BothCost())
  {
    assert ["a", "c"][1..] == ["c"] && ["c"][1..] == [];
    assert Total(BothCost(), ["a", "c"]) == 12 * MEBIBYTE;
  }
}
