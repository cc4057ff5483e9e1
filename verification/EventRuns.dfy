/**
 * The results about whole runs of the event stream: when every operation returns, and
 * what the receiver ends up with.
 */
module EventRuns {
  import opened Wrappers
  import opened EventStream
  import opened EventRepair
  import opened EventConvergence

  // ---- Every operation returns ------------------------------------------------

  /** In every state the run reaches, the repairs of the sessions that could need one fit the queue together. */
  ghost predicate RepairsFitThroughout(size: Size, ops: seq<Op>, known: seq<SessionId>, cost: nat -> Cost) {
    forall i :: 0 <= i < |ops| && Run(size, 1, ops[..i]).Some? ==>
                  RepairsFit(size, HostsAfter(Run(size, 1, ops[..i]).value, ops[i]), known, cost(i))
  }

  /**
   * Over every run: as long as announcements and snapshots of the sessions that appear, in
   * the states the run reaches, fit the queue together, each operation returns after at most
   * one nested overflow, and with a port attached no loss is left unannounced.
   */
  lemma {:induction false} RunTerminates(size: Size, ops: seq<Op>, known: seq<SessionId>, cost: nat -> Cost)
    requires RepairsFitThroughout(size, ops, known, cost)
    requires forall op :: op in ops ==> OpWithin(op, known)
    ensures Run(size, 1, ops).Some?
    ensures var st := Run(size, 1, ops).value; Within(st, known) && OpenWithin(st, known) && Announced(st)
    decreases |ops|
  {
    if ops != [] {
      var n := |ops| - 1;
      FitsBefore(size, ops, known, cost);
      RunTerminates(size, ops[..n], known, cost);
      var before := Run(size, 1, ops[..n]).value;
      assert ops[n] in ops;
      StepTerminates(size, before, ops[n], known, cost(n));
      StepKeeps(size, 1, before, ops[n], known);
    }
  }

  lemma FitsBefore(size: Size, ops: seq<Op>, known: seq<SessionId>, cost: nat -> Cost)
    requires ops != [] && RepairsFitThroughout(size, ops, known, cost)
    ensures RepairsFitThroughout(size, ops[..|ops| - 1], known, cost)
  {
    var before := ops[..|ops| - 1];
    forall i | 0 <= i < |before| && Run(size, 1, before[..i]).Some?
      ensures RepairsFit(size, HostsAfter(Run(size, 1, before[..i]).value, before[i]), known, cost(i))
    {
      assert before[..i] == ops[..i];
    }
  }

  /**
   * A session whose snapshot is larger than the queue: attached, any emission that
   * overflows while the session waits, or that belongs to it, never returns.
   */
  lemma OversizedEmitNeverReturns(
      size: Size, depth: nat, st: State, payload: Payload, session: Option<SessionId>, s: SessionId)
    requires st.attached && s in st.hosts && Oversized(size, st.hosts, s)
    requires session == Some(s) || Mentions(st.pending, s)
    requires Overflows(size, st, payload, session)
    ensures Emit(size, depth, st, payload, session).None?
  {
    hide Overflows, Bytes, Drain, BumpAll, AnnounceEach;
    if depth > 0 {
      var lost := Lose(st, payload, session);
      var gone := st.pending + [Next(st, payload, session)];
      if session == Some(s) {
        assert gone[|gone| - 1].session == Some(s);
      } else {
        var e :| e in st.pending && e.session == Some(s);
        assert e in gone;
      }
      BumpAllNames(st.dropped, gone, s);
      OversizedGapNeverReturns(size, depth - 1, lost.(dropped := []), lost.dropped, s);
    }
  }

  // ---- The receiver agrees with the host ---------------------------------------

  function SessionsIn(ops: seq<Op>): seq<SessionId> {
    if ops == [] then []
    else
      SessionsIn(ops[..|ops| - 1])
      + match ops[|ops| - 1] {
          case DoRegister(s, _) => [s]
          case DoChange(s, _) => [s]
          case _ => []
        }
  }

  lemma {:induction false} RunKeeps(size: Size, depth: nat, ops: seq<Op>, known: seq<SessionId>)
    requires Run(size, depth, ops).Some?
    requires forall s :: s in SessionsIn(ops) ==> s in known
    ensures var st := Run(size, depth, ops).value;
            Within(st, known) && OpenWithin(st, known) && Announced(st)
    decreases |ops|
  {
    if ops != [] {
      var n := |ops| - 1;
      RunKeeps(size, depth, ops[..n], known);
      StepKeeps(size, depth, Run(size, depth, ops[..n]).value, ops[n], known);
    }
  }

  lemma {:induction false} RunTracks(size: Size, depth: nat, ops: seq<Op>)
    requires Run(size, depth, ops).Some?
    ensures var st := Run(size, depth, ops).value; TracksAll(st, st.hosts, {})
    decreases |ops|
  {
    if ops != [] {
      var n := |ops| - 1;
      RunTracks(size, depth, ops[..n]);
      RunKeeps(size, depth, ops[..n], SessionsIn(ops[..n]));
      StepTracks(size, depth, Run(size, depth, ops[..n]).value, ops[n]);
    }
  }

  /**
   * Over every run: with a port attached no loss is unannounced, and what the receiver
   * will hold of every session it was given is exactly the host's state of it.
   */
  lemma RunConverges(size: Size, depth: nat, ops: seq<Op>)
    requires Run(size, depth, ops).Some?
    ensures var st := Run(size, depth, ops).value;
            st.attached ==>
              && st.dropped == []
              && forall s :: s in st.hosts && s in st.trace.based ==> Converged(st, st.hosts, s)
  {
    RunTracks(size, depth, ops);
    RunKeeps(size, depth, ops, SessionsIn(ops));
    var st := Run(size, depth, ops).value;
    if st.attached {
      forall s | s in st.hosts && s in st.trace.based ensures Converged(st, st.hosts, s) {
        assert Tracks(st, st.hosts, {}, s);
      }
    }
  }

  /** Attaching gives the receiver every session that is open, whatever happened before. */
  lemma AttachConvergesAll(size: Size, depth: nat, ops: seq<Op>, restore: bool)
    requires Run(size, depth, ops + [DoAttach(restore)]).Some?
    ensures var st := Run(size, depth, ops + [DoAttach(restore)]).value;
            st.attached && forall s :: s in st.hosts ==> Converged(st, st.hosts, s)
  {
    var all := ops + [DoAttach(restore)];
    assert all[..|all| - 1] == ops;
    RunTracks(size, depth, ops);
    RunKeeps(size, depth, ops, SessionsIn(ops));
    AttachTracks(size, depth, Run(size, depth, ops).value, restore);
    RunConverges(size, depth, all);
  }

  // ---- Answering a command with a snapshot ----------------------------------

  lemma {:induction false} StaysGiven(size: Size, depth: nat, ops: seq<Op>, more: seq<Op>, s: SessionId)
    requires Run(size, depth, ops + more).Some?
    requires forall op :: op in more ==> !Concerns(op, s)
    ensures Run(size, depth, ops).Some?
    ensures Given(Run(size, depth, ops).value, s) ==> Given(Run(size, depth, ops + more).value, s)
    decreases |more|
  {
    var all := ops + more;
    if more == [] {
      assert all == ops;
    } else {
      hide Step, TracksAll, Within, OpenWithin, Announced;
      var n := |more| - 1;
      assert all[..|all| - 1] == ops + more[..n] && all[|all| - 1] == more[n];
      StaysGiven(size, depth, ops, more[..n], s);
      RunTracks(size, depth, ops + more[..n]);
      RunKeeps(size, depth, ops + more[..n], SessionsIn(ops + more[..n]));
      StepTracks(size, depth, Run(size, depth, ops + more[..n]).value, more[n]);
    }
  }

  /**
   * A session answered to the receiver while what waited let the answer stand is right after any
   * operations that do not register, answer or close it, through any overflow, detachment and
   * attachment: as right as one whose snapshot went through the stream.
   */
  lemma AnsweredStaysRight(size: Size, depth: nat, ops: seq<Op>, s: SessionId, more: seq<Op>)
    requires Run(size, depth, ops + [DoAnswer(s)] + more).Some?
    requires forall op :: op in more ==> !Concerns(op, s)
    requires Run(size, depth, ops).Some? ==>
               var st := Run(size, depth, ops).value; s in st.hosts && AnswersRightly(st, s)
    ensures var st := Run(size, depth, ops + [DoAnswer(s)] + more).value;
            s in st.hosts && (st.attached ==> Converged(st, st.hosts, s))
  {
    StaysGiven(size, depth, ops + [DoAnswer(s)], more, s);
    assert (ops + [DoAnswer(s)])[..|ops|] == ops;
    RunConverges(size, depth, ops + [DoAnswer(s)] + more);
  }

  /**
   * After any run with a port attached, answering is right for every session of which nothing
   * waits, and for every one of which nothing waited when it was registered.
   */
  lemma AnsweringIsRight(size: Size, depth: nat, ops: seq<Op>, s: SessionId)
    requires Run(size, depth, ops).Some?
    ensures var st := Run(size, depth, ops).value;
            st.attached && s in st.hosts && (s in st.trace.clean || !Mentions(st.pending, s)) ==> AnswersRightly(st, s)
  {
    RunTracks(size, depth, ops);
    RunKeeps(size, depth, ops, SessionsIn(ops));
    var st := Run(size, depth, ops).value;
    if st.attached && s in st.hosts {
      if s in st.trace.clean {
        CleanIsAnsweredRightly(st, s);
      } else if !Mentions(st.pending, s) {
        UnmentionedFenced(st.pending, s, SequenceFor(st, s));
      }
    }
  }

  const WINDOW_SIZED: Size := _ => EVENT_DELIVERY_WINDOW_BYTES

  /** A session is answered to the receiver, changes once while the window is spent ... */
  const CHANGE_WAITS := [DoAttach(false)] + [DoRegister("s", [])] + [DoAnswer("s")] + [DoChange("s", 7)]
  /** ... and is closed, reopened and answered again before credit comes back. */
  const REOPENED_TOO_SOON := CHANGE_WAITS + [DoClose("s")] + [DoRegister("s", [7])] + [DoAnswer("s")]

  lemma RunExtends(size: Size, depth: nat, ops: seq<Op>, op: Op)
    requires Run(size, depth, ops).Some?
    ensures Run(size, depth, ops + [op]) == Step(size, depth, Run(size, depth, ops).value, op)
  {
    assert (ops + [op])[..|ops|] == ops;
  }

  /** Attaching to a fresh stream posts one notice, which here spends the whole window. */
  lemma FirstAttach()
    ensures var e := Envelope(1, None, HostNotice(HOST_READY));
            Step(WINDOW_SIZED, 1, INITIAL, DoAttach(false)) ==
            Some(INITIAL.(attached := true, hostSequence := 1, inFlight := [EVENT_DELIVERY_WINDOW_BYTES],
                          trace := EMPTY_TRACE.(
                            received := [Posted(e)], log := [Logged(e, 0)], fates := [Sent], sent := [e])))
  {
    var e := Envelope(1, None, HostNotice(HOST_READY));
    var taken := TakePort(INITIAL);
    assert Drain(WINDOW_SIZED, taken) == taken;
    assert taken.(dropped := []) == taken;
    assert Announce(WINDOW_SIZED, 1, taken) == Some(taken);
    var queued := Enqueue(taken, HostNotice(HOST_READY), None);
    assert queued.pending == [e];
    var posted := PostFirst(WINDOW_SIZED, queued);
    assert Drain(WINDOW_SIZED, queued) == posted;
    assert Emit(WINDOW_SIZED, 1, taken, HostNotice(HOST_READY), None) == Some(posted);
    assert ResyncEach(WINDOW_SIZED, 1, posted, posted.open, {}) == Some(posted);
    assert GapSessions(taken.dropped) == {};
    assert OnAttach(WINDOW_SIZED, 1, taken, {}, false) == Some(posted);
    assert posted.pending == [] && Drain(WINDOW_SIZED, posted) == posted;
    assert posted.inFlight == [EVENT_DELIVERY_WINDOW_BYTES];
    assert posted.trace.log == [Logged(e, 0)] && posted.trace.received == [Posted(e)];
    assert posted.trace.fates == [Sent] && posted.trace.sent == [e];
    assert Attach(WINDOW_SIZED, 1, INITIAL, false) == Some(posted);
  }

  lemma AnsweredFirst()
    ensures var st := Run(WINDOW_SIZED, 1, [DoAttach(false)] + [DoRegister("s", [])] + [DoAnswer("s")]);
            && st.Some? && st.value.attached && st.value.hosts == map["s" := []] && st.value.sequences == map[]
            && st.value.pending == [] && st.value.inFlight == [EVENT_DELIVERY_WINDOW_BYTES]
  {
    FirstAttach();
    RunExtends(WINDOW_SIZED, 1, [], DoAttach(false));
    assert [] + [DoAttach(false)] == [DoAttach(false)];
    RunExtends(WINDOW_SIZED, 1, [DoAttach(false)], DoRegister("s", []));
    RunExtends(WINDOW_SIZED, 1, [DoAttach(false)] + [DoRegister("s", [])], DoAnswer("s"));
  }

  lemma ChangeWaits()
    ensures var st := Run(WINDOW_SIZED, 1, CHANGE_WAITS);
            && st.Some? && st.value.attached && st.value.hosts == map["s" := [7]]
            && st.value.pending == [Envelope(1, Some("s"), Changed(7))]
  {
    AnsweredFirst();
    var ops := [DoAttach(false)] + [DoRegister("s", [])] + [DoAnswer("s")];
    var answered := Run(WINDOW_SIZED, 1, ops).value;
    var changed := Apply(answered, "s", 7);
    assert answered.hosts["s"] + [7] == [7];
    assert changed.hosts == map["s" := [7]];
    var queued := Enqueue(changed, Changed(7), Some("s"));
    assert queued.inFlight[..0] == [] && Sum(queued.inFlight) == EVENT_DELIVERY_WINDOW_BYTES;
    assert Drain(WINDOW_SIZED, queued) == queued;
    assert Emit(WINDOW_SIZED, 1, changed, Changed(7), Some("s")) == Some(queued);
    RunExtends(WINDOW_SIZED, 1, ops, DoChange("s", 7));
  }

  /**
   * The condition can fail. Closing a session forgets its counter while its events wait
   * for credit, so a session reopened at once is answered with a fence of zero and the
   * old event is applied a second time, on top of the new snapshot.
   */
  lemma ReopenedTooSoon()
    ensures Run(WINDOW_SIZED, 1, REOPENED_TOO_SOON).Some?
    ensures var st := Run(WINDOW_SIZED, 1, REOPENED_TOO_SOON).value;
            && st.attached && "s" in st.hosts && st.hosts["s"] == [7]
            && View(st, "s") == Based(0, [7, 7])
            && !Converged(st, st.hosts, "s")
  {
    ChangeWaits();
    RunExtends(WINDOW_SIZED, 1, CHANGE_WAITS, DoClose("s"));
    RunExtends(WINDOW_SIZED, 1, CHANGE_WAITS + [DoClose("s")], DoRegister("s", [7]));
    RunExtends(WINDOW_SIZED, 1, CHANGE_WAITS + [DoClose("s")] + [DoRegister("s", [7])], DoAnswer("s"));
    var st := Run(WINDOW_SIZED, 1, REOPENED_TOO_SOON).value;
    var e := Envelope(1, Some("s"), Changed(7));
    assert st.pending == [e];
    assert st.trace.received[|st.trace.received| - 1] == Answered("s", 0, [7]);
    assert Holds(st.trace.received, "s") == Based(0, [7]);
    assert [e][..0] == [];
    assert CatchUp(Based(0, [7]), [e], "s") == Receive(Based(0, [7]), e, "s") == Based(0, [7, 7]);
  }
}
