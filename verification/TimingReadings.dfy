/**
 * Which durations are recorded, told by the operations alone. A span's begin, its first delta and
 * its end are operations of the run, and each reads the clock; every duration filed is the
 * difference of two of those readings, under the name the operations gave the span.
 */
module TimingReadings {
  import opened Wrappers
  import opened TimingSpec
  import TimingClock
  import TimingRuns

  // ---- What the operations say of a span ---------------------------------------------------

  datatype Beginning = Beginning(key: string, name: SpanName, session: Option<SessionId>)

  /** The span an operation begins, if it begins one. */
  function Begins(op: Op): Option<Beginning> {
    match op
    case DoBeginTurn(id) => Some(Beginning(OpenKey(TurnKind, id), Turn(AcceptedToSettled), Some(id)))
    case DoBeginTool(key, tool) => Some(Beginning(OpenKey(ToolKind, key), Tool(tool), None))
    case DoBeginCommand(key) => Some(Beginning(OpenKey(CommandKind, key), Unknown, None))
    case _ => None
  }

  predicate IsOpen(st: Store, serial: nat) {
    exists i :: 0 <= i < |st.open| && st.open[i].serial == serial
  }

  /** The operation that began a span: serials are given out one by one. */
  function BeganAt(cfg: Config, ops: seq<Op>, serial: nat): (at: Option<nat>)
    ensures at.Some? ==> at.value < |ops| && Begins(ops[at.value]).Some?
  {
    if ops == [] then None
    else
      var n := |ops| - 1;
      if Begins(ops[n]).Some? && Run(cfg, ops[..n]).began == serial then Some(n) else BeganAt(cfg, ops[..n], serial)
  }

  /** The first delta noted of a span while it was open. */
  function FirstDeltaAt(cfg: Config, ops: seq<Op>, serial: nat): (at: Option<nat>)
    ensures at.Some? ==> at.value < |ops| && ops[at.value] == DoNoteFirstDelta(serial)
  {
    if ops == [] then None
    else
      var n := |ops| - 1;
      var earlier := FirstDeltaAt(cfg, ops[..n], serial);
      if earlier.Some? then earlier
      else if ops[n] == DoNoteFirstDelta(serial) && IsOpen(Run(cfg, ops[..n]), serial) then Some(n)
      else None
  }

  /** The name a span was last given: by the operation that began it, or by one that named its command. */
  function NamedBy(cfg: Config, ops: seq<Op>, key: string, serial: nat): SpanName {
    if ops == [] then Unknown
    else
      var n := |ops| - 1;
      var before := Run(cfg, ops[..n]);
      if Begins(ops[n]).Some? && before.began == serial then Begins(ops[n]).value.name
      else if ops[n].DoNameCommand? && OpenKey(CommandKind, ops[n].key) == key && IsOpen(before, serial)
      then Command(ops[n].command)
      else NamedBy(cfg, ops[..n], key, serial)
  }

  /** What the clock read at one operation of a run. */
  function ReadingAt(cfg: Config, ops: seq<Op>, at: nat): real
    requires at <= |ops|
  {
    cfg.clock(Run(cfg, ops[..at]).clockReads)
  }

  /** An open span is what the operations say of it. */
  predicate TrueTo(cfg: Config, ops: seq<Op>, span: Open) {
    var began, delta := BeganAt(cfg, ops, span.serial), FirstDeltaAt(cfg, ops, span.serial);
    && began.Some?
    && span.key == Begins(ops[began.value]).value.key && span.session == Begins(ops[began.value]).value.session
    && span.startedAt == ReadingAt(cfg, ops, began.value)
    && span.name == NamedBy(cfg, ops, span.key, span.serial)
    && span.firstDeltaAt == (if delta.Some? then Some(ReadingAt(cfg, ops, delta.value)) else None)
  }

  // ---- One operation ----------------------------------------------------------------------------

  /** Where an open span comes from: it was open, or the operation began it, named it or noted its delta. */
  predicate Comes(cfg: Config, st: Store, op: Op, span: Open) {
    || (span in st.open && (op == DoNoteFirstDelta(span.serial) ==> span.firstDeltaAt.Some?)
        && !(op.DoNameCommand? && OpenKey(CommandKind, op.key) == span.key))
    || (Begins(op).Some?
        && span == Open(st.began, Begins(op).value.key, Begins(op).value.name, cfg.clock(st.clockReads),
                        None, Begins(op).value.session))
    || (op == DoNoteFirstDelta(span.serial)
        && exists was :: was in st.open && was.firstDeltaAt.None?
                         && span == was.(firstDeltaAt := Some(cfg.clock(st.clockReads))))
    || (op.DoNameCommand? && OpenKey(CommandKind, op.key) == span.key
        && exists was :: was in st.open && span == was.(name := Command(op.command)))
  }

  lemma BeginComes(cfg: Config, st: Store, op: Op, touched: Store)
    requires Begins(op).Some? && touched.open == st.open && touched.began == st.began
    requires touched.clockReads == st.clockReads
    ensures var b := Begins(op).value;
            forall span :: span in Begin(cfg, touched, b.key, b.name, b.session).open ==> Comes(cfg, st, op, span)
  {
    hide Abandon;
    var b := Begins(op).value;
    var i := FindOpen(touched.open, b.key);
    var displaced := Displace(cfg, touched, b.key);
    if i < |touched.open| {
      TimingRuns.AbandonCounts(cfg, touched, touched.open[i]);
    }
    assert forall span :: span in displaced.open ==> span in st.open;
    var ready := EvictOldest(cfg, displaced);
    if |displaced.open| >= cfg.maxOpenSpans && displaced.open != [] {
      TimingRuns.AbandonCounts(cfg, displaced, displaced.open[0]);
    }
    assert forall span :: span in ready.open ==> span in displaced.open;
  }

  lemma EndComes(cfg: Config, st: Store, op: Op, key: string)
    requires op == DoEndTool(key) || op == DoEndCommand(key)
    ensures forall span :: span in Step(cfg, st, op).open ==> Comes(cfg, st, op, span)
  {
  }

  lemma EndTurnComes(cfg: Config, st: Store, id: SessionId)
    ensures forall span :: span in EndTurn(cfg, st, id).open ==> span in st.open
    ensures forall span :: span in CloseSession(cfg, st, id).open ==> span in st.open
  {
    hide Settle, Abandon;
    var i := FindOpen(st.open, OpenKey(TurnKind, id));
    if i < |st.open| {
      TimingRuns.SettleLeavesSpans(cfg, TakeOpen(st, i), id, st.open[i], cfg.clock(st.clockReads));
      TimingRuns.AbandonCounts(cfg, CloseOpen(st, i), st.open[i]);
    }
  }

  lemma NameComes(cfg: Config, st: Store, key: string, command: nat)
    requires TimingRuns.SpansAccounted(cfg, st)
    ensures forall span :: span in NameCommand(st, key, command).open ==>
              Comes(cfg, st, DoNameCommand(key, command), span)
  {
    var next, i := NameCommand(st, key, command), FindOpen(st.open, OpenKey(CommandKind, key));
    forall span | span in next.open
      ensures Comes(cfg, st, DoNameCommand(key, command), span)
    {
      var j :| 0 <= j < |next.open| && next.open[j] == span;
      assert st.open[j] in st.open;
      if j == i {
        assert span == st.open[j].(name := Command(command));
      }
    }
  }

  lemma NoteComes(cfg: Config, st: Store, serial: nat)
    requires TimingClock.SerialsSound(st)
    ensures forall span :: span in NoteFirstDelta(cfg, st, serial).open ==>
              Comes(cfg, st, DoNoteFirstDelta(serial), span)
  {
    var next, i := NoteFirstDelta(cfg, st, serial), FindSerial(st.open, serial);
    forall span | span in next.open
      ensures Comes(cfg, st, DoNoteFirstDelta(serial), span)
    {
      var j :| 0 <= j < |next.open| && next.open[j] == span;
      assert st.open[j] in st.open;
      if j == i && st.open[j].firstDeltaAt.None? {
        assert span == st.open[j].(firstDeltaAt := Some(cfg.clock(st.clockReads)));
      }
    }
  }

  lemma StepComes(cfg: Config, st: Store, op: Op)
    requires TimingRuns.SpansAccounted(cfg, st) && TimingClock.SerialsSound(st)
    ensures forall span :: span in Step(cfg, st, op).open ==> Comes(cfg, st, op, span)
  {
    hide Touch, Begin, End, EndTurn, CloseSession, NameCommand, NoteFirstDelta;
    match op
    case DoBeginTurn(id) =>
      TimingRuns.TouchLeavesSpans(cfg, st, id);
      BeginComes(cfg, st, op, Touch(cfg, st, id));
    case DoEndTurn(id) => EndTurnComes(cfg, st, id);
    case DoCloseSession(id) => EndTurnComes(cfg, st, id);
    case DoBeginTool(_, _) => BeginComes(cfg, st, op, st);
    case DoBeginCommand(_) => BeginComes(cfg, st, op, st);
    case DoEndTool(key) => EndComes(cfg, st, op, key);
    case DoEndCommand(key) => EndComes(cfg, st, op, key);
    case DoNameCommand(key, command) => NameComes(cfg, st, key, command);
    case DoNoteFirstDelta(serial) => NoteComes(cfg, st, serial);
  }

  // ---- Over runs ----------------------------------------------------------------------------------

  lemma ReadingBefore(cfg: Config, ops: seq<Op>, at: nat)
    requires ops != [] && at < |ops|
    ensures ReadingAt(cfg, ops[..|ops| - 1], at) == ReadingAt(cfg, ops, at)
  {
    assert ops[..|ops| - 1][..at] == ops[..at];
  }

  /** A span that an operation left as it was is still what the operations say. */
  lemma StaysTrue(cfg: Config, ops: seq<Op>, span: Open)
    requires ops != []
    requires var n := |ops| - 1; TrueTo(cfg, ops[..n], span) && span in Run(cfg, ops[..n]).open
    requires var n := |ops| - 1;
             && span.serial < Run(cfg, ops[..n]).began
             && (ops[n] == DoNoteFirstDelta(span.serial) ==> span.firstDeltaAt.Some?)
             && !(ops[n].DoNameCommand? && OpenKey(CommandKind, ops[n].key) == span.key)
    ensures TrueTo(cfg, ops, span)
  {
    hide Run;
    var n := |ops| - 1;
    var began, delta := BeganAt(cfg, ops[..n], span.serial), FirstDeltaAt(cfg, ops[..n], span.serial);
    ReadingBefore(cfg, ops, began.value);
    if delta.Some? {
      ReadingBefore(cfg, ops, delta.value);
    }
  }

  lemma BegunIsTrue(cfg: Config, ops: seq<Op>, span: Open)
    requires ops != [] && Begins(ops[|ops| - 1]).Some?
    requires var n, st, b := |ops| - 1, Run(cfg, ops[..|ops| - 1]), Begins(ops[|ops| - 1]).value;
             span == Open(st.began, b.key, b.name, cfg.clock(st.clockReads), None, b.session)
             && FirstDeltaAt(cfg, ops[..n], st.began).None?
    ensures TrueTo(cfg, ops, span)
  {
    hide Run;
    assert ops[..|ops| - 1] == ops[..BeganAt(cfg, ops, span.serial).value];
  }

  lemma DeltaIsTrue(cfg: Config, ops: seq<Op>, was: Open)
    requires ops != [] && ops[|ops| - 1] == DoNoteFirstDelta(was.serial)
    requires var n := |ops| - 1; TrueTo(cfg, ops[..n], was) && was in Run(cfg, ops[..n]).open
    requires was.firstDeltaAt.None?
    ensures TrueTo(cfg, ops, was.(firstDeltaAt := Some(cfg.clock(Run(cfg, ops[..|ops| - 1]).clockReads))))
  {
    hide Run;
    var n := |ops| - 1;
    var st := Run(cfg, ops[..n]);
    var j :| 0 <= j < |st.open| && st.open[j] == was;
    assert IsOpen(st, was.serial);
    ReadingBefore(cfg, ops, BeganAt(cfg, ops[..n], was.serial).value);
  }

  lemma NameIsTrue(cfg: Config, ops: seq<Op>, was: Open)
    requires ops != [] && ops[|ops| - 1].DoNameCommand? && OpenKey(CommandKind, ops[|ops| - 1].key) == was.key
    requires var n := |ops| - 1; TrueTo(cfg, ops[..n], was) && was in Run(cfg, ops[..n]).open
    ensures TrueTo(cfg, ops, was.(name := Command(ops[|ops| - 1].command)))
  {
    hide Run;
    var n := |ops| - 1;
    var st := Run(cfg, ops[..n]);
    var j :| 0 <= j < |st.open| && st.open[j] == was;
    assert IsOpen(st, was.serial);
    ReadingBefore(cfg, ops, BeganAt(cfg, ops[..n], was.serial).value);
    if FirstDeltaAt(cfg, ops[..n], was.serial).Some? {
      ReadingBefore(cfg, ops, FirstDeltaAt(cfg, ops[..n], was.serial).value);
    }
  }

  /** No delta is noted of a span that has not begun. */
  lemma {:induction false} NoDeltaYet(cfg: Config, ops: seq<Op>, serial: nat)
    requires Run(cfg, ops).began <= serial
    ensures FirstDeltaAt(cfg, ops, serial).None?
    decreases |ops|
  {
    if ops != [] {
      var n := |ops| - 1;
      var st := Run(cfg, ops[..n]);
      TimingClock.RunSerials(cfg, ops[..n]);
      BeganGrows(cfg, st, ops[n]);
      NoDeltaYet(cfg, ops[..n], serial);
      hide Run, Step;
      if i :| 0 <= i < |st.open| && st.open[i].serial == serial {
        assert false;
      }
    }
  }

  lemma BeganGrows(cfg: Config, st: Store, op: Op)
    ensures Step(cfg, st, op).began == st.began + if Begins(op).Some? then 1 else 0
  {
    hide Touch, Abandon, Settle;
    match op
    case DoBeginTurn(id) =>
      TimingRuns.TouchLeavesSpans(cfg, st, id);
      BeginCounts(cfg, Touch(cfg, st, id), OpenKey(TurnKind, id), Turn(AcceptedToSettled), Some(id));
    case DoEndTurn(id) =>
      var i := FindOpen(st.open, OpenKey(TurnKind, id));
      if i < |st.open| {
        TimingRuns.SettleLeavesSpans(cfg, TakeOpen(st, i), id, st.open[i], cfg.clock(st.clockReads));
      }
    case DoCloseSession(id) =>
      var i := FindOpen(st.open, OpenKey(TurnKind, id));
      if i < |st.open| {
        TimingRuns.AbandonCounts(cfg, CloseOpen(st, i), st.open[i]);
      }
    case DoBeginTool(key, tool) => BeginCounts(cfg, st, OpenKey(ToolKind, key), Tool(tool), None);
    case DoBeginCommand(key) => BeginCounts(cfg, st, OpenKey(CommandKind, key), Unknown, None);
    case _ =>
  }

  lemma BeginCounts(cfg: Config, st: Store, key: string, name: SpanName, session: Option<SessionId>)
    ensures Begin(cfg, st, key, name, session).began == st.began + 1
  {
    hide Abandon;
    var i, displaced := FindOpen(st.open, key), Displace(cfg, st, key);
    if i < |st.open| {
      TimingRuns.AbandonCounts(cfg, st, st.open[i]);
    }
    if |displaced.open| >= cfg.maxOpenSpans && displaced.open != [] {
      TimingRuns.AbandonCounts(cfg, displaced, displaced.open[0]);
    }
  }

  lemma SerialBelow(cfg: Config, ops: seq<Op>, span: Open)
    requires span in Run(cfg, ops).open
    ensures span.serial < Run(cfg, ops).began
  {
    TimingClock.RunSerials(cfg, ops);
    var st := Run(cfg, ops);
    hide Run;
    var i :| 0 <= i < |st.open| && st.open[i] == span;
    assert TimingClock.OpenRightly(st.open[i], st.began, st.trace.ended, st.trace.deltas);
  }

  /** Over every run each open span has the key, the name and the readings the operations gave it. */
  lemma {:induction false} OpenSpansAreTrue(cfg: Config, ops: seq<Op>)
    ensures forall span :: span in Run(cfg, ops).open ==> TrueTo(cfg, ops, span)
    decreases |ops|
  {
    if ops != [] {
      var n := |ops| - 1;
      var st := Run(cfg, ops[..n]);
      OpenSpansAreTrue(cfg, ops[..n]);
      TimingRuns.RunKeeps(cfg, ops[..n]);
      TimingClock.RunSerials(cfg, ops[..n]);
      StepComes(cfg, st, ops[n]);
      forall span | span in Run(cfg, ops).open
        ensures TrueTo(cfg, ops, span)
      {
        ComesTrue(cfg, ops[..n], ops, span);
      }
    }
  }

  lemma ComesTrue(cfg: Config, before: seq<Op>, ops: seq<Op>, span: Open)
    requires ops != [] && before == ops[..|ops| - 1] && Comes(cfg, Run(cfg, before), ops[|ops| - 1], span)
    requires forall was :: was in Run(cfg, before).open ==> TrueTo(cfg, before, was)
    ensures TrueTo(cfg, ops, span)
  {
    hide Run, TrueTo;
    var st, op := Run(cfg, before), ops[|ops| - 1];
    if span in st.open && (op == DoNoteFirstDelta(span.serial) ==> span.firstDeltaAt.Some?)
       && !(op.DoNameCommand? && OpenKey(CommandKind, op.key) == span.key)
    {
      SerialBelow(cfg, before, span);
      StaysTrue(cfg, ops, span);
    } else if Begins(op).Some? {
      NoDeltaYet(cfg, before, st.began);
      BegunIsTrue(cfg, ops, span);
    } else if op.DoNoteFirstDelta? {
      var was :| was in st.open && was.firstDeltaAt.None?
                 && span == was.(firstDeltaAt := Some(cfg.clock(st.clockReads)));
      DeltaIsTrue(cfg, ops, was);
    } else {
      var was :| was in st.open && span == was.(name := Command(op.command));
      NameIsTrue(cfg, ops, was);
    }
  }

  // ---- What is recorded -----------------------------------------------------------------------------

  /**
   * A turn that settles records, between readings of the run: from its begin to its first delta and
   * from there to this one, if it had a delta, and then from its begin to this one; all for its session.
   */
  lemma EndTurnRecords(cfg: Config, ops: seq<Op>, id: SessionId, i: nat)
    requires i < |Run(cfg, ops).open| && Run(cfg, ops).open[i].key == OpenKey(TurnKind, id)
    ensures var st, serial := Run(cfg, ops), Run(cfg, ops).open[i].serial;
            var began, delta := BeganAt(cfg, ops, serial), FirstDeltaAt(cfg, ops, serial);
            var owner := if cfg.maxTrackedSessions > 0 && 0 < |id| <= 128 then Some(id) else None;
            var settled := cfg.clock(st.clockReads);
            && began.Some? && ops[began.value] == DoBeginTurn(id)
            && Step(cfg, st, DoEndTurn(id)).trace.log == st.trace.log
                + (if delta.None? then [] else
                     [Span(Turn(AcceptedToFirstDelta),
                           ReadingAt(cfg, ops, delta.value) - ReadingAt(cfg, ops, began.value), owner)]
                     + [Span(Turn(FirstDeltaToSettled), settled - ReadingAt(cfg, ops, delta.value), owner)])
                + [Span(Turn(AcceptedToSettled), settled - ReadingAt(cfg, ops, began.value), owner)]
  {
    hide Run, Settle, TrueTo, OpenKey, BeganAt, FirstDeltaAt;
    var st := Run(cfg, ops);
    OpenIsFound(cfg, ops, i);
    TurnKeyIsTurns(cfg, ops, st.open[i], id);
    SaysOf(cfg, ops, st.open[i]);
    SettleRecords(cfg, TakeOpen(st, i), id, st.open[i], cfg.clock(st.clockReads));
  }

  lemma OpenIsFound(cfg: Config, ops: seq<Op>, i: nat)
    requires i < |Run(cfg, ops).open|
    ensures var st := Run(cfg, ops); FindOpen(st.open, st.open[i].key) == i && TrueTo(cfg, ops, st.open[i])
  {
    hide Run, TrueTo, TimingRuns.WellNamed;
    OpenSpansAreTrue(cfg, ops);
    TimingRuns.RunKeeps(cfg, ops);
    assert Run(cfg, ops).open[i] in Run(cfg, ops).open;
  }

  lemma SaysOf(cfg: Config, ops: seq<Op>, span: Open)
    requires TrueTo(cfg, ops, span)
    ensures var began, delta := BeganAt(cfg, ops, span.serial), FirstDeltaAt(cfg, ops, span.serial);
            && began.Some? && span.key == Begins(ops[began.value]).value.key
            && span.startedAt == ReadingAt(cfg, ops, began.value)
            && span.name == NamedBy(cfg, ops, span.key, span.serial)
            && span.firstDeltaAt == if delta.Some? then Some(ReadingAt(cfg, ops, delta.value)) else None
  {
  }

  lemma TurnKeyIsTurns(cfg: Config, ops: seq<Op>, span: Open, id: SessionId)
    requires TrueTo(cfg, ops, span) && span.key == OpenKey(TurnKind, id)
    ensures ops[BeganAt(cfg, ops, span.serial).value] == DoBeginTurn(id)
  {
    hide Run, NamedBy, FirstDeltaAt, OpenKey;
    match ops[BeganAt(cfg, ops, span.serial).value]
    case DoBeginTurn(other) => TimingRuns.KeysStayApart(TurnKind, other, TurnKind, id);
    case DoBeginTool(key, _) => TimingRuns.KeysStayApart(ToolKind, key, TurnKind, id);
    case DoBeginCommand(key) => TimingRuns.KeysStayApart(CommandKind, key, TurnKind, id);
  }

  lemma SettleRecords(cfg: Config, st: Store, id: SessionId, span: Open, settled: real)
    ensures var owner := if cfg.maxTrackedSessions > 0 && 0 < |id| <= 128 then Some(id) else None;
            Settle(cfg, st, id, span, settled).trace.log == st.trace.log
              + (if span.firstDeltaAt.None? then [] else
                   [Span(Turn(AcceptedToFirstDelta), span.firstDeltaAt.value - span.startedAt, owner)]
                   + [Span(Turn(FirstDeltaToSettled), settled - span.firstDeltaAt.value, owner)])
              + [Span(Turn(AcceptedToSettled), settled - span.startedAt, owner)]
  {
    hide Touch, RecordTurn;
    TimingRuns.TouchLeavesLog(cfg, st, id);
    var touched, owner := Touch(cfg, st, id), Owner(cfg, id);
    if span.firstDeltaAt.Some? {
      var first, second := span.firstDeltaAt.value - span.startedAt, settled - span.firstDeltaAt.value;
      TimingRuns.RecordLogs(cfg, touched, AcceptedToFirstDelta, first, owner);
      TimingRuns.RecordLogs(cfg, RecordTurn(cfg, touched, AcceptedToFirstDelta, first, owner),
                            FirstDeltaToSettled, second, owner);
    }
    TimingRuns.RecordLogs(cfg, SettleLegs(cfg, touched, owner, span, settled), AcceptedToSettled,
                          settled - span.startedAt, owner);
    assert touched.trace.log + [] == touched.trace.log;
  }

  /** A tool or command that ends records the time since it began, under its name and no session. */
  lemma EndRecords(cfg: Config, ops: seq<Op>, op: Op, i: nat)
    requires op.DoEndTool? || op.DoEndCommand?
    requires i < |Run(cfg, ops).open|
    requires Run(cfg, ops).open[i].key == OpenKey(if op.DoEndTool? then ToolKind else CommandKind, op.key)
    ensures var st, span := Run(cfg, ops), Run(cfg, ops).open[i];
            var began := BeganAt(cfg, ops, span.serial);
            && began.Some? && Begins(ops[began.value]).value.key == span.key
            && Step(cfg, st, op).trace.log == st.trace.log
                + [Span(NamedBy(cfg, ops, span.key, span.serial),
                        cfg.clock(st.clockReads) - ReadingAt(cfg, ops, began.value), None)]
  {
    hide Run, TrueTo, OpenKey, BeganAt, FirstDeltaAt, NamedBy;
    OpenIsFound(cfg, ops, i);
    SaysOf(cfg, ops, Run(cfg, ops).open[i]);
  }

  /** No other operation records anything, and neither does an end of a span that is not open. */
  lemma NothingElseRecords(cfg: Config, st: Store, op: Op)
    requires op.DoEndTurn? ==> forall i :: 0 <= i < |st.open| ==> st.open[i].key != OpenKey(TurnKind, op.id)
    requires op.DoEndTool? ==> forall i :: 0 <= i < |st.open| ==> st.open[i].key != OpenKey(ToolKind, op.key)
    requires op.DoEndCommand? ==> forall i :: 0 <= i < |st.open| ==> st.open[i].key != OpenKey(CommandKind, op.key)
    ensures Step(cfg, st, op).trace.log == st.trace.log
  {
    hide Touch, Abandon, OpenKey;
    match op
    case DoBeginTurn(id) =>
      TimingRuns.TouchLeavesLog(cfg, st, id);
      BeginLeavesLog(cfg, Touch(cfg, st, id), OpenKey(TurnKind, id), Turn(AcceptedToSettled), Some(id));
    case DoBeginTool(key, tool) => BeginLeavesLog(cfg, st, OpenKey(ToolKind, key), Tool(tool), None);
    case DoBeginCommand(key) => BeginLeavesLog(cfg, st, OpenKey(CommandKind, key), Unknown, None);
    case DoCloseSession(id) =>
      var i := FindOpen(st.open, OpenKey(TurnKind, id));
      if i < |st.open| {
        AbandonLeavesLog(cfg, CloseOpen(st, i), st.open[i]);
      }
    case _ =>
  }

  lemma AbandonLeavesLog(cfg: Config, st: Store, span: Open)
    ensures Abandon(cfg, st, span).trace.log == st.trace.log
  {
    hide Touch;
    if span.session.Some? {
      TimingRuns.TouchLeavesLog(cfg, CountAbandoned(st, span), span.session.value);
    }
  }

  lemma BeginLeavesLog(cfg: Config, st: Store, key: string, name: SpanName, session: Option<SessionId>)
    ensures Begin(cfg, st, key, name, session).trace.log == st.trace.log
  {
    hide Abandon;
    var i, displaced := FindOpen(st.open, key), Displace(cfg, st, key);
    if i < |st.open| {
      AbandonLeavesLog(cfg, st, st.open[i]);
    }
    if |displaced.open| >= cfg.maxOpenSpans && displaced.open != [] {
      AbandonLeavesLog(cfg, displaced, displaced.open[0]);
    }
  }
}
