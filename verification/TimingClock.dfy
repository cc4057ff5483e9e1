/**
 * Whose clock readings there were. Every span has a serial of its own; over any run, with
 * any spans interleaved, it accounts for one reading when it begins, at most one for a first
 * delta however many deltas it streams, and at most one when it ends, and there are no others.
 */
module TimingClock {
  import opened Wrappers
  import opened TimingSpec
  import TimingRuns

  /** Serials of spans that began, none of them twice. */
  predicate OnceEach(serials: seq<nat>, began: nat) {
    && (forall i :: 0 <= i < |serials| ==> serials[i] < began)
    && (forall i, j :: 0 <= i < j < |serials| ==> serials[i] != serials[j])
  }

  /** An open span has not ended, and had a first delta exactly when its reading says so. */
  predicate OpenRightly(span: Open, began: nat, ended: seq<nat>, deltas: seq<nat>) {
    span.serial < began && span.serial !in ended && (span.serial in deltas <==> span.firstDeltaAt.Some?)
  }

  predicate Serialled(open: seq<Open>, began: nat, ended: seq<nat>, deltas: seq<nat>) {
    && OnceEach(ended, began)
    && OnceEach(deltas, began)
    && (forall i :: 0 <= i < |open| ==> OpenRightly(open[i], began, ended, deltas))
    && (forall i, j :: 0 <= i < j < |open| ==> open[i].serial != open[j].serial)
  }

  predicate SerialsSound(st: Store) {
    Serialled(st.open, st.began, st.trace.ended, st.trace.deltas)
  }

  // ---- What may happen to the open spans -----------------------------------------------

  lemma RemovedSerialled(open: seq<Open>, began: nat, ended: seq<nat>, deltas: seq<nat>, i: nat)
    requires Serialled(open, began, ended, deltas) && i < |open|
    ensures Serialled(RemoveAt(open, i), began, ended, deltas)
    ensures forall j :: 0 <= j < |RemoveAt(open, i)| ==> RemoveAt(open, i)[j].serial != open[i].serial
  {
    var rest := RemoveAt(open, i);
    assert forall j :: 0 <= j < |rest| ==> rest[j] == open[if j < i then j else j + 1];
  }

  lemma EndedSerialled(open: seq<Open>, began: nat, ended: seq<nat>, deltas: seq<nat>, i: nat)
    requires Serialled(open, began, ended, deltas) && i < |open|
    ensures Serialled(RemoveAt(open, i), began, ended + [open[i].serial], deltas)
  {
    RemovedSerialled(open, began, ended, deltas, i);
    forall j | 0 <= j < |RemoveAt(open, i)|
      ensures OpenRightly(RemoveAt(open, i)[j], began, ended + [open[i].serial], deltas)
    {
      assert OpenRightly(RemoveAt(open, i)[j], began, ended, deltas);
    }
    assert OpenRightly(open[i], began, ended, deltas);
  }

  lemma BegunSerialled(open: seq<Open>, began: nat, ended: seq<nat>, deltas: seq<nat>, span: Open)
    requires Serialled(open, began, ended, deltas) && span.serial == began && span.firstDeltaAt.None?
    ensures Serialled(open + [span], began + 1, ended, deltas)
  {
    forall j | 0 <= j < |open|
      ensures OpenRightly(open[j], began + 1, ended, deltas)
    {
      assert OpenRightly(open[j], began, ended, deltas);
    }
  }

  lemma NotedSerialled(open: seq<Open>, began: nat, ended: seq<nat>, deltas: seq<nat>, i: nat, at: real)
    requires Serialled(open, began, ended, deltas) && i < |open| && open[i].firstDeltaAt.None?
    ensures Serialled(open[i := open[i].(firstDeltaAt := Some(at))], began, ended, deltas + [open[i].serial])
  {
    var noted := open[i := open[i].(firstDeltaAt := Some(at))];
    assert OpenRightly(open[i], began, ended, deltas);
    forall j | 0 <= j < |noted|
      ensures OpenRightly(noted[j], began, ended, deltas + [open[i].serial])
    {
      assert OpenRightly(open[j], began, ended, deltas);
    }
  }

  lemma RenamedSerialled(open: seq<Open>, began: nat, ended: seq<nat>, deltas: seq<nat>, i: nat, name: SpanName)
    requires Serialled(open, began, ended, deltas) && i < |open|
    ensures Serialled(open[i := open[i].(name := name)], began, ended, deltas)
  {
    var renamed := open[i := open[i].(name := name)];
    forall j | 0 <= j < |renamed|
      ensures OpenRightly(renamed[j], began, ended, deltas)
    {
      assert OpenRightly(open[j], began, ended, deltas);
    }
  }

  // ---- Every operation --------------------------------------------------------------------

  lemma BeginSerials(cfg: Config, st: Store, key: string, name: SpanName, session: Option<SessionId>)
    requires SerialsSound(st)
    ensures SerialsSound(Begin(cfg, st, key, name, session))
  {
    hide Serialled, Abandon;
    var i := FindOpen(st.open, key);
    var displaced := Displace(cfg, st, key);
    if i < |st.open| {
      TimingRuns.AbandonCounts(cfg, st, st.open[i]);
      RemovedSerialled(st.open, st.began, st.trace.ended, st.trace.deltas, i);
    }
    var ready := EvictOldest(cfg, displaced);
    if |displaced.open| >= cfg.maxOpenSpans && displaced.open != [] {
      TimingRuns.AbandonCounts(cfg, displaced, displaced.open[0]);
      RemovedSerialled(displaced.open, displaced.began, displaced.trace.ended, displaced.trace.deltas, 0);
      assert RemoveAt(displaced.open, 0) == displaced.open[1..];
    }
    var span := Open(ready.began, key, name, cfg.clock(ready.clockReads), None, session);
    BegunSerialled(ready.open, ready.began, ready.trace.ended, ready.trace.deltas, span);
  }

  lemma EndSerials(cfg: Config, st: Store, key: string)
    requires SerialsSound(st)
    ensures SerialsSound(End(cfg, st, key))
  {
    hide Serialled;
    var i := FindOpen(st.open, key);
    if i < |st.open| {
      EndedSerialled(st.open, st.began, st.trace.ended, st.trace.deltas, i);
    }
  }

  lemma EndTurnSerials(cfg: Config, st: Store, id: SessionId)
    requires SerialsSound(st)
    ensures SerialsSound(EndTurn(cfg, st, id))
  {
    hide Serialled, Settle;
    var i := FindOpen(st.open, OpenKey(TurnKind, id));
    if i < |st.open| {
      EndedSerialled(st.open, st.began, st.trace.ended, st.trace.deltas, i);
      TimingRuns.SettleLeavesSpans(cfg, TakeOpen(st, i), id, st.open[i], cfg.clock(st.clockReads));
    }
  }

  lemma CloseSessionSerials(cfg: Config, st: Store, id: SessionId)
    requires SerialsSound(st)
    ensures SerialsSound(CloseSession(cfg, st, id))
  {
    hide Serialled, Abandon;
    var i := FindOpen(st.open, OpenKey(TurnKind, id));
    if i < |st.open| {
      TimingRuns.AbandonCounts(cfg, CloseOpen(st, i), st.open[i]);
      RemovedSerialled(st.open, st.began, st.trace.ended, st.trace.deltas, i);
    }
  }

  lemma StepSerials(cfg: Config, st: Store, op: Op)
    requires SerialsSound(st)
    ensures SerialsSound(Step(cfg, st, op))
  {
    hide Serialled, Touch, Begin, End, EndTurn, CloseSession;
    match op
    case DoBeginTurn(id) =>
      TimingRuns.TouchLeavesSpans(cfg, st, id);
      BeginSerials(cfg, Touch(cfg, st, id), OpenKey(TurnKind, id), Turn(AcceptedToSettled), Some(id));
    case DoEndTurn(id) => EndTurnSerials(cfg, st, id);
    case DoCloseSession(id) => CloseSessionSerials(cfg, st, id);
    case DoBeginTool(key, tool) => BeginSerials(cfg, st, OpenKey(ToolKind, key), Tool(tool), None);
    case DoEndTool(key) => EndSerials(cfg, st, OpenKey(ToolKind, key));
    case DoBeginCommand(key) => BeginSerials(cfg, st, OpenKey(CommandKind, key), Unknown, None);
    case DoNameCommand(key, command) =>
      var i := FindOpen(st.open, OpenKey(CommandKind, key));
      if i < |st.open| {
        RenamedSerialled(st.open, st.began, st.trace.ended, st.trace.deltas, i, Command(command));
      }
    case DoEndCommand(key) => EndSerials(cfg, st, OpenKey(CommandKind, key));
    case DoNoteFirstDelta(serial) =>
      var i := FindSerial(st.open, serial);
      if i < |st.open| && st.open[i].firstDeltaAt.None? {
        NotedSerialled(st.open, st.began, st.trace.ended, st.trace.deltas, i, cfg.clock(st.clockReads));
      }
  }

  lemma {:induction false} RunSerials(cfg: Config, ops: seq<Op>)
    ensures SerialsSound(Run(cfg, ops))
    decreases |ops|
  {
    if ops != [] {
      RunSerials(cfg, ops[..|ops| - 1]);
      StepSerials(cfg, Run(cfg, ops[..|ops| - 1]), ops[|ops| - 1]);
    }
  }

  // ---- Counting the readings ---------------------------------------------------------------

  function Occurrences(serials: seq<nat>, serial: nat): nat {
    if serials == [] then 0
    else Occurrences(serials[..|serials| - 1], serial) + if serials[|serials| - 1] == serial then 1 else 0
  }

  /** The readings one span accounts for. */
  function Readings(st: Store, serial: nat): nat {
    (if serial < st.began then 1 else 0) + Occurrences(st.trace.deltas, serial) + Occurrences(st.trace.ended, serial)
  }

  /** The readings of the first `n` spans. */
  function ReadingsOf(st: Store, n: nat): nat {
    if n == 0 then 0 else ReadingsOf(st, n - 1) + Readings(st, n - 1)
  }

  lemma {:induction false} AtMostOnce(serials: seq<nat>, began: nat, serial: nat)
    requires OnceEach(serials, began)
    ensures Occurrences(serials, serial) == if serial in serials then 1 else 0
  {
    if serials != [] {
      var before, last := serials[..|serials| - 1], serials[|serials| - 1];
      AtMostOnce(before, began, serial);
      assert serials == before + [last];
    }
  }

  function OccurrencesOf(serials: seq<nat>, n: nat): nat {
    if n == 0 then 0 else OccurrencesOf(serials, n - 1) + Occurrences(serials, n - 1)
  }

  lemma {:induction false} OneMoreOccurrence(serials: seq<nat>, last: nat, n: nat)
    ensures OccurrencesOf(serials + [last], n) == OccurrencesOf(serials, n) + if last < n then 1 else 0
  {
    if n > 0 {
      OneMoreOccurrence(serials, last, n - 1);
      assert (serials + [last])[..|serials|] == serials;
    }
  }

  lemma {:induction false} NothingOccurs(n: nat)
    ensures OccurrencesOf([], n) == 0
  {
    if n > 0 {
      NothingOccurs(n - 1);
    }
  }

  /** Counted serial by serial, a list of serials of spans that began is its own length. */
  lemma {:induction false} OccurrencesAddUp(serials: seq<nat>, n: nat)
    requires forall i :: 0 <= i < |serials| ==> serials[i] < n
    ensures OccurrencesOf(serials, n) == |serials|
  {
    if serials == [] {
      NothingOccurs(n);
    } else {
      var before, last := serials[..|serials| - 1], serials[|serials| - 1];
      OccurrencesAddUp(before, n);
      OneMoreOccurrence(before, last, n);
      assert serials == before + [last];
    }
  }

  lemma {:induction false} ReadingsAddUp(st: Store, n: nat)
    requires n <= st.began
    ensures ReadingsOf(st, n) == n + OccurrencesOf(st.trace.deltas, n) + OccurrencesOf(st.trace.ended, n)
  {
    if n > 0 {
      ReadingsAddUp(st, n - 1);
    }
  }

  /**
   * Over every run each span, a turn with any number of deltas among any other operations
   * included, accounts for at most three readings of the clock, a first delta for at most one
   * of them, and all the readings there were are those.
   */
  lemma AtMostThreeReadings(cfg: Config, ops: seq<Op>, serial: nat)
    ensures var st := Run(cfg, ops);
            && Readings(st, serial) <= 3
            && Occurrences(st.trace.deltas, serial) <= 1
            && st.clockReads == ReadingsOf(st, st.began)
            && st.clockReads <= 3 * st.began
  {
    hide Run;
    var st := Run(cfg, ops);
    RunSerials(cfg, ops);
    TimingRuns.RunKeeps(cfg, ops);
    AtMostOnce(st.trace.deltas, st.began, serial);
    AtMostOnce(st.trace.ended, st.began, serial);
    ReadingsAddUp(st, st.began);
    OccurrencesAddUp(st.trace.deltas, st.began);
    OccurrencesAddUp(st.trace.ended, st.began);
    NoMoreThan(st, st.began);
  }

  lemma {:induction false} NoMoreThan(st: Store, n: nat)
    requires SerialsSound(st)
    ensures ReadingsOf(st, n) <= 3 * n
  {
    if n > 0 {
      NoMoreThan(st, n - 1);
      AtMostOnce(st.trace.deltas, st.began, n - 1);
      AtMostOnce(st.trace.ended, st.began, n - 1);
    }
  }
}
