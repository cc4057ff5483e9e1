/**
 * Which sessions are tracked and which spans are open, told by the operations alone. Touching a
 * session puts it last and, on a full table, forgets the least recently active of the closed ones
 * or, without one, of all; a session is closed while its last word was a close.
 */
module TimingTable {
  import opened Wrappers
  import opened TimingSpec
  import opened TimingRuns
  import TimingReadings
  import TimingTallies

  // ---- One touch -----------------------------------------------------------------------------

  function IdsOf(sessions: seq<Entry>): (ids: seq<SessionId>)
    ensures |ids| == |sessions| && forall i :: 0 <= i < |ids| ==> ids[i] == sessions[i].sessionId
  {
    seq(|sessions|, i requires 0 <= i < |sessions| => sessions[i].sessionId)
  }

  /** The tracked sessions other than one, in their order. */
  function IdsBut(sessions: seq<Entry>, id: SessionId): seq<SessionId> {
    if sessions == [] then []
    else if sessions[0].sessionId == id then IdsBut(sessions[1..], id)
    else [sessions[0].sessionId] + IdsBut(sessions[1..], id)
  }

  lemma {:induction false} RemovedIds(sessions: seq<Entry>, i: nat)
    requires i < |sessions| && TimingTallies.DistinctIds(sessions)
    ensures IdsOf(RemoveAt(sessions, i)) == IdsBut(sessions, sessions[i].sessionId)
  {
    if i == 0 {
      NoneToLeave(sessions[1..], sessions[0].sessionId);
      assert RemoveAt(sessions, 0) == sessions[1..];
    } else {
      RemovedIds(sessions[1..], i - 1);
      assert RemoveAt(sessions, i) == [sessions[0]] + RemoveAt(sessions[1..], i - 1);
      assert IdsOf(RemoveAt(sessions, i)) == [sessions[0].sessionId] + IdsOf(RemoveAt(sessions[1..], i - 1));
    }
  }

  lemma {:induction false} NoneToLeave(sessions: seq<Entry>, id: SessionId)
    requires forall i :: 0 <= i < |sessions| ==> sessions[i].sessionId != id
    ensures IdsBut(sessions, id) == IdsOf(sessions)
  {
    if sessions != [] {
      NoneToLeave(sessions[1..], id);
      assert IdsOf(sessions) == [sessions[0].sessionId] + IdsOf(sessions[1..]);
    }
  }

  lemma OrderIsDistinct(st: Store)
    requires InOrderOfActivity(st)
    ensures TimingTallies.DistinctIds(st.sessions)
  {
  }

  /**
   * Touching a session that can be tracked leaves it last and open. The others keep their order,
   * and one of them is forgotten exactly when it was not tracked and the table is full: the first
   * closed one or, if none is closed, the first.
   */
  lemma TouchExactly(cfg: Config, st: Store, id: SessionId)
    requires InOrderOfActivity(st) && TableBounded(cfg, st)
    requires cfg.maxTrackedSessions > 0 && 0 < |id| <= MAX_SESSION_ID_LENGTH
    ensures var next := Touch(cfg, st, id);
            var tracked := exists i :: 0 <= i < |st.sessions| && st.sessions[i].sessionId == id;
            && next.sessions != [] && next.sessions[|next.sessions| - 1].sessionId == id
            && !next.sessions[|next.sessions| - 1].closed
            && (tracked || |st.sessions| < cfg.maxTrackedSessions ==>
                  IdsOf(next.sessions) == IdsBut(st.sessions, id) + [id]
                  && next.sessionsForgotten == st.sessionsForgotten)
            && (!tracked && |st.sessions| == cfg.maxTrackedSessions ==>
                  exists i: nat :: i < |st.sessions| && GoesFirst(st.sessions, i)
                    && IdsOf(next.sessions) == IdsBut(st.sessions, st.sessions[i].sessionId) + [id]
                    && next.sessionsForgotten == st.sessionsForgotten + 1)
  {
    hide EraseSession, AddLegs, InOrderOfActivity;
    OrderIsDistinct(st);
    var i := Find(st.sessions, id);
    if i < |st.sessions| {
      RemovedIds(st.sessions, i);
      hide TimingTallies.DistinctIds;
      IdsAppended(RemoveAt(st.sessions, i), st.sessions[i].(closed := false));
    } else if |st.sessions| < cfg.maxTrackedSessions {
      NoneToLeave(st.sessions, id);
      IdsAppended(st.sessions, Entry(id, false, map[]));
    } else {
      var v := Victim(st.sessions);
      RemovedIds(st.sessions, v);
      IdsAppended(RemoveAt(st.sessions, v), Entry(id, false, map[]));
      assert GoesFirst(st.sessions, v);
    }
  }

  lemma IdsAppended(sessions: seq<Entry>, entry: Entry)
    ensures IdsOf(sessions + [entry]) == IdsOf(sessions) + [entry.sessionId]
  {
  }

  /** The first closed session goes first, and without one the first of all. */
  predicate GoesFirst(sessions: seq<Entry>, i: nat)
    requires i < |sessions|
  {
    && (forall j :: 0 <= j < i ==> !sessions[j].closed)
    && (sessions[i].closed || (i == 0 && forall j :: 0 <= j < |sessions| ==> !sessions[j].closed))
  }

  // ---- Closed sessions ------------------------------------------------------------------------

  /** Whether the last operation to begin a turn of a session or to close it closed it. */
  predicate ClosedLast(ops: seq<Op>, id: SessionId) {
    if ops == [] then false
    else
      match ops[|ops| - 1]
      case DoCloseSession(closed) => closed == id || ClosedLast(ops[..|ops| - 1], id)
      case DoBeginTurn(begun) => begun != id && ClosedLast(ops[..|ops| - 1], id)
      case _ => ClosedLast(ops[..|ops| - 1], id)
  }

  predicate HasTurn(open: seq<Open>, id: SessionId) {
    exists i :: 0 <= i < |open| && open[i].session == Some(id)
  }

  /** How a session stands: if it is tracked, closed or not; it is not closed with a turn open. */
  predicate Stands(st: Store, id: SessionId, closed: bool) {
    && (HasTurn(st.open, id) ==> !closed)
    && forall i :: 0 <= i < |st.sessions| && st.sessions[i].sessionId == id ==>
         st.sessions[i].closed == closed && 0 < |id| <= MAX_SESSION_ID_LENGTH
  }

  lemma MovedStands(st: Store, next: Store, id: SessionId, closed: bool)
    requires Stands(st, id, closed)
    requires forall i :: 0 <= i < |next.open| ==> next.open[i].session == Some(id) ==> HasTurn(st.open, id)
    requires forall e :: e in next.sessions && e.sessionId == id ==>
               || (e.closed == closed && 0 < |id| <= MAX_SESSION_ID_LENGTH)
               || (exists f :: f in st.sessions && f.sessionId == id && f.closed == e.closed)
    ensures Stands(next, id, closed)
  {
    forall i | 0 <= i < |next.sessions| && next.sessions[i].sessionId == id
      ensures next.sessions[i].closed == closed && 0 < |id| <= MAX_SESSION_ID_LENGTH
    {
      assert next.sessions[i] in next.sessions;
    }
  }

  /** Touching another session changes nothing for this one, and touching this one opens it. */
  lemma TouchStands(cfg: Config, st: Store, touched: SessionId, id: SessionId, closed: bool)
    requires Stands(st, id, closed) && (touched == id ==> !closed)
    ensures Stands(Touch(cfg, st, touched), id, closed)
  {
    hide EraseSession, AddLegs;
    TouchLeavesSpans(cfg, st, touched);
    var next := Touch(cfg, st, touched);
    TouchEntries(cfg, st, touched);
    forall e | e in next.sessions && e.sessionId == id
      ensures || (e.closed == closed && 0 < |id| <= MAX_SESSION_ID_LENGTH)
              || (exists f :: f in st.sessions && f.sessionId == id && f.closed == e.closed)
    {
      if !(e in st.sessions) {
        assert e.sessionId == touched && !e.closed;
      }
    }
    MovedStands(st, next, id, closed);
  }

  lemma TouchEntries(cfg: Config, st: Store, touched: SessionId)
    ensures forall e :: e in Touch(cfg, st, touched).sessions && e !in st.sessions ==>
              e.sessionId == touched && !e.closed && Attributable(cfg, touched)
  {
    hide EraseSession, AddLegs;
    if Attributable(cfg, touched) {
      var active := NoteActive(st, touched);
      var i, next := Find(active.sessions, touched), Touch(cfg, st, touched);
      if i < |active.sessions| {
        RemovedIn(st.sessions, i);
      } else {
        if |st.sessions| >= cfg.maxTrackedSessions && st.sessions != [] {
          RemovedIn(st.sessions, Victim(st.sessions));
        }
      }
    }
  }

  lemma RemovedIn<T>(items: seq<T>, i: nat)
    requires i < |items|
    ensures forall x :: x in RemoveAt(items, i) ==> x in items
  {
  }

  lemma TurnsStand(st: Store, next: Store, id: SessionId, closed: bool)
    requires Stands(st, id, closed)
    requires forall i :: 0 <= i < |next.sessions| ==>
               i < |st.sessions| && next.sessions[i].sessionId == st.sessions[i].sessionId
               && next.sessions[i].closed == st.sessions[i].closed
    requires HasTurn(next.open, id) ==> HasTurn(st.open, id)
    ensures Stands(next, id, closed)
  {
  }

  lemma RecordStands(cfg: Config, st: Store, leg: Leg, ms: real, session: Option<SessionId>,
                     id: SessionId, closed: bool)
    requires Stands(st, id, closed)
    ensures Stands(RecordTurn(cfg, st, leg, ms, session), id, closed)
  {
    TurnsStand(st, RecordTurn(cfg, st, leg, ms, session), id, closed);
  }

  lemma SettleStands(cfg: Config, st: Store, touched: SessionId, span: Open, settled: real, id: SessionId, closed: bool)
    requires Stands(st, id, closed) && (touched == id ==> !closed)
    ensures Stands(Settle(cfg, st, touched, span, settled), id, closed)
  {
    hide Touch, RecordTurn, Stands;
    var owner, base := Owner(cfg, touched), Touch(cfg, st, touched);
    TouchStands(cfg, st, touched, id, closed);
    if span.firstDeltaAt.Some? {
      var first, second := span.firstDeltaAt.value - span.startedAt, settled - span.firstDeltaAt.value;
      RecordStands(cfg, base, AcceptedToFirstDelta, first, owner, id, closed);
      RecordStands(cfg, RecordTurn(cfg, base, AcceptedToFirstDelta, first, owner),
                   FirstDeltaToSettled, second, owner, id, closed);
    }
    RecordStands(cfg, SettleLegs(cfg, base, owner, span, settled), AcceptedToSettled,
                 settled - span.startedAt, owner, id, closed);
  }

  lemma AbandonStands(cfg: Config, st: Store, span: Open, id: SessionId, closed: bool)
    requires Stands(st, id, closed) && (span.session == Some(id) ==> !closed)
    ensures Stands(Abandon(cfg, st, span), id, closed)
  {
    hide Touch;
    var counted := CountAbandoned(st, span);
    if span.session.Some? && Attributable(cfg, span.session.value) {
      TouchStands(cfg, counted, span.session.value, id, closed);
      var touched := Touch(cfg, counted, span.session.value);
      TurnsStand(touched, AbandonIn(touched, span.session.value), id, closed);
    }
  }

  lemma BeginStands(cfg: Config, st: Store, key: string, name: SpanName, session: Option<SessionId>,
                    id: SessionId, closed: bool)
    requires Stands(st, id, closed) && (session == Some(id) ==> !closed)
    ensures Stands(Begin(cfg, st, key, name, session), id, closed)
  {
    hide Abandon;
    var i := FindOpen(st.open, key);
    var displaced := Displace(cfg, st, key);
    if i < |st.open| {
      AbandonStands(cfg, st, st.open[i], id, closed);
      AbandonCounts(cfg, st, st.open[i]);
      FewerStand(Abandon(cfg, st, st.open[i]), displaced, id, closed);
    }
    var ready := EvictOldest(cfg, displaced);
    if |displaced.open| >= cfg.maxOpenSpans && displaced.open != [] {
      AbandonStands(cfg, displaced, displaced.open[0], id, closed);
      AbandonCounts(cfg, displaced, displaced.open[0]);
      FewerStand(Abandon(cfg, displaced, displaced.open[0]), ready, id, closed);
    }
  }

  lemma FewerStand(st: Store, next: Store, id: SessionId, closed: bool)
    requires Stands(st, id, closed) && next.sessions == st.sessions
    requires forall span :: span in next.open ==> span in st.open
    ensures Stands(next, id, closed)
  {
    if i :| 0 <= i < |next.open| && next.open[i].session == Some(id) {
      assert next.open[i] in next.open;
    }
  }

  /** A close leaves a session no turn and, if it is tracked, closed; for the others nothing changes. */
  lemma CloseStands(cfg: Config, st: Store, closing: SessionId, id: SessionId, closed: bool)
    requires SpansAccounted(cfg, st) && Stands(st, id, closed)
    requires TimingTallies.DistinctIds(AbandonTurn(cfg, st, closing).sessions)
    ensures Stands(CloseSession(cfg, st, closing), id, closing == id || closed)
  {
    hide Abandon, SpansAccounted, Stands;
    var i := FindOpen(st.open, OpenKey(TurnKind, closing));
    if i < |st.open| {
      TurnUnderKey(cfg, st, closing);
      RemovedIn(st.open, i);
      FewerStand(st, CloseOpen(st, i), id, closed);
      TurnOpens(st, i, id, closed);
      AbandonStands(cfg, CloseOpen(st, i), st.open[i], id, closed);
    }
    NoTurnLeft(cfg, st, closing);
    MarkStands(AbandonTurn(cfg, st, closing), closing, id, closed);
  }

  lemma TurnOpens(st: Store, i: nat, id: SessionId, closed: bool)
    requires i < |st.open| && Stands(st, id, closed)
    ensures st.open[i].session == Some(id) ==> !closed
  {
  }

  lemma TurnUnderKey(cfg: Config, st: Store, id: SessionId)
    requires SpansAccounted(cfg, st)
    ensures forall i :: 0 <= i < |st.open| && st.open[i].session == Some(id) ==> st.open[i].key == OpenKey(TurnKind, id)
  {
    forall i | 0 <= i < |st.open| && st.open[i].session == Some(id)
      ensures st.open[i].key == OpenKey(TurnKind, id)
    {
      assert WellNamed(st.open[i]);
    }
  }

  lemma NoTurnLeft(cfg: Config, st: Store, id: SessionId)
    requires SpansAccounted(cfg, st)
    ensures !HasTurn(AbandonTurn(cfg, st, id).open, id)
  {
    hide Abandon;
    var key := OpenKey(TurnKind, id);
    var i := FindOpen(st.open, key);
    TurnUnderKey(cfg, st, id);
    if i < |st.open| {
      AbandonCounts(cfg, CloseOpen(st, i), st.open[i]);
      RemovedOpen(st.open, i);
      var rest := RemoveAt(st.open, i);
      forall j | 0 <= j < |rest|
        ensures rest[j].session != Some(id)
      {
        var k :| 0 <= k < |st.open| && st.open[k] == rest[j];
      }
    }
  }

  lemma MarkStands(st: Store, closing: SessionId, id: SessionId, closed: bool)
    requires Stands(st, id, closed) && !HasTurn(st.open, closing) && TimingTallies.DistinctIds(st.sessions)
    ensures Stands(MarkClosed(st, closing), id, closing == id || closed)
  {
    var j, next := Find(st.sessions, closing), MarkClosed(st, closing);
    forall i | 0 <= i < |next.sessions| && next.sessions[i].sessionId == id
      ensures next.sessions[i].closed == (closing == id || closed) && 0 < |id| <= MAX_SESSION_ID_LENGTH
    {
      assert st.sessions[i].sessionId == id;
    }
  }

  lemma StepStands(cfg: Config, st: Store, op: Op, id: SessionId, closed: bool)
    requires SpansAccounted(cfg, st) && Inv(cfg, st) && Stands(st, id, closed)
    ensures Stands(Step(cfg, st, op), id,
                   match op
                   case DoCloseSession(closing) => closing == id || closed
                   case DoBeginTurn(begun) => begun != id && closed
                   case _ => closed)
  {
    hide Stands, Touch, Begin, Settle, CloseSession, SpansAccounted, Inv, Abandon;
    match op
    case DoBeginTurn(begun) =>
      var after := begun != id && closed;
      BegunStands(cfg, st, begun, id, closed);
      BeginStands(cfg, Touch(cfg, st, begun), OpenKey(TurnKind, begun), Turn(AcceptedToSettled), Some(begun),
                  id, after);
    case DoEndTurn(ended) => EndTurnStands(cfg, st, ended, id, closed);
    case DoCloseSession(closing) =>
      AbandonedDistinct(cfg, st, closing);
      CloseStands(cfg, st, closing, id, closed);
    case DoBeginTool(key, tool) => BeginStands(cfg, st, OpenKey(ToolKind, key), Tool(tool), None, id, closed);
    case DoBeginCommand(key) => BeginStands(cfg, st, OpenKey(CommandKind, key), Unknown, None, id, closed);
    case DoEndTool(key) => EndStands(cfg, st, OpenKey(ToolKind, key), id, closed);
    case DoEndCommand(key) => EndStands(cfg, st, OpenKey(CommandKind, key), id, closed);
    case DoNameCommand(key, command) => SameTurnsStand(st, NameCommand(st, key, command), id, closed);
    case DoNoteFirstDelta(serial) => SameTurnsStand(st, NoteFirstDelta(cfg, st, serial), id, closed);
  }

  lemma SameTurnsStand(st: Store, next: Store, id: SessionId, closed: bool)
    requires Stands(st, id, closed) && next.sessions == st.sessions && |next.open| == |st.open|
    requires forall i :: 0 <= i < |st.open| ==> next.open[i].session == st.open[i].session
    ensures Stands(next, id, closed)
  {
    if i :| 0 <= i < |next.open| && next.open[i].session == Some(id) {
      assert st.open[i].session == Some(id);
    }
  }

  /** Beginning a turn opens its session: whatever was said of it before, it is not closed now. */
  lemma BegunStands(cfg: Config, st: Store, begun: SessionId, id: SessionId, closed: bool)
    requires Stands(st, id, closed) && Inv(cfg, st)
    ensures Stands(Touch(cfg, st, begun), id, begun != id && closed)
  {
    if begun != id || !closed {
      hide Inv;
      TouchStands(cfg, st, begun, id, closed);
    } else if Attributable(cfg, id) {
      TouchLeavesSpans(cfg, st, begun);
      TouchedIsOpen(cfg, st, begun);
    }
  }

  lemma TouchedIsOpen(cfg: Config, st: Store, id: SessionId)
    requires Inv(cfg, st) && Attributable(cfg, id)
    ensures forall i :: 0 <= i < |Touch(cfg, st, id).sessions| && Touch(cfg, st, id).sessions[i].sessionId == id ==>
              !Touch(cfg, st, id).sessions[i].closed
  {
    TouchKeeps(cfg, st, id);
    OrderIsDistinct(Touch(cfg, st, id));
    TouchExactly(cfg, st, id);
  }

  lemma EndTurnStands(cfg: Config, st: Store, ended: SessionId, id: SessionId, closed: bool)
    requires SpansAccounted(cfg, st) && Stands(st, id, closed)
    ensures Stands(EndTurn(cfg, st, ended), id, closed)
  {
    hide Settle, Stands, SpansAccounted;
    var i := FindOpen(st.open, OpenKey(TurnKind, ended));
    if i < |st.open| {
      TurnOf(cfg, st, ended, i);
      TurnOpens(st, i, id, closed);
      RemovedIn(st.open, i);
      FewerStand(st, TakeOpen(st, i), id, closed);
      SettleStands(cfg, TakeOpen(st, i), ended, st.open[i], cfg.clock(st.clockReads), id, closed);
    }
  }

  lemma TurnOf(cfg: Config, st: Store, id: SessionId, i: nat)
    requires SpansAccounted(cfg, st) && i < |st.open| && st.open[i].key == OpenKey(TurnKind, id)
    ensures st.open[i].session == Some(id)
  {
    assert WellNamed(st.open[i]);
    assert OpenKey(TurnKind, id)[0] == 't' && OpenKey(TurnKind, id)[1] == 'u';
    if st.open[i].session.Some? {
      KeysStayApart(TurnKind, st.open[i].session.value, TurnKind, id);
    }
  }

  lemma EndStands(cfg: Config, st: Store, key: string, id: SessionId, closed: bool)
    requires Stands(st, id, closed)
    ensures Stands(End(cfg, st, key), id, closed)
  {
    hide Stands;
    var i := FindOpen(st.open, key);
    if i < |st.open| {
      RemovedIn(st.open, i);
      FewerStand(st, End(cfg, st, key), id, closed);
    }
  }

  lemma AbandonedDistinct(cfg: Config, st: Store, id: SessionId)
    requires Inv(cfg, st)
    ensures TimingTallies.DistinctIds(AbandonTurn(cfg, st, id).sessions)
  {
    hide Abandon;
    var i := FindOpen(st.open, OpenKey(TurnKind, id));
    if i < |st.open| {
      Unread(cfg, st, CloseOpen(st, i));
      AbandonKeeps(cfg, CloseOpen(st, i), st.open[i]);
    }
    OrderIsDistinct(AbandonTurn(cfg, st, id));
  }

  lemma {:induction false} RunStands(cfg: Config, ops: seq<Op>, id: SessionId)
    ensures Stands(Run(cfg, ops), id, ClosedLast(ops, id))
    decreases |ops|
  {
    hide Stands, Step, Inv, SpansAccounted;
    if ops == [] {
      StartStands(id);
    } else {
      var n := |ops| - 1;
      var st := Run(cfg, ops[..n]);
      RunStands(cfg, ops[..n], id);
      RunKept(cfg, ops[..n]);
      StepStands(cfg, st, ops[n], id, ClosedLast(ops[..n], id));
    }
  }

  lemma StartStands(id: SessionId)
    ensures Stands(INITIAL, id, false)
  {
  }

  lemma RunKept(cfg: Config, ops: seq<Op>)
    ensures Inv(cfg, Run(cfg, ops)) && SpansAccounted(cfg, Run(cfg, ops))
  {
    hide Run, RingIsHistory, InOrderOfActivity, TableBounded, LegsAccounted, SpansAccounted;
    RunKeeps(cfg, ops);
  }

  /**
   * Over every run, a session that comes to a full table makes one other forgotten: one whose last
   * word was its close whenever the table holds such a session, and the least recently active of
   * those or, without any, of all.
   */
  lemma ForgetsTheClosedFirst(cfg: Config, ops: seq<Op>, id: SessionId)
    requires var st := Run(cfg, ops);
             && Attributable(cfg, id) && |st.sessions| == cfg.maxTrackedSessions
             && id !in IdsOf(st.sessions)
    ensures var st := Run(cfg, ops);
            var ids := IdsOf(st.sessions);
            exists gone: nat :: gone < |ids|
              && IdsOf(Touch(cfg, st, id).sessions) == IdsBut(st.sessions, ids[gone]) + [id]
              && (forall j :: 0 <= j < gone ==> !ClosedLast(ops, ids[j]))
              && (ClosedLast(ops, ids[gone]) || (gone == 0 && forall j :: 0 <= j < |ids| ==> !ClosedLast(ops, ids[j])))
  {
    hide Touch, Run, ClosedLast, InOrderOfActivity, RingIsHistory, LegsAccounted;
    var st := Run(cfg, ops);
    var ids := IdsOf(st.sessions);
    forall j | 0 <= j < |ids|
      ensures st.sessions[j].closed == ClosedLast(ops, ids[j])
    {
      assert st.sessions[j] in st.sessions;
      RunStands(cfg, ops, ids[j]);
    }
    RunKept(cfg, ops);
    forall j | 0 <= j < |ids|
      ensures st.sessions[j].sessionId == ids[j] != id
    {
      assert ids[j] in ids;
    }
    TouchExactly(cfg, st, id);
    var gone: nat :| gone < |st.sessions| && GoesFirst(st.sessions, gone)
      && IdsOf(Touch(cfg, st, id).sessions) == IdsBut(st.sessions, st.sessions[gone].sessionId) + [id];
    assert st.sessions[gone].sessionId == ids[gone];
  }

  // ---- Open spans -------------------------------------------------------------------------------

  /** The open spans under one key, or those under every other. */
  function Under(open: seq<Open>, key: string): seq<Open> {
    if open == [] then []
    else (if open[0].key == key then [open[0]] else []) + Under(open[1..], key)
  }

  function OpenBut(open: seq<Open>, key: string): seq<Open> {
    if open == [] then []
    else (if open[0].key == key then [] else [open[0]]) + OpenBut(open[1..], key)
  }

  lemma {:induction false} KeyTaken(open: seq<Open>, key: string)
    requires forall j, k :: 0 <= j < k < |open| ==> open[j].key != open[k].key
    ensures var i := FindOpen(open, key);
            && OpenBut(open, key) == (if i < |open| then RemoveAt(open, i) else open)
            && Under(open, key) == (if i < |open| then [open[i]] else [])
  {
    if open != [] {
      KeyTaken(open[1..], key);
      var i, rest := FindOpen(open, key), FindOpen(open[1..], key);
      if open[0].key == key {
        assert rest == |open| - 1;
        assert RemoveAt(open, 0) == open[1..];
      } else if i < |open| {
        assert RemoveAt(open, i) == [open[0]] + RemoveAt(open[1..], i - 1);
      }
    }
  }

  predicate Full(cfg: Config, open: seq<Open>) {
    |open| >= cfg.maxOpenSpans && open != []
  }

  lemma AbandonSays(cfg: Config, st: Store, span: Open)
    ensures Abandon(cfg, st, span).trace.abandoned == st.trace.abandoned + [span]
  {
    if span.session.Some? && Attributable(cfg, span.session.value) {
      TouchGivesUpNone(cfg, CountAbandoned(st, span), span.session.value);
    }
  }

  lemma TouchGivesUpNone(cfg: Config, st: Store, id: SessionId)
    ensures Touch(cfg, st, id).trace.abandoned == st.trace.abandoned
  {
    hide EraseSession, AddLegs;
  }

  /**
   * Beginning a span ends up with it last. The span under its key is given up, and where the rest
   * have no room for one more the oldest of them is given up too.
   */
  lemma BeginOpens(cfg: Config, st: Store, key: string, name: SpanName, session: Option<SessionId>)
    requires SpansAccounted(cfg, st)
    ensures var next, rest := Begin(cfg, st, key, name, session), OpenBut(st.open, key);
            && next.open == (if Full(cfg, rest) then rest[1..] else rest)
                            + [Open(st.began, key, name, cfg.clock(st.clockReads), None, session)]
            && next.trace.abandoned == st.trace.abandoned + Under(st.open, key)
                                       + (if Full(cfg, rest) then [rest[0]] else [])
  {
    hide Abandon, Displace, EvictOldest, SpansAccounted, OpenBut, Under, Full;
    DisplaceOpens(cfg, st, key);
    EvictOpens(cfg, Displace(cfg, st, key));
  }

  lemma DisplaceOpens(cfg: Config, st: Store, key: string)
    requires SpansAccounted(cfg, st)
    ensures var next := Displace(cfg, st, key);
            && next.open == OpenBut(st.open, key)
            && next.trace.abandoned == st.trace.abandoned + Under(st.open, key)
            && next.began == st.began && next.clockReads == st.clockReads
  {
    hide Abandon, WellNamed;
    KeyTaken(st.open, key);
    var i := FindOpen(st.open, key);
    if i < |st.open| {
      AbandonCounts(cfg, st, st.open[i]);
      AbandonSays(cfg, st, st.open[i]);
    }
  }

  lemma EvictOpens(cfg: Config, st: Store)
    ensures var next := EvictOldest(cfg, st);
            && next.open == (if Full(cfg, st.open) then st.open[1..] else st.open)
            && next.trace.abandoned == st.trace.abandoned + (if Full(cfg, st.open) then [st.open[0]] else [])
            && next.began == st.began && next.clockReads == st.clockReads
  {
    hide Abandon;
    if Full(cfg, st.open) {
      AbandonCounts(cfg, st, st.open[0]);
      AbandonSays(cfg, st, st.open[0]);
    }
  }

  /** A close gives up the session's turn, and a turn or another span that ends is open no more. */
  lemma CloseOpens(cfg: Config, st: Store, id: SessionId)
    requires SpansAccounted(cfg, st)
    ensures var next, key := CloseSession(cfg, st, id), OpenKey(TurnKind, id);
            && next.open == OpenBut(st.open, key)
            && next.trace.abandoned == st.trace.abandoned + Under(st.open, key)
  {
    hide AbandonTurn, MarkClosed, SpansAccounted;
    TurnGivenUp(cfg, st, id);
    MarkLeavesOpen(AbandonTurn(cfg, st, id), id);
  }

  lemma TurnGivenUp(cfg: Config, st: Store, id: SessionId)
    requires SpansAccounted(cfg, st)
    ensures var next, key := AbandonTurn(cfg, st, id), OpenKey(TurnKind, id);
            && next.open == OpenBut(st.open, key)
            && next.trace.abandoned == st.trace.abandoned + Under(st.open, key)
  {
    hide Abandon, WellNamed, OpenKey, OpenBut, Under;
    var key := OpenKey(TurnKind, id);
    var i := FindOpen(st.open, key);
    KeyTaken(st.open, key);
    if i < |st.open| {
      AbandonCounts(cfg, CloseOpen(st, i), st.open[i]);
      AbandonSays(cfg, CloseOpen(st, i), st.open[i]);
    }
  }

  lemma MarkLeavesOpen(st: Store, id: SessionId)
    ensures MarkClosed(st, id).open == st.open && MarkClosed(st, id).trace == st.trace
  {
  }

  lemma RecordGivesUpNone(cfg: Config, st: Store, leg: Leg, ms: real, session: Option<SessionId>)
    ensures RecordTurn(cfg, st, leg, ms, session).trace.abandoned == st.trace.abandoned
  {
  }

  lemma SettleGivesUpNone(cfg: Config, st: Store, id: SessionId, span: Open, settled: real)
    ensures Settle(cfg, st, id, span, settled).trace.abandoned == st.trace.abandoned
  {
    hide Touch, RecordTurn;
    var owner, base := Owner(cfg, id), Touch(cfg, st, id);
    TouchGivesUpNone(cfg, st, id);
    if span.firstDeltaAt.Some? {
      var first, second := span.firstDeltaAt.value - span.startedAt, settled - span.firstDeltaAt.value;
      RecordGivesUpNone(cfg, base, AcceptedToFirstDelta, first, owner);
      RecordGivesUpNone(cfg, RecordTurn(cfg, base, AcceptedToFirstDelta, first, owner),
                        FirstDeltaToSettled, second, owner);
    }
    RecordGivesUpNone(cfg, SettleLegs(cfg, base, owner, span, settled), AcceptedToSettled,
                      settled - span.startedAt, owner);
  }

  /** A span that ends is open no more and reads the clock once; one that is not open reads nothing. */
  predicate Ends(st: Store, next: Store, key: string) {
    && next.open == OpenBut(st.open, key)
    && |next.trace.ended| == |st.trace.ended| + |Under(st.open, key)|
    && next.trace.abandoned == st.trace.abandoned
    && next.clockReads == st.clockReads + |Under(st.open, key)|
  }

  lemma EndTurnOpens(cfg: Config, st: Store, id: SessionId)
    requires SpansAccounted(cfg, st)
    ensures Ends(st, EndTurn(cfg, st, id), OpenKey(TurnKind, id))
  {
    hide Settle, WellNamed, OpenKey;
    var i := FindOpen(st.open, OpenKey(TurnKind, id));
    KeyTaken(st.open, OpenKey(TurnKind, id));
    if i < |st.open| {
      SettleLeavesSpans(cfg, TakeOpen(st, i), id, st.open[i], cfg.clock(st.clockReads));
      SettleGivesUpNone(cfg, TakeOpen(st, i), id, st.open[i], cfg.clock(st.clockReads));
    }
  }

  lemma ToolEndOpens(cfg: Config, st: Store, key: string)
    requires SpansAccounted(cfg, st)
    ensures Ends(st, End(cfg, st, key), key)
  {
    hide WellNamed, Record;
    KeyTaken(st.open, key);
    var i := FindOpen(st.open, key);
    if i < |st.open| {
      RecordOpens(cfg, TakeOpen(st, i), st.open[i].name, cfg.clock(st.clockReads) - st.open[i].startedAt);
    }
  }

  lemma RecordOpens(cfg: Config, st: Store, name: SpanName, ms: real)
    ensures var next := Record(cfg, st, name, ms, None);
            && next.open == st.open && next.clockReads == st.clockReads
            && next.trace.abandoned == st.trace.abandoned && next.trace.ended == st.trace.ended
  {
  }

  lemma EndOpens(cfg: Config, st: Store, op: Op)
    requires SpansAccounted(cfg, st) && (op.DoEndTurn? || op.DoEndTool? || op.DoEndCommand?)
    ensures Ends(st, Step(cfg, st, op),
                 match op
                 case DoEndTurn(id) => "turn:" + id
                 case DoEndTool(tool) => "tool:" + tool
                 case _ => "command:" + op.key)
  {
    hide Ends, EndTurn, End, SpansAccounted;
    match op
    case DoEndTurn(id) =>
      EndTurnOpens(cfg, st, id);
      assert "turn" + ":" == "turn:";
    case DoEndTool(tool) =>
      ToolEndOpens(cfg, st, OpenKey(ToolKind, tool));
      assert "tool" + ":" == "tool:";
    case DoEndCommand(command) =>
      ToolEndOpens(cfg, st, OpenKey(CommandKind, command));
      assert "command" + ":" == "command:";
  }
}
