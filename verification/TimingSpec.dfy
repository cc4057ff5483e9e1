/**
 * The timing store as a state machine over values. Completed spans are remembered with
 * the session that ran them, sessions are kept in order of activity, and nothing has an
 * index. `TimingStore.dfy` holds the class with the ring of parallel arrays and the
 * recycled session indices, proved to report exactly what is kept here.
 */
module TimingSpec {
  import opened Wrappers
  import P = Percentiles

  const MAX_SESSION_ID_LENGTH: nat := 128

  type SessionId = string
  type Tally = aggregate: P.Aggregate | |aggregate.buckets| == P.BUCKET_COUNT witness P.NewAggregate()

  datatype Leg = AcceptedToFirstDelta | FirstDeltaToSettled | AcceptedToSettled

  /** The closed vocabulary of span names; tool labels and commands are numbered. */
  datatype SpanName = Turn(leg: Leg) | Tool(tool: nat) | Command(command: nat) | Unknown

  datatype Span = Span(name: SpanName, ms: real, session: Option<SessionId>)

  datatype Entry = Entry(sessionId: SessionId, closed: bool, turns: map<Leg, Tally>)

  /** A span in flight. `serial` stands for the identity of the handle its caller holds. */
  datatype Open = Open(serial: nat, key: string, name: SpanName, startedAt: real,
                       firstDeltaAt: Option<real>, session: Option<SessionId>)

  /** `clock` gives the reading of each clock read in turn. */
  datatype Config = Config(clock: nat -> real, capacity: nat, maxOpenSpans: nat, maxTrackedSessions: nat)

  /**
   * What happened so far; the theorems speak of it and the store does not keep it.
   * `log` is every span ever recorded with the session it was recorded against,
   * `forgotAt` how long the log was when a session was last forgotten, `touchedAt`
   * when it was last active, and the two counts are turn legs no longer or never
   * filed against a session. `ended` and `deltas` are the serials of the spans that
   * ended and of those that had a first delta, `abandoned` the spans given up, and
   * `abandonedBefore` how many those were when a session was last forgotten.
   */
  datatype Trace = Trace(
    log: seq<Span>,
    forgotAt: map<SessionId, nat>,
    touchedAt: map<SessionId, nat>,
    touches: nat,
    forgottenLegs: map<Leg, nat>,
    unattributedLegs: map<Leg, nat>,
    ended: seq<nat>,
    deltas: seq<nat>,
    abandoned: seq<Open>,
    abandonedBefore: map<SessionId, nat>)

  datatype Store = Store(
    recent: seq<Span>,
    aggregates: map<SpanName, Tally>,
    sessions: seq<Entry>,
    sessionsForgotten: nat,
    open: seq<Open>,
    began: nat,
    clockReads: nat,
    spansRecorded: nat,
    spansAbandoned: nat,
    trace: Trace)

  const INITIAL := Store([], map[], [], 0, [], 0, 0, 0, 0, Trace([], map[], map[], 0, map[], map[], [], [], [], map[]))

  function Lookup<K>(m: map<K, nat>, k: K): nat {
    if k in m then m[k] else 0
  }

  function AggregateIn<K>(m: map<K, Tally>, k: K): Tally {
    if k in m then m[k] else P.NewAggregate()
  }

  function Last<T>(s: seq<T>, n: nat): seq<T> {
    if |s| <= n then s else s[|s| - n..]
  }

  function RemoveAt<T>(s: seq<T>, i: nat): seq<T>
    requires i < |s|
  {
    s[..i] + s[i + 1..]
  }

  /** The position of a session's entry, or the length of the table. */
  function Find(sessions: seq<Entry>, id: SessionId): (i: nat)
    ensures i <= |sessions|
    ensures i < |sessions| ==> sessions[i].sessionId == id
    ensures forall j :: 0 <= j < i ==> sessions[j].sessionId != id
  {
    if sessions == [] then 0 else if sessions[0].sessionId == id then 0 else 1 + Find(sessions[1..], id)
  }

  function FirstClosed(sessions: seq<Entry>): (i: nat)
    ensures i <= |sessions|
    ensures i < |sessions| ==> sessions[i].closed
    ensures forall j :: 0 <= j < i ==> !sessions[j].closed
  {
    if sessions == [] then 0 else if sessions[0].closed then 0 else 1 + FirstClosed(sessions[1..])
  }

  function FindOpen(open: seq<Open>, key: string): (i: nat)
    ensures i <= |open|
    ensures i < |open| ==> open[i].key == key
    ensures forall j :: 0 <= j < i ==> open[j].key != key
  {
    if open == [] then 0 else if open[0].key == key then 0 else 1 + FindOpen(open[1..], key)
  }

  function FindSerial(open: seq<Open>, serial: nat): (i: nat)
    ensures i <= |open|
    ensures i < |open| ==> open[i].serial == serial
    ensures forall j :: 0 <= j < i ==> open[j].serial != serial
  {
    if open == [] then 0 else if open[0].serial == serial then 0 else 1 + FindSerial(open[1..], serial)
  }

  // ---- The session table ----------------------------------------------------

  predicate Attributable(cfg: Config, id: SessionId) {
    cfg.maxTrackedSessions > 0 && 0 < |id| <= MAX_SESSION_ID_LENGTH
  }

  /** The first closed session goes, and only without one the least recently active. */
  function Victim(sessions: seq<Entry>): (i: nat)
    requires sessions != []
    ensures i < |sessions|
    ensures if exists j :: 0 <= j < |sessions| && sessions[j].closed
            then sessions[i].closed && forall j :: 0 <= j < i ==> !sessions[j].closed else i == 0
  {
    if FirstClosed(sessions) < |sessions| then FirstClosed(sessions) else 0
  }

  function EraseSession(spans: seq<Span>, id: SessionId): (erased: seq<Span>)
    ensures |erased| == |spans|
    ensures forall i :: 0 <= i < |spans| ==>
      erased[i] == if spans[i].session == Some(id) then spans[i].(session := None) else spans[i]
  {
    if spans == [] then []
    else
      [if spans[0].session == Some(id) then spans[0].(session := None) else spans[0]] + EraseSession(spans[1..], id)
  }

  function LegCount(turns: map<Leg, Tally>, leg: Leg): nat {
    if leg in turns then turns[leg].count else 0
  }

  function AddLegs(legs: map<Leg, nat>, turns: map<Leg, Tally>): map<Leg, nat> {
    map[AcceptedToFirstDelta := Lookup(legs, AcceptedToFirstDelta) + LegCount(turns, AcceptedToFirstDelta),
        FirstDeltaToSettled := Lookup(legs, FirstDeltaToSettled) + LegCount(turns, FirstDeltaToSettled),
        AcceptedToSettled := Lookup(legs, AcceptedToSettled) + LegCount(turns, AcceptedToSettled)]
  }

  function Forget(st: Store): Store
    requires st.sessions != []
  {
    var i := Victim(st.sessions);
    var gone := st.sessions[i];
    st.(sessions := RemoveAt(st.sessions, i),
        recent := EraseSession(st.recent, gone.sessionId),
        sessionsForgotten := st.sessionsForgotten + 1,
        trace := st.trace.(forgotAt := st.trace.forgotAt[gone.sessionId := |st.trace.log|],
                           abandonedBefore :=
                             st.trace.abandonedBefore[gone.sessionId := |st.trace.abandoned|],
                           forgottenLegs := AddLegs(st.trace.forgottenLegs, gone.turns)))
  }

  function NoteActive(st: Store, id: SessionId): Store {
    st.(trace := st.trace.(touchedAt := st.trace.touchedAt[id := st.trace.touches], touches := st.trace.touches + 1))
  }

  function MoveToBack(st: Store, i: nat): Store
    requires i < |st.sessions|
  {
    st.(sessions := RemoveAt(st.sessions, i) + [st.sessions[i].(closed := false)])
  }

  function MakeRoom(cfg: Config, st: Store): Store {
    if |st.sessions| >= cfg.maxTrackedSessions && st.sessions != [] then Forget(st) else st
  }

  function Admit(st: Store, id: SessionId): Store {
    st.(sessions := st.sessions + [Entry(id, false, map[])])
  }

  /** Finds or admits a session and makes it the most recently active; reopening clears `closed`. */
  function Touch(cfg: Config, st: Store, id: SessionId): Store {
    if !Attributable(cfg, id) then st
    else
      var active := NoteActive(st, id);
      var i := Find(active.sessions, id);
      if i < |active.sessions| then MoveToBack(active, i) else Admit(MakeRoom(cfg, active), id)
  }

  // ---- Recording ------------------------------------------------------------

  function Record(cfg: Config, st: Store, name: SpanName, ms: real, session: Option<SessionId>): Store {
    var span := Span(name, ms, session);
    st.(recent := Last(st.recent + [span], cfg.capacity),
        aggregates := st.aggregates[name := P.Tallied(AggregateIn(st.aggregates, name), ms)],
        spansRecorded := st.spansRecorded + 1,
        trace := st.trace.(log := st.trace.log + [span]))
  }

  function TallyIn(st: Store, leg: Leg, ms: real, id: SessionId): Store {
    var i := Find(st.sessions, id);
    if i == |st.sessions| then st
    else
      var turns := st.sessions[i].turns;
      st.(sessions := st.sessions[i := st.sessions[i].(turns := turns[leg := P.Tallied(AggregateIn(turns, leg), ms)])])
  }

  function CountUnattributed(st: Store, leg: Leg): Store {
    var legs := st.trace.unattributedLegs;
    st.(trace := st.trace.(unattributedLegs := legs[leg := Lookup(legs, leg) + 1]))
  }

  /** A turn leg is filed host-wide, and against its session when it has one. */
  function RecordTurn(cfg: Config, st: Store, leg: Leg, ms: real, session: Option<SessionId>): Store {
    var recorded := Record(cfg, st, Turn(leg), ms, session);
    match session
    case None => CountUnattributed(recorded, leg)
    case Some(id) => TallyIn(recorded, leg, ms, id)
  }

  function Abandoned(aggregate: Tally): Tally {
    aggregate.(abandoned := aggregate.abandoned + 1)
  }

  function CountAbandoned(st: Store, span: Open): Store {
    st.(spansAbandoned := st.spansAbandoned + 1,
        aggregates := st.aggregates[span.name := Abandoned(AggregateIn(st.aggregates, span.name))],
        trace := st.trace.(abandoned := st.trace.abandoned + [span]))
  }

  function AbandonIn(st: Store, id: SessionId): Store {
    var i := Find(st.sessions, id);
    if i == |st.sessions| then st
    else
      var turns := st.sessions[i].turns;
      st.(sessions := st.sessions[
        i := st.sessions[i].(turns := turns[AcceptedToSettled := Abandoned(AggregateIn(turns, AcceptedToSettled))])])
  }

  /** A span that will never end counts against its name and, for a turn, against its session. */
  function Abandon(cfg: Config, st: Store, span: Open): Store {
    var counted := CountAbandoned(st, span);
    match span.session
    case None => counted
    case Some(id) =>
      if Attributable(cfg, id) then AbandonIn(Touch(cfg, counted, id), id) else counted
  }

  // ---- Spans ----------------------------------------------------------------

  datatype Kind = TurnKind | ToolKind | CommandKind

  function KindName(kind: Kind): string {
    match kind
    case TurnKind => "turn"
    case ToolKind => "tool"
    case CommandKind => "command"
  }

  function OpenKey(kind: Kind, key: string): string {
    KindName(kind) + ":" + key
  }

  function Tick(st: Store): Store {
    st.(clockReads := st.clockReads + 1)
  }

  function CloseOpen(st: Store, i: nat): Store
    requires i < |st.open|
  {
    st.(open := RemoveAt(st.open, i))
  }

  function Displace(cfg: Config, st: Store, key: string): Store {
    var i := FindOpen(st.open, key);
    if i == |st.open| then st else
      var abandoned := Abandon(cfg, st, st.open[i]);
      abandoned.(open := RemoveAt(st.open, i))
  }

  function EvictOldest(cfg: Config, st: Store): Store {
    if |st.open| < cfg.maxOpenSpans || st.open == [] then st
    else
      var abandoned := Abandon(cfg, st, st.open[0]);
      abandoned.(open := st.open[1..])
  }

  function Begin(cfg: Config, st: Store, key: string, name: SpanName, session: Option<SessionId>): Store {
    var ready := EvictOldest(cfg, Displace(cfg, st, key));
    var span := Open(ready.began, key, name, cfg.clock(ready.clockReads), None, session);
    Tick(ready).(open := ready.open + [span], began := ready.began + 1)
  }

  function BeginTurn(cfg: Config, st: Store, id: SessionId): Store {
    Begin(cfg, Touch(cfg, st, id), OpenKey(TurnKind, id), Turn(AcceptedToSettled), Some(id))
  }

  /** The session a turn is filed under once it settles. */
  function Owner(cfg: Config, id: SessionId): Option<SessionId> {
    if Attributable(cfg, id) then Some(id) else None
  }

  /** A span leaves the open ones and its end is read off the clock. */
  function TakeOpen(st: Store, i: nat): Store
    requires i < |st.open|
  {
    Tick(CloseOpen(st, i)).(trace := st.trace.(ended := st.trace.ended + [st.open[i].serial]))
  }

  function SettleLegs(cfg: Config, st: Store, owner: Option<SessionId>, span: Open, settledAt: real): Store {
    match span.firstDeltaAt
    case None => st
    case Some(at) =>
      RecordTurn(cfg, RecordTurn(cfg, st, AcceptedToFirstDelta, at - span.startedAt, owner),
                 FirstDeltaToSettled, settledAt - at, owner)
  }

  /** The session is found when the turn settles, not when it began; the legs come before the total. */
  function Settle(cfg: Config, st: Store, id: SessionId, span: Open, settledAt: real): Store {
    RecordTurn(cfg, SettleLegs(cfg, Touch(cfg, st, id), Owner(cfg, id), span, settledAt),
               AcceptedToSettled, settledAt - span.startedAt, Owner(cfg, id))
  }

  /** One reading ends up to three spans, because all three end at the same instant. */
  function EndTurn(cfg: Config, st: Store, id: SessionId): Store {
    var i := FindOpen(st.open, OpenKey(TurnKind, id));
    if i == |st.open| then st
    else Settle(cfg, TakeOpen(st, i), id, st.open[i], cfg.clock(st.clockReads))
  }

  /** A tool or a command ends; only turns are filed against a session. */
  function End(cfg: Config, st: Store, key: string): Store {
    var i := FindOpen(st.open, key);
    if i == |st.open| then st
    else Record(cfg, TakeOpen(st, i), st.open[i].name, cfg.clock(st.clockReads) - st.open[i].startedAt, None)
  }

  function AbandonTurn(cfg: Config, st: Store, id: SessionId): Store {
    var i := FindOpen(st.open, OpenKey(TurnKind, id));
    if i == |st.open| then st else Abandon(cfg, CloseOpen(st, i), st.open[i])
  }

  function MarkClosed(st: Store, id: SessionId): Store {
    var j := Find(st.sessions, id);
    if j == |st.sessions| then st
    else st.(sessions := st.sessions[j := st.sessions[j].(closed := true)])
  }

  /** A turn in flight is abandoned first, because abandoning it makes the session active again. */
  function CloseSession(cfg: Config, st: Store, id: SessionId): Store {
    MarkClosed(AbandonTurn(cfg, st, id), id)
  }

  function NameCommand(st: Store, key: string, command: nat): Store {
    var i := FindOpen(st.open, OpenKey(CommandKind, key));
    if i == |st.open| then st else st.(open := st.open[i := st.open[i].(name := Command(command))])
  }

  /** Only the first delta of a span that is still open reads the clock. */
  function NoteFirstDelta(cfg: Config, st: Store, serial: nat): Store {
    var i := FindSerial(st.open, serial);
    if i == |st.open| || st.open[i].firstDeltaAt.Some? then st
    else
      Tick(st).(open := st.open[i := st.open[i].(firstDeltaAt := Some(cfg.clock(st.clockReads)))],
                trace := st.trace.(deltas := st.trace.deltas + [serial]))
  }

  // ---- Runs -----------------------------------------------------------------

  datatype Op =
    | DoBeginTurn(id: SessionId)
    | DoEndTurn(id: SessionId)
    | DoCloseSession(id: SessionId)
    | DoBeginTool(key: string, tool: nat)
    | DoEndTool(key: string)
    | DoBeginCommand(key: string)
    | DoNameCommand(key: string, command: nat)
    | DoEndCommand(key: string)
    | DoNoteFirstDelta(serial: nat)

  function Step(cfg: Config, st: Store, op: Op): Store {
    match op
    case DoBeginTurn(id) => BeginTurn(cfg, st, id)
    case DoEndTurn(id) => EndTurn(cfg, st, id)
    case DoCloseSession(id) => CloseSession(cfg, st, id)
    case DoBeginTool(key, tool) => Begin(cfg, st, OpenKey(ToolKind, key), Tool(tool), None)
    case DoEndTool(key) => End(cfg, st, OpenKey(ToolKind, key))
    case DoBeginCommand(key) => Begin(cfg, st, OpenKey(CommandKind, key), Unknown, None)
    case DoNameCommand(key, command) => NameCommand(st, key, command)
    case DoEndCommand(key) => End(cfg, st, OpenKey(CommandKind, key))
    case DoNoteFirstDelta(serial) => NoteFirstDelta(cfg, st, serial)
  }

  function Run(cfg: Config, ops: seq<Op>): Store {
    if ops == [] then INITIAL else Step(cfg, Run(cfg, ops[..|ops| - 1]), ops[|ops| - 1])
  }
}
