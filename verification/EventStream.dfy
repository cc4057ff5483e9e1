/**
 * The event stream of the agent host, as a state machine over values.
 *
 * The queue is lossy and windowed: envelopes wait behind receiver credit, a
 * breach of the byte cap discards everything that waits, and a snapshot repairs
 * each session that lost something. `EventEmitter.dfy` holds the class that keeps
 * head offsets, byte counters and compacted arrays; every method there is proved
 * to compute exactly the function of the same name here.
 *
 * The recursion overflow -> announce -> resync -> emit has no guard in the
 * program. Here it is cut by `depth`, the number of nested overflows allowed;
 * `None` means the program would recurse deeper than that.
 */
module EventStream {
  import opened Sequences
  import opened Wrappers

  const MAX_QUEUED_SESSION_BYTES: nat := 16 * 1024 * 1024
  const EVENT_DELIVERY_WINDOW_BYTES: nat := 1024 * 1024

  type SessionId = string

  /**
   * One change of a session's host state. A session's state is the history of its
   * changes: any projection of the state is a function of the history, so a
   * receiver that holds the same history agrees on every projection.
   */
  type Change = int

  datatype Payload =
    | Changed(change: Change)
    | Snapshot(fence: nat, history: seq<Change>, afterGap: bool)
    | StreamGap(droppedEvents: nat)
    | HostNotice(notice: nat)
  {
    predicate SessionScoped() {
      !HostNotice?
    }
  }

  datatype Envelope = Envelope(sequence: nat, session: Option<SessionId>, payload: Payload)

  /** What one envelope costs the queue and the window, in bytes: any function at all. */
  type Size = Envelope -> nat

  /** One entry of the map of discarded events; the map is kept in insertion order. */
  datatype Gap = Gap(session: SessionId, count: nat)

  /** What the receiver of the current port got: a posted envelope, or a snapshot answered to a command. */
  datatype Receipt =
    | Posted(envelope: Envelope)
    | Answered(session: SessionId, fence: nat, history: seq<Change>)

  /** An emitted envelope and the epoch of its session: resets and closes start a new epoch. */
  datatype Logged = Logged(envelope: Envelope, epoch: nat)

  /** Where a logged envelope that no longer waits went. */
  datatype Fate = Sent | Lost

  /**
   * What happened so far. The program keeps none of this; the theorems speak of it.
   * `log` holds every envelope in the order of emission and `fates` what became of
   * them, in the same order; `sent` is what the ports were handed, `received` what
   * the current one was. `waived` counts the drops a close forgot. A session is
   * `clean` while what waits of its id is such that a snapshot answered to a command
   * covers it, and `based` when the receiver of the current port was given a snapshot
   * of it: one emitted, or one answered while what waited let it stand.
   */
  datatype Trace = Trace(
    received: seq<Receipt>,
    log: seq<Logged>,
    fates: seq<Fate>,
    sent: seq<Envelope>,
    epochs: map<SessionId, nat>,
    waived: map<SessionId, nat>,
    clean: set<SessionId>,
    based: set<SessionId>)

  datatype State = State(
    attached: bool,
    sequences: map<SessionId, nat>,
    hostSequence: nat,
    pending: seq<Envelope>,
    inFlight: seq<nat>,
    droppedWhileDetached: nat,
    dropped: seq<Gap>,
    open: seq<SessionId>,
    hosts: map<SessionId, seq<Change>>,
    trace: Trace)

  const EMPTY_TRACE := Trace([], [], [], [], map[], map[], {}, {})
  const INITIAL := State(false, map[], 0, [], [], 0, [], [], map[], EMPTY_TRACE)

  function Lookup(m: map<SessionId, nat>, s: SessionId): nat {
    if s in m then m[s] else 0
  }

  function SequenceFor(st: State, s: SessionId): nat {
    Lookup(st.sequences, s)
  }

  function Sum(bytes: seq<nat>): nat {
    if bytes == [] then 0 else Sum(bytes[..|bytes| - 1]) + bytes[|bytes| - 1]
  }

  function Bytes(size: Size, envelopes: seq<Envelope>): nat {
    if envelopes == [] then 0 else Bytes(size, envelopes[..|envelopes| - 1]) + size(envelopes[|envelopes| - 1])
  }

  /** Adds one to a session's entry, appending the entry when the session has none. */
  function Bump(gaps: seq<Gap>, s: SessionId): seq<Gap> {
    if gaps == [] then [Gap(s, 1)]
    else if gaps[0].session == s then [Gap(s, gaps[0].count + 1)] + gaps[1..]
    else [gaps[0]] + Bump(gaps[1..], s)
  }

  /** Counts every discarded envelope against its session; host envelopes belong to none. */
  function BumpAll(gaps: seq<Gap>, envelopes: seq<Envelope>): seq<Gap> {
    if envelopes == [] then gaps
    else
      var before := BumpAll(gaps, envelopes[..|envelopes| - 1]);
      match envelopes[|envelopes| - 1].session
      case None => before
      case Some(s) => Bump(before, s)
  }

  function Without(gaps: seq<Gap>, s: SessionId): seq<Gap> {
    if gaps == [] then []
    else if gaps[0].session == s then Without(gaps[1..], s)
    else [gaps[0]] + Without(gaps[1..], s)
  }

  /** How many discarded events a list of gaps holds against a session. */
  function CountFor(gaps: seq<Gap>, s: SessionId): nat {
    if gaps == [] then 0 else (if gaps[0].session == s then gaps[0].count else 0) + CountFor(gaps[1..], s)
  }

  function GapSessions(gaps: seq<Gap>): set<SessionId> {
    set gap | gap in gaps :: gap.session
  }

  // ---- One envelope ---------------------------------------------------------

  function Next(st: State, payload: Payload, session: Option<SessionId>): Envelope {
    match session
    case None => Envelope(st.hostSequence + 1, None, payload)
    case Some(s) => Envelope(SequenceFor(st, s) + 1, session, payload)
  }

  /** Spends the sequence number and logs the envelope; a snapshot gives its session a base. */
  function Issue(st: State, payload: Payload, session: Option<SessionId>): State {
    var e := Next(st, payload, session);
    match session
    case None =>
      st.(hostSequence := e.sequence, trace := st.trace.(log := st.trace.log + [Logged(e, 0)]))
    case Some(s) =>
      var logged := st.trace.(log := st.trace.log + [Logged(e, Lookup(st.trace.epochs, s))]);
      st.(sequences := st.sequences[s := e.sequence],
          trace := if !payload.Snapshot? then logged
                   else logged.(clean := logged.clean + {s}, based := logged.based + {s}))
  }

  function Enqueue(st: State, payload: Payload, session: Option<SessionId>): State {
    var issued := Issue(st, payload, session);
    issued.(pending := st.pending + [Next(st, payload, session)])
  }

  function Losses(n: nat): (fates: seq<Fate>)
    ensures |fates| == n && forall i :: 0 <= i < n ==> fates[i] == Lost
  {
    seq(n, _ => Lost)
  }

  /** The cap is breached: the whole queue goes, and the envelope that breached it goes too. */
  function Lose(st: State, payload: Payload, session: Option<SessionId>): State {
    var issued := Issue(st, payload, session);
    issued.(pending := [],
            droppedWhileDetached := st.droppedWhileDetached + |st.pending| + (if session.Some? then 1 else 0),
            dropped := BumpAll(st.dropped, st.pending + [Next(st, payload, session)]),
            trace := issued.trace.(fates := st.trace.fates + Losses(|st.pending| + 1)))
  }

  predicate Overflows(size: Size, st: State, payload: Payload, session: Option<SessionId>) {
    Bytes(size, st.pending) + size(Next(st, payload, session)) > MAX_QUEUED_SESSION_BYTES
  }

  // ---- Delivery -------------------------------------------------------------

  predicate Blocked(size: Size, st: State)
    requires st.pending != []
  {
    Sum(st.inFlight) > 0 && Sum(st.inFlight) + size(st.pending[0]) > EVENT_DELIVERY_WINDOW_BYTES
  }

  function PostFirst(size: Size, st: State): State
    requires st.pending != []
  {
    var e := st.pending[0];
    st.(pending := st.pending[1..],
        inFlight := st.inFlight + [size(e)],
        trace := st.trace.(
          received := st.trace.received + [Posted(e)],
          fates := st.trace.fates + [Sent],
          sent := st.trace.sent + [e]))
  }

  function Drain(size: Size, st: State): State
    decreases |st.pending|
  {
    if !st.attached || st.pending == [] || Blocked(size, st) then st
    else Drain(size, PostFirst(size, st))
  }

  function Acknowledge(size: Size, st: State, count: nat): State {
    Drain(size, st.(inFlight := st.inFlight[Min(count, |st.inFlight|)..]))
  }

  // ---- Emission and repair --------------------------------------------------

  function Emit(size: Size, depth: nat, st: State, payload: Payload, session: Option<SessionId>): Option<State>
    decreases depth, 0
  {
    if !Overflows(size, st, payload, session) then Some(Drain(size, Enqueue(st, payload, session)))
    else
      var lost := Lose(st, payload, session);
      if !lost.attached then Some(lost)
      else if depth == 0 then None
      else
        var repaired :- Announce(size, depth - 1, lost);
        Some(Drain(size, repaired))
  }

  /** The map is emptied before the first announcement, because announcing may lose events again. */
  function Announce(size: Size, depth: nat, st: State): Option<State>
    decreases depth, 4
  {
    AnnounceEach(size, depth, st.(dropped := []), st.dropped)
  }

  function AnnounceEach(size: Size, depth: nat, st: State, gaps: seq<Gap>): Option<State>
    decreases depth, 3, |gaps|
  {
    if gaps == [] then Some(st)
    else
      var told :- Emit(size, depth, st, StreamGap(gaps[0].count), Some(gaps[0].session));
      var repaired :- OnGap(size, depth, told, gaps[0].session);
      AnnounceEach(size, depth, repaired, gaps[1..])
  }

  /** A session that is no longer open has no state to send. */
  function OnGap(size: Size, depth: nat, st: State, s: SessionId): Option<State>
    decreases depth, 2
  {
    if s in st.hosts then Resync(size, depth, st, s, true) else Some(st)
  }

  function Reset(st: State, s: SessionId): State {
    st.(sequences := st.sequences[s := 0],
        trace := st.trace.(epochs := st.trace.epochs[s := Lookup(st.trace.epochs, s) + 1]))
  }

  function Resync(size: Size, depth: nat, st: State, s: SessionId, afterGap: bool): Option<State>
    requires s in st.hosts
    decreases depth, 1
  {
    var fenced := Reset(st, s);
    Emit(size, depth, fenced, Snapshot(SequenceFor(fenced, s), st.hosts[s], afterGap), Some(s))
  }

  // ---- Ports ----------------------------------------------------------------

  const HOST_READY: nat := 0
  const WORKSPACE_CHANGED: nat := 1

  function TakePort(st: State): State {
    st.(attached := true, inFlight := [], trace := st.trace.(received := [], based := {}))
  }

  function Attach(size: Size, depth: nat, st: State, restore: bool): Option<State> {
    var flushed := Drain(size, TakePort(st));
    var announced :- Announce(size, depth, flushed);
    var fenced :- OnAttach(size, depth, announced, GapSessions(flushed.dropped), restore);
    Some(Drain(size, fenced))
  }

  function OnAttach(size: Size, depth: nat, st: State, already: set<SessionId>, restore: bool): Option<State> {
    var ready :- Emit(size, depth, st, HostNotice(HOST_READY), None);
    var restored :- if restore then Emit(size, depth, ready, HostNotice(WORKSPACE_CHANGED), None) else Some(ready);
    ResyncEach(size, depth, restored, restored.open, already)
  }

  function ResyncEach(size: Size, depth: nat, st: State, ids: seq<SessionId>, already: set<SessionId>): Option<State>
    decreases |ids|
  {
    if ids == [] then Some(st)
    else if ids[0] in already || ids[0] !in st.hosts then ResyncEach(size, depth, st, ids[1..], already)
    else
      var fenced :- Resync(size, depth, st, ids[0], false);
      ResyncEach(size, depth, fenced, ids[1..], already)
  }

  function Detach(st: State): State {
    st.(attached := false, inFlight := [])
  }

  // ---- The receiver ---------------------------------------------------------

  /** What a receiver holds of one session: nothing, or a history and the sequence it fences off. */
  datatype Client = NoBase | Based(fence: nat, history: seq<Change>)

  function Receive(client: Client, e: Envelope, s: SessionId): Client {
    if e.session != Some(s) then client
    else
      match e.payload
      case Snapshot(fence, history, _) => Based(fence, history)
      case Changed(change) =>
        if client.Based? && e.sequence > client.fence then client.(history := client.history + [change]) else client
      case _ => client
  }

  function CatchUp(client: Client, envelopes: seq<Envelope>, s: SessionId): Client {
    if envelopes == [] then client
    else Receive(CatchUp(client, envelopes[..|envelopes| - 1], s), envelopes[|envelopes| - 1], s)
  }

  predicate HasSnapshot(envelopes: seq<Envelope>, s: SessionId) {
    exists i :: 0 <= i < |envelopes| && envelopes[i].session == Some(s) && envelopes[i].payload.Snapshot?
  }

  /** A snapshot taken now would fence off every change of the session that waits behind its last snapshot. */
  predicate Fenced(envelopes: seq<Envelope>, s: SessionId, sequence: nat) {
    if envelopes == [] then true
    else
      var e := envelopes[|envelopes| - 1];
      if e.session == Some(s) && e.payload.Snapshot? then true
      else
        && (e.session == Some(s) && e.payload.Changed? ==> e.sequence <= sequence)
        && Fenced(envelopes[..|envelopes| - 1], s, sequence)
  }

  /** The queue alone gives a receiver that holds nothing the host's state of a session. */
  predicate Restores(st: State, s: SessionId)
    requires s in st.hosts
  {
    var client := CatchUp(NoBase, st.pending, s);
    client.Based? && client.history == st.hosts[s] && client.fence <= SequenceFor(st, s)
  }

  /**
   * Whether a snapshot answered to a command now would leave the receiver right, as what waits
   * decides: a queued snapshot must restore the host's state, and without one the answer's fence
   * must cover every change that waits.
   */
  predicate AnswersRightly(st: State, s: SessionId)
    requires s in st.hosts
  {
    if HasSnapshot(st.pending, s) then Restores(st, s) else Fenced(st.pending, s, SequenceFor(st, s))
  }

  // ---- Sessions -------------------------------------------------------------

  predicate Mentions(envelopes: seq<Envelope>, s: SessionId) {
    exists e :: e in envelopes && e.session == Some(s)
  }

  /** A session enters the runtime's map. It is clean when nothing of an earlier life still waits. */
  function Register(st: State, s: SessionId, history: seq<Change>): State {
    st.(open := if s in st.open then st.open else st.open + [s],
        hosts := st.hosts[s := history],
        trace := st.trace.(
          clean := if Mentions(st.pending, s) then st.trace.clean - {s} else st.trace.clean + {s},
          based := st.trace.based - {s}))
  }

  /** Disposal: the counter and the unannounced drops go with the session. */
  function Close(st: State, s: SessionId): State {
    st.(sequences := st.sequences - {s},
        dropped := Without(st.dropped, s),
        open := Remove(st.open, s),
        hosts := st.hosts - {s},
        trace := st.trace.(
          epochs := st.trace.epochs[s := Lookup(st.trace.epochs, s) + 1],
          waived := st.trace.waived[s := Lookup(st.trace.waived, s) + CountFor(st.dropped, s)]))
  }

  function Remove(ids: seq<SessionId>, s: SessionId): seq<SessionId> {
    if ids == [] then []
    else if ids[0] == s then Remove(ids[1..], s)
    else [ids[0]] + Remove(ids[1..], s)
  }

  /** `create_session` and `open_session` answer with a fenced snapshot outside the event stream. */
  function Answer(st: State, s: SessionId): State
    requires s in st.hosts
  {
    st.(trace := st.trace.(
          received := st.trace.received + [Answered(s, SequenceFor(st, s), st.hosts[s])],
          clean := if AnswersRightly(st, s) && Fenced(st.pending, s, SequenceFor(st, s))
                   then st.trace.clean + {s} else st.trace.clean,
          based := if AnswersRightly(st, s) then st.trace.based + {s} else st.trace.based - {s}))
  }

  /** The host's own state moves first; the event that says so is emitted after. */
  function Apply(st: State, s: SessionId, change: Change): State {
    if s in st.hosts then st.(hosts := st.hosts[s := st.hosts[s] + [change]]) else st
  }

  // ---- Runs -----------------------------------------------------------------

  datatype Op =
    | DoRegister(session: SessionId, history: seq<Change>)
    | DoAnswer(session: SessionId)
    | DoChange(session: SessionId, change: Change)
    | DoNotice(notice: nat)
    | DoReplace(session: SessionId, history: seq<Change>)
    | DoResync(session: SessionId)
    | DoClose(session: SessionId)
    | DoAttach(restore: bool)
    | DoDetach
    | DoAck(count: nat)

  function Step(size: Size, depth: nat, st: State, op: Op): Option<State> {
    match op
    case DoRegister(s, history) => Some(Register(st, s, history))
    case DoAnswer(s) => Some(if s in st.hosts then Answer(st, s) else st)
    case DoChange(s, change) => Emit(size, depth, Apply(st, s, change), Changed(change), Some(s))
    case DoNotice(notice) => Emit(size, depth, st, HostNotice(notice), None)
    case DoReplace(s, history) =>
      if s in st.hosts then Resync(size, depth, st.(hosts := st.hosts[s := history]), s, false) else Some(st)
    case DoResync(s) => if s in st.hosts then Resync(size, depth, st, s, true) else Some(st)
    case DoClose(s) => Some(if s in st.hosts then Close(st, s) else st)
    case DoAttach(restore) => Attach(size, depth, st, restore)
    case DoDetach => Some(Detach(st))
    case DoAck(count) => Some(Acknowledge(size, st, count))
  }

  function Run(size: Size, depth: nat, ops: seq<Op>): Option<State>
  {
    if ops == [] then Some(INITIAL)
    else
      var before :- Run(size, depth, ops[..|ops| - 1]);
      Step(size, depth, before, ops[|ops| - 1])
  }
}
