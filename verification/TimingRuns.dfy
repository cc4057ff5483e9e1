/**
 * What the timing store keeps over every run: the ring is the end of everything ever
 * recorded with each turn still credited to the session that ran it or to nobody, the
 * table is in order of activity, every turn leg is counted once, and every span that
 * began ended, was abandoned or is open.
 */
module TimingRuns {
  import opened Sequences
  import opened Wrappers
  import opened TimingSpec
  import P = Percentiles

  // ---- The ring -------------------------------------------------------------

  /** The session a recorded span still reads back under: the one it was recorded against, until that is forgotten. */
  function Attribution(st: Store, at: nat): Option<SessionId>
    requires at < |st.trace.log|
  {
    match st.trace.log[at].session
    case None => None
    case Some(id) => if id in st.trace.forgotAt && st.trace.forgotAt[id] > at then None else Some(id)
  }

  /** One place of the ring: the span recorded so many before the last, credited to its session or to nobody. */
  predicate Recalls(st: Store, i: nat)
    requires i < |st.recent| <= |st.trace.log|
  {
    var at := |st.trace.log| - |st.recent| + i;
    st.recent[i] == Span(st.trace.log[at].name, st.trace.log[at].ms, Attribution(st, at))
  }

  ghost predicate RingIsHistory(cfg: Config, st: Store) {
    && |st.recent| == Min(|st.trace.log|, cfg.capacity)
    && st.spansRecorded == |st.trace.log|
    && (forall id :: id in st.trace.forgotAt ==> st.trace.forgotAt[id] <= |st.trace.log|)
    && forall i :: 0 <= i < |st.recent| ==> Recalls(st, i)
  }

  // ---- The table ------------------------------------------------------------

  /** Least recently active first, so no session is in the table twice. */
  ghost predicate InOrderOfActivity(st: Store) {
    && (forall i :: 0 <= i < |st.sessions| ==>
          && st.sessions[i].sessionId in st.trace.touchedAt
          && st.trace.touchedAt[st.sessions[i].sessionId] < st.trace.touches)
    && (forall i, j :: 0 <= i < j < |st.sessions| ==>
          st.trace.touchedAt[st.sessions[i].sessionId] < st.trace.touchedAt[st.sessions[j].sessionId])
  }

  ghost predicate TableBounded(cfg: Config, st: Store) {
    |st.sessions| <= cfg.maxTrackedSessions
  }

  function LiveLegs(sessions: seq<Entry>, leg: Leg): nat {
    if sessions == [] then 0 else LegCount(sessions[0].turns, leg) + LiveLegs(sessions[1..], leg)
  }

  function HostLegs(st: Store, leg: Leg): nat {
    if Turn(leg) in st.aggregates then st.aggregates[Turn(leg)].count else 0
  }

  /** Every turn leg counted host-wide is counted for a tracked session, was forgotten with one, or has none. */
  ghost predicate LegsAccounted(st: Store, leg: Leg) {
    HostLegs(st, leg) ==
    LiveLegs(st.sessions, leg) + Lookup(st.trace.forgottenLegs, leg) + Lookup(st.trace.unattributedLegs, leg)
  }

  // ---- The open spans -------------------------------------------------------

  /** A turn is open under its session's key; nothing else carries a turn's name or session. */
  predicate WellNamed(span: Open) {
    match span.session
    case Some(id) => span.key == OpenKey(TurnKind, id) && span.name == Turn(AcceptedToSettled)
    case None => !span.name.Turn? && !IsTurnKey(span.key)
  }

  predicate IsTurnKey(key: string) {
    |key| >= 2 && key[0] == 't' && key[1] == 'u'
  }

  ghost predicate SpansAccounted(cfg: Config, st: Store) {
    && st.began == |st.trace.ended| + st.spansAbandoned + |st.open|
    && st.clockReads == st.began + |st.trace.ended| + |st.trace.deltas|
    && |st.open| <= Max(cfg.maxOpenSpans, 1)
    && (forall i :: 0 <= i < |st.open| ==> WellNamed(st.open[i]))
    && (forall i, j :: 0 <= i < j < |st.open| ==> st.open[i].key != st.open[j].key)
  }

  function Max(a: nat, b: nat): nat {
    if a > b then a else b
  }

  ghost predicate Inv(cfg: Config, st: Store) {
    && RingIsHistory(cfg, st)
    && InOrderOfActivity(st)
    && TableBounded(cfg, st)
    && (forall leg :: LegsAccounted(st, leg))
  }

  // ---- Keys -----------------------------------------------------------------

  /** A key of one kind never names a span of another, and within a kind keys stay apart. */
  lemma KeysStayApart(k: Kind, a: string, l: Kind, b: string)
    ensures OpenKey(k, a) == OpenKey(l, b) <==> k == l && a == b
  {
    var x, y := OpenKey(k, a), OpenKey(l, b);
    var n := |KindName(k)| + 1;
    assert x[n..] == a;
    assert x[0] == KindName(k)[0] && x[1] == KindName(k)[1] && y[0] == KindName(l)[0] && y[1] == KindName(l)[1];
    if k == l {
      assert y[n..] == b;
    }
  }

  // ---- Counting legs --------------------------------------------------------

  lemma {:induction false} LiveSplits(a: seq<Entry>, b: seq<Entry>, leg: Leg)
    ensures LiveLegs(a + b, leg) == LiveLegs(a, leg) + LiveLegs(b, leg)
  {
    if a == [] {
      assert a + b == b;
    } else {
      assert (a + b)[1..] == a[1..] + b;
      LiveSplits(a[1..], b, leg);
    }
  }

  lemma LiveAt(sessions: seq<Entry>, i: nat, leg: Leg)
    requires i < |sessions|
    ensures LiveLegs(sessions, leg) == LiveLegs(RemoveAt(sessions, i), leg) + LegCount(sessions[i].turns, leg)
  {
    var a, b := sessions[..i], sessions[i + 1..];
    assert sessions == a + ([sessions[i]] + b);
    LiveSplits(a, [sessions[i]] + b, leg);
    LiveSplits([sessions[i]], b, leg);
    LiveSplits(a, b, leg);
    assert LiveLegs([sessions[i]], leg) == LegCount(sessions[i].turns, leg) by {
      assert [sessions[i]][1..] == [];
    }
  }

  lemma LiveUpdated(sessions: seq<Entry>, i: nat, entry: Entry, leg: Leg)
    requires i < |sessions|
    ensures LiveLegs(sessions[i := entry], leg) ==
            LiveLegs(sessions, leg) - LegCount(sessions[i].turns, leg) + LegCount(entry.turns, leg)
  {
    LiveAt(sessions, i, leg);
    LiveAt(sessions[i := entry], i, leg);
    assert RemoveAt(sessions[i := entry], i) == RemoveAt(sessions, i);
  }

  lemma LiveAppended(sessions: seq<Entry>, entry: Entry, leg: Leg)
    ensures LiveLegs(sessions + [entry], leg) == LiveLegs(sessions, leg) + LegCount(entry.turns, leg)
  {
    LiveAt(sessions + [entry], |sessions|, leg);
    assert RemoveAt(sessions + [entry], |sessions|) == sessions;
  }

  // ---- The table's steps ----------------------------------------------------

  lemma ForgetKeeps(cfg: Config, st: Store)
    requires Inv(cfg, st) && st.sessions != []
    ensures Inv(cfg, Forget(st))
  {
    var next := Forget(st);
    forall leg ensures LegsAccounted(next, leg) {
      assert LegsAccounted(st, leg);
      LiveAt(st.sessions, Victim(st.sessions), leg);
      match leg { case AcceptedToFirstDelta => case FirstDeltaToSettled => case AcceptedToSettled => }
    }
    ForgetKeepsRing(cfg, st);
  }

  lemma ForgetKeepsRing(cfg: Config, st: Store)
    requires RingIsHistory(cfg, st) && st.sessions != []
    ensures RingIsHistory(cfg, Forget(st))
  {
    hide EraseSession, Victim, AddLegs;
    forall i | 0 <= i < |Forget(st).recent| ensures Recalls(Forget(st), i) {
      assert Recalls(st, i);
    }
  }

  /** Marking a session active is sound only because its entry, if it has one, then moves to the back. */
  lemma TouchKeeps(cfg: Config, st: Store, id: SessionId)
    requires Inv(cfg, st)
    ensures Inv(cfg, Touch(cfg, st, id))
    ensures Attributable(cfg, id) ==> Find(Touch(cfg, st, id).sessions, id) < |Touch(cfg, st, id).sessions|
  {
    if Attributable(cfg, id) {
      var i := Find(st.sessions, id);
      if i < |st.sessions| {
        ReopenKeeps(cfg, st, id, i);
      } else {
        AdmitKeeps(cfg, st, id);
      }
      var next := Touch(cfg, st, id);
      assert next.sessions[|next.sessions| - 1].sessionId == id;
    }
  }

  lemma ReopenKeeps(cfg: Config, st: Store, id: SessionId, i: nat)
    requires Inv(cfg, st) && i < |st.sessions| && st.sessions[i].sessionId == id
    ensures Inv(cfg, MoveToBack(NoteActive(st, id), i))
  {
    var next := MoveToBack(NoteActive(st, id), i);
    forall leg ensures LegsAccounted(next, leg) {
      assert LegsAccounted(st, leg);
      LiveAt(st.sessions, i, leg);
      LiveAppended(RemoveAt(st.sessions, i), st.sessions[i].(closed := false), leg);
    }
    SameRing(cfg, st, next);
    MovedOrder(st, id, i);
  }

  lemma MovedOrder(st: Store, id: SessionId, i: nat)
    requires InOrderOfActivity(st) && i < |st.sessions| && st.sessions[i].sessionId == id
    ensures InOrderOfActivity(MoveToBack(NoteActive(st, id), i))
  {
    var next := MoveToBack(NoteActive(st, id), i);
    forall j | 0 <= j < |next.sessions| - 1
      ensures next.sessions[j] == st.sessions[if j < i then j else j + 1] && next.sessions[j].sessionId != id
    {
    }
  }

  lemma ActiveKeeps(cfg: Config, st: Store, id: SessionId)
    requires Inv(cfg, st) && Find(st.sessions, id) == |st.sessions|
    ensures Inv(cfg, NoteActive(st, id))
    ensures var active := NoteActive(st, id);
            forall i :: 0 <= i < |st.sessions| ==>
                active.trace.touchedAt[st.sessions[i].sessionId] < active.trace.touchedAt[id]
  {
    SameRing(cfg, st, NoteActive(st, id));
    forall leg ensures LegsAccounted(NoteActive(st, id), leg) {
      assert LegsAccounted(st, leg);
    }
  }

  lemma AppendKeeps(cfg: Config, st: Store, id: SessionId)
    requires Inv(cfg, st) && |st.sessions| < cfg.maxTrackedSessions
    requires id in st.trace.touchedAt && st.trace.touchedAt[id] < st.trace.touches
    requires forall i :: 0 <= i < |st.sessions| ==>
             st.trace.touchedAt[st.sessions[i].sessionId] < st.trace.touchedAt[id]
    ensures Inv(cfg, Admit(st, id))
  {
    SameRing(cfg, st, Admit(st, id));
    forall leg ensures LegsAccounted(Admit(st, id), leg) {
      assert LegsAccounted(st, leg);
      LiveAppended(st.sessions, Entry(id, false, map[]), leg);
    }
  }

  lemma AdmitKeeps(cfg: Config, st: Store, id: SessionId)
    requires Inv(cfg, st) && Attributable(cfg, id) && Find(st.sessions, id) == |st.sessions|
    ensures Inv(cfg, Admit(MakeRoom(cfg, NoteActive(st, id)), id))
  {
    hide RingIsHistory, LegsAccounted, Find, EraseSession;
    ActiveKeeps(cfg, st, id);
    var active := NoteActive(st, id);
    var roomy := MakeRoom(cfg, active);
    if active.sessions != [] && |active.sessions| >= cfg.maxTrackedSessions {
      ForgetKeeps(cfg, active);
      var i := Victim(active.sessions);
      forall j | 0 <= j < |roomy.sessions|
        ensures roomy.sessions[j] == st.sessions[if j < i then j else j + 1]
      {
      }
    }
    AppendKeeps(cfg, roomy, id);
  }

  lemma SameRing(cfg: Config, st: Store, next: Store)
    requires RingIsHistory(cfg, st)
    requires next.recent == st.recent && next.spansRecorded == st.spansRecorded
    requires next.trace.log == st.trace.log && next.trace.forgotAt == st.trace.forgotAt
    ensures RingIsHistory(cfg, next)
  {
    forall i | 0 <= i < |next.recent| ensures Recalls(next, i) {
      assert Recalls(st, i);
    }
  }

  // ---- Recording ------------------------------------------------------------

  lemma RecordKeepsRing(cfg: Config, st: Store, name: SpanName, ms: real, session: Option<SessionId>)
    requires RingIsHistory(cfg, st)
    ensures RingIsHistory(cfg, Record(cfg, st, name, ms, session))
  {
    var next := Record(cfg, st, name, ms, session);
    var longer := st.recent + [Span(name, ms, session)];
    assert |next.recent| == Min(|longer|, cfg.capacity);
    forall i | 0 <= i < |next.recent| ensures Recalls(next, i) {
      RecordRecalls(cfg, st, name, ms, session, i);
    }
  }

  lemma RecordRecalls(cfg: Config, st: Store, name: SpanName, ms: real, session: Option<SessionId>, i: nat)
    requires RingIsHistory(cfg, st)
    requires var next := Record(cfg, st, name, ms, session);
             i < |next.recent| == Min(|st.recent| + 1, cfg.capacity)
    ensures Recalls(Record(cfg, st, name, ms, session), i)
  {
    hide P.Tallied, AggregateIn;
    var next := Record(cfg, st, name, ms, session);
    var longer := st.recent + [Span(name, ms, session)];
    var j := |longer| - |next.recent| + i;
    assert next.recent[i] == longer[j];
    if j < |st.recent| {
      assert Recalls(st, j);
    }
  }

  /** Filing a span that is no turn leg touches neither the table nor the legs. */
  lemma RecordKeeps(cfg: Config, st: Store, name: SpanName, ms: real)
    requires Inv(cfg, st) && !name.Turn?
    ensures Inv(cfg, Record(cfg, st, name, ms, None))
  {
    RecordKeepsRing(cfg, st, name, ms, None);
    forall leg ensures LegsAccounted(Record(cfg, st, name, ms, None), leg) {
      assert LegsAccounted(st, leg);
    }
  }

  /** The legs filed host-wide are those owned up to, and one more of the leg being filed. */
  predicate OneLegShort(st: Store, leg: Leg, l: Leg) {
    HostLegs(st, l) == LiveLegs(st.sessions, l) + Lookup(st.trace.forgottenLegs, l)
                       + Lookup(st.trace.unattributedLegs, l) + if l == leg then 1 else 0
  }

  lemma TallyInKeeps(cfg: Config, st: Store, leg: Leg, ms: real, id: SessionId)
    requires RingIsHistory(cfg, st) && InOrderOfActivity(st) && TableBounded(cfg, st)
    requires Find(st.sessions, id) < |st.sessions|
    requires forall l :: OneLegShort(st, leg, l)
    ensures var next := TallyIn(st, leg, ms, id);
            Inv(cfg, next) && |next.sessions| == |st.sessions|
            && forall id :: Find(next.sessions, id) == Find(st.sessions, id)
  {
    var next := TallyIn(st, leg, ms, id);
    var i := Find(st.sessions, id);
    SameRing(cfg, st, next);
    forall l ensures LegsAccounted(next, l) {
      assert OneLegShort(st, leg, l);
      LiveUpdated(st.sessions, i, next.sessions[i], l);
    }
    forall id ensures Find(next.sessions, id) == Find(st.sessions, id) {
      SameFind(st.sessions, next.sessions, id);
    }
  }

  lemma RecordLeavesShort(cfg: Config, st: Store, leg: Leg, ms: real, session: Option<SessionId>, l: Leg)
    requires LegsAccounted(st, l)
    ensures OneLegShort(Record(cfg, st, Turn(leg), ms, session), leg, l)
  {
  }

  lemma RecordTurnKeeps(cfg: Config, st: Store, leg: Leg, ms: real, session: Option<SessionId>)
    requires Inv(cfg, st)
    requires session.Some? ==> Find(st.sessions, session.value) < |st.sessions|
    ensures var next := RecordTurn(cfg, st, leg, ms, session);
            Inv(cfg, next) && |next.sessions| == |st.sessions|
            && forall id :: Find(next.sessions, id) == Find(st.sessions, id)
  {
    hide TallyIn;
    var recorded := Record(cfg, st, Turn(leg), ms, session);
    RecordKeepsRing(cfg, st, Turn(leg), ms, session);
    forall l
      ensures OneLegShort(recorded, leg, l)
    {
      RecordLeavesShort(cfg, st, leg, ms, session, l);
    }
    match session
    case Some(id) => TallyInKeeps(cfg, recorded, leg, ms, id);
    case None =>
      SameRing(cfg, recorded, CountUnattributed(recorded, leg));
      forall l
        ensures LegsAccounted(CountUnattributed(recorded, leg), l)
      {
        assert OneLegShort(recorded, leg, l);
      }
  }

  lemma {:induction false} SameFind(a: seq<Entry>, b: seq<Entry>, id: SessionId)
    requires |a| == |b| && forall i :: 0 <= i < |a| ==> a[i].sessionId == b[i].sessionId
    ensures Find(a, id) == Find(b, id)
  {
    if a != [] {
      SameFind(a[1..], b[1..], id);
    }
  }

  lemma CountAbandonedKeeps(cfg: Config, st: Store, span: Open)
    requires Inv(cfg, st)
    ensures Inv(cfg, CountAbandoned(st, span))
  {
    SameRing(cfg, st, CountAbandoned(st, span));
    forall leg ensures LegsAccounted(CountAbandoned(st, span), leg) {
      assert LegsAccounted(st, leg);
    }
  }

  lemma AbandonInKeeps(cfg: Config, st: Store, id: SessionId)
    requires Inv(cfg, st)
    ensures Inv(cfg, AbandonIn(st, id))
  {
    var next := AbandonIn(st, id);
    var i := Find(st.sessions, id);
    SameRing(cfg, st, next);
    forall leg ensures LegsAccounted(next, leg) {
      assert LegsAccounted(st, leg);
      if i < |st.sessions| {
        LiveUpdated(st.sessions, i, next.sessions[i], leg);
      }
    }
  }

  lemma AbandonKeeps(cfg: Config, st: Store, span: Open)
    requires Inv(cfg, st)
    ensures Inv(cfg, Abandon(cfg, st, span))
  {
    hide Inv, Touch, AbandonIn;
    var counted := CountAbandoned(st, span);
    CountAbandonedKeeps(cfg, st, span);
    if span.session.Some? && Attributable(cfg, span.session.value) {
      TouchKeeps(cfg, counted, span.session.value);
      AbandonInKeeps(cfg, Touch(cfg, counted, span.session.value), span.session.value);
    }
  }

  lemma SettleKeeps(cfg: Config, st: Store, id: SessionId, span: Open, settledAt: real)
    requires Inv(cfg, st)
    ensures Inv(cfg, Settle(cfg, st, id, span, settledAt))
  {
    hide Inv, Touch, RecordTurn;
    TouchKeeps(cfg, st, id);
    var touched := Touch(cfg, st, id);
    var owner := Owner(cfg, id);
    if span.firstDeltaAt.Some? {
      var at := span.firstDeltaAt.value;
      RecordTurnKeeps(cfg, touched, AcceptedToFirstDelta, at - span.startedAt, owner);
      RecordTurnKeeps(cfg, RecordTurn(cfg, touched, AcceptedToFirstDelta, at - span.startedAt, owner),
                      FirstDeltaToSettled, settledAt - at, owner);
    }
    RecordTurnKeeps(cfg, SettleLegs(cfg, touched, owner, span, settledAt), AcceptedToSettled,
                    settledAt - span.startedAt, owner);
  }

  /** Fields no part of the invariant reads. */
  lemma Unread(cfg: Config, st: Store, next: Store)
    requires Inv(cfg, st)
    requires next.recent == st.recent && next.aggregates == st.aggregates && next.sessions == st.sessions
    requires next.spansRecorded == st.spansRecorded
    requires next.trace == st.trace.(ended := next.trace.ended, deltas := next.trace.deltas)
    ensures Inv(cfg, next)
  {
    SameRing(cfg, st, next);
    forall leg ensures LegsAccounted(next, leg) {
      assert LegsAccounted(st, leg);
    }
  }

  lemma BeginKeeps(cfg: Config, st: Store, key: string, name: SpanName, session: Option<SessionId>)
    requires Inv(cfg, st)
    ensures Inv(cfg, Begin(cfg, st, key, name, session))
  {
    var i := FindOpen(st.open, key);
    if i < |st.open| {
      AbandonKeeps(cfg, st, st.open[i]);
      Unread(cfg, Abandon(cfg, st, st.open[i]), Displace(cfg, st, key));
    }
    var displaced := Displace(cfg, st, key);
    if |displaced.open| >= cfg.maxOpenSpans && displaced.open != [] {
      AbandonKeeps(cfg, displaced, displaced.open[0]);
      Unread(cfg, Abandon(cfg, displaced, displaced.open[0]), EvictOldest(cfg, displaced));
    }
    Unread(cfg, EvictOldest(cfg, displaced), Begin(cfg, st, key, name, session));
  }

  lemma CloseSessionKeeps(cfg: Config, st: Store, id: SessionId)
    requires Inv(cfg, st)
    ensures Inv(cfg, CloseSession(cfg, st, id))
  {
    hide Abandon, Inv, MarkClosed;
    var i := FindOpen(st.open, OpenKey(TurnKind, id));
    if i < |st.open| {
      Unread(cfg, st, CloseOpen(st, i));
      AbandonKeeps(cfg, CloseOpen(st, i), st.open[i]);
    }
    MarkKeeps(cfg, AbandonTurn(cfg, st, id), id);
  }

  lemma MarkKeeps(cfg: Config, st: Store, id: SessionId)
    requires Inv(cfg, st)
    ensures Inv(cfg, MarkClosed(st, id))
  {
    var next := MarkClosed(st, id);
    var j := Find(st.sessions, id);
    SameRing(cfg, st, next);
    hide RingIsHistory;
    forall leg ensures LegsAccounted(next, leg) {
      assert LegsAccounted(st, leg);
      if j < |st.sessions| {
        LiveUpdated(st.sessions, j, next.sessions[j], leg);
      }
    }
  }

  lemma EndKeeps(cfg: Config, st: Store, key: string)
    requires Inv(cfg, st)
    requires FindOpen(st.open, key) < |st.open| ==> !st.open[FindOpen(st.open, key)].name.Turn?
    ensures Inv(cfg, End(cfg, st, key))
  {
    var i := FindOpen(st.open, key);
    if i < |st.open| {
      Unread(cfg, st, TakeOpen(st, i));
      RecordKeeps(cfg, TakeOpen(st, i), st.open[i].name, cfg.clock(st.clockReads) - st.open[i].startedAt);
    }
  }

  // ---- Spans ----------------------------------------------------------------

  lemma TouchLeavesSpans(cfg: Config, st: Store, id: SessionId)
    ensures var next := Touch(cfg, st, id);
            && next.open == st.open && next.began == st.began && next.clockReads == st.clockReads
            && next.spansAbandoned == st.spansAbandoned && next.trace.ended == st.trace.ended
            && next.trace.deltas == st.trace.deltas
  {
  }

  /** An abandonment is counted once, and its span is taken out of the open ones by its caller. */
  lemma AbandonCounts(cfg: Config, st: Store, span: Open)
    ensures var next := Abandon(cfg, st, span);
            && next.open == st.open && next.began == st.began && next.clockReads == st.clockReads
            && next.spansAbandoned == st.spansAbandoned + 1 && next.trace.ended == st.trace.ended
            && next.trace.deltas == st.trace.deltas
  {
    if span.session.Some? && Attributable(cfg, span.session.value) {
      TouchLeavesSpans(cfg, CountAbandoned(st, span), span.session.value);
    }
  }

  lemma RecordLeavesSpans(cfg: Config, st: Store, leg: Leg, ms: real, session: Option<SessionId>)
    ensures var next := RecordTurn(cfg, st, leg, ms, session);
            && next.open == st.open && next.began == st.began && next.clockReads == st.clockReads
            && next.spansAbandoned == st.spansAbandoned && next.trace.ended == st.trace.ended
            && next.trace.deltas == st.trace.deltas
  {
  }

  lemma SettleLeavesSpans(cfg: Config, st: Store, id: SessionId, span: Open, settledAt: real)
    ensures var next := Settle(cfg, st, id, span, settledAt);
            && next.open == st.open && next.began == st.began && next.clockReads == st.clockReads
            && next.spansAbandoned == st.spansAbandoned && next.trace.ended == st.trace.ended
            && next.trace.deltas == st.trace.deltas
  {
    hide Touch, RecordTurn;
    TouchLeavesSpans(cfg, st, id);
    var touched := Touch(cfg, st, id);
    var owner := Owner(cfg, id);
    if span.firstDeltaAt.Some? {
      var at := span.firstDeltaAt.value;
      RecordLeavesSpans(cfg, touched, AcceptedToFirstDelta, at - span.startedAt, owner);
      RecordLeavesSpans(cfg, RecordTurn(cfg, touched, AcceptedToFirstDelta, at - span.startedAt, owner),
                        FirstDeltaToSettled, settledAt - at, owner);
    }
    RecordLeavesSpans(cfg, SettleLegs(cfg, touched, owner, span, settledAt), AcceptedToSettled,
                    settledAt - span.startedAt, owner);
  }

  lemma DisplaceAccounts(cfg: Config, st: Store, key: string)
    requires SpansAccounted(cfg, st)
    ensures var next := Displace(cfg, st, key);
            SpansAccounted(cfg, next) && forall j :: 0 <= j < |next.open| ==> next.open[j].key != key
  {
    hide Abandon;
    var i := FindOpen(st.open, key);
    if i < |st.open| {
      AbandonCounts(cfg, st, st.open[i]);
      RemovedOpen(st.open, i);
    }
  }

  lemma RemovedOpen(open: seq<Open>, i: nat)
    requires i < |open|
    requires forall j, k :: 0 <= j < k < |open| ==> open[j].key != open[k].key
    ensures var rest := RemoveAt(open, i);
            && (forall j :: 0 <= j < |rest| ==> rest[j] in open && rest[j].key != open[i].key)
            && (forall j, k :: 0 <= j < k < |rest| ==> rest[j].key != rest[k].key)
  {
    var rest := RemoveAt(open, i);
    forall j | 0 <= j < |rest| ensures rest[j] == open[if j < i then j else j + 1] {
    }
  }

  lemma EvictAccounts(cfg: Config, st: Store)
    requires SpansAccounted(cfg, st)
    ensures var next := EvictOldest(cfg, st);
            && SpansAccounted(cfg, next)
            && |next.open| < Max(cfg.maxOpenSpans, 1)
            && forall j :: 0 <= j < |next.open| ==> next.open[j] in st.open
  {
    hide Abandon;
    if |st.open| >= cfg.maxOpenSpans && st.open != [] {
      AbandonCounts(cfg, st, st.open[0]);
    }
  }

  lemma BeginAccounts(cfg: Config, st: Store, key: string, name: SpanName, session: Option<SessionId>)
    requires SpansAccounted(cfg, st)
    requires WellNamed(Open(0, key, name, 0.0, None, session))
    ensures SpansAccounted(cfg, Begin(cfg, st, key, name, session))
  {
    hide Displace, EvictOldest;
    DisplaceAccounts(cfg, st, key);
    EvictAccounts(cfg, Displace(cfg, st, key));
  }

  lemma TakeOpenAccounts(cfg: Config, st: Store, i: nat)
    requires SpansAccounted(cfg, st) && i < |st.open|
    ensures SpansAccounted(cfg, TakeOpen(st, i))
  {
  }

  // ---- Runs -----------------------------------------------------------------

  lemma ToolKeysAreNotTurns(kind: Kind, key: string)
    requires kind != TurnKind
    ensures !IsTurnKey(OpenKey(kind, key))
  {
    assert OpenKey(kind, key)[0] == KindName(kind)[0] && OpenKey(kind, key)[1] == KindName(kind)[1];
  }

  lemma StepKeeps(cfg: Config, st: Store, op: Op)
    requires Inv(cfg, st) && SpansAccounted(cfg, st)
    ensures Inv(cfg, Step(cfg, st, op))
  {
    hide RingIsHistory, InOrderOfActivity, LegsAccounted, Touch, Begin, Record, RecordTurn, IsTurnKey;
    match op
    case DoBeginTurn(id) =>
      TouchKeeps(cfg, st, id);
      BeginKeeps(cfg, Touch(cfg, st, id), OpenKey(TurnKind, id), Turn(AcceptedToSettled), Some(id));
    case DoEndTurn(id) =>
      var i := FindOpen(st.open, OpenKey(TurnKind, id));
      if i < |st.open| {
        Unread(cfg, st, TakeOpen(st, i));
        SettleKeeps(cfg, TakeOpen(st, i), id, st.open[i], cfg.clock(st.clockReads));
      }
    case DoCloseSession(id) => CloseSessionKeeps(cfg, st, id);
    case DoBeginTool(key, tool) => BeginKeeps(cfg, st, OpenKey(ToolKind, key), Tool(tool), None);
    case DoEndTool(key) =>
      ToolKeysAreNotTurns(ToolKind, key);
      TurnsKeepTurnKeys(cfg, st, OpenKey(ToolKind, key));
      EndKeeps(cfg, st, OpenKey(ToolKind, key));
    case DoBeginCommand(key) => BeginKeeps(cfg, st, OpenKey(CommandKind, key), Unknown, None);
    case DoNameCommand(key, command) => Unread(cfg, st, NameCommand(st, key, command));
    case DoEndCommand(key) =>
      ToolKeysAreNotTurns(CommandKind, key);
      TurnsKeepTurnKeys(cfg, st, OpenKey(CommandKind, key));
      EndKeeps(cfg, st, OpenKey(CommandKind, key));
    case DoNoteFirstDelta(serial) => Unread(cfg, st, NoteFirstDelta(cfg, st, serial));
  }

  /** A key that is no turn's finds no turn. */
  lemma TurnsKeepTurnKeys(cfg: Config, st: Store, key: string)
    requires SpansAccounted(cfg, st) && !IsTurnKey(key)
    ensures var i := FindOpen(st.open, key);
            i < |st.open| ==> st.open[i].session.None? && !st.open[i].name.Turn?
  {
    var i := FindOpen(st.open, key);
    if i < |st.open| {
      assert WellNamed(st.open[i]);
    }
  }

  lemma EndTurnAccounts(cfg: Config, st: Store, id: SessionId)
    requires SpansAccounted(cfg, st)
    ensures SpansAccounted(cfg, EndTurn(cfg, st, id))
  {
    hide Settle;
    var i := FindOpen(st.open, OpenKey(TurnKind, id));
    if i < |st.open| {
      TakeOpenAccounts(cfg, st, i);
      SettleLeavesSpans(cfg, TakeOpen(st, i), id, st.open[i], cfg.clock(st.clockReads));
    }
  }

  lemma CloseSessionAccounts(cfg: Config, st: Store, id: SessionId)
    requires SpansAccounted(cfg, st)
    ensures SpansAccounted(cfg, CloseSession(cfg, st, id))
  {
    hide Abandon;
    var i := FindOpen(st.open, OpenKey(TurnKind, id));
    if i < |st.open| {
      AbandonCounts(cfg, CloseOpen(st, i), st.open[i]);
      RemovedOpen(st.open, i);
    }
  }

  lemma NameCommandAccounts(cfg: Config, st: Store, key: string, command: nat)
    requires SpansAccounted(cfg, st)
    ensures SpansAccounted(cfg, NameCommand(st, key, command))
  {
    ToolKeysAreNotTurns(CommandKind, key);
    TurnsKeepTurnKeys(cfg, st, OpenKey(CommandKind, key));
  }

  lemma NoteFirstDeltaAccounts(cfg: Config, st: Store, serial: nat)
    requires SpansAccounted(cfg, st)
    ensures SpansAccounted(cfg, NoteFirstDelta(cfg, st, serial))
  {
  }

  lemma BeginTurnAccounts(cfg: Config, st: Store, id: SessionId)
    requires SpansAccounted(cfg, st)
    ensures SpansAccounted(cfg, BeginTurn(cfg, st, id))
  {
    hide Touch, Begin;
    TouchLeavesSpans(cfg, st, id);
    BeginAccounts(cfg, Touch(cfg, st, id), OpenKey(TurnKind, id), Turn(AcceptedToSettled), Some(id));
  }

  lemma StepAccounts(cfg: Config, st: Store, op: Op)
    requires SpansAccounted(cfg, st)
    ensures SpansAccounted(cfg, Step(cfg, st, op))
  {
    hide SpansAccounted, BeginTurn, EndTurn, Begin, End, CloseSession, NameCommand, NoteFirstDelta;
    match op
    case DoBeginTurn(id) => BeginTurnAccounts(cfg, st, id);
    case DoEndTurn(id) => EndTurnAccounts(cfg, st, id);
    case DoCloseSession(id) => CloseSessionAccounts(cfg, st, id);
    case DoBeginTool(key, tool) =>
      ToolKeysAreNotTurns(ToolKind, key);
      BeginAccounts(cfg, st, OpenKey(ToolKind, key), Tool(tool), None);
    case DoEndTool(key) => EndAccounts(cfg, st, OpenKey(ToolKind, key));
    case DoBeginCommand(key) =>
      ToolKeysAreNotTurns(CommandKind, key);
      BeginAccounts(cfg, st, OpenKey(CommandKind, key), Unknown, None);
    case DoNameCommand(key, command) => NameCommandAccounts(cfg, st, key, command);
    case DoEndCommand(key) => EndAccounts(cfg, st, OpenKey(CommandKind, key));
    case DoNoteFirstDelta(serial) => NoteFirstDeltaAccounts(cfg, st, serial);
  }

  lemma EndAccounts(cfg: Config, st: Store, key: string)
    requires SpansAccounted(cfg, st)
    ensures SpansAccounted(cfg, End(cfg, st, key))
  {
    var i := FindOpen(st.open, key);
    if i < |st.open| {
      TakeOpenAccounts(cfg, st, i);
    }
  }

  /** Over every run, whatever the capacities. */
  lemma {:induction false} RunKeeps(cfg: Config, ops: seq<Op>)
    ensures var st := Run(cfg, ops);
            && RingIsHistory(cfg, st)
            && InOrderOfActivity(st)
            && TableBounded(cfg, st)
            && (forall leg :: LegsAccounted(st, leg))
            && SpansAccounted(cfg, st)
    decreases |ops|
  {
    if ops != [] {
      var before := Run(cfg, ops[..|ops| - 1]);
      RunKeeps(cfg, ops[..|ops| - 1]);
      StepKeeps(cfg, before, ops[|ops| - 1]);
      StepAccounts(cfg, before, ops[|ops| - 1]);
    }
  }

  /** Whatever was evicted or reused since, a span in the ring names the session it was recorded against, or none. */
  lemma NoCrossAttribution(cfg: Config, ops: seq<Op>, i: nat)
    requires i < |Run(cfg, ops).recent|
    ensures var st := Run(cfg, ops);
            && |st.recent| <= |st.trace.log|
            && var owner := st.trace.log[|st.trace.log| - |st.recent| + i].session;
               st.recent[i].session.Some? ==> st.recent[i].session == owner
  {
    hide Run, InOrderOfActivity, LegsAccounted, SpansAccounted;
    RunKeeps(cfg, ops);
    assert Recalls(Run(cfg, ops), i);
  }

  // ---- Turns ----------------------------------------------------------------

  function NoteMany(cfg: Config, st: Store, serial: nat, times: nat): Store {
    if times == 0 then st else NoteFirstDelta(cfg, NoteMany(cfg, st, serial, times - 1), serial)
  }

  lemma NoteFinds(open: seq<Open>, i: nat, span: Open, serial: nat)
    requires i < |open| && i == FindSerial(open, serial) && span.serial == open[i].serial
    ensures FindSerial(open[i := span], serial) == i
  {
    var updated := open[i := span];
    assert updated[i].serial == serial;
    forall j | 0 <= j < i ensures updated[j].serial != serial {
      assert updated[j] == open[j];
    }
  }

  /** However many deltas a turn streams, the first is the only one that reads the clock. */
  lemma {:induction false} DeltasReadOnce(cfg: Config, st: Store, serial: nat, times: nat)
    requires times > 0
    ensures NoteMany(cfg, st, serial, times) == NoteFirstDelta(cfg, st, serial)
    ensures NoteMany(cfg, st, serial, times).clockReads <= st.clockReads + 1
  {
    if times > 1 {
      DeltasReadOnce(cfg, st, serial, times - 1);
      var once := NoteFirstDelta(cfg, st, serial);
      var i := FindSerial(st.open, serial);
      if i < |st.open| && st.open[i].firstDeltaAt.None? {
        NoteFinds(st.open, i, once.open[i], serial);
      }
    } else {
      assert NoteMany(cfg, st, serial, 0) == st;
    }
  }

  /** Settling a turn that streamed reads the clock once and files two legs and the total they sum to. */
  lemma LegsSumToTotal(cfg: Config, st: Store, id: SessionId)
    requires FindOpen(st.open, OpenKey(TurnKind, id)) < |st.open|
    requires st.open[FindOpen(st.open, OpenKey(TurnKind, id))].firstDeltaAt.Some?
    ensures var next := EndTurn(cfg, st, id);
            var n := |st.trace.log|;
            && next.clockReads == st.clockReads + 1
            && |next.trace.log| == n + 3 && next.trace.log[..n] == st.trace.log
            && next.trace.log[n].name == Turn(AcceptedToFirstDelta)
            && next.trace.log[n + 1].name == Turn(FirstDeltaToSettled)
            && next.trace.log[n + 2].name == Turn(AcceptedToSettled)
            && next.trace.log[n].ms + next.trace.log[n + 1].ms == next.trace.log[n + 2].ms
            && forall i :: n <= i < n + 3 ==> next.trace.log[i].session == Owner(cfg, id)
  {
    hide Touch, RecordTurn;
    var i := FindOpen(st.open, OpenKey(TurnKind, id));
    var taken := TakeOpen(st, i);
    var span, settledAt, owner := st.open[i], cfg.clock(st.clockReads), Owner(cfg, id);
    SettleLeavesSpans(cfg, taken, id, span, settledAt);
    TouchLeavesLog(cfg, taken, id);
    var touched := Touch(cfg, taken, id);
    RecordLogs(cfg, touched, AcceptedToFirstDelta, span.firstDeltaAt.value - span.startedAt, owner);
    var one := RecordTurn(cfg, touched, AcceptedToFirstDelta, span.firstDeltaAt.value - span.startedAt, owner);
    RecordLogs(cfg, one, FirstDeltaToSettled, settledAt - span.firstDeltaAt.value, owner);
    var two := RecordTurn(cfg, one, FirstDeltaToSettled, settledAt - span.firstDeltaAt.value, owner);
    RecordLogs(cfg, two, AcceptedToSettled, settledAt - span.startedAt, owner);
  }

  lemma RecordLogs(cfg: Config, st: Store, leg: Leg, ms: real, session: Option<SessionId>)
    ensures RecordTurn(cfg, st, leg, ms, session).trace.log == st.trace.log + [Span(Turn(leg), ms, session)]
  {
  }

  lemma TouchLeavesLog(cfg: Config, st: Store, id: SessionId)
    ensures Touch(cfg, st, id).trace.log == st.trace.log
  {
  }
}
