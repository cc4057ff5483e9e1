/**
 * What is counted. Over every run the aggregate of a name is the aggregate of exactly the durations
 * recorded under it, with one abandonment for each span of that name given up; and a tracked
 * session's aggregates are those of its own turns since it was last forgotten.
 */
module TimingTallies {
  import opened Sequences
  import opened Wrappers
  import opened TimingSpec
  import opened TimingRuns
  import P = Percentiles

  // ---- What there is to count ---------------------------------------------------------------

  /** The durations recorded under one name and, when one is given, for one session. */
  function Durations(log: seq<Span>, name: SpanName, session: Option<SessionId>): seq<real> {
    if log == [] then []
    else
      var span := log[|log| - 1];
      var before := Durations(log[..|log| - 1], name, session);
      if span.name == name && (session.Some? ==> span.session == session) then before + [span.ms] else before
  }

  /** How many of the spans given up had one name and, when one is given, were one session's. */
  function GivenUp(spans: seq<Open>, name: SpanName, session: Option<SessionId>): nat {
    if spans == [] then 0
    else
      var span := spans[|spans| - 1];
      GivenUp(spans[..|spans| - 1], name, session)
      + if span.name == name && (session.Some? ==> span.session == session) then 1 else 0
  }

  function Counted(log: seq<Span>, spans: seq<Open>, name: SpanName, session: Option<SessionId>): P.Aggregate {
    P.After(Durations(log, name, session)).(abandoned := GivenUp(spans, name, session))
  }

  function Since(m: map<SessionId, nat>, id: SessionId, length: nat): (n: nat)
    ensures n <= length
  {
    Min(Lookup(m, id), length)
  }

  /** What a session is to be credited with: its own since it was last forgotten. */
  function Expected(st: Store, id: SessionId, leg: Leg): P.Aggregate {
    Counted(st.trace.log[Since(st.trace.forgotAt, id, |st.trace.log|)..],
            st.trace.abandoned[Since(st.trace.abandonedBefore, id, |st.trace.abandoned|)..], Turn(leg), Some(id))
  }

  /** What a session's entry holds; one that is not tracked holds nothing. */
  function CreditIn(sessions: seq<Entry>, id: SessionId, leg: Leg): P.Aggregate {
    var i := Find(sessions, id);
    if i < |sessions| then AggregateIn(sessions[i].turns, leg) else P.NewAggregate()
  }

  predicate HostCounts(st: Store, name: SpanName) {
    AggregateIn(st.aggregates, name) == Counted(st.trace.log, st.trace.abandoned, name, None)
  }

  /** A session's credit is what it is to be credited with, but for one turn given up and `owing`. */
  predicate SessionCounts(cfg: Config, st: Store, owing: Option<SessionId>, id: SessionId, leg: Leg) {
    Attributable(cfg, id) ==>
      var credit := CreditIn(st.sessions, id, leg);
      Expected(st, id, leg) ==
      credit.(abandoned := credit.abandoned + if owing == Some(id) && leg.AcceptedToSettled? then 1 else 0)
  }

  predicate SinceSound(st: Store) {
    && (forall id :: id in st.trace.forgotAt ==> st.trace.forgotAt[id] <= |st.trace.log|)
    && (forall id :: id in st.trace.abandonedBefore ==> st.trace.abandonedBefore[id] <= |st.trace.abandoned|)
    && st.spansAbandoned == |st.trace.abandoned|
  }

  predicate DistinctIds(sessions: seq<Entry>) {
    forall i, j :: 0 <= i < j < |sessions| ==> sessions[i].sessionId != sessions[j].sessionId
  }

  ghost predicate Tallied(cfg: Config, st: Store, owing: Option<SessionId>) {
    && (forall name :: HostCounts(st, name))
    && (forall id, leg :: SessionCounts(cfg, st, owing, id, leg))
    && SinceSound(st) && DistinctIds(st.sessions)
  }

  // ---- The table ------------------------------------------------------------------------------

  lemma FoundAt(sessions: seq<Entry>, i: nat)
    requires DistinctIds(sessions) && i < |sessions|
    ensures Find(sessions, sessions[i].sessionId) == i
  {
  }

  lemma RemovedStay(sessions: seq<Entry>, i: nat)
    requires DistinctIds(sessions) && i < |sessions|
    ensures var rest := RemoveAt(sessions, i);
            && DistinctIds(rest)
            && forall k :: 0 <= k < |rest| ==> rest[k] == sessions[if k < i then k else k + 1]
  {
  }

  lemma CreditRemoved(sessions: seq<Entry>, i: nat, id: SessionId, leg: Leg)
    requires DistinctIds(sessions) && i < |sessions|
    ensures DistinctIds(RemoveAt(sessions, i))
    ensures CreditIn(RemoveAt(sessions, i), id, leg) ==
            if sessions[i].sessionId == id then P.NewAggregate() else CreditIn(sessions, id, leg)
    ensures sessions[i].sessionId == id ==> Find(RemoveAt(sessions, i), id) == |sessions| - 1
  {
    RemovedStay(sessions, i);
    FoundAt(sessions, i);
    hide DistinctIds, RemoveAt;
    var rest := RemoveAt(sessions, i);
    var j := Find(sessions, id);
    if j < |sessions| && j != i {
      var k := if j < i then j else j - 1;
      assert rest[k] == sessions[j];
      FoundAt(rest, k);
    }
  }

  lemma AppendedStay(sessions: seq<Entry>, entry: Entry)
    requires DistinctIds(sessions) && Find(sessions, entry.sessionId) == |sessions|
    ensures DistinctIds(sessions + [entry])
  {
  }

  lemma CreditAppended(sessions: seq<Entry>, entry: Entry, id: SessionId, leg: Leg)
    requires DistinctIds(sessions) && Find(sessions, entry.sessionId) == |sessions|
    ensures DistinctIds(sessions + [entry])
    ensures CreditIn(sessions + [entry], id, leg) ==
            if entry.sessionId == id then AggregateIn(entry.turns, leg) else CreditIn(sessions, id, leg)
  {
    AppendedStay(sessions, entry);
    hide DistinctIds;
    var more := sessions + [entry];
    FoundAt(more, |sessions|);
    var j := Find(sessions, id);
    if j < |sessions| {
      FoundAt(more, j);
    }
  }

  lemma CreditUpdated(sessions: seq<Entry>, i: nat, entry: Entry, id: SessionId, leg: Leg)
    requires DistinctIds(sessions) && i < |sessions| && entry.sessionId == sessions[i].sessionId
    ensures DistinctIds(sessions[i := entry])
    ensures CreditIn(sessions[i := entry], id, leg) ==
            if entry.sessionId == id then AggregateIn(entry.turns, leg) else CreditIn(sessions, id, leg)
  {
    var updated := sessions[i := entry];
    assert forall k :: 0 <= k < |sessions| && k != i ==> updated[k] == sessions[k];
    assert updated[i] == entry;
  }

  /** What is counted does not read the open spans, the clock or the closed marks. */
  lemma Unmoved(cfg: Config, st: Store, next: Store, owing: Option<SessionId>)
    requires Tallied(cfg, st, owing)
    requires next.aggregates == st.aggregates && next.spansAbandoned == st.spansAbandoned
    requires next.trace.log == st.trace.log && next.trace.abandoned == st.trace.abandoned
    requires next.trace.forgotAt == st.trace.forgotAt && next.trace.abandonedBefore == st.trace.abandonedBefore
    requires DistinctIds(next.sessions)
    requires forall id, leg :: CreditIn(next.sessions, id, leg) == CreditIn(st.sessions, id, leg)
    ensures Tallied(cfg, next, owing)
  {
    hide CreditIn, Counted, DistinctIds;
    forall name
      ensures HostCounts(next, name)
    {
      assert HostCounts(st, name);
    }
    forall id, leg
      ensures SessionCounts(cfg, next, owing, id, leg)
    {
      assert SessionCounts(cfg, st, owing, id, leg);
    }
  }

  lemma MoveCounts(cfg: Config, st: Store, i: nat, owing: Option<SessionId>)
    requires Tallied(cfg, st, owing) && i < |st.sessions|
    ensures Tallied(cfg, MoveToBack(st, i), owing)
  {
    var rest, entry := RemoveAt(st.sessions, i), st.sessions[i].(closed := false);
    forall id, leg
      ensures DistinctIds(rest + [entry])
      ensures CreditIn(rest + [entry], id, leg) == CreditIn(st.sessions, id, leg)
    {
      CreditRemoved(st.sessions, i, entry.sessionId, leg);
      CreditRemoved(st.sessions, i, id, leg);
      CreditAppended(rest, entry, id, leg);
      CreditAt(st.sessions, i, leg);
    }
    hide Tallied;
    Unmoved(cfg, st, MoveToBack(st, i), owing);
  }

  lemma CreditAt(sessions: seq<Entry>, i: nat, leg: Leg)
    requires DistinctIds(sessions) && i < |sessions|
    ensures Find(sessions, sessions[i].sessionId) == i
    ensures CreditIn(sessions, sessions[i].sessionId, leg) == AggregateIn(sessions[i].turns, leg)
  {
  }

  lemma NothingCounted(name: SpanName, id: SessionId)
    ensures Counted([], [], name, Some(id)) == P.NewAggregate()
  {
  }

  /** A session that is forgotten is owed nothing any more. */
  lemma ForgetCounts(cfg: Config, st: Store, owing: Option<SessionId>)
    requires Tallied(cfg, st, owing) && st.sessions != []
    requires owing.Some? ==> st.sessions[Victim(st.sessions)].sessionId != owing.value
    ensures Tallied(cfg, Forget(st), owing)
  {
    hide Counted, EraseSession, AddLegs, CreditIn, Victim;
    var next, i := Forget(st), Victim(st.sessions);
    var gone := st.sessions[i].sessionId;
    forall name
      ensures HostCounts(next, name)
    {
      assert HostCounts(st, name);
    }
    forall id, leg
      ensures DistinctIds(next.sessions) && SessionCounts(cfg, next, owing, id, leg)
    {
      assert SessionCounts(cfg, st, owing, id, leg);
      CreditRemoved(st.sessions, i, id, leg);
      if id == gone {
        assert next.trace.log[|next.trace.log|..] == [] && next.trace.abandoned[|next.trace.abandoned|..] == [];
        NothingCounted(Turn(leg), id);
      }
    }
    CreditRemoved(st.sessions, i, gone, AcceptedToSettled);
  }

  lemma AdmitCounts(cfg: Config, st: Store, id: SessionId, owing: Option<SessionId>)
    requires Tallied(cfg, st, owing) && Find(st.sessions, id) == |st.sessions|
    ensures Tallied(cfg, Admit(st, id), owing)
  {
    var entry := Entry(id, false, map[]);
    forall other, leg
      ensures DistinctIds(st.sessions + [entry])
      ensures CreditIn(st.sessions + [entry], other, leg) == CreditIn(st.sessions, other, leg)
    {
      CreditAppended(st.sessions, entry, other, leg);
    }
    CreditAppended(st.sessions, entry, id, AcceptedToSettled);
    hide Tallied;
    Unmoved(cfg, st, Admit(st, id), owing);
  }

  /** Only the session that is touched may be owing. */
  lemma TouchCounts(cfg: Config, st: Store, id: SessionId, owing: Option<SessionId>)
    requires Tallied(cfg, st, owing) && (owing.Some? ==> owing.value == id)
    ensures Tallied(cfg, Touch(cfg, st, id), owing)
    ensures Attributable(cfg, id) ==> Find(Touch(cfg, st, id).sessions, id) < |Touch(cfg, st, id).sessions|
  {
    if Attributable(cfg, id) {
      hide Tallied, Forget, CreditIn;
      var active := NoteActive(st, id);
      ActiveCounts(cfg, st, id, owing);
      var i := Find(active.sessions, id);
      var next := Touch(cfg, st, id);
      if i < |active.sessions| {
        MoveCounts(cfg, active, i, owing);
      } else {
        if |active.sessions| >= cfg.maxTrackedSessions && active.sessions != [] {
          ForgetCounts(cfg, active, owing);
          StillAbsent(active, id);
        }
        AdmitCounts(cfg, MakeRoom(cfg, active), id, owing);
      }
      assert next.sessions[|next.sessions| - 1].sessionId == id;
    }
  }

  lemma ActiveCounts(cfg: Config, st: Store, id: SessionId, owing: Option<SessionId>)
    requires Tallied(cfg, st, owing)
    ensures Tallied(cfg, NoteActive(st, id), owing)
  {
    hide CreditIn, DistinctIds;
    DistinctStay(cfg, st, owing);
    Unmoved(cfg, st, NoteActive(st, id), owing);
  }

  lemma DistinctStay(cfg: Config, st: Store, owing: Option<SessionId>)
    requires Tallied(cfg, st, owing)
    ensures DistinctIds(st.sessions)
  {
  }

  lemma StillAbsent(st: Store, id: SessionId)
    requires st.sessions != [] && Find(st.sessions, id) == |st.sessions|
    ensures Find(Forget(st).sessions, id) == |Forget(st).sessions|
  {
    hide EraseSession, AddLegs;
    var i, rest := Victim(st.sessions), Forget(st).sessions;
    assert forall k :: 0 <= k < |rest| ==> rest[k] == st.sessions[if k < i then k else k + 1];
  }

  // ---- Recording --------------------------------------------------------------------------------

  lemma AfterOneMore(durations: seq<real>, ms: real)
    ensures P.After(durations + [ms]) == P.Tallied(P.After(durations), ms)
  {
    hide P.Tallied;
    assert (durations + [ms])[..|durations|] == durations;
  }

  lemma TalliedBeside(aggregate: Tally, ms: real, n: nat)
    ensures P.Tallied(aggregate, ms).(abandoned := n) == P.Tallied(aggregate.(abandoned := n), ms)
  {
  }

  lemma OneRecorded(log: seq<Span>, spans: seq<Open>, span: Span, name: SpanName, session: Option<SessionId>)
    ensures Counted(log + [span], spans, name, session) ==
            if span.name == name && (session.Some? ==> span.session == session)
            then P.Tallied(Counted(log, spans, name, session), span.ms) else Counted(log, spans, name, session)
  {
    hide P.Tallied, P.After;
    assert (log + [span])[..|log|] == log;
    var before := Durations(log, name, session);
    AfterOneMore(before, span.ms);
    TalliedBeside(P.After(before), span.ms, GivenUp(spans, name, session));
  }

  lemma OneGivenUp(log: seq<Span>, spans: seq<Open>, span: Open, name: SpanName, session: Option<SessionId>)
    ensures var before := Counted(log, spans, name, session);
            Counted(log, spans + [span], name, session) ==
            before.(abandoned := before.abandoned
                                 + if span.name == name && (session.Some? ==> span.session == session) then 1 else 0)
  {
    assert (spans + [span])[..|spans|] == spans;
  }

  lemma SinceGrows<T>(items: seq<T>, item: T, n: nat)
    requires n <= |items|
    ensures (items + [item])[n..] == items[n..] + [item]
  {
  }

  lemma RecordHostCounts(cfg: Config, st: Store, name: SpanName, ms: real, session: Option<SessionId>, other: SpanName)
    requires HostCounts(st, other)
    ensures HostCounts(Record(cfg, st, name, ms, session), other)
  {
    hide Counted;
    OneRecorded(st.trace.log, st.trace.abandoned, Span(name, ms, session), other, None);
  }

  lemma RecordExpects(cfg: Config, st: Store, name: SpanName, ms: real, session: Option<SessionId>,
                      id: SessionId, leg: Leg)
    requires SinceSound(st)
    ensures Expected(Record(cfg, st, name, ms, session), id, leg) ==
            if name == Turn(leg) && session == Some(id) then P.Tallied(Expected(st, id, leg), ms)
            else Expected(st, id, leg)
    ensures SinceSound(Record(cfg, st, name, ms, session))
  {
    hide Counted, Last;
    var n := Since(st.trace.forgotAt, id, |st.trace.log|);
    SinceGrows(st.trace.log, Span(name, ms, session), n);
    OneRecorded(st.trace.log[n..], st.trace.abandoned[Since(st.trace.abandonedBefore, id, |st.trace.abandoned|)..],
                Span(name, ms, session), Turn(leg), Some(id));
  }

  /** A span filed against no session. */
  lemma RecordCounts(cfg: Config, st: Store, name: SpanName, ms: real)
    requires Tallied(cfg, st, None)
    ensures Tallied(cfg, Record(cfg, st, name, ms, None), None)
  {
    hide HostCounts, Expected, CreditIn;
    var next := Record(cfg, st, name, ms, None);
    forall other
      ensures HostCounts(next, other)
    {
      RecordHostCounts(cfg, st, name, ms, None, other);
    }
    forall id, leg
      ensures SinceSound(next) && SessionCounts(cfg, next, None, id, leg)
    {
      assert SessionCounts(cfg, st, None, id, leg);
      RecordExpects(cfg, st, name, ms, None, id, leg);
    }
    RecordExpects(cfg, st, name, ms, None, "", AcceptedToSettled);
  }

  lemma RecordTurnCounts(cfg: Config, st: Store, leg: Leg, ms: real, session: Option<SessionId>)
    requires Tallied(cfg, st, None)
    requires session.Some? ==> Find(st.sessions, session.value) < |st.sessions|
    ensures var next := RecordTurn(cfg, st, leg, ms, session);
            Tallied(cfg, next, None)
            && (session.Some? ==> Find(next.sessions, session.value) < |next.sessions|)
  {
    match session
    case None =>
      RecordCounts(cfg, st, Turn(leg), ms);
      hide Tallied, CreditIn, Record;
      var recorded := Record(cfg, st, Turn(leg), ms, None);
      DistinctStay(cfg, recorded, None);
      Unmoved(cfg, recorded, CountUnattributed(recorded, leg), None);
    case Some(id) => RecordForCounts(cfg, st, leg, ms, id);
  }

  lemma RecordForCounts(cfg: Config, st: Store, leg: Leg, ms: real, id: SessionId)
    requires Tallied(cfg, st, None) && Find(st.sessions, id) < |st.sessions|
    ensures var next := RecordTurn(cfg, st, leg, ms, Some(id));
            Tallied(cfg, next, None) && Find(next.sessions, id) < |next.sessions|
  {
    hide HostCounts, Expected, CreditIn, Last, SinceSound, DistinctIds;
    var recorded, next := Record(cfg, st, Turn(leg), ms, Some(id)), RecordTurn(cfg, st, leg, ms, Some(id));
    var i := Find(st.sessions, id);
    var entry := next.sessions[i];
    forall name
      ensures HostCounts(next, name)
    {
      RecordHostCounts(cfg, st, Turn(leg), ms, Some(id), name);
      SameHostCounts(recorded, next, name);
    }
    forall other, l
      ensures SinceSound(next) && DistinctIds(next.sessions) && SessionCounts(cfg, next, None, other, l)
    {
      assert SessionCounts(cfg, st, None, other, l);
      RecordExpects(cfg, st, Turn(leg), ms, Some(id), other, l);
      SameExpects(recorded, next, other, l);
      CreditUpdated(st.sessions, i, entry, other, l);
      CreditAt(st.sessions, i, l);
      TalliedIn(st.sessions[i].turns, leg, ms, l);
    }
    RecordExpects(cfg, st, Turn(leg), ms, Some(id), id, leg);
    SameExpects(recorded, next, id, leg);
    CreditUpdated(st.sessions, i, entry, id, leg);
    CreditAt(next.sessions, i, leg);
  }

  lemma TalliedIn(turns: map<Leg, Tally>, leg: Leg, ms: real, l: Leg)
    ensures AggregateIn(turns[leg := P.Tallied(AggregateIn(turns, leg), ms)], l) ==
            if l == leg then P.Tallied(AggregateIn(turns, leg), ms) else AggregateIn(turns, l)
  {
  }

  lemma SameHostCounts(st: Store, next: Store, name: SpanName)
    requires HostCounts(st, name) && next.aggregates == st.aggregates
    requires next.trace.log == st.trace.log && next.trace.abandoned == st.trace.abandoned
    ensures HostCounts(next, name)
  {
  }

  lemma SameExpects(st: Store, next: Store, id: SessionId, leg: Leg)
    requires next.trace.log == st.trace.log && next.trace.abandoned == st.trace.abandoned
    requires next.trace.forgotAt == st.trace.forgotAt && next.trace.abandonedBefore == st.trace.abandonedBefore
    requires next.spansAbandoned == st.spansAbandoned
    ensures Expected(next, id, leg) == Expected(st, id, leg) && SinceSound(next) == SinceSound(st)
  {
  }

  // ---- Giving up ------------------------------------------------------------------------------------

  /** The abandonment is counted, and the span's session is owing until it is credited. */
  lemma CountAbandonedCounts(cfg: Config, st: Store, span: Open)
    requires Tallied(cfg, st, None)
    requires span.session.Some? ==> span.name == Turn(AcceptedToSettled)
    ensures Tallied(cfg, CountAbandoned(st, span), span.session)
  {
    hide Counted, CreditIn;
    var next := CountAbandoned(st, span);
    forall name
      ensures HostCounts(next, name)
    {
      assert HostCounts(st, name);
      OneGivenUp(st.trace.log, st.trace.abandoned, span, name, None);
    }
    forall id, leg
      ensures SessionCounts(cfg, next, span.session, id, leg)
    {
      assert SessionCounts(cfg, st, None, id, leg);
      var n := Since(st.trace.abandonedBefore, id, |st.trace.abandoned|);
      SinceGrows(st.trace.abandoned, span, n);
      OneGivenUp(st.trace.log[Since(st.trace.forgotAt, id, |st.trace.log|)..], st.trace.abandoned[n..], span,
                 Turn(leg), Some(id));
    }
  }

  lemma NobodyOwes(cfg: Config, st: Store, owing: Option<SessionId>)
    requires Tallied(cfg, st, owing) && (owing.Some? ==> !Attributable(cfg, owing.value))
    ensures Tallied(cfg, st, None)
  {
    hide CreditIn, Expected;
    forall id, leg
      ensures SessionCounts(cfg, st, None, id, leg)
    {
      assert SessionCounts(cfg, st, owing, id, leg);
    }
  }

  lemma AbandonInCounts(cfg: Config, st: Store, id: SessionId)
    requires Tallied(cfg, st, Some(id)) && Attributable(cfg, id) && Find(st.sessions, id) < |st.sessions|
    ensures Tallied(cfg, AbandonIn(st, id), None)
  {
    hide CreditIn, Expected, HostCounts, SinceSound, DistinctIds;
    var i, next := Find(st.sessions, id), AbandonIn(st, id);
    forall name
      ensures HostCounts(next, name)
    {
      assert HostCounts(st, name);
      SameHostCounts(st, next, name);
    }
    forall other, leg
      ensures DistinctIds(next.sessions) && SinceSound(next) && SessionCounts(cfg, next, None, other, leg)
    {
      assert SessionCounts(cfg, st, Some(id), other, leg);
      SameExpects(st, next, other, leg);
      CreditUpdated(st.sessions, i, next.sessions[i], other, leg);
      CreditAt(st.sessions, i, leg);
    }
    SameExpects(st, next, id, AcceptedToSettled);
    CreditUpdated(st.sessions, i, next.sessions[i], id, AcceptedToSettled);
  }

  lemma AbandonCountsAll(cfg: Config, st: Store, span: Open)
    requires Tallied(cfg, st, None)
    requires span.session.Some? ==> span.name == Turn(AcceptedToSettled)
    ensures Tallied(cfg, Abandon(cfg, st, span), None)
  {
    hide Tallied, Touch, AbandonIn, CountAbandoned;
    var counted := CountAbandoned(st, span);
    CountAbandonedCounts(cfg, st, span);
    if span.session.Some? && Attributable(cfg, span.session.value) {
      TouchCounts(cfg, counted, span.session.value, span.session);
      AbandonInCounts(cfg, Touch(cfg, counted, span.session.value), span.session.value);
    } else {
      NobodyOwes(cfg, counted, span.session);
    }
  }

  // ---- Operations -----------------------------------------------------------------------------------

  /** What is counted reads none of the open spans, the clock and the serials. */
  lemma Uncounted(cfg: Config, st: Store, next: Store)
    requires Tallied(cfg, st, None)
    requires next.aggregates == st.aggregates && next.spansAbandoned == st.spansAbandoned
    requires next.sessions == st.sessions
    requires next.trace == st.trace.(ended := next.trace.ended, deltas := next.trace.deltas)
    ensures Tallied(cfg, next, None)
  {
    hide CreditIn, DistinctIds;
    DistinctStay(cfg, st, None);
    Unmoved(cfg, st, next, None);
  }

  lemma BeginCountsAll(cfg: Config, st: Store, key: string, name: SpanName, session: Option<SessionId>)
    requires Tallied(cfg, st, None)
    requires forall i :: 0 <= i < |st.open| ==> WellNamed(st.open[i])
    ensures Tallied(cfg, Begin(cfg, st, key, name, session), None)
  {
    hide Tallied, Abandon;
    var i := FindOpen(st.open, key);
    var displaced := Displace(cfg, st, key);
    if i < |st.open| {
      AbandonCountsAll(cfg, st, st.open[i]);
      AbandonCounts(cfg, st, st.open[i]);
      Uncounted(cfg, Abandon(cfg, st, st.open[i]), displaced);
    }
    var ready := EvictOldest(cfg, displaced);
    if |displaced.open| >= cfg.maxOpenSpans && displaced.open != [] {
      assert displaced.open[0] in st.open;
      AbandonCountsAll(cfg, displaced, displaced.open[0]);
      Uncounted(cfg, Abandon(cfg, displaced, displaced.open[0]), ready);
    }
    Uncounted(cfg, ready, Begin(cfg, st, key, name, session));
  }

  lemma SettleCounts(cfg: Config, st: Store, id: SessionId, span: Open, settled: real)
    requires Tallied(cfg, st, None)
    ensures Tallied(cfg, Settle(cfg, st, id, span, settled), None)
  {
    hide Tallied, Touch, RecordTurn;
    TouchCounts(cfg, st, id, None);
    var touched, owner := Touch(cfg, st, id), Owner(cfg, id);
    if span.firstDeltaAt.Some? {
      var first, second := span.firstDeltaAt.value - span.startedAt, settled - span.firstDeltaAt.value;
      RecordTurnCounts(cfg, touched, AcceptedToFirstDelta, first, owner);
      RecordTurnCounts(cfg, RecordTurn(cfg, touched, AcceptedToFirstDelta, first, owner),
                       FirstDeltaToSettled, second, owner);
    }
    RecordTurnCounts(cfg, SettleLegs(cfg, touched, owner, span, settled), AcceptedToSettled,
                     settled - span.startedAt, owner);
  }

  lemma CloseCounts(cfg: Config, st: Store, id: SessionId)
    requires Tallied(cfg, st, None)
    requires forall i :: 0 <= i < |st.open| ==> WellNamed(st.open[i])
    ensures Tallied(cfg, CloseSession(cfg, st, id), None)
  {
    hide Tallied, Abandon;
    var i, settled := FindOpen(st.open, OpenKey(TurnKind, id)), AbandonTurn(cfg, st, id);
    if i < |st.open| {
      Uncounted(cfg, st, CloseOpen(st, i));
      AbandonCountsAll(cfg, CloseOpen(st, i), st.open[i]);
    }
    MarkCounts(cfg, settled, id);
  }

  lemma MarkCounts(cfg: Config, st: Store, id: SessionId)
    requires Tallied(cfg, st, None)
    ensures Tallied(cfg, MarkClosed(st, id), None)
  {
    var j := Find(st.sessions, id);
    if j < |st.sessions| {
      var next := MarkClosed(st, id);
      forall other, leg
        ensures DistinctIds(next.sessions)
        ensures CreditIn(next.sessions, other, leg) == CreditIn(st.sessions, other, leg)
      {
        CreditUpdated(st.sessions, j, next.sessions[j], other, leg);
        CreditAt(st.sessions, j, leg);
      }
      CreditUpdated(st.sessions, j, next.sessions[j], id, AcceptedToSettled);
      hide Tallied, CreditIn;
      Unmoved(cfg, st, next, None);
    }
  }

  lemma StepCounts(cfg: Config, st: Store, op: Op)
    requires Tallied(cfg, st, None)
    requires forall i :: 0 <= i < |st.open| ==> WellNamed(st.open[i])
    ensures Tallied(cfg, Step(cfg, st, op), None)
  {
    hide Tallied, Touch, Begin, Settle, Record, CloseSession, WellNamed;
    match op
    case DoBeginTurn(id) =>
      TouchCounts(cfg, st, id, None);
      TouchLeavesSpans(cfg, st, id);
      BeginCountsAll(cfg, Touch(cfg, st, id), OpenKey(TurnKind, id), Turn(AcceptedToSettled), Some(id));
    case DoEndTurn(id) =>
      var i := FindOpen(st.open, OpenKey(TurnKind, id));
      if i < |st.open| {
        Uncounted(cfg, st, TakeOpen(st, i));
        SettleCounts(cfg, TakeOpen(st, i), id, st.open[i], cfg.clock(st.clockReads));
      }
    case DoCloseSession(id) => CloseCounts(cfg, st, id);
    case DoBeginTool(key, tool) => BeginCountsAll(cfg, st, OpenKey(ToolKind, key), Tool(tool), None);
    case DoBeginCommand(key) => BeginCountsAll(cfg, st, OpenKey(CommandKind, key), Unknown, None);
    case DoEndTool(key) => EndCounts(cfg, st, OpenKey(ToolKind, key));
    case DoEndCommand(key) => EndCounts(cfg, st, OpenKey(CommandKind, key));
    case DoNameCommand(key, command) => Uncounted(cfg, st, NameCommand(st, key, command));
    case DoNoteFirstDelta(serial) => Uncounted(cfg, st, NoteFirstDelta(cfg, st, serial));
  }

  lemma EndCounts(cfg: Config, st: Store, key: string)
    requires Tallied(cfg, st, None)
    ensures Tallied(cfg, End(cfg, st, key), None)
  {
    hide Tallied, Record;
    var i := FindOpen(st.open, key);
    if i < |st.open| {
      Uncounted(cfg, st, TakeOpen(st, i));
      RecordCounts(cfg, TakeOpen(st, i), st.open[i].name, cfg.clock(st.clockReads) - st.open[i].startedAt);
    }
  }

  lemma StartCounts(cfg: Config)
    ensures Tallied(cfg, INITIAL, None)
  {
    forall id, leg
      ensures SessionCounts(cfg, INITIAL, None, id, leg)
    {
      NothingCounted(Turn(leg), id);
    }
  }

  lemma {:induction false} RunCounts(cfg: Config, ops: seq<Op>)
    ensures Tallied(cfg, Run(cfg, ops), None)
    decreases |ops|
  {
    hide Tallied, Step;
    if ops == [] {
      StartCounts(cfg);
    } else {
      var n := |ops| - 1;
      RunCounts(cfg, ops[..n]);
      RunKeeps(cfg, ops[..n]);
      StepCounts(cfg, Run(cfg, ops[..n]), ops[n]);
    }
  }

  /**
   * Over every run each name's aggregate is exactly that of the durations recorded under it and the
   * spans of it given up, and each tracked session's is that of its own since it was last forgotten.
   */
  lemma AggregatesAreExact(cfg: Config, ops: seq<Op>, name: SpanName, i: nat, leg: Leg)
    ensures var st := Run(cfg, ops);
            && AggregateIn(st.aggregates, name) == Counted(st.trace.log, st.trace.abandoned, name, None)
            && st.spansAbandoned == |st.trace.abandoned|
            && (i < |st.sessions| && Attributable(cfg, st.sessions[i].sessionId) ==>
                  AggregateIn(st.sessions[i].turns, leg) == Expected(st, st.sessions[i].sessionId, leg))
  {
    var st := Run(cfg, ops);
    RunCounts(cfg, ops);
    hide Run, Counted, Expected;
    assert HostCounts(st, name);
    if i < |st.sessions| {
      assert SessionCounts(cfg, st, None, st.sessions[i].sessionId, leg);
      CreditAt(st.sessions, i, leg);
    }
  }
}
