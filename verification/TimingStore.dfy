/**
 * The timing store as the host runs it: completed spans in a ring, sessions in a bounded
 * table whose small indices are recycled, and the ring's slots holding those indices
 * instead of names. Every method is proved to move the abstract store of `TimingSpec`,
 * which has neither slots nor indices, as the function of the same name does; so a
 * recycled index never gives one session another's turn.
 */
module TimingStore {
  import opened Wrappers
  import P = Percentiles
  import R = SpanRing
  import S = TimingSpec
  import T = SessionTable

  const NO_SESSION_INDEX: nat := R.NO_SESSION_INDEX

  predicate Names(holders: T.Holders, index: nat, session: Option<S.SessionId>) {
    match session
    case None => index == NO_SESSION_INDEX
    case Some(id) => index in holders && holders[index] == id
  }

  /** Every slot of the ring names exactly the session the abstract span does. */
  ghost predicate Describes(slots: seq<R.Slot>, holders: T.Holders, recent: seq<S.Span>) {
    && |slots| == |recent|
    && forall i :: 0 <= i < |slots| ==>
         && slots[i].name == recent[i].name && slots[i].ms == recent[i].ms
         && Names(holders, slots[i].index, recent[i].session)
  }

  class Store {
    const cfg: S.Config
    const ring: R.Ring
    const table: T.Table
    var aggregates: map<S.SpanName, S.Tally>
    var sessionsForgotten: nat
    var open: seq<S.Open>
    var began: nat
    var clockReads: nat
    var spansRecorded: nat
    var spansAbandoned: nat

    ghost var recent: seq<S.Span>
    ghost var trace: S.Trace

    ghost predicate Valid()
      reads `recent, ring, ring.names, ring.durations, ring.sessions, table
    {
      && ring.Valid() && ring.capacity == cfg.capacity
      && table.Valid() && table.maxTracked == cfg.maxTrackedSessions
      && Describes(ring.contents, table.holders, recent)
    }

    ghost function View(): S.Store
      reads this, table
    {
      S.Store(recent, aggregates, table.entries, sessionsForgotten, open, began, clockReads, spansRecorded,
              spansAbandoned, trace)
    }

    constructor (cfg: S.Config)
      ensures Valid() && View() == S.INITIAL && this.cfg == cfg
      ensures fresh(ring) && fresh(ring.names) && fresh(ring.durations) && fresh(ring.sessions) && fresh(table)
    {
      this.cfg := cfg;
      ring := new R.Ring(cfg.capacity);
      table := new T.Table(cfg.maxTrackedSessions);
      aggregates := map[];
      sessionsForgotten, open, began, clockReads, spansRecorded, spansAbandoned := 0, [], 0, 0, 0, 0;
      recent, trace := [], S.INITIAL.trace;
    }

    // ---- The session table ----------------------------------------------------

    /** Drops one session, frees its index and takes the index out of every slot of the ring. */
    method ForgetOneSession()
      requires Valid() && table.entries != []
      modifies `sessionsForgotten, `recent, `trace, table, ring, ring.sessions
      ensures Valid() && View() == S.Forget(old(View()))
      ensures table.indexOf.Keys <= old(table.indexOf.Keys)
    {
      hide Valid, T.Table.Valid, R.Ring.Valid;
      ghost var gone := table.entries[S.Victim(table.entries)];
      RemoveVictim();
      NoteForgotten(gone);
    }

    method NoteForgotten(ghost gone: S.Entry)
      modifies `sessionsForgotten, `trace
      ensures sessionsForgotten == old(sessionsForgotten) + 1
      ensures trace == old(trace).(forgotAt := old(trace).forgotAt[gone.sessionId := |old(trace).log|],
                                   abandonedBefore :=
                                     old(trace).abandonedBefore[gone.sessionId := |old(trace).abandoned|],
                                   forgottenLegs := S.AddLegs(old(trace).forgottenLegs, gone.turns))
    {
      sessionsForgotten := sessionsForgotten + 1;
      trace := trace.(forgotAt := trace.forgotAt[gone.sessionId := |trace.log|],
                      abandonedBefore := trace.abandonedBefore[gone.sessionId := |trace.abandoned|],
                      forgottenLegs := S.AddLegs(trace.forgottenLegs, gone.turns));
    }

    method RemoveVictim()
      requires Valid() && table.entries != []
      modifies `recent, table, ring, ring.sessions
      ensures Valid()
      ensures var i := S.Victim(old(table.entries));
              && table.entries == S.RemoveAt(old(table.entries), i)
              && recent == S.EraseSession(old(recent), old(table.entries)[i].sessionId)
      ensures table.indexOf.Keys <= old(table.indexOf.Keys)
    {
      hide T.Table.Valid, R.Ring.Valid, S.Victim, S.EraseSession, Describes;
      ghost var holders := table.holders;
      var i := table.ChooseVictim();
      ghost var victim := table.entries[i].sessionId;
      var index := table.Remove(i);
      SweptDescribes(ring.contents, holders, recent, index);
      ring.Sweep(index);
      recent := S.EraseSession(recent, victim);
    }

    /** This session's index, admitting it if it is new; zero when it is not attributed at all. */
    method SessionEntryFor(id: S.SessionId) returns (index: nat)
      requires Valid()
      modifies `sessionsForgotten, `recent, `trace, table, ring, ring.sessions
      ensures Valid() && View() == S.Touch(cfg, old(View()), id)
      ensures Names(table.holders, index, S.Owner(cfg, id))
      ensures index != NO_SESSION_INDEX <==> S.Attributable(cfg, id)
      ensures index != NO_SESSION_INDEX ==> S.Find(table.entries, id) < |table.entries|
    {
      hide Valid, T.Table.Valid, R.Ring.Valid;
      if cfg.maxTrackedSessions <= 0 {
        return NO_SESSION_INDEX;
      }
      if |id| == 0 || |id| > S.MAX_SESSION_ID_LENGTH {
        return NO_SESSION_INDEX;
      }
      trace := trace.(touchedAt := trace.touchedAt[id := trace.touches], touches := trace.touches + 1);
      index := FindOrAdmit(id);
      assert table.entries[|table.entries| - 1].sessionId == id;
    }

    method FindOrAdmit(id: S.SessionId) returns (index: nat)
      requires Valid() && cfg.maxTrackedSessions > 0
      modifies `sessionsForgotten, `recent, `trace, table, ring, ring.sessions
      ensures Valid()
      ensures var before := old(View());
              View() ==
              if S.Find(before.sessions, id) < |before.sessions|
              then S.MoveToBack(before, S.Find(before.sessions, id))
              else S.Admit(S.MakeRoom(cfg, before), id)
      ensures Names(table.holders, index, Some(id)) && index >= 1
      ensures |table.entries| > 0 && table.entries[|table.entries| - 1].sessionId == id
    {
      hide T.Table.Valid, R.Ring.Valid;
      var i := table.Find(id);
      var n := table.Count();
      if i < n {
        index := Reopen(i);
        return;
      }
      index := AdmitWithRoom(id);
    }

    method AdmitWithRoom(id: S.SessionId) returns (index: nat)
      requires Valid() && cfg.maxTrackedSessions > 0 && id !in table.indexOf
      modifies `sessionsForgotten, `recent, `trace, table, ring, ring.sessions
      ensures Valid() && View() == S.Admit(S.MakeRoom(cfg, old(View())), id)
      ensures Names(table.holders, index, Some(id)) && index >= 1
    {
      hide T.Table.Valid, R.Ring.Valid;
      var n := table.Count();
      if n >= cfg.maxTrackedSessions {
        ForgetOneSession();
      }
      index := Admit(id);
    }

    method Reopen(i: nat) returns (index: nat)
      requires Valid() && i < |table.entries|
      modifies table
      ensures Valid() && View() == S.MoveToBack(old(View()), i)
      ensures Names(table.holders, index, Some(old(table.entries)[i].sessionId)) && index >= 1
    {
      hide T.Table.Valid, R.Ring.Valid;
      index := table.IndexAt(i);
      var entry := table.Get(i);
      table.MoveToBack(i, entry.(closed := false));
    }

    method Admit(id: S.SessionId) returns (index: nat)
      requires Valid() && |table.entries| < cfg.maxTrackedSessions && id !in table.indexOf
      modifies table
      ensures Valid() && table.entries == old(table.entries) + [S.Entry(id, false, map[])]
      ensures Names(table.holders, index, Some(id)) && 1 <= index <= cfg.maxTrackedSessions
    {
      ghost var holders := table.holders;
      index := table.Append(S.Entry(id, false, map[]));
      MoreDescribes(ring.contents, holders, recent, index, id);
    }

    // ---- Recording ------------------------------------------------------------

    method Record(name: S.SpanName, ms: real, index: nat, ghost session: Option<S.SessionId>)
      requires Valid() && Names(table.holders, index, session)
      modifies `aggregates, `spansRecorded, `recent, `trace, ring, ring.names, ring.durations, ring.sessions
      ensures Valid() && View() == S.Record(cfg, old(View()), name, ms, session)
    {
      hide T.Table.Valid, R.Ring.Valid;
      FileSpan(name, ms, index, session);
      TallyHostWide(name, ms);
      spansRecorded := spansRecorded + 1;
      trace := trace.(log := trace.log + [S.Span(name, ms, session)]);
    }

    method FileSpan(name: S.SpanName, ms: real, index: nat, ghost session: Option<S.SessionId>)
      requires Valid() && Names(table.holders, index, session)
      modifies `recent, ring, ring.names, ring.durations, ring.sessions
      ensures Valid() && recent == S.Last(old(recent) + [S.Span(name, ms, session)], cfg.capacity)
    {
      FiledDescribes(ring.contents, table.holders, recent, cfg.capacity, R.Slot(name, ms, index),
                     S.Span(name, ms, session));
      ring.File(name, ms, index);
      recent := S.Last(recent + [S.Span(name, ms, session)], cfg.capacity);
    }

    method TallyHostWide(name: S.SpanName, ms: real)
      modifies `aggregates
      ensures aggregates == old(aggregates)[name := P.Tallied(S.AggregateIn(old(aggregates), name), ms)]
    {
      var tallied := P.Tally(if name in aggregates then aggregates[name] else P.NewAggregate(), ms);
      aggregates := aggregates[name := tallied];
    }

    method RecordTurn(leg: S.Leg, ms: real, index: nat, id: S.SessionId)
      requires Valid() && Names(table.holders, index, S.Owner(cfg, id))
      requires index != NO_SESSION_INDEX <==> S.Attributable(cfg, id)
      modifies `aggregates, `spansRecorded, `recent, `trace, table, ring, ring.names, ring.durations, ring.sessions
      ensures Valid() && View() == S.RecordTurn(cfg, old(View()), leg, ms, S.Owner(cfg, id))
      ensures table.holders == old(table.holders)
    {
      hide Valid, T.Table.Valid, R.Ring.Valid;
      Record(S.Turn(leg), ms, index, S.Owner(cfg, id));
      if index == NO_SESSION_INDEX {
        trace := trace.(unattributedLegs := trace.unattributedLegs[leg := S.Lookup(trace.unattributedLegs, leg) + 1]);
      } else {
        TallyIn(leg, ms, id);
      }
    }

    method TallyIn(leg: S.Leg, ms: real, id: S.SessionId)
      requires Valid()
      modifies table
      ensures Valid() && View() == S.TallyIn(old(View()), leg, ms, id)
      ensures table.holders == old(table.holders)
    {
      hide T.Table.Valid, R.Ring.Valid;
      var i := table.Find(id);
      var n := table.Count();
      if i < n {
        var entry := table.Get(i);
        var tallied := P.Tally(if leg in entry.turns then entry.turns[leg] else P.NewAggregate(), ms);
        SetTurns(i, entry.turns[leg := tallied]);
      }
    }

    method SetTurns(i: nat, turns: map<S.Leg, S.Tally>)
      requires Valid() && i < |table.entries|
      modifies table
      ensures Valid() && table.entries == old(table.entries)[i := old(table.entries)[i].(turns := turns)]
      ensures table.holders == old(table.holders)
    {
      hide T.Table.Valid, R.Ring.Valid;
      var entry := table.Get(i);
      table.Update(i, entry.(turns := turns));
    }

    method Abandon(span: S.Open)
      requires Valid()
      modifies `spansAbandoned, `aggregates, `sessionsForgotten, `recent, `trace, table, ring, ring.sessions
      ensures Valid() && View() == S.Abandon(cfg, old(View()), span)
    {
      hide Valid, T.Table.Valid, R.Ring.Valid;
      CountAbandoned(span);
      if span.session.Some? {
        AbandonFor(span.session.value);
      }
    }

    method CountAbandoned(span: S.Open)
      modifies `spansAbandoned, `aggregates, `trace
      ensures View() == S.CountAbandoned(old(View()), span)
    {
      spansAbandoned := spansAbandoned + 1;
      var aggregate := if span.name in aggregates then aggregates[span.name] else P.NewAggregate();
      aggregates := aggregates[span.name := aggregate.(abandoned := aggregate.abandoned + 1)];
      trace := trace.(abandoned := trace.abandoned + [span]);
    }

    method AbandonFor(id: S.SessionId)
      requires Valid()
      modifies `sessionsForgotten, `recent, `trace, table, ring, ring.sessions
      ensures Valid()
      ensures View() == if S.Attributable(cfg, id) then S.AbandonIn(S.Touch(cfg, old(View()), id), id) else old(View())
    {
      hide Valid, T.Table.Valid, R.Ring.Valid;
      var index := SessionEntryFor(id);
      if index != NO_SESSION_INDEX {
        AbandonIn(id);
      }
    }

    method AbandonIn(id: S.SessionId)
      requires Valid()
      modifies table
      ensures Valid() && View() == S.AbandonIn(old(View()), id)
    {
      hide T.Table.Valid, R.Ring.Valid;
      var i := table.Find(id);
      var n := table.Count();
      if i < n {
        var entry := table.Get(i);
        var total := if S.AcceptedToSettled in entry.turns then entry.turns[S.AcceptedToSettled] else P.NewAggregate();
        SetTurns(i, entry.turns[S.AcceptedToSettled := total.(abandoned := total.abandoned + 1)]);
      }
    }

    // ---- Spans ----------------------------------------------------------------

    method FindOpen(key: string) returns (i: nat)
      ensures i == S.FindOpen(open, key)
    {
      i := 0;
      while i < |open| && open[i].key != key
        invariant i <= |open|
        invariant forall j :: 0 <= j < i ==> open[j].key != key
      {
        i := i + 1;
      }
    }

    method Tick() returns (now: real)
      modifies `clockReads
      ensures now == cfg.clock(old(clockReads)) && clockReads == old(clockReads) + 1
    {
      now := cfg.clock(clockReads);
      clockReads := clockReads + 1;
    }

    /** Opens a span and returns its handle. */
    method Begin(key: string, name: S.SpanName, session: Option<S.SessionId>) returns (handle: nat)
      requires Valid()
      modifies this, table, ring, ring.names, ring.durations, ring.sessions
      ensures Valid() && View() == S.Begin(cfg, old(View()), key, name, session)
      ensures handle == began - 1
    {
      hide T.Table.Valid, R.Ring.Valid;
      DisplaceOpen(key);
      EvictOldestOpenIfFull();
      var now := Tick();
      handle := began;
      open := open + [S.Open(handle, key, name, now, None, session)];
      began := began + 1;
    }

    method DisplaceOpen(key: string)
      requires Valid()
      modifies this, table, ring, ring.names, ring.durations, ring.sessions
      ensures Valid() && View() == S.Displace(cfg, old(View()), key)
    {
      hide T.Table.Valid, R.Ring.Valid;
      var i := FindOpen(key);
      if i < |open| {
        Abandon(open[i]);
        open := S.RemoveAt(open, i);
      }
    }

    method EvictOldestOpenIfFull()
      requires Valid()
      modifies this, table, ring, ring.names, ring.durations, ring.sessions
      ensures Valid() && View() == S.EvictOldest(cfg, old(View()))
    {
      hide T.Table.Valid, R.Ring.Valid;
      if |open| < cfg.maxOpenSpans {
        return;
      }
      if open == [] {
        return;
      }
      Abandon(open[0]);
      open := open[1..];
    }

    method BeginTurn(id: S.SessionId) returns (handle: nat)
      requires Valid()
      modifies this, table, ring, ring.names, ring.durations, ring.sessions
      ensures Valid() && View() == S.BeginTurn(cfg, old(View()), id)
      ensures handle == began - 1
    {
      hide Valid, T.Table.Valid, R.Ring.Valid;
      var _ := SessionEntryFor(id);
      handle := Begin(S.OpenKey(S.TurnKind, id), S.Turn(S.AcceptedToSettled), Some(id));
    }

    method EndTurn(id: S.SessionId)
      requires Valid()
      modifies this, table, ring, ring.names, ring.durations, ring.sessions
      ensures Valid() && View() == S.EndTurn(cfg, old(View()), id)
    {
      hide Valid, T.Table.Valid, R.Ring.Valid;
      var i := FindOpen(S.OpenKey(S.TurnKind, id));
      if i < |open| {
        var span := open[i];
        var settledAt := TakeOpen(i);
        Settle(id, span, settledAt);
      }
    }

    method TakeOpen(i: nat) returns (now: real)
      requires Valid() && i < |open|
      modifies `open, `trace, `clockReads
      ensures Valid() && View() == S.TakeOpen(old(View()), i) && now == cfg.clock(old(clockReads))
    {
      hide T.Table.Valid, R.Ring.Valid;
      trace := trace.(ended := trace.ended + [open[i].serial]);
      open := S.RemoveAt(open, i);
      now := Tick();
    }

    method Settle(id: S.SessionId, span: S.Open, settledAt: real)
      requires Valid()
      modifies this, table, ring, ring.names, ring.durations, ring.sessions
      ensures Valid() && View() == S.Settle(cfg, old(View()), id, span, settledAt)
    {
      hide Valid, T.Table.Valid, R.Ring.Valid;
      var index := SessionEntryFor(id);
      SettleLegs(id, index, span, settledAt);
      RecordTurn(S.AcceptedToSettled, settledAt - span.startedAt, index, id);
    }

    method SettleLegs(id: S.SessionId, index: nat, span: S.Open, settledAt: real)
      requires Valid() && Names(table.holders, index, S.Owner(cfg, id))
      requires index != NO_SESSION_INDEX <==> S.Attributable(cfg, id)
      modifies `aggregates, `spansRecorded, `recent, `trace, table, ring, ring.names, ring.durations, ring.sessions
      ensures Valid() && View() == S.SettleLegs(cfg, old(View()), S.Owner(cfg, id), span, settledAt)
      ensures table.holders == old(table.holders)
    {
      hide Valid, T.Table.Valid, R.Ring.Valid, S.RecordTurn, Names;
      if span.firstDeltaAt.Some? {
        RecordTurn(S.AcceptedToFirstDelta, span.firstDeltaAt.value - span.startedAt, index, id);
        RecordTurn(S.FirstDeltaToSettled, settledAt - span.firstDeltaAt.value, index, id);
      }
    }

    /** Tools and commands. */
    method End(key: string)
      requires Valid()
      modifies this, table, ring, ring.names, ring.durations, ring.sessions
      ensures Valid() && View() == S.End(cfg, old(View()), key)
    {
      hide T.Table.Valid, R.Ring.Valid;
      var i := FindOpen(key);
      if i < |open| {
        var span := open[i];
        var now := TakeOpen(i);
        Record(span.name, now - span.startedAt, NO_SESSION_INDEX, None);
      }
    }

    method CloseSession(id: S.SessionId)
      requires Valid()
      modifies this, table, ring, ring.sessions
      ensures Valid() && View() == S.CloseSession(cfg, old(View()), id)
    {
      hide Valid, T.Table.Valid, R.Ring.Valid;
      AbandonTurn(id);
      MarkClosed(id);
    }

    method AbandonTurn(id: S.SessionId)
      requires Valid()
      modifies this, table, ring, ring.sessions
      ensures Valid() && View() == S.AbandonTurn(cfg, old(View()), id)
    {
      hide Valid, T.Table.Valid, R.Ring.Valid;
      var i := FindOpen(S.OpenKey(S.TurnKind, id));
      if i < |open| {
        var span := open[i];
        open := S.RemoveAt(open, i);
        Abandon(span);
      }
    }

    method MarkClosed(id: S.SessionId)
      requires Valid()
      modifies table
      ensures Valid() && View() == S.MarkClosed(old(View()), id)
    {
      hide T.Table.Valid, R.Ring.Valid;
      var i := table.Find(id);
      var n := table.Count();
      if i < n {
        var entry := table.Get(i);
        table.Update(i, entry.(closed := true));
      }
    }

    method NameCommand(key: string, command: nat)
      requires Valid()
      modifies `open
      ensures Valid() && View() == S.NameCommand(old(View()), key, command)
    {
      hide T.Table.Valid, R.Ring.Valid;
      var i := FindOpen(S.OpenKey(S.CommandKind, key));
      if i < |open| {
        open := open[i := open[i].(name := S.Command(command))];
      }
    }

    /** The hot path: after the first delta it reads no clock, and after the span closed it does nothing. */
    method NoteFirstDelta(handle: nat)
      requires Valid()
      modifies `open, `clockReads, `trace
      ensures Valid() && View() == S.NoteFirstDelta(cfg, old(View()), handle)
    {
      hide T.Table.Valid, R.Ring.Valid;
      var i := 0;
      while i < |open| && open[i].serial != handle
        invariant i <= |open|
        invariant forall j :: 0 <= j < i ==> open[j].serial != handle
      {
        i := i + 1;
      }
      if i == |open| || open[i].firstDeltaAt.Some? {
        return;
      }
      var now := Tick();
      open := open[i := open[i].(firstDeltaAt := Some(now))];
      trace := trace.(deltas := trace.deltas + [handle]);
    }

    // ---- Reading --------------------------------------------------------------

    /** Oldest first, each span with the session its slot still names. */
    method ReadRing() returns (spans: seq<S.Span>)
      requires Valid()
      ensures spans == recent
    {
      var idByIndex := table.IdByIndex();
      spans := [];
      var offset := 0;
      while offset < ring.filled
        invariant offset <= ring.filled && spans == recent[..offset]
      {
        var slot := ring.Get(offset);
        assert Names(idByIndex, slot.index, recent[offset].session);
        var session := if slot.index in idByIndex then Some(idByIndex[slot.index]) else None;
        spans := spans + [S.Span(slot.name, slot.ms, session)];
        offset := offset + 1;
      }
    }
  }

  // ---- Lemmas about the ring --------------------------------------------------

  lemma FiledDescribes(slots: seq<R.Slot>, holders: T.Holders, recent: seq<S.Span>, capacity: nat, slot: R.Slot,
                       span: S.Span)
    requires Describes(slots, holders, recent)
    requires slot.name == span.name && slot.ms == span.ms && Names(holders, slot.index, span.session)
    ensures Describes(S.Last(slots + [slot], capacity), holders, S.Last(recent + [span], capacity))
  {
  }

  lemma MoreDescribes(slots: seq<R.Slot>, holders: T.Holders, recent: seq<S.Span>, index: nat, id: S.SessionId)
    requires Describes(slots, holders, recent) && index !in holders
    ensures Describes(slots, holders[index := id], recent)
  {
    forall i | 0 <= i < |slots| ensures Names(holders[index := id], slots[i].index, recent[i].session) {
      assert Names(holders, slots[i].index, recent[i].session);
    }
  }

  /** With one index to a session, erasing an index from the slots is erasing the session it named from the spans. */
  lemma SweptDescribes(slots: seq<R.Slot>, holders: T.Holders, recent: seq<S.Span>, index: nat)
    requires Describes(slots, holders, recent) && index in holders && index != NO_SESSION_INDEX
    requires forall k :: k in holders && holders[k] == holders[index] ==> k == index
    ensures Describes(R.Unattributed(slots, index), holders - {index}, S.EraseSession(recent, holders[index]))
  {
    forall i | 0 <= i < |slots|
      ensures slots[i].index == index <==> recent[i].session == Some(holders[index])
    {
      assert Names(holders, slots[i].index, recent[i].session);
    }
  }
}
