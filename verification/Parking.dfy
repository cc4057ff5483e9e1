/**
 * Requests parked until somebody answers them: the two maps both gates keep, one from a
 * request's id to the request, in the order they were parked, and one from a session to the
 * ids parked for it. A request leaves through one door whoever opens it.
 */
module Parking {
  import opened Wrappers

  /** A fresh random id; the session a request belongs to. */
  type Id = nat
  type Session = nat

  datatype Entry<Q> = Entry(id: Id, session: Session, request: Q)

  datatype Happening<Q, V> = Parked(entry: Entry<Q>) | Settled(id: Id, value: V)

  datatype State<Q, V> = State(pending: seq<Entry<Q>>, history: seq<Happening<Q, V>>)

  // ---- Operations ---------------------------------------------------------------

  function Lookup<Q>(pending: seq<Entry<Q>>, id: Id): (r: Option<Entry<Q>>)
    ensures r.Some? ==> r.value in pending && r.value.id == id
    ensures r.None? ==> forall entry :: entry in pending ==> entry.id != id
  {
    if pending == [] then None
    else if pending[0].id == id then Some(pending[0])
    else Lookup(pending[1..], id)
  }

  function Without<Q>(pending: seq<Entry<Q>>, id: Id): (r: seq<Entry<Q>>)
    ensures forall entry :: entry in r ==> entry in pending && entry.id != id
    ensures forall entry :: entry in pending && entry.id != id ==> entry in r
  {
    if pending == [] then []
    else if pending[0].id == id then Without(pending[1..], id)
    else [pending[0]] + Without(pending[1..], id)
  }

  function Park<Q, V>(s: State<Q, V>, entry: Entry<Q>): State<Q, V> {
    State(s.pending + [entry], s.history + [Parked(entry)])
  }

  /** An id nothing is parked under settles nothing. */
  function Settle<Q, V>(s: State<Q, V>, id: Id, value: V): State<Q, V> {
    if Lookup(s.pending, id).None? then s
    else State(Without(s.pending, id), s.history + [Settled(id, value)])
  }

  /** Settles each id in turn with the value its own request gives up for. */
  function SettleEach<Q, V>(s: State<Q, V>, ids: seq<Id>, value: Q -> V): State<Q, V>
    decreases |ids|
  {
    if ids == [] then s
    else
      var next := match Lookup(s.pending, ids[0])
                  case Some(entry) => Settle(s, ids[0], value(entry.request))
                  case None => s;
      SettleEach(next, ids[1..], value)
  }

  function OfSession<Q>(pending: seq<Entry<Q>>, session: Session): (r: seq<Entry<Q>>)
    ensures forall entry :: entry in r ==> entry in pending && entry.session == session
    ensures forall entry :: entry in pending && entry.session == session ==> entry in r
  {
    if pending == [] then []
    else if pending[0].session == session then [pending[0]] + OfSession(pending[1..], session)
    else OfSession(pending[1..], session)
  }

  function Ids<Q>(entries: seq<Entry<Q>>): (r: seq<Id>)
    ensures |r| == |entries|
    ensures forall i :: 0 <= i < |r| ==> r[i] == entries[i].id
  {
    if entries == [] then [] else [entries[0].id] + Ids(entries[1..])
  }

  /** The ids parked for one session, in the order they were parked. */
  function IdsOf<Q>(pending: seq<Entry<Q>>, session: Session): seq<Id> {
    if pending == [] then []
    else if pending[0].session == session then [pending[0].id] + IdsOf(pending[1..], session)
    else IdsOf(pending[1..], session)
  }

  function CancelSession<Q, V>(s: State<Q, V>, session: Session, value: Q -> V): State<Q, V> {
    SettleEach(s, IdsOf(s.pending, session), value)
  }

  function CancelAll<Q, V>(s: State<Q, V>, value: Q -> V): State<Q, V> {
    SettleEach(s, Ids(s.pending), value)
  }

  // ---- Every request settles once -------------------------------------------------

  predicate Distinct<Q>(pending: seq<Entry<Q>>) {
    forall i, j :: 0 <= i < j < |pending| ==> pending[i].id != pending[j].id
  }

  ghost predicate Names<Q, V>(h: Happening<Q, V>, id: Id) {
    match h
    case Parked(entry) => entry.id == id
    case Settled(settled, _) => settled == id
  }

  ghost predicate IsSettled<Q, V>(history: seq<Happening<Q, V>>, id: Id) {
    exists j :: 0 <= j < |history| && history[j].Settled? && history[j].id == id
  }

  ghost predicate Fresh<Q, V>(s: State<Q, V>, id: Id) {
    forall i :: 0 <= i < |s.history| ==> !Names(s.history[i], id)
  }

  /** No id is parked twice or settled twice, and none is settled before it is parked. */
  ghost predicate OnceEach<Q, V>(history: seq<Happening<Q, V>>) {
    && (forall i, j :: 0 <= i < j < |history| && history[i].Parked? ==>
                         !(history[j].Parked? && history[j].entry.id == history[i].entry.id))
    && (forall i, j :: 0 <= i < j < |history| && history[i].Settled? ==> !Names(history[j], history[i].id))
    && (forall j :: 0 <= j < |history| && history[j].Settled? ==>
                      exists i :: 0 <= i < j && history[i].Parked? && history[i].entry.id == history[j].id)
  }

  /** What is pending is what was parked and has not been settled. */
  ghost predicate Sound<Q, V>(s: State<Q, V>) {
    && Distinct(s.pending)
    && OnceEach(s.history)
    && (forall entry :: entry in s.pending ==> Parked(entry) in s.history && !IsSettled(s.history, entry.id))
    && (forall i :: 0 <= i < |s.history| && s.history[i].Parked? && !IsSettled(s.history, s.history[i].entry.id) ==>
                      s.history[i].entry in s.pending)
  }

  ghost predicate IsParked<Q, V>(history: seq<Happening<Q, V>>, id: Id) {
    exists i :: 0 <= i < |history| && history[i].Parked? && history[i].entry.id == id
  }

  lemma SettledExtends<Q, V>(history: seq<Happening<Q, V>>, h: Happening<Q, V>, id: Id)
    ensures IsSettled(history + [h], id) == (IsSettled(history, id) || (h.Settled? && h.id == id))
  {
    var longer := history + [h];
    if IsSettled(history, id) {
      var j :| 0 <= j < |history| && history[j].Settled? && history[j].id == id;
      assert longer[j].Settled? && longer[j].id == id;
    } else if h.Settled? && h.id == id {
      assert longer[|history|].Settled? && longer[|history|].id == id;
    }
  }

  lemma OnceEachExtends<Q, V>(history: seq<Happening<Q, V>>, h: Happening<Q, V>)
    requires OnceEach(history)
    requires match h
             case Parked(entry) => !IsParked(history, entry.id) && !IsSettled(history, entry.id)
             case Settled(id, _) => IsParked(history, id) && !IsSettled(history, id)
    ensures OnceEach(history + [h])
  {
    var longer := history + [h];
    forall j | 0 <= j < |longer| && longer[j].Settled?
      ensures exists i :: 0 <= i < j && longer[i].Parked? && longer[i].entry.id == longer[j].id
    {
      if j < |history| {
        var i :| 0 <= i < j && history[i].Parked? && history[i].entry.id == history[j].id;
        assert longer[i].Parked? && longer[i].entry.id == longer[j].id;
      } else {
        var i :| 0 <= i < |history| && history[i].Parked? && history[i].entry.id == h.id;
        assert longer[i].Parked? && longer[i].entry.id == longer[j].id;
      }
    }
  }

  lemma FreshIsUnparked<Q, V>(s: State<Q, V>, id: Id)
    requires Sound(s) && Fresh(s, id)
    ensures !IsParked(s.history, id) && !IsSettled(s.history, id)
    ensures forall e :: e in s.pending ==> e.id != id
  {
    assert forall i :: 0 <= i < |s.history| && s.history[i].Parked? ==> Names(s.history[i], s.history[i].entry.id);
    assert forall i :: 0 <= i < |s.history| && s.history[i].Settled? ==> Names(s.history[i], s.history[i].id);
  }

  lemma ParkKeeps<Q, V>(s: State<Q, V>, entry: Entry<Q>)
    requires Sound(s) && Fresh(s, entry.id)
    ensures Sound(Park(s, entry))
  {
    FreshIsUnparked(s, entry.id);
    OnceEachExtends(s.history, Parked(entry));
    var t := Park(s, entry);
    forall id
      ensures IsSettled(t.history, id) == IsSettled(s.history, id)
    {
      SettledExtends(s.history, Parked(entry), id);
    }
  }

  lemma {:induction false} WithoutDistinct<Q>(pending: seq<Entry<Q>>, id: Id)
    requires Distinct(pending)
    ensures Distinct(Without(pending, id))
  {
    if pending != [] {
      WithoutDistinct(pending[1..], id);
      forall entry | entry in Without(pending[1..], id)
        ensures entry.id != pending[0].id
      {
        var k :| 0 <= k < |pending[1..]| && pending[1..][k] == entry;
        assert pending[k + 1] == entry;
      }
    }
  }

  lemma SettleKeeps<Q, V>(s: State<Q, V>, id: Id, value: V)
    requires Sound(s)
    ensures Sound(Settle(s, id, value))
  {
    var t := Settle(s, id, value);
    var found := Lookup(s.pending, id);
    if found.Some? {
      WithoutDistinct(s.pending, id);
      assert Parked(found.value) in s.history && !IsSettled(s.history, id);
      OnceEachExtends(s.history, Settled(id, value));
      forall other
        ensures IsSettled(t.history, other) == (IsSettled(s.history, other) || other == id)
      {
        SettledExtends(s.history, Settled(id, value), other);
      }
    }
  }

  lemma {:induction false} SettleEachKeeps<Q, V>(s: State<Q, V>, ids: seq<Id>, value: Q -> V)
    requires Sound(s)
    ensures Sound(SettleEach(s, ids, value))
    decreases |ids|
  {
    if ids != [] {
      var found := Lookup(s.pending, ids[0]);
      if found.Some? {
        SettleKeeps(s, ids[0], value(found.value.request));
        SettleEachKeeps(Settle(s, ids[0], value(found.value.request)), ids[1..], value);
      } else {
        SettleEachKeeps(s, ids[1..], value);
      }
    }
  }

  /** The requests parked under none of these ids. */
  function Outside<Q>(pending: seq<Entry<Q>>, ids: seq<Id>): seq<Entry<Q>> {
    if pending == [] then []
    else if pending[0].id in ids then Outside(pending[1..], ids)
    else [pending[0]] + Outside(pending[1..], ids)
  }

  function OfOthers<Q>(pending: seq<Entry<Q>>, session: Session): seq<Entry<Q>> {
    if pending == [] then []
    else if pending[0].session == session then OfOthers(pending[1..], session)
    else [pending[0]] + OfOthers(pending[1..], session)
  }

  lemma {:induction false} OutsideWithout<Q>(pending: seq<Entry<Q>>, ids: seq<Id>)
    requires ids != []
    ensures Outside(pending, ids) == Outside(Without(pending, ids[0]), ids[1..])
  {
    if pending != [] {
      OutsideWithout(pending[1..], ids);
      var rest := Without(pending[1..], ids[0]);
      assert pending[0].id in ids <==> pending[0].id == ids[0] || pending[0].id in ids[1..];
      assert ([pending[0]] + rest)[1..] == rest;
    }
  }

  lemma {:induction false} WithoutAbsent<Q>(pending: seq<Entry<Q>>, id: Id)
    requires Lookup(pending, id).None?
    ensures Without(pending, id) == pending
  {
    if pending != [] {
      WithoutAbsent(pending[1..], id);
    }
  }

  /** Settling a list of ids leaves what is parked under any other id, in order, and nothing else. */
  lemma {:induction false} SettleEachLeaves<Q, V>(s: State<Q, V>, ids: seq<Id>, value: Q -> V)
    ensures SettleEach(s, ids, value).pending == Outside(s.pending, ids)
    decreases |ids|
  {
    if ids == [] {
      OutsideNone(s.pending);
    } else {
      OutsideWithout(s.pending, ids);
      var found := Lookup(s.pending, ids[0]);
      if found.Some? {
        SettleEachLeaves(Settle(s, ids[0], value(found.value.request)), ids[1..], value);
      } else {
        WithoutAbsent(s.pending, ids[0]);
        SettleEachLeaves(s, ids[1..], value);
      }
    }
  }

  lemma {:induction false} OutsideNone<Q>(pending: seq<Entry<Q>>)
    ensures Outside(pending, []) == pending
  {
    if pending != [] {
      OutsideNone(pending[1..]);
    }
  }

  /** Whatever settling a list adds to the history was parked, and gave up for its own value. */
  lemma {:induction false} SettleEachAdds<Q, V>(s: State<Q, V>, ids: seq<Id>, value: Q -> V)
    ensures s.history <= SettleEach(s, ids, value).history
    ensures forall i :: |s.history| <= i < |SettleEach(s, ids, value).history| ==>
              var h := SettleEach(s, ids, value).history[i];
              h.Settled? && exists entry :: entry in s.pending && entry.id == h.id && h.value == value(entry.request)
    decreases |ids|
  {
    if ids != [] {
      var found := Lookup(s.pending, ids[0]);
      if found.Some? {
        var next := Settle(s, ids[0], value(found.value.request));
        SettleEachAdds(next, ids[1..], value);
        var t := SettleEach(next, ids[1..], value);
        forall i | |s.history| <= i < |t.history|
          ensures t.history[i].Settled?
          ensures exists entry :: entry in s.pending && entry.id == t.history[i].id
                                  && t.history[i].value == value(entry.request)
        {
          if i == |s.history| {
            assert t.history[i] == next.history[i] == Settled(ids[0], value(found.value.request));
            assert found.value in s.pending;
          } else {
            var entry :| entry in next.pending && entry.id == t.history[i].id
                         && t.history[i].value == value(entry.request);
            assert entry in s.pending;
          }
        }
      } else {
        SettleEachAdds(s, ids[1..], value);
      }
    }
  }

  lemma {:induction false} IdsOfAre<Q>(pending: seq<Entry<Q>>, session: Session)
    ensures IdsOf(pending, session) == Ids(OfSession(pending, session))
  {
    if pending != [] {
      IdsOfAre(pending[1..], session);
      IdsAppend([pending[0]], OfSession(pending[1..], session));
    }
  }

  lemma {:induction false} IdsAppend<Q>(entries: seq<Entry<Q>>, more: seq<Entry<Q>>)
    ensures Ids(entries + more) == Ids(entries) + Ids(more)
  {
    if entries == [] {
      assert entries + more == more;
    } else {
      assert (entries + more)[1..] == entries[1..] + more;
      IdsAppend(entries[1..], more);
    }
  }

  lemma FoundIs<Q>(pending: seq<Entry<Q>>, entry: Entry<Q>)
    requires Distinct(pending) && entry in pending
    ensures Lookup(pending, entry.id) == Some(entry)
  {
    var found := Lookup(pending, entry.id).value;
    var i :| 0 <= i < |pending| && pending[i] == entry;
    var j :| 0 <= j < |pending| && pending[j] == found;
    assert i == j;
  }

  lemma OnlyInItsSession<Q>(pending: seq<Entry<Q>>, entry: Entry<Q>, other: Session)
    requires Distinct(pending) && entry in pending
    ensures entry.id in IdsOf(pending, other) <==> other == entry.session
  {
    var own := OfSession(pending, other);
    IdsOfAre(pending, other);
    if other == entry.session {
      var k :| 0 <= k < |own| && own[k] == entry;
      assert Ids(own)[k] == entry.id;
    } else if entry.id in Ids(own) {
      var k :| 0 <= k < |own| && Ids(own)[k] == entry.id;
      assert own[k] in own;
      FoundIs(pending, entry);
      FoundIs(pending, own[k]);
    }
  }

  lemma {:induction false} OutsideOneSession<Q>(pending: seq<Entry<Q>>, ids: seq<Id>, session: Session)
    requires forall entry :: entry in pending ==> (entry.id in ids <==> entry.session == session)
    ensures Outside(pending, ids) == OfOthers(pending, session)
  {
    if pending != [] {
      assert pending[0] in pending;
      OutsideOneSession(pending[1..], ids, session);
    }
  }

  /** Closing a session settles its own requests and no others, which keep their order. */
  lemma CancelSessionLeaves<Q, V>(s: State<Q, V>, session: Session, value: Q -> V)
    requires Distinct(s.pending)
    ensures CancelSession(s, session, value).pending == OfOthers(s.pending, session)
  {
    SettleEachLeaves(s, IdsOf(s.pending, session), value);
    forall entry | entry in s.pending
      ensures entry.id in IdsOf(s.pending, session) <==> entry.session == session
    {
      OnlyInItsSession(s.pending, entry, session);
    }
    OutsideOneSession(s.pending, IdsOf(s.pending, session), session);
  }

  lemma {:induction false} OutsideAll<Q>(pending: seq<Entry<Q>>, ids: seq<Id>)
    requires forall i :: 0 <= i < |pending| ==> pending[i].id in ids
    ensures Outside(pending, ids) == []
  {
    if pending != [] {
      OutsideAll(pending[1..], ids);
    }
  }

  lemma CancelAllLeavesNone<Q, V>(s: State<Q, V>, value: Q -> V)
    ensures CancelAll(s, value).pending == []
  {
    SettleEachLeaves(s, Ids(s.pending), value);
    forall i | 0 <= i < |s.pending|
      ensures s.pending[i].id in Ids(s.pending)
    {
      assert Ids(s.pending)[i] == s.pending[i].id;
    }
    OutsideAll(s.pending, Ids(s.pending));
  }

  // ---- What each request was told ---------------------------------------------------

  /** What the promise parked under an id was settled with. */
  function ValueOf<Q, V>(history: seq<Happening<Q, V>>, id: Id): Option<V> {
    if history == [] then None
    else
      var last := history[|history| - 1];
      if last.Settled? && last.id == id then Some(last.value) else ValueOf(history[..|history| - 1], id)
  }

  lemma ValueOfExtends<Q, V>(history: seq<Happening<Q, V>>, h: Happening<Q, V>, id: Id)
    ensures ValueOf(history + [h], id) == if h.Settled? && h.id == id then Some(h.value) else ValueOf(history, id)
  {
    assert (history + [h])[..|history|] == history;
  }

  lemma {:induction false} ValueIsSettled<Q, V>(history: seq<Happening<Q, V>>, id: Id)
    ensures ValueOf(history, id).Some? <==> IsSettled(history, id)
    ensures ValueOf(history, id).Some? ==> Settled(id, ValueOf(history, id).value) in history
  {
    if history != [] {
      var n := |history| - 1;
      ValueIsSettled(history[..n], id);
      assert history == history[..n] + [history[n]];
      SettledExtends(history[..n], history[n], id);
    }
  }

  // ---- The maps ----------------------------------------------------------------------

  function Remove(ids: seq<Id>, id: Id): seq<Id> {
    if ids == [] then []
    else if ids[0] == id then Remove(ids[1..], id)
    else [ids[0]] + Remove(ids[1..], id)
  }

  lemma {:induction false} WithoutIds<Q>(pending: seq<Entry<Q>>, id: Id, session: Session)
    ensures IdsOf(Without(pending, id), session) == Remove(IdsOf(pending, session), id)
  {
    if pending != [] {
      var first, rest := pending[0], pending[1..];
      WithoutIds(rest, id, session);
      if first.id == id {
        assert Without(pending, id) == Without(rest, id);
      } else {
        assert Without(pending, id) == [first] + Without(rest, id);
        assert ([first] + Without(rest, id))[1..] == Without(rest, id);
      }
      if first.session == session {
        assert IdsOf(pending, session) == [first.id] + IdsOf(rest, session);
        assert ([first.id] + IdsOf(rest, session))[1..] == IdsOf(rest, session);
      } else {
        assert IdsOf(pending, session) == IdsOf(rest, session);
      }
    }
  }

  lemma {:induction false} RemoveAbsent(ids: seq<Id>, id: Id)
    requires id !in ids
    ensures Remove(ids, id) == ids
  {
    if ids != [] {
      RemoveAbsent(ids[1..], id);
    }
  }

  lemma {:induction false} IdsOfAppends<Q>(pending: seq<Entry<Q>>, entry: Entry<Q>, session: Session)
    ensures IdsOf(pending + [entry], session)
         == IdsOf(pending, session) + if entry.session == session then [entry.id] else []
  {
    if pending == [] {
      assert ([entry])[1..] == [] && pending + [entry] == [entry];
    } else {
      assert (pending + [entry])[1..] == pending[1..] + [entry];
      IdsOfAppends(pending[1..], entry, session);
    }
  }

  lemma {:induction false} NoneLeft<Q>(pending: seq<Entry<Q>>, session: Session)
    ensures IdsOf(OfOthers(pending, session), session) == []
  {
    if pending != [] {
      NoneLeft(pending[1..], session);
      var rest := OfOthers(pending[1..], session);
      assert ([pending[0]] + rest)[1..] == rest;
    }
  }

  /** Taking a request out of its own session's ids takes it out of every session's. */
  lemma StillIndexed<Q, V>(s: State<Q, V>, entry: Entry<Q>)
    requires Sound(s) && entry in s.pending
    ensures forall session :: IdsOf(Without(s.pending, entry.id), session)
                              == if session == entry.session then Remove(IdsOf(s.pending, session), entry.id)
                                 else IdsOf(s.pending, session)
  {
    forall session
      ensures IdsOf(Without(s.pending, entry.id), session)
           == if session == entry.session then Remove(IdsOf(s.pending, session), entry.id)
              else IdsOf(s.pending, session)
    {
      WithoutIds(s.pending, entry.id, session);
      OnlyInItsSession(s.pending, entry, session);
      if session != entry.session {
        RemoveAbsent(IdsOf(s.pending, session), entry.id);
      }
    }
  }

  class ParkedRequests<Q(==), V> {
    var pending: seq<Entry<Q>>
    var bySession: map<Session, seq<Id>>
    /** What each settled promise now holds. */
    var answers: map<Id, V>
    ghost var history: seq<Happening<Q, V>>

    ghost function View(): State<Q, V>
      reads this
    {
      State(pending, history)
    }

    function IdsFor(session: Session): seq<Id>
      reads `bySession
    {
      if session in bySession then bySession[session] else []
    }

    /** Both maps index the same requests, session by session and in the same order. */
    ghost predicate Valid()
      reads this
    {
      && Sound(View())
      && (forall session :: IdsFor(session) == IdsOf(pending, session))
      && (forall id :: (if id in answers then Some(answers[id]) else None) == ValueOf(history, id))
    }

    constructor ()
      ensures Valid() && View() == State([], [])
    {
      pending, bySession, answers, history := [], map[], map[], [];
    }

    method Add(entry: Entry<Q>)
      requires Valid() && Fresh(View(), entry.id)
      modifies this
      ensures Valid() && View() == Park(old(View()), entry)
    {
      hide Sound, Fresh;
      ParkKeeps(View(), entry);
      forall session
        ensures IdsOf(pending + [entry], session)
             == IdsOf(pending, session) + if entry.session == session then [entry.id] else []
      {
        IdsOfAppends(pending, entry, session);
      }
      pending := pending + [entry];
      bySession := bySession[entry.session := IdsFor(entry.session) + [entry.id]];
      forall id
        ensures ValueOf(history + [Parked(entry)], id) == ValueOf(history, id)
      {
        ValueOfExtends(history, Parked(entry), id);
      }
      history := history + [Parked(entry)];
    }

    /** The one door out. It opens once: a second answer to the same id finds nothing. */
    method Resolve(id: Id, value: V) returns (settled: bool)
      requires Valid()
      modifies this
      ensures Valid() && View() == Settle(old(View()), id, value)
      ensures settled == Lookup(old(pending), id).Some?
    {
      hide Sound, Fresh;
      SettleKeeps(View(), id, value);
      var found := Lookup(pending, id);
      if found.None? {
        return false;
      }
      var session := found.value.session;
      StillIndexed(View(), found.value);
      pending := Without(pending, id);
      if session in bySession {
        bySession := bySession[session := Remove(bySession[session], id)];
      }
      forall other
        ensures ValueOf(history + [Settled(id, value)], other) ==
                if other == id then Some(value) else ValueOf(history, other)
      {
        ValueOfExtends(history, Settled(id, value), other);
      }
      answers := answers[id := value];
      history := history + [Settled(id, value)];
      return true;
    }

    /** Settles a copied list of ids, so that resolving one does not disturb the walk. */
    method ResolveEach(ids: seq<Id>, value: Q -> V)
      requires Valid()
      modifies this
      ensures Valid() && View() == SettleEach(old(View()), ids, value)
    {
      var index := 0;
      while index < |ids|
        invariant index <= |ids|
        invariant Valid()
        invariant SettleEach(View(), ids[index..], value) == SettleEach(old(View()), ids, value)
      {
        assert ids[index..][0] == ids[index] && ids[index..][1..] == ids[index + 1..];
        var found := Lookup(pending, ids[index]);
        if found.Some? {
          var _ := Resolve(ids[index], value(found.value.request));
        }
        index := index + 1;
      }
    }

    method Close(session: Session, value: Q -> V)
      requires Valid()
      modifies this
      ensures Valid() && View() == CancelSession(old(View()), session, value)
    {
      ResolveEach(IdsFor(session), value);
      CancelSessionLeaves(old(View()), session, value);
      NoneLeft(old(pending), session);
      bySession := map other | other in bySession && other != session :: bySession[other];
    }

    method CloseAll(value: Q -> V)
      requires Valid()
      modifies this
      ensures Valid() && View() == CancelAll(old(View()), value)
    {
      ResolveEach(Ids(pending), value);
    }

    /** What a snapshot carries for one session: its pending requests, in the order they were asked. */
    method PendingFor(session: Session) returns (requests: seq<Q>)
      requires Valid()
      ensures requests == Requests(OfSession(pending, session))
    {
      requests := [];
      IdsOfAre(pending, session);
      var ids := IdsFor(session);
      var own := OfSession(pending, session);
      var index := 0;
      while index < |ids|
        invariant index <= |ids|
        invariant requests == Requests(own[..index])
      {
        assert ids[index] == own[index].id && own[index] in own;
        var found := Lookup(pending, ids[index]);
        FoundIs(pending, own[index]);
        assert own[..index + 1] == own[..index] + [own[index]];
        RequestsAppend(own[..index], own[index]);
        if found.Some? {
          requests := requests + [found.value.request];
        }
        index := index + 1;
      }
      assert own[..|own|] == own;
    }
  }

  function Requests<Q>(entries: seq<Entry<Q>>): seq<Q> {
    if entries == [] then [] else [entries[0].request] + Requests(entries[1..])
  }

  lemma {:induction false} RequestsAppend<Q>(entries: seq<Entry<Q>>, entry: Entry<Q>)
    ensures Requests(entries + [entry]) == Requests(entries) + [entry.request]
  {
    if entries != [] {
      assert (entries + [entry])[1..] == entries[1..] + [entry];
      RequestsAppend(entries[1..], entry);
    }
  }
}
