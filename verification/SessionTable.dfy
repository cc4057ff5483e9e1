/**
 * The bounded table of sessions and the small indices the ring knows them by. Indices
 * are recycled: a forgotten session's goes on a free list, and the counter mints a new
 * one only when that list is empty, so none is ever larger than the table.
 */
module SessionTable {
  import S = TimingSpec

  /** A session's entry with its index; the entry is what the report reads. */
  datatype Indexed = Indexed(entry: S.Entry, index: nat)

  type Holders = map<nat, S.SessionId>

  predicate Listed(sessions: seq<Indexed>, entries: seq<S.Entry>) {
    |entries| == |sessions| && forall i :: 0 <= i < |sessions| ==> entries[i] == sessions[i].entry
  }

  /** Each index is in exactly one place. */
  ghost predicate Placed(sessions: seq<Indexed>, place: map<nat, nat>) {
    && (forall i :: 0 <= i < |sessions| ==> sessions[i].index in place && place[sessions[i].index] == i)
    && (forall k :: k in place ==> place[k] < |sessions| && sessions[place[k]].index == k)
  }

  /** Each live index stands for the session in its place, and each session has one index. */
  ghost predicate Held(sessions: seq<Indexed>, place: map<nat, nat>, holders: Holders, indexOf: map<S.SessionId, nat>)
    requires Placed(sessions, place)
  {
    && holders.Keys == place.Keys
    && (forall k :: k in place ==> holders[k] == sessions[place[k]].entry.sessionId)
    && (forall k :: k in place ==> holders[k] in indexOf && indexOf[holders[k]] == k)
    && (forall id :: id in indexOf ==> indexOf[id] in place && holders[indexOf[id]] == id)
  }

  ghost predicate FreeListed(free: seq<nat>, freeAt: map<nat, nat>) {
    && (forall i :: 0 <= i < |free| ==> free[i] in freeAt && freeAt[free[i]] == i)
    && (forall k :: k in freeAt ==> freeAt[k] < |free| && free[freeAt[k]] == k)
  }

  ghost predicate Minted(holders: Holders, freeAt: map<nat, nat>, next: nat) {
    && (forall k :: 1 <= k < next <==> k in holders || k in freeAt)
    && (forall k :: k in holders ==> k !in freeAt)
  }

  class Table {
    const maxTracked: nat
    /** In the order of the source's map, which is the order of activity. */
    var sessions: seq<Indexed>
    var free: seq<nat>
    var next: nat

    /** The entries without their indices, and the session each live index stands for. */
    ghost var entries: seq<S.Entry>
    ghost var holders: Holders
    /** Where each live index is in the table, each free one in the list, and each session's index. */
    ghost var place: map<nat, nat>
    ghost var freeAt: map<nat, nat>
    ghost var indexOf: map<S.SessionId, nat>

    /** No index is held twice, no session has two, and the live and free ones are the indices ever minted. */
    ghost predicate Valid()
      reads this
    {
      && Listed(sessions, entries)
      && Placed(sessions, place)
      && Held(sessions, place, holders, indexOf)
      && FreeListed(free, freeAt)
      && Minted(holders, freeAt, next)
      && |sessions| + |free| == next - 1
      && |sessions| <= maxTracked && next <= maxTracked + 1
    }

    constructor (maxTracked: nat)
      ensures Valid() && entries == [] && holders == map[] && this.maxTracked == maxTracked
    {
      this.maxTracked := maxTracked;
      sessions, free, next := [], [], 1;
      entries, holders, place, freeAt, indexOf := [], map[], map[], map[], map[];
    }

    method Find(id: S.SessionId) returns (i: nat)
      requires Valid()
      ensures i == S.Find(entries, id)
      ensures i < |entries| <==> id in indexOf
    {
      i := 0;
      while i < |sessions| && sessions[i].entry.sessionId != id
        invariant i <= |sessions|
        invariant forall j :: 0 <= j < i ==> sessions[j].entry.sessionId != id
      {
        i := i + 1;
      }
    }

    /** The first closed session, or with none closed the least recently active one. */
    method ChooseVictim() returns (victim: nat)
      requires Valid() && entries != []
      ensures victim == S.Victim(entries)
    {
      victim := 0;
      var i := 0;
      while i < |sessions|
        invariant i <= |sessions| && victim == 0
        invariant forall j :: 0 <= j < i ==> !sessions[j].entry.closed
      {
        if sessions[i].entry.closed {
          return i;
        }
        i := i + 1;
      }
    }

    method Count() returns (n: nat)
      requires Valid()
      ensures n == |entries| <= maxTracked
    {
      n := |sessions|;
    }

    method Get(i: nat) returns (entry: S.Entry)
      requires Valid() && i < |entries|
      ensures entry == entries[i]
    {
      entry := sessions[i].entry;
    }

    method IndexAt(i: nat) returns (index: nat)
      requires Valid() && i < |entries|
      ensures index in holders && holders[index] == entries[i].sessionId
      ensures 1 <= index <= maxTracked
    {
      index := sessions[i].index;
    }

    method Update(i: nat, entry: S.Entry)
      requires Valid() && i < |entries| && entry.sessionId == entries[i].sessionId
      modifies `sessions, `entries
      ensures Valid() && entries == old(entries)[i := entry]
    {
      Updated(sessions, place, holders, indexOf, i, entry);
      sessions := sessions[i := sessions[i].(entry := entry)];
      entries := entries[i := entry];
    }

    /** Moves an entry to the back, which is where the most recently active one is. */
    method MoveToBack(i: nat, entry: S.Entry)
      requires Valid() && i < |entries| && entry.sessionId == entries[i].sessionId
      modifies `sessions, `entries, `place
      ensures Valid() && entries == S.RemoveAt(old(entries), i) + [entry]
    {
      var moved := sessions[i].(entry := entry);
      var after := S.RemoveAt(sessions, i) + [moved];
      RemovedListed(sessions, entries, i);
      AppendedListed(S.RemoveAt(sessions, i), S.RemoveAt(entries, i), moved);
      Moved(sessions, after, place, holders, indexOf, i, entry);
      Reorder(after, S.RemoveAt(entries, i) + [entry], MovedPlace(place, i, |sessions|));
    }

    method Reorder(after: seq<Indexed>, ghost afterEntries: seq<S.Entry>, ghost to: map<nat, nat>)
      requires Valid() && |after| == |sessions| && Listed(after, afterEntries)
      requires Placed(after, to) && Held(after, to, holders, indexOf)
      modifies `sessions, `entries, `place
      ensures Valid() && sessions == after && entries == afterEntries
    {
      sessions := after;
      entries := afterEntries;
      place := to;
    }

    method Remove(i: nat) returns (index: nat)
      requires Valid() && i < |entries|
      modifies `sessions, `free, `entries, `holders, `place, `freeAt, `indexOf
      ensures Valid() && entries == S.RemoveAt(old(entries), i)
      ensures index in old(holders) && old(holders)[index] == old(entries)[i].sessionId
      ensures holders == old(holders) - {index} && indexOf == old(indexOf) - {old(entries)[i].sessionId}
      ensures forall k :: k in old(holders) && old(holders)[k] == old(holders)[index] ==> k == index
      ensures index >= 1
    {
      index := sessions[i].index;
      ghost var id := sessions[i].entry.sessionId;
      RemovedListed(sessions, entries, i);
      Removed(sessions, place, holders, indexOf, i);
      Freed(free, freeAt, holders, next, index);
      place := RemovedPlace(place, i, index);
      holders := holders - {index};
      indexOf := indexOf - {id};
      freeAt := freeAt[index := |free|];
      sessions := S.RemoveAt(sessions, i);
      entries := S.RemoveAt(entries, i);
      free := free + [index];
    }

    /** An index comes off the free list, and only when that is empty off the counter. */
    method Append(entry: S.Entry) returns (index: nat)
      requires Valid() && |entries| < maxTracked && entry.sessionId !in indexOf
      modifies `sessions, `free, `next, `entries, `holders, `place, `freeAt, `indexOf
      ensures Valid() && entries == old(entries) + [entry]
      ensures index !in old(holders) && 1 <= index <= maxTracked
      ensures holders == old(holders)[index := entry.sessionId]
    {
      index := TakeIndex(entry.sessionId);
      AppendedListed(sessions, entries, Indexed(entry, index));
      Appended(sessions, place, holders, indexOf, entry, index);
      place := place[index := |sessions|];
      holders := holders[index := entry.sessionId];
      indexOf := indexOf[entry.sessionId := index];
      sessions := sessions + [Indexed(entry, index)];
      entries := entries + [entry];
    }

    method TakeIndex(ghost id: S.SessionId) returns (index: nat)
      requires FreeListed(free, freeAt) && Minted(holders, freeAt, next) && next >= 1
      modifies `free, `next, `freeAt
      ensures index !in holders && 1 <= index < next
      ensures FreeListed(free, freeAt) && Minted(holders[index := id], freeAt, next)
      ensures next - |free| == old(next - |free|) + 1 && next == old(next) + (if old(free) == [] then 1 else 0)
    {
      Taken(free, freeAt, holders, next, id);
      if |free| > 0 {
        index := free[|free| - 1];
        free := free[..|free| - 1];
        freeAt := freeAt - {index};
      } else {
        index := next;
        next := next + 1;
      }
    }

    method IdByIndex() returns (idByIndex: Holders)
      requires Valid()
      ensures idByIndex == holders
    {
      idByIndex := map[];
      var i := 0;
      while i < |sessions|
        invariant i <= |sessions|
        invariant forall k :: k in idByIndex <==> k in place && place[k] < i
        invariant forall k :: k in idByIndex ==> k in holders && idByIndex[k] == holders[k]
      {
        idByIndex := idByIndex[sessions[i].index := sessions[i].entry.sessionId];
        i := i + 1;
      }
    }
  }

  // ---- Lemmas about the indices -----------------------------------------------

  function MovedPlace(place: map<nat, nat>, i: nat, n: nat): map<nat, nat>
    requires n > 0
  {
    map k | k in place :: if place[k] < i then place[k] else if place[k] == i then n - 1 else place[k] - 1
  }

  function RemovedPlace(place: map<nat, nat>, i: nat, index: nat): (r: map<nat, nat>)
    requires forall k :: k in place && k != index ==> place[k] != i
  {
    map k | k in place && k != index :: if place[k] < i then place[k] else place[k] - 1
  }

  lemma AppendedListed(sessions: seq<Indexed>, entries: seq<S.Entry>, x: Indexed)
    requires Listed(sessions, entries)
    ensures Listed(sessions + [x], entries + [x.entry])
  {
  }

  lemma RemovedListed(sessions: seq<Indexed>, entries: seq<S.Entry>, i: nat)
    requires Listed(sessions, entries) && i < |sessions|
    ensures Listed(S.RemoveAt(sessions, i), S.RemoveAt(entries, i))
  {
  }

  lemma Moved(sessions: seq<Indexed>, after: seq<Indexed>, place: map<nat, nat>, holders: Holders,
              indexOf: map<S.SessionId, nat>, i: nat, entry: S.Entry)
    requires Placed(sessions, place) && Held(sessions, place, holders, indexOf)
    requires i < |sessions| && entry.sessionId == sessions[i].entry.sessionId
    requires after == S.RemoveAt(sessions, i) + [sessions[i].(entry := entry)]
    ensures Placed(after, MovedPlace(place, i, |sessions|))
            && Held(after, MovedPlace(place, i, |sessions|), holders, indexOf)
    ensures |after| == |sessions|
  {
    var n := |sessions| - 1;
    var to := MovedPlace(place, i, |sessions|);
    forall j | 0 <= j < |after|
      ensures after[j].index in to && to[after[j].index] == j
    {
      var from := if j < i then j else if j == n then i else j + 1;
      assert after[j].index == sessions[from].index;
    }
    forall k | k in to
      ensures to[k] < |after| && after[to[k]].index == k && holders[k] == after[to[k]].entry.sessionId
    {
      var from := place[k];
      assert after[to[k]].entry.sessionId == sessions[from].entry.sessionId;
    }
  }

  lemma Updated(sessions: seq<Indexed>, place: map<nat, nat>, holders: Holders, indexOf: map<S.SessionId, nat>,
                i: nat, entry: S.Entry)
    requires Placed(sessions, place) && Held(sessions, place, holders, indexOf)
    requires i < |sessions| && entry.sessionId == sessions[i].entry.sessionId
    ensures var after := sessions[i := sessions[i].(entry := entry)];
            Placed(after, place) && Held(after, place, holders, indexOf)
  {
  }

  lemma Removed(sessions: seq<Indexed>, place: map<nat, nat>, holders: Holders, indexOf: map<S.SessionId, nat>, i: nat)
    requires Placed(sessions, place) && Held(sessions, place, holders, indexOf) && i < |sessions|
    ensures var index, id := sessions[i].index, sessions[i].entry.sessionId;
            && (forall k :: k in place && k != index ==> place[k] != i)
            && Placed(S.RemoveAt(sessions, i), RemovedPlace(place, i, index))
            && Held(S.RemoveAt(sessions, i), RemovedPlace(place, i, index), holders - {index}, indexOf - {id})
            && index in holders && holders[index] == id && id in indexOf && indexOf[id] == index
  {
    var index, id := sessions[i].index, sessions[i].entry.sessionId;
    var rest, to := S.RemoveAt(sessions, i), RemovedPlace(place, i, index);
    forall j | 0 <= j < |rest|
      ensures rest[j].index in to && to[rest[j].index] == j
    {
      var from := if j < i then j else j + 1;
      assert rest[j] == sessions[from];
    }
    forall k | k in to
      ensures to[k] < |rest| && rest[to[k]].index == k && holders[k] == rest[to[k]].entry.sessionId
    {
      assert rest[to[k]] == sessions[place[k]];
    }
  }

  lemma Appended(sessions: seq<Indexed>, place: map<nat, nat>, holders: Holders, indexOf: map<S.SessionId, nat>,
                 entry: S.Entry, index: nat)
    requires Placed(sessions, place) && Held(sessions, place, holders, indexOf)
    requires index !in place && entry.sessionId !in indexOf
    ensures var longer, to := sessions + [Indexed(entry, index)], place[index := |sessions|];
            Placed(longer, to) && Held(longer, to, holders[index := entry.sessionId], indexOf[entry.sessionId := index])
  {
  }

  lemma Freed(free: seq<nat>, freeAt: map<nat, nat>, holders: Holders, next: nat, index: nat)
    requires FreeListed(free, freeAt) && Minted(holders, freeAt, next) && index in holders
    ensures FreeListed(free + [index], freeAt[index := |free|])
            && Minted(holders - {index}, freeAt[index := |free|], next)
  {
  }

  lemma Taken(free: seq<nat>, freeAt: map<nat, nat>, holders: Holders, next: nat, id: S.SessionId)
    requires FreeListed(free, freeAt) && Minted(holders, freeAt, next) && next >= 1
    ensures if free != [] then
              var index := free[|free| - 1];
              && index !in holders && 1 <= index < next
              && FreeListed(free[..|free| - 1], freeAt - {index})
              && Minted(holders[index := id], freeAt - {index}, next)
            else
              next !in holders && Minted(holders[next := id], freeAt, next + 1)
  {
    if free != [] {
      assert free[|free| - 1] in freeAt;
    }
  }
}
