/**
 * The ring of completed spans: three parallel arrays written round and round, so that
 * recording allocates nothing. Its contents are the last spans filed, oldest first.
 */
module SpanRing {
  import S = TimingSpec

  const NO_SESSION_INDEX: nat := 0

  /** What one slot holds; the session is the index its table knew it by, or zero. */
  datatype Slot = Slot(name: S.SpanName, ms: real, index: nat)

  /** The slot `offset` places after `start`, wrapping round once. */
  function At(start: nat, offset: nat, capacity: nat): nat {
    if start + offset < capacity then start + offset else start + offset - capacity
  }

  function Unattributed(slots: seq<Slot>, index: nat): (r: seq<Slot>)
    ensures |r| == |slots|
    ensures forall i :: 0 <= i < |slots| ==>
      r[i] == if slots[i].index == index then slots[i].(index := NO_SESSION_INDEX) else slots[i]
  {
    if slots == [] then []
    else
      [if slots[0].index == index then slots[0].(index := NO_SESSION_INDEX) else slots[0]]
          + Unattributed(slots[1..], index)
  }

  class Ring {
    const capacity: nat
    const names: array<S.SpanName>
    const durations: array<real>
    const sessions: array<nat>
    var next: nat
    var filled: nat
    ghost var contents: seq<Slot>

    ghost predicate Valid()
      reads this, names, durations, sessions
    {
      && names.Length == durations.Length == sessions.Length == capacity
      && |contents| == filled <= capacity
      && (filled < capacity ==> next == filled)
      && (capacity > 0 ==> next < capacity)
      && forall i :: 0 <= i < filled ==>
           contents[i] == Slot(names[At(Start(), i, capacity)], durations[At(Start(), i, capacity)],
                               sessions[At(Start(), i, capacity)])
    }

    /** The slot of the oldest span. */
    function Start(): nat
      reads this
    {
      if filled < capacity then 0 else next
    }

    constructor (capacity: nat)
      ensures Valid() && contents == [] && this.capacity == capacity
      ensures fresh(names) && fresh(durations) && fresh(sessions)
    {
      this.capacity := capacity;
      names := new S.SpanName[capacity](_ => S.Unknown);
      durations := new real[capacity](_ => 0.0);
      sessions := new nat[capacity](_ => NO_SESSION_INDEX);
      next, filled, contents := 0, 0, [];
    }

    /** Writes past the end of an array are ignored, which is what happens with no slots at all. */
    method File(name: S.SpanName, ms: real, index: nat)
      requires Valid()
      modifies this, names, durations, sessions
      ensures Valid() && contents == S.Last(old(contents) + [Slot(name, ms, index)], capacity)
    {
      var slot := next;
      if slot < capacity {
        names[slot] := name;
        durations[slot] := ms;
        sessions[slot] := index;
      }
      next := if slot + 1 == capacity then 0 else slot + 1;
      if filled < capacity {
        filled := filled + 1;
      }
      contents := S.Last(contents + [Slot(name, ms, index)], capacity);
    }

    /** Takes an index out of every slot, keeping the durations. */
    method Sweep(index: nat)
      requires Valid()
      modifies sessions, `contents
      ensures Valid() && contents == Unattributed(old(contents), index)
    {
      var slot := 0;
      while slot < capacity
        invariant slot <= capacity && contents == old(contents)
        invariant forall k :: 0 <= k < capacity ==>
          sessions[k] == if k < slot && old(sessions[k]) == index then NO_SESSION_INDEX else old(sessions[k])
      {
        if sessions[slot] == index {
          sessions[slot] := NO_SESSION_INDEX;
        }
        slot := slot + 1;
      }
      contents := Unattributed(contents, index);
    }

    method Get(offset: nat) returns (slot: Slot)
      requires Valid() && offset < filled
      ensures slot == contents[offset]
    {
      var k := At(Start(), offset, capacity);
      slot := Slot(names[k], durations[k], sessions[k]);
    }
  }
}
