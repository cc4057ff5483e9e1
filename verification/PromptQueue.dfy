/**
 * The renderer's view of the agent's queue. The agent says only which texts wait and in
 * which mode; each update gives every text an identity, keeping the one it already had.
 */
module PromptQueue {
  import opened Sequences

  datatype Mode = Steer | FollowUp

  /** What the agent reports of one waiting prompt, and all that identifies it there. */
  datatype Want = Want(text: string, mode: Mode)

  /** `id` is the number in the identifier shown; the first one issued is 1. */
  datatype Queued = Queued(id: nat, want: Want, queuedAt: int)

  datatype State = State(queue: seq<Queued>, sequence: nat)

  function WantEach(texts: seq<string>, mode: Mode): (wants: seq<Want>)
    ensures |wants| == |texts|
    ensures forall i :: 0 <= i < |texts| ==> wants[i] == Want(texts[i], mode)
  {
    if texts == [] then [] else [Want(texts[0], mode)] + WantEach(texts[1..], mode)
  }

  function Wants(steering: seq<string>, followUp: seq<string>): seq<Want> {
    WantEach(steering, Steer) + WantEach(followUp, FollowUp)
  }

  /** The place of the first entry for a prompt, or the length when there is none. */
  function Find(entries: seq<Queued>, want: Want): (i: nat)
    ensures i <= |entries|
    ensures i < |entries| ==> entries[i].want == want
    ensures forall k :: 0 <= k < i ==> entries[k].want != want
  {
    if entries == [] || entries[0].want == want then 0 else 1 + Find(entries[1..], want)
  }

  function Splice(entries: seq<Queued>, i: nat): seq<Queued>
    requires i < |entries|
  {
    entries[..i] + entries[i + 1..]
  }

  function Before(entry: Queued, rest: State): State {
    State([entry] + rest.queue, rest.sequence)
  }

  /** Gives each wanted prompt, in order, the first entry left over for it, or a new one. */
  function Project(previous: seq<Queued>, sequence: nat, wants: seq<Want>, now: int): (r: State)
    ensures |r.queue| == |wants| && r.sequence >= sequence
    decreases |wants|
  {
    if wants == [] then State([], sequence)
    else
      var i := Find(previous, wants[0]);
      if i < |previous| then Before(previous[i], Project(Splice(previous, i), sequence, wants[1..], now))
      else Before(Queued(sequence + 1, wants[0], now), Project(previous, sequence + 1, wants[1..], now))
  }

  lemma ProjectFrom(previous: seq<Queued>, sequence: nat, wants: seq<Want>, index: nat, now: int)
    requires index <= |wants|
    ensures Project(previous, sequence, wants[index..], now) ==
            if index == |wants| then State([], sequence)
            else
              var i := Find(previous, wants[index]);
              if i < |previous|
              then Before(previous[i], Project(Splice(previous, i), sequence, wants[index + 1..], now))
              else
                Before(Queued(sequence + 1, wants[index], now),
                       Project(previous, sequence + 1, wants[index + 1..], now))
  {
    hide Splice, Find, Before;
    if index < |wants| {
      assert wants[index..][0] == wants[index] && wants[index..][1..] == wants[index + 1..];
    }
  }

  // ---- Identity ----------------------------------------------------------------------------

  predicate Distinct(entries: seq<Queued>) {
    forall i, j :: 0 <= i < j < |entries| ==> entries[i].id != entries[j].id
  }

  /** No two entries share an id, and every id was issued. */
  predicate Identified(s: State) {
    Distinct(s.queue) && forall i :: 0 <= i < |s.queue| ==> 1 <= s.queue[i].id <= s.sequence
  }

  function Of(entries: seq<Queued>, want: Want): (r: seq<Queued>)
  {
    if entries == [] then []
    else if entries[0].want == want then [entries[0]] + Of(entries[1..], want)
    else Of(entries[1..], want)
  }

  function CountOf(wants: seq<Want>, want: Want): nat {
    if wants == [] then 0 else (if wants[0] == want then 1 else 0) + CountOf(wants[1..], want)
  }

  lemma {:induction false} WantedInOrder(previous: seq<Queued>, sequence: nat, wants: seq<Want>, now: int)
    ensures var queue := Project(previous, sequence, wants, now).queue;
            forall k :: 0 <= k < |wants| ==> queue[k].want == wants[k]
    decreases |wants|
  {
    if wants != [] {
      var i := Find(previous, wants[0]);
      if i < |previous| {
        WantedInOrder(Splice(previous, i), sequence, wants[1..], now);
      } else {
        WantedInOrder(previous, sequence + 1, wants[1..], now);
      }
    }
  }

  /** Taking the first entry for one prompt takes the head of its own line and leaves every other line. */
  lemma {:induction false} SpliceTakesHead(entries: seq<Queued>, taken: Want, want: Want)
    requires Find(entries, taken) < |entries|
    ensures var i := Find(entries, taken);
            && Of(entries, taken) != [] && Of(entries, taken)[0] == entries[i]
            && Of(Splice(entries, i), want) == if want == taken then Of(entries, want)[1..] else Of(entries, want)
  {
    var i := Find(entries, taken);
    if i == 0 {
      assert Splice(entries, 0) == entries[1..];
    } else {
      SpliceTakesHead(entries[1..], taken, want);
      assert Splice(entries, i) == [entries[0]] + Splice(entries[1..], i - 1);
      assert ([entries[0]] + Splice(entries[1..], i - 1))[1..] == Splice(entries[1..], i - 1);
    }
  }

  lemma {:induction false} NoneToFind(entries: seq<Queued>, want: Want)
    requires Find(entries, want) == |entries|
    ensures Of(entries, want) == []
  {
    if entries != [] {
      NoneToFind(entries[1..], want);
    }
  }

  /** The oldest of a prompt's old entries, as many as are still wanted, and then new ones. */
  predicate OldestThenNew(had: seq<Queued>, has: seq<Queued>, count: nat, sequence: nat, now: int) {
    var kept := Min(|had|, count);
    && |has| == count
    && has[..kept] == had[..kept]
    && forall k :: kept <= k < |has| ==> has[k].id > sequence && has[k].queuedAt == now
  }

  lemma OneKept(had: seq<Queued>, has: seq<Queued>, count: nat, sequence: nat, now: int)
    requires had != [] && OldestThenNew(had[1..], has, count, sequence, now)
    ensures OldestThenNew(had, [had[0]] + has, count + 1, sequence, now)
  {
    var kept := Min(|had| - 1, count);
    var longer := [had[0]] + has;
    assert longer[..kept + 1] == [had[0]] + has[..kept];
    assert had[..kept + 1] == [had[0]] + had[1..][..kept];
  }

  lemma OneIssued(has: seq<Queued>, count: nat, sequence: nat, now: int, issued: Queued)
    requires OldestThenNew([], has, count, sequence + 1, now)
    requires issued.id == sequence + 1 && issued.queuedAt == now
    ensures OldestThenNew([], [issued] + has, count + 1, sequence, now)
  {
  }

  lemma OfPrefixed(entry: Queued, entries: seq<Queued>, want: Want)
    ensures Of([entry] + entries, want) == if entry.want == want then [entry] + Of(entries, want) else Of(entries, want)
  {
    assert ([entry] + entries)[1..] == entries;
  }

  /**
   * Of every prompt, the update keeps the oldest entries it had, as many as are still wanted
   * and in their order, with the id and the arrival time they had; the others are new.
   */
  lemma {:induction false} KeepsTheOldest(previous: seq<Queued>, sequence: nat, wants: seq<Want>, now: int, want: Want)
    ensures OldestThenNew(Of(previous, want), Of(Project(previous, sequence, wants, now).queue, want),
                          CountOf(wants, want), sequence, now)
    decreases |wants|
  {
    hide OldestThenNew, Splice, Min;
    if wants == [] {
      NothingWanted(Of(previous, want), sequence, now);
    } else {
      var first := wants[0];
      var i := Find(previous, first);
      if i < |previous| {
        var rest := Project(Splice(previous, i), sequence, wants[1..], now);
        SpliceTakesHead(previous, first, want);
        KeepsTheOldest(Splice(previous, i), sequence, wants[1..], now, want);
        OfPrefixed(previous[i], rest.queue, want);
        if first == want {
          OneKept(Of(previous, want), Of(rest.queue, want), CountOf(wants[1..], want), sequence, now);
        }
      } else {
        var rest := Project(previous, sequence + 1, wants[1..], now);
        var issued := Queued(sequence + 1, first, now);
        KeepsTheOldest(previous, sequence + 1, wants[1..], now, want);
        OfPrefixed(issued, rest.queue, want);
        if first == want {
          NoneToFind(previous, want);
          OneIssued(Of(rest.queue, want), CountOf(wants[1..], want), sequence, now, issued);
        } else {
          IssuedLater(Of(previous, want), Of(rest.queue, want), CountOf(wants, want), sequence, now);
        }
      }
    }
  }

  lemma NothingWanted(had: seq<Queued>, sequence: nat, now: int)
    ensures OldestThenNew(had, [], 0, sequence, now)
  {
  }

  lemma IssuedLater(had: seq<Queued>, has: seq<Queued>, count: nat, sequence: nat, now: int)
    requires OldestThenNew(had, has, count, sequence + 1, now)
    ensures OldestThenNew(had, has, count, sequence, now)
  {
  }

  /** An entry of the new queue is one the old queue had, or was issued by this update. */
  lemma {:induction false} KeptOrIssued(previous: seq<Queued>, sequence: nat, wants: seq<Want>, now: int)
    ensures var r := Project(previous, sequence, wants, now);
            forall e :: e in r.queue ==> e in previous || (sequence < e.id <= r.sequence && e.queuedAt == now)
    decreases |wants|
  {
    if wants != [] {
      var i := Find(previous, wants[0]);
      if i < |previous| {
        var rest := Project(Splice(previous, i), sequence, wants[1..], now);
        KeptOrIssued(Splice(previous, i), sequence, wants[1..], now);
        forall e | e in [previous[i]] + rest.queue
          ensures e in previous || (sequence < e.id <= rest.sequence && e.queuedAt == now)
        {
          assert e == previous[i] || e in rest.queue;
        }
      } else {
        KeptOrIssued(previous, sequence + 1, wants[1..], now);
      }
    }
  }

  lemma SpliceIdentified(entries: seq<Queued>, i: nat, sequence: nat)
    requires Identified(State(entries, sequence)) && i < |entries|
    ensures Identified(State(Splice(entries, i), sequence)) && 1 <= entries[i].id <= sequence
    ensures forall e :: e in Splice(entries, i) ==> e in entries && e.id != entries[i].id
  {
  }

  lemma HeadIdentified(head: Queued, rest: State)
    requires Identified(rest) && 1 <= head.id <= rest.sequence
    requires forall e :: e in rest.queue ==> e.id != head.id
    ensures Identified(Before(head, rest))
  {
  }

  lemma NoneIdentified(sequence: nat)
    ensures Identified(State([], sequence))
  {
  }

  lemma LaterIdentified(entries: seq<Queued>, sequence: nat)
    requires Identified(State(entries, sequence))
    ensures Identified(State(entries, sequence + 1))
  {
  }

  lemma KeptIdentified(previous: seq<Queued>, sequence: nat, rest: State, i: nat, now: int)
    requires i < |previous| && 1 <= previous[i].id <= sequence <= rest.sequence && Identified(rest)
    requires forall e :: e in Splice(previous, i) ==> e.id != previous[i].id
    requires forall e :: e in rest.queue ==>
               e in Splice(previous, i) || (sequence < e.id <= rest.sequence && e.queuedAt == now)
    ensures Identified(Before(previous[i], rest))
  {
    hide Splice;
    HeadIdentified(previous[i], rest);
  }

  lemma IssuedIdentified(previous: seq<Queued>, sequence: nat, rest: State, want: Want, now: int)
    requires Identified(State(previous, sequence)) && sequence + 1 <= rest.sequence && Identified(rest)
    requires forall e :: e in rest.queue ==>
               e in previous || (sequence + 1 < e.id <= rest.sequence && e.queuedAt == now)
    ensures Identified(Before(Queued(sequence + 1, want, now), rest))
  {
    HeadIdentified(Queued(sequence + 1, want, now), rest);
  }

  /** Ids stay pairwise distinct through any update, and a new one was never issued before. */
  lemma {:induction false} ProjectIdentifies(previous: seq<Queued>, sequence: nat, wants: seq<Want>, now: int)
    requires Identified(State(previous, sequence))
    ensures Identified(Project(previous, sequence, wants, now))
    decreases |wants|
  {
    hide Splice, Identified, Before;
    if wants == [] {
      NoneIdentified(sequence);
    } else {
      var i := Find(previous, wants[0]);
      if i < |previous| {
        SpliceIdentified(previous, i, sequence);
        var rest := Project(Splice(previous, i), sequence, wants[1..], now);
        ProjectIdentifies(Splice(previous, i), sequence, wants[1..], now);
        KeptOrIssued(Splice(previous, i), sequence, wants[1..], now);
        KeptIdentified(previous, sequence, rest, i, now);
      } else {
        var rest := Project(previous, sequence + 1, wants[1..], now);
        LaterIdentified(previous, sequence);
        ProjectIdentifies(previous, sequence + 1, wants[1..], now);
        KeptOrIssued(previous, sequence + 1, wants[1..], now);
        IssuedIdentified(previous, sequence, rest, wants[0], now);
      }
    }
  }

  // ---- Runs -----------------------------------------------------------------------------------

  datatype Update = Update(steering: seq<string>, followUp: seq<string>, now: int)

  function Run(s: State, updates: seq<Update>): State
    decreases |updates|
  {
    if updates == [] then s
    else
      var first := updates[0];
      Run(Project(s.queue, s.sequence, Wants(first.steering, first.followUp), first.now), updates[1..])
  }

  /** After any updates an id names one entry for good: one that left the queue is never issued again. */
  lemma {:induction false} RunIdentifies(s: State, updates: seq<Update>)
    requires Identified(s)
    ensures Identified(Run(s, updates)) && Run(s, updates).sequence >= s.sequence
    ensures forall entry :: entry in Run(s, updates).queue && entry.id <= s.sequence ==> entry in s.queue
    decreases |updates|
  {
    if updates != [] {
      var first := updates[0];
      var wants := Wants(first.steering, first.followUp);
      var t := Project(s.queue, s.sequence, wants, first.now);
      ProjectIdentifies(s.queue, s.sequence, wants, first.now);
      KeptOrIssued(s.queue, s.sequence, wants, first.now);
      RunIdentifies(t, updates[1..]);
      forall entry | entry in Run(t, updates[1..]).queue && entry.id <= s.sequence
        ensures entry in s.queue
      {
        assert entry in t.queue;
      }
    }
  }

  /** The queue shows the steering prompts and then the follow-up ones, each list in its own order. */
  predicate ShowsInOrder(queue: seq<Queued>, steering: seq<string>, followUp: seq<string>) {
    && |queue| == |steering| + |followUp|
    && (forall i: nat :: i < |steering| ==> queue[i].want == Want(steering[i], Steer))
    && (forall j: nat :: j < |followUp| ==> queue[|steering| + j].want == Want(followUp[j], FollowUp))
  }

  lemma ProjectShows(previous: seq<Queued>, sequence: nat, steering: seq<string>, followUp: seq<string>, now: int)
    ensures ShowsInOrder(Project(previous, sequence, Wants(steering, followUp), now).queue, steering, followUp)
  {
    var wants := Wants(steering, followUp);
    var queue := Project(previous, sequence, wants, now).queue;
    WantedInOrder(previous, sequence, wants, now);
    hide Project;
    forall j: nat | j < |followUp|
      ensures queue[|steering| + j].want == Want(followUp[j], FollowUp)
    {
      assert wants[|steering| + j] == WantEach(followUp, FollowUp)[j];
    }
  }

  /** After any updates the queue is what the last one reported, in order. */
  lemma {:induction false} RunShowsTheLast(s: State, updates: seq<Update>)
    requires updates != []
    ensures var last := updates[|updates| - 1];
            ShowsInOrder(Run(s, updates).queue, last.steering, last.followUp)
    decreases |updates|
  {
    var first := updates[0];
    var t := Project(s.queue, s.sequence, Wants(first.steering, first.followUp), first.now);
    if |updates| == 1 {
      ProjectShows(s.queue, s.sequence, first.steering, first.followUp, first.now);
      assert Run(t, updates[1..]) == t;
    } else {
      RunShowsTheLast(t, updates[1..]);
    }
  }

  // ---- The session host's queue -------------------------------------------------------------------

  class PromptQueue {
    var queue: seq<Queued>
    var sequence: nat

    ghost predicate Valid()
      reads this
    {
      Identified(State(queue, sequence))
    }

    constructor ()
      ensures Valid() && queue == [] && sequence == 0
    {
      queue, sequence := [], 0;
    }

    /** Re-projects the agent's queue, consuming what is left of the old one as it matches. */
    method ProjectQueue(steering: seq<string>, followUp: seq<string>, now: int) returns (shown: seq<Queued>)
      requires Valid()
      modifies this
      ensures Valid() && shown == queue
      ensures State(queue, sequence) == Project(old(queue), old(sequence), Wants(steering, followUp), now)
      ensures ShowsInOrder(shown, steering, followUp)
    {
      hide ShowsInOrder;
      var wants := Wants(steering, followUp);
      ProjectIdentifies(queue, sequence, wants, now);
      ghost var target := Project(queue, sequence, wants, now);
      hide Splice, Identified, Project, Find, Distinct, Wants, WantEach;
      var previous := queue;
      shown := [];
      var index := 0;
      while index < |wants|
        invariant index <= |wants|
        invariant target.sequence == Project(previous, sequence, wants[index..], now).sequence
        invariant target.queue == shown + Project(previous, sequence, wants[index..], now).queue
      {
        ProjectFrom(previous, sequence, wants, index, now);
        ghost var whole := Project(previous, sequence, wants[index..], now);
        var found := Find(previous, wants[index]);
        var next;
        if found < |previous| {
          next := previous[found];
          previous := Splice(previous, found);
        } else {
          sequence := sequence + 1;
          next := Queued(sequence, wants[index], now);
        }
        ghost var rest := Project(previous, sequence, wants[index + 1..], now);
        assert whole == Before(next, rest);
        assert shown + ([next] + rest.queue) == (shown + [next]) + rest.queue;
        shown := shown + [next];
        index := index + 1;
      }
      ProjectFrom(previous, sequence, wants, index, now);
      assert shown + [] == shown;
      queue := shown;
      ProjectShows(old(queue), old(sequence), steering, followUp, now);
    }
  }
}
