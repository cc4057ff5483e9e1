/**
 * The marker beside a session file: which tool calls were running when the host died. It is
 * rewritten in place on every start and end, so a crash can leave it torn, and it is read
 * and removed by the next host to take the session's lock.
 */
module ToolMarker {
  import opened Wrappers

  datatype Call = Call(id: string, tool: string, startedAt: int, targets: seq<string>)

  /** What a call is reported as when its details did not survive. */
  const UNKNOWN: Call := Call("unknown", "unknown", 0, [])

  /** A marker either does not parse or lists entries, of which some may not be calls in full. */
  datatype Marker = Torn | Listed(entries: seq<Option<Call>>)

  // ---- The calls a host holds, in the order they began -----------------------------------

  function Lookup(calls: seq<Call>, id: string): Option<Call> {
    if calls == [] then None
    else if calls[0].id == id then Some(calls[0])
    else Lookup(calls[1..], id)
  }

  /** A call begun again under the same id keeps its place. */
  function Set(calls: seq<Call>, call: Call): seq<Call> {
    if calls == [] then [call]
    else if calls[0].id == call.id then [call] + calls[1..]
    else [calls[0]] + Set(calls[1..], call)
  }

  function Remove(calls: seq<Call>, id: string): seq<Call> {
    if calls == [] then []
    else if calls[0].id == id then calls[1..]
    else [calls[0]] + Remove(calls[1..], id)
  }

  function InFull(calls: seq<Call>): seq<Option<Call>> {
    if calls == [] then [] else [Some(calls[0])] + InFull(calls[1..])
  }

  /** What a host holding these calls keeps on disk. */
  function Image(calls: seq<Call>): Option<Marker> {
    if calls == [] then None else Some(Listed(InFull(calls)))
  }

  function Kept(entries: seq<Option<Call>>): seq<Call> {
    if entries == [] then []
    else if entries[0].Some? then [entries[0].value] + Kept(entries[1..])
    else Kept(entries[1..])
  }

  /** What the next host is told: a marker that exists always reports something. */
  function Reported(marker: Option<Marker>): (r: seq<Call>)
    ensures r == [] <==> marker.None?
  {
    match marker
    case None => []
    case Some(Torn) => [UNKNOWN]
    case Some(Listed(entries)) => if Kept(entries) == [] then [UNKNOWN] else Kept(entries)
  }

  // ---- One host's life with the session ------------------------------------------------------

  datatype Op = Begin(call: Call) | End(id: string) | Clear

  function Held(calls: seq<Call>, op: Op): seq<Call> {
    match op
    case Begin(call) => Set(calls, call)
    case End(id) => Remove(calls, id)
    case Clear => []
  }

  datatype Host = Host(calls: seq<Call>, marker: Option<Marker>)

  /** An end for a call that is not held writes nothing; every other operation rewrites the marker. */
  function Apply(h: Host, op: Op): Host {
    if op.End? && Lookup(h.calls, op.id).None? then h
    else Host(Held(h.calls, op), Image(Held(h.calls, op)))
  }

  function ApplyAll(h: Host, ops: seq<Op>): Host
    decreases |ops|
  {
    if ops == [] then h else ApplyAll(Apply(h, ops[0]), ops[1..])
  }

  /** How a host's life ends. A write that never finished leaves a marker that does not parse. */
  datatype Ending = Crashes | CrashesWriting(op: Op) | Closes

  function Left(h: Host, ending: Ending): Option<Marker> {
    match ending
    case Crashes => h.marker
    case CrashesWriting(op) =>
      if op.End? && Lookup(h.calls, op.id).None? then h.marker
      else if Held(h.calls, op) == [] then h.marker
      else Some(Torn)
    case Closes => None
  }

  const ADOPTED := Host([], None)

  // ---- What survives ---------------------------------------------------------------------------

  /** The newest word a run of operations has on one call: begun and not ended since, or not. */
  function LastWord(ops: seq<Op>, id: string): Option<Call> {
    if ops == [] then None
    else
      match ops[|ops| - 1]
      case Begin(call) => if call.id == id then Some(call) else LastWord(ops[..|ops| - 1], id)
      case End(ended) => if ended == id then None else LastWord(ops[..|ops| - 1], id)
      case Clear => None
  }

  predicate Distinct(calls: seq<Call>) {
    forall i, j :: 0 <= i < j < |calls| ==> calls[i].id != calls[j].id
  }

  lemma {:induction false} LookupIn(calls: seq<Call>, id: string)
    ensures Lookup(calls, id).Some? ==> Lookup(calls, id).value in calls && Lookup(calls, id).value.id == id
    ensures Lookup(calls, id).None? ==> forall call :: call in calls ==> call.id != id
    ensures Distinct(calls) ==> forall call :: call in calls && call.id == id ==> Lookup(calls, id) == Some(call)
  {
    if calls != [] {
      LookupIn(calls[1..], id);
    }
  }

  lemma {:induction false} SetHolds(calls: seq<Call>, call: Call, id: string)
    ensures Lookup(Set(calls, call), id) == if id == call.id then Some(call) else Lookup(calls, id)
  {
    if calls != [] && calls[0].id != call.id {
      SetHolds(calls[1..], call, id);
      assert ([calls[0]] + Set(calls[1..], call))[1..] == Set(calls[1..], call);
    }
  }

  lemma DistinctBefore(head: Call, rest: seq<Call>)
    requires Distinct(rest) && forall c :: c in rest ==> c.id != head.id
    ensures Distinct([head] + rest)
  {
  }

  lemma {:induction false} SetStaysDistinct(calls: seq<Call>, call: Call)
    requires Distinct(calls)
    ensures Distinct(Set(calls, call))
    ensures forall c :: c in Set(calls, call) ==> c == call || c in calls
  {
    if calls != [] && calls[0].id != call.id {
      SetStaysDistinct(calls[1..], call);
      assert forall c :: c in calls[1..] ==> c.id != calls[0].id;
      DistinctBefore(calls[0], Set(calls[1..], call));
    }
  }

  lemma {:induction false} RemoveHolds(calls: seq<Call>, ended: string, id: string)
    requires Distinct(calls)
    ensures Lookup(Remove(calls, ended), id) == if id == ended then None else Lookup(calls, id)
  {
    if calls != [] {
      if calls[0].id == ended {
        LookupIn(calls[1..], ended);
        if Lookup(calls[1..], ended).Some? {
          assert false;
        }
      } else {
        RemoveHolds(calls[1..], ended, id);
        assert ([calls[0]] + Remove(calls[1..], ended))[1..] == Remove(calls[1..], ended);
      }
    }
  }

  lemma {:induction false} RemoveStaysDistinct(calls: seq<Call>, ended: string)
    requires Distinct(calls)
    ensures Distinct(Remove(calls, ended))
    ensures forall c :: c in Remove(calls, ended) ==> c in calls
  {
    if calls != [] && calls[0].id != ended {
      RemoveStaysDistinct(calls[1..], ended);
      assert forall c :: c in calls[1..] ==> c.id != calls[0].id;
      DistinctBefore(calls[0], Remove(calls[1..], ended));
    }
  }

  /** The marker on disk is always the image of the calls held. */
  predicate Sound(h: Host) {
    Distinct(h.calls) && h.marker == Image(h.calls)
  }

  lemma ApplyKeeps(h: Host, op: Op)
    requires Sound(h)
    ensures Sound(Apply(h, op))
    ensures Apply(h, op).calls == Held(h.calls, op)
  {
    match op
    case Begin(call) => SetStaysDistinct(h.calls, call);
    case End(id) =>
      RemoveStaysDistinct(h.calls, id);
      if Lookup(h.calls, id).None? {
        RemoveAbsent(h.calls, id);
      }
    case Clear =>
  }

  lemma {:induction false} RemoveAbsent(calls: seq<Call>, id: string)
    requires Lookup(calls, id).None?
    ensures Remove(calls, id) == calls
  {
    if calls != [] {
      RemoveAbsent(calls[1..], id);
    }
  }

  lemma {:induction false} ApplyLast(h: Host, ops: seq<Op>)
    requires ops != []
    ensures ApplyAll(h, ops) == Apply(ApplyAll(h, ops[..|ops| - 1]), ops[|ops| - 1])
    decreases |ops|
  {
    if |ops| > 1 {
      ApplyLast(Apply(h, ops[0]), ops[1..]);
      assert ops[1..][..|ops| - 2] == ops[..|ops| - 1][1..];
    } else {
      assert ops[1..] == [] && ops[..0] == [];
    }
  }

  /** A host holds exactly the calls begun and not ended since, as they were last begun. */
  lemma {:induction false} HoldsTheOutstanding(ops: seq<Op>, id: string)
    ensures Sound(ApplyAll(ADOPTED, ops))
    ensures Lookup(ApplyAll(ADOPTED, ops).calls, id) == LastWord(ops, id)
    decreases |ops|
  {
    if ops != [] {
      var before := ops[..|ops| - 1];
      var op := ops[|ops| - 1];
      HoldsTheOutstanding(before, id);
      ApplyLast(ADOPTED, ops);
      var h := ApplyAll(ADOPTED, before);
      ApplyKeeps(h, op);
      match op
      case Begin(call) => SetHolds(h.calls, call, id);
      case End(ended) => RemoveHolds(h.calls, ended, id);
      case Clear =>
    }
  }

  lemma {:induction false} KeptInFull(calls: seq<Call>)
    ensures Kept(InFull(calls)) == calls
  {
    if calls != [] {
      KeptInFull(calls[1..]);
      assert ([Some(calls[0])] + InFull(calls[1..]))[1..] == InFull(calls[1..]);
    }
  }

  lemma ImageReports(calls: seq<Call>)
    ensures Reported(Image(calls)) == calls
  {
    KeptInFull(calls);
  }

  /**
   * A crash between operations is reported in full: exactly the calls begun and not ended,
   * so no call that ended and none that was cleared, and nothing when none was running.
   */
  lemma CrashIsReported(ops: seq<Op>, call: Call)
    ensures call in Reported(Left(ApplyAll(ADOPTED, ops), Crashes)) <==> LastWord(ops, call.id) == Some(call)
  {
    var h := ApplyAll(ADOPTED, ops);
    HoldsTheOutstanding(ops, call.id);
    LookupIn(h.calls, call.id);
    ImageReports(h.calls);
  }

  /** The begin from which on a call has been held, under whatever details it was begun again. */
  function HeldSince(ops: seq<Op>, id: string): (since: Option<nat>)
    ensures since.Some? ==> since.value < |ops| && ops[since.value].Begin? && ops[since.value].call.id == id
  {
    if ops == [] then None
    else
      var n := |ops| - 1;
      var before := HeldSince(ops[..n], id);
      match ops[n]
      case Begin(call) => if call.id == id && before.None? then Some(n) else before
      case End(ended) => if ended == id then None else before
      case Clear => None
  }

  lemma {:induction false} SetIs(calls: seq<Call>, call: Call)
    ensures Set(calls, call) == calls + [call]
            || exists i :: 0 <= i < |calls| && calls[i].id == call.id && Set(calls, call) == calls[i := call]
    ensures (exists c :: c in calls && c.id == call.id) ==> |Set(calls, call)| == |calls|
  {
    if calls != [] && calls[0].id != call.id {
      SetIs(calls[1..], call);
      var rest := calls[1..];
      if Set(rest, call) == rest + [call] {
        assert Set(calls, call) == calls + [call];
      } else {
        var i :| 0 <= i < |rest| && rest[i].id == call.id && Set(rest, call) == rest[i := call];
        assert Set(calls, call) == calls[i + 1 := call];
      }
    } else if calls != [] {
      assert Set(calls, call) == calls[0 := call];
    }
  }

  function Cut(calls: seq<Call>, i: nat): seq<Call>
    requires i < |calls|
  {
    calls[..i] + calls[i + 1..]
  }

  lemma CutRest(calls: seq<Call>, i: nat)
    requires i + 1 < |calls|
    ensures Cut(calls, i + 1) == [calls[0]] + Cut(calls[1..], i)
  {
  }

  lemma {:induction false} RemoveIs(calls: seq<Call>, id: string)
    ensures Remove(calls, id) == calls
            || exists i: nat :: i < |calls| && calls[i].id == id && Remove(calls, id) == Cut(calls, i)
  {
    if calls != [] && calls[0].id == id {
      assert Remove(calls, id) == Cut(calls, 0);
    } else if calls != [] {
      RemoveIs(calls[1..], id);
      hide Cut;
      if Remove(calls[1..], id) != calls[1..] {
        var i: nat :| i < |calls[1..]| && calls[1..][i].id == id && Remove(calls[1..], id) == Cut(calls[1..], i);
        CutRest(calls, i);
      }
    }
  }

  /** The calls a host holds are in the order from which they have been held. */
  predicate InOrder(ops: seq<Op>, calls: seq<Call>) {
    && (forall i :: 0 <= i < |calls| ==> HeldSince(ops, calls[i].id).Some?)
    && (forall i, j :: 0 <= i < j < |calls| ==>
          HeldSince(ops, calls[i].id).value < HeldSince(ops, calls[j].id).value)
  }

  lemma {:induction false} HeldIsOutstanding(ops: seq<Op>, id: string)
    ensures HeldSince(ops, id).Some? <==> LastWord(ops, id).Some?
  {
    if ops != [] {
      HeldIsOutstanding(ops[..|ops| - 1], id);
    }
  }

  lemma BeginInOrder(ops: seq<Op>, calls: seq<Call>, call: Call)
    requires Distinct(calls) && InOrder(ops, calls)
    requires forall id :: HeldSince(ops, id).Some? <==> exists c :: c in calls && c.id == id
    ensures InOrder(ops + [Begin(call)], Set(calls, call))
  {
    hide InOrder, Distinct;
    var more, next := ops + [Begin(call)], Set(calls, call);
    assert more[..|more| - 1] == ops;
    SetIs(calls, call);
    if next == calls + [call] {
      assert |next| != |calls|;
      assert HeldSince(ops, call.id).None?;
      OneMoreInOrder(ops, more, calls, call);
    } else {
      assert forall i :: 0 <= i < |calls| ==> HeldSince(more, calls[i].id) == HeldSince(ops, calls[i].id);
      SameInOrder(ops, more, calls, next);
    }
  }

  lemma OneMoreInOrder(ops: seq<Op>, more: seq<Op>, calls: seq<Call>, call: Call)
    requires InOrder(ops, calls) && HeldSince(more, call.id) == Some(|ops|)
    requires forall i :: 0 <= i < |calls| ==> HeldSince(more, calls[i].id) == HeldSince(ops, calls[i].id)
    ensures InOrder(more, calls + [call])
  {
  }

  lemma SameInOrder(ops: seq<Op>, more: seq<Op>, calls: seq<Call>, next: seq<Call>)
    requires InOrder(ops, calls) && |next| == |calls|
    requires forall i :: 0 <= i < |calls| ==>
               next[i].id == calls[i].id && HeldSince(more, calls[i].id) == HeldSince(ops, calls[i].id)
    ensures InOrder(more, next)
  {
    hide HeldSince;
  }

  lemma EndInOrder(ops: seq<Op>, calls: seq<Call>, id: string)
    requires Distinct(calls) && InOrder(ops, calls)
    ensures InOrder(ops + [End(id)], Remove(calls, id))
  {
    hide InOrder, Distinct;
    var more, next := ops + [End(id)], Remove(calls, id);
    assert more[..|more| - 1] == ops;
    RemoveIs(calls, id);
    RemoveHolds(calls, id, id);
    LookupIn(next, id);
    forall i | 0 <= i < |next|
      ensures HeldSince(more, next[i].id) == HeldSince(ops, next[i].id)
    {
      assert next[i] in next;
    }
    if next == calls {
      OneFewerInOrder(ops, more, calls, next, |calls|);
    } else {
      var k: nat :| k < |calls| && calls[k].id == id && next == Cut(calls, k);
      OneFewerInOrder(ops, more, calls, next, k);
    }
  }

  lemma OneFewerInOrder(ops: seq<Op>, more: seq<Op>, calls: seq<Call>, next: seq<Call>, k: nat)
    requires InOrder(ops, calls)
    requires if k < |calls| then next == Cut(calls, k) else next == calls
    requires forall i :: 0 <= i < |next| ==> HeldSince(more, next[i].id) == HeldSince(ops, next[i].id)
    ensures InOrder(more, next)
  {
    hide HeldSince;
    forall i | 0 <= i < |next|
      ensures next[i] == calls[if i < k then i else i + 1]
    {
    }
  }

  /** Over a host's life the calls it holds stay in the order from which they have been held. */
  lemma {:induction false} HeldInOrder(ops: seq<Op>)
    ensures InOrder(ops, ApplyAll(ADOPTED, ops).calls)
    decreases |ops|
  {
    hide InOrder, HeldSince;
    if ops == [] {
      NoneInOrder();
    } else {
      var before, op := ops[..|ops| - 1], ops[|ops| - 1];
      var h := ApplyAll(ADOPTED, before);
      HeldInOrder(before);
      HoldsTheOutstanding(before, "");
      ApplyLast(ADOPTED, ops);
      ApplyKeeps(h, op);
      assert ops == before + [op];
      match op
      case Begin(call) =>
        forall id
          ensures HeldSince(before, id).Some? <==> exists c :: c in h.calls && c.id == id
        {
          HoldsTheOutstanding(before, id);
          HeldIsOutstanding(before, id);
          LookupIn(h.calls, id);
        }
        BeginInOrder(before, h.calls, call);
      case End(id) => EndInOrder(before, h.calls, id);
      case Clear => ClearInOrder(ops);
    }
  }

  lemma NoneInOrder()
    ensures InOrder([], [])
  {
  }

  lemma ClearInOrder(ops: seq<Op>)
    ensures InOrder(ops, [])
  {
  }

  /** A crash is reported in the order in which the calls began, each with its newest details. */
  lemma ReportedInOrder(ops: seq<Op>)
    ensures InOrder(ops, Reported(Left(ApplyAll(ADOPTED, ops), Crashes)))
  {
    hide InOrder;
    HeldInOrder(ops);
    HoldsTheOutstanding(ops, "");
    ImageReports(ApplyAll(ADOPTED, ops).calls);
  }

  /** Of a marker whose entries are not all calls in full, those that are reported, in their order. */
  lemma {:induction false} KeptIs(entries: seq<Option<Call>>, more: seq<Option<Call>>, call: Call)
    ensures Kept(entries + more) == Kept(entries) + Kept(more)
    ensures Kept([None]) == [] && Kept([Some(call)]) == [call]
  {
    if entries == [] {
      assert entries + more == more;
    } else {
      assert (entries + more)[1..] == entries[1..] + more;
      KeptIs(entries[1..], more, call);
    }
  }

  ghost predicate SomeOutstanding(ops: seq<Op>) {
    exists id :: LastWord(ops, id).Some?
  }

  /** Whether anything was running, or was about to be written down as running, when the host stopped. */
  ghost predicate Interrupted(ops: seq<Op>, ending: Ending) {
    match ending
    case Crashes => SomeOutstanding(ops)
    case CrashesWriting(op) => SomeOutstanding(ops) || SomeOutstanding(ops + [op])
    case Closes => false
  }

  lemma AnyHeld(ops: seq<Op>)
    ensures ApplyAll(ADOPTED, ops).calls != [] <==> SomeOutstanding(ops)
  {
    var calls := ApplyAll(ADOPTED, ops).calls;
    if calls != [] {
      HoldsTheOutstanding(ops, calls[0].id);
    } else if id :| LastWord(ops, id).Some? {
      HoldsTheOutstanding(ops, id);
    }
  }

  /** However a host's life ends, the next is told of an interruption exactly when there was one. */
  lemma ReportedExactlyWhenInterrupted(ops: seq<Op>, ending: Ending)
    ensures Reported(Left(ApplyAll(ADOPTED, ops), ending)) != [] <==> Interrupted(ops, ending)
  {
    var h := ApplyAll(ADOPTED, ops);
    HoldsTheOutstanding(ops, "");
    AnyHeld(ops);
    if ending.CrashesWriting? {
      var more := ops + [ending.op];
      ApplyLast(ADOPTED, more);
      assert more[..|more| - 1] == ops;
      ApplyKeeps(h, ending.op);
      AnyHeld(more);
    }
  }

  /** A crash in the middle of writing the marker is reported as a call whose details are lost. */
  lemma TornIsUnknown(ops: seq<Op>, op: Op)
    ensures var h := ApplyAll(ADOPTED, ops);
            var r := Reported(Left(h, CrashesWriting(op)));
            r == [Call("unknown", "unknown", 0, [])] || r == h.calls
    ensures op.Begin? ==> Reported(Left(ApplyAll(ADOPTED, ops), CrashesWriting(op))) == [UNKNOWN]
  {
    HoldsTheOutstanding(ops, "");
    ImageReports(ApplyAll(ADOPTED, ops).calls);
    if op.Begin? {
      SetHolds(ApplyAll(ADOPTED, ops).calls, op.call, op.call.id);
    }
  }

  // ---- Adoption ----------------------------------------------------------------------------------

  /**
   * One attempt to open the session: refused at an unreadable header or at the lock, before the
   * marker is looked at; failed once the marker had been taken; or opened, whereupon the host
   * shows what the marker said and lives its own life with the session.
   */
  datatype Attempt = Refused | Failed | Opened(ops: seq<Op>, ending: Ending)

  /** The marker an attempt leaves behind, with the whole life of the host it may have opened. */
  function After(marker: Option<Marker>, attempt: Attempt): Option<Marker> {
    match attempt
    case Refused => marker
    case Failed => None
    case Opened(ops, ending) => Left(ApplyAll(ADOPTED, ops), ending)
  }

  function ShownTo(marker: Option<Marker>, attempt: Attempt): seq<Call> {
    if attempt.Opened? then Reported(marker) else []
  }

  function MarkerAfter(marker: Option<Marker>, attempts: seq<Attempt>): Option<Marker> {
    if attempts == [] then marker
    else After(MarkerAfter(marker, attempts[..|attempts| - 1]), attempts[|attempts| - 1])
  }

  /** What each attempt shows its user. */
  function Shown(marker: Option<Marker>, attempts: seq<Attempt>): (r: seq<seq<Call>>)
    ensures |r| == |attempts|
  {
    if attempts == [] then []
    else
      var before := attempts[..|attempts| - 1];
      Shown(marker, before) + [ShownTo(MarkerAfter(marker, before), attempts[|attempts| - 1])]
  }

  datatype Fate = Waiting | Lost | ShownAt(index: nat)

  /** What becomes of a marker: the first attempt that is not refused before it decides. */
  function FateOf(attempts: seq<Attempt>): (fate: Fate)
    ensures fate.ShownAt? ==> fate.index < |attempts|
  {
    if attempts == [] then Waiting
    else if attempts[0].Failed? then Lost
    else if attempts[0].Opened? then ShownAt(0)
    else
      var later := FateOf(attempts[1..]);
      if later.ShownAt? then ShownAt(later.index + 1) else later
  }

  predicate AllRefused(attempts: seq<Attempt>) {
    forall i :: 0 <= i < |attempts| ==> attempts[i].Refused?
  }

  /** The fate a marker has, said without recursion: by the first attempt to get as far as it. */
  lemma {:induction false} FateIs(attempts: seq<Attempt>)
    ensures FateOf(attempts).Waiting? <==> AllRefused(attempts)
    ensures forall i: nat :: i < |attempts| && AllRefused(attempts[..i]) ==>
              && (FateOf(attempts) == ShownAt(i) <==> attempts[i].Opened?)
              && (attempts[i].Failed? ==> FateOf(attempts).Lost?)
  {
    if attempts != [] && attempts[0].Refused? {
      FateIs(attempts[1..]);
      assert attempts == [attempts[0]] + attempts[1..];
      forall i: nat | i < |attempts| && AllRefused(attempts[..i])
        ensures FateOf(attempts) == ShownAt(i) <==> attempts[i].Opened?
        ensures attempts[i].Failed? ==> FateOf(attempts).Lost?
      {
        if i > 0 {
          assert attempts[1..][..i - 1] == attempts[..i][1..];
          assert attempts[1..][i - 1] == attempts[i];
        }
      }
    } else if attempts != [] {
      assert forall i: nat :: 0 < i <= |attempts| ==> attempts[..i][0] == attempts[0];
    }
  }

  lemma FateExtends(attempts: seq<Attempt>, attempt: Attempt)
    ensures FateOf(attempts + [attempt]) ==
            if !FateOf(attempts).Waiting? then FateOf(attempts)
            else if attempt.Opened? then ShownAt(|attempts|)
            else if attempt.Failed? then Lost
            else Waiting
    decreases |attempts|
  {
    if attempts == [] {
      assert ([attempt])[1..] == [];
    } else {
      assert (attempts + [attempt])[1..] == attempts[1..] + [attempt];
      FateExtends(attempts[1..], attempt);
    }
  }

  lemma ShownExtends(marker: Option<Marker>, attempts: seq<Attempt>, attempt: Attempt)
    ensures MarkerAfter(marker, attempts + [attempt]) == After(MarkerAfter(marker, attempts), attempt)
    ensures Shown(marker, attempts + [attempt])
            == Shown(marker, attempts) + [ShownTo(MarkerAfter(marker, attempts), attempt)]
  {
    assert (attempts + [attempt])[..|attempts|] == attempts;
  }

  /** What an interruption changes about a list of attempts, by its fate. */
  predicate ChangesOneThing(marker: Option<Marker>, attempts: seq<Attempt>) {
    match FateOf(attempts)
    case Waiting =>
      && Shown(marker, attempts) == Shown(None, attempts)
      && MarkerAfter(marker, attempts) == marker && MarkerAfter(None, attempts) == None
    case Lost =>
      && Shown(marker, attempts) == Shown(None, attempts)
      && MarkerAfter(marker, attempts) == MarkerAfter(None, attempts)
    case ShownAt(i) =>
      && Shown(None, attempts)[i] == []
      && Shown(marker, attempts) == Shown(None, attempts)[i := Reported(marker)]
      && MarkerAfter(marker, attempts) == MarkerAfter(None, attempts)
  }

  /**
   * Over any attempts to open a session, with whatever lives they lead to, an interruption changes
   * one thing: the first attempt to get as far as the marker shows it whole if it opens. If that
   * attempt fails nothing is changed at all, and as long as all are refused the marker stays.
   */
  lemma {:induction false} ShownOnce(marker: Option<Marker>, attempts: seq<Attempt>)
    ensures ChangesOneThing(marker, attempts)
    decreases |attempts|
  {
    if attempts != [] {
      var before, last := attempts[..|attempts| - 1], attempts[|attempts| - 1];
      assert attempts == before + [last];
      ShownOnce(marker, before);
      OneMoreAttempt(marker, before, last);
    }
  }

  lemma OneMoreAttempt(marker: Option<Marker>, before: seq<Attempt>, last: Attempt)
    requires ChangesOneThing(marker, before)
    ensures ChangesOneThing(marker, before + [last])
  {
    FateExtends(before, last);
    ShownExtends(marker, before, last);
    ShownExtends(None, before, last);
    hide MarkerAfter, Shown, FateOf, Left, ApplyAll, Reported;
    if FateOf(before).ShownAt? {
      var i, clean := FateOf(before).index, Shown(None, before);
      var next := [ShownTo(MarkerAfter(None, before), last)];
      assert clean[i := Reported(marker)] + next == (clean + next)[i := Reported(marker)];
    }
  }

  /** The last attempt that got as far as the marker: the one whose marker is on disk. */
  function Author(attempts: seq<Attempt>): (author: Option<nat>)
    ensures author.None? <==> forall i :: 0 <= i < |attempts| ==> attempts[i].Refused?
    ensures author.Some? ==> author.value < |attempts| && !attempts[author.value].Refused?
    ensures author.Some? ==> forall i :: author.value < i < |attempts| ==> attempts[i].Refused?
  {
    if attempts == [] then None
    else if !attempts[|attempts| - 1].Refused? then Some(|attempts| - 1)
    else Author(attempts[..|attempts| - 1])
  }

  lemma {:induction false} MarkerIsItsAuthors(attempts: seq<Attempt>)
    ensures MarkerAfter(None, attempts) ==
            match Author(attempts) case None => None case Some(j) => After(None, attempts[j])
    decreases |attempts|
  {
    if attempts != [] {
      MarkerIsItsAuthors(attempts[..|attempts| - 1]);
    }
  }

  lemma {:induction false} ShownAtEach(marker: Option<Marker>, attempts: seq<Attempt>, k: nat)
    requires k < |attempts|
    ensures Shown(marker, attempts)[k] == ShownTo(MarkerAfter(marker, attempts[..k]), attempts[k])
    decreases |attempts|
  {
    if k < |attempts| - 1 {
      var before := attempts[..|attempts| - 1];
      ShownAtEach(marker, before, k);
      assert before[..k] == attempts[..k];
    }
  }

  /** What a host says of the life it reports: whether anything was running, and which calls. */
  ghost predicate TellsOf(told: seq<Call>, ops: seq<Op>, ending: Ending) {
    && (told != [] <==> Interrupted(ops, ending))
    && (ending.Crashes? ==> forall call :: call in told <==> LastWord(ops, call.id) == Some(call))
    && (ending.CrashesWriting? ==>
          forall call :: call in told ==> call == UNKNOWN || LastWord(ops, call.id) == Some(call))
  }

  lemma LeftTellsOf(ops: seq<Op>, ending: Ending)
    ensures TellsOf(Reported(Left(ApplyAll(ADOPTED, ops), ending)), ops, ending)
  {
    var told := Reported(Left(ApplyAll(ADOPTED, ops), ending));
    ReportedExactlyWhenInterrupted(ops, ending);
    forall call
      ensures ending.Crashes? ==> (call in told <==> LastWord(ops, call.id) == Some(call))
      ensures ending.CrashesWriting? && call in told ==> call == UNKNOWN || LastWord(ops, call.id) == Some(call)
    {
      CrashIsReported(ops, call);
      if ending.CrashesWriting? {
        TornIsUnknown(ops, ending.op);
        HoldsTheOutstanding(ops, call.id);
        LookupIn(ApplyAll(ADOPTED, ops).calls, call.id);
      }
    }
  }

  /**
   * Over any attempts and lives since the session was made, what an attempt that opens shows is of
   * the last life before it, and nothing if there was none or a failed attempt came between.
   */
  lemma ShowsTheLastLife(attempts: seq<Attempt>, k: nat)
    requires k < |attempts| && attempts[k].Opened?
    ensures var told := Shown(None, attempts)[k];
            match Author(attempts[..k])
            case None => told == []
            case Some(j) =>
              if attempts[j].Failed? then told == [] else TellsOf(told, attempts[j].ops, attempts[j].ending)
  {
    ShownAtEach(None, attempts, k);
    MarkerIsItsAuthors(attempts[..k]);
    var author := Author(attempts[..k]);
    if author.Some? && attempts[author.value].Opened? {
      LeftTellsOf(attempts[author.value].ops, attempts[author.value].ending);
    }
  }

  // ---- The marker object ---------------------------------------------------------------------------

  /** The path the marker is at, whichever host looks at it. */
  class MarkerPath {
    var marker: Option<Marker>

    constructor (marker: Option<Marker>)
      ensures this.marker == marker
    {
      this.marker := marker;
    }

    /** Reads and removes what a previous host left. */
    method TakeInterruptedTools() returns (interrupted: seq<Call>)
      modifies this
      ensures interrupted == Reported(old(marker)) && marker.None?
    {
      match marker {
        case None => return [];
        case Some(Torn) => interrupted := [UNKNOWN];
        case Some(Listed(entries)) =>
          interrupted := [];
          var index := 0;
          while index < |entries|
            invariant index <= |entries|
            invariant interrupted + Kept(entries[index..]) == Kept(entries)
          {
            if entries[index].Some? {
              assert interrupted + ([entries[index].value] + Kept(entries[index + 1..]))
                  == (interrupted + [entries[index].value]) + Kept(entries[index + 1..]);
              interrupted := interrupted + [entries[index].value];
            }
            index := index + 1;
          }
          if interrupted == [] {
            interrupted := [UNKNOWN];
          }
      }
      marker := None;
    }
  }

  class ToolMarker {
    const path: MarkerPath
    var calls: seq<Call>

    ghost function View(): Host
      reads this, path
    {
      Host(calls, path.marker)
    }

    ghost predicate Valid()
      reads this, path
    {
      Sound(View())
    }

    constructor (path: MarkerPath)
      requires path.marker.None?
      ensures Valid() && View() == ADOPTED && this.path == path
    {
      this.path, this.calls := path, [];
    }

    method Begin(call: Call)
      requires Valid()
      modifies this, path
      ensures Valid() && View() == Apply(old(View()), Op.Begin(call))
    {
      ApplyKeeps(View(), Op.Begin(call));
      calls := Set(calls, call);
      Flush();
    }

    method End(id: string)
      requires Valid()
      modifies this, path
      ensures Valid() && View() == Apply(old(View()), Op.End(id))
    {
      ApplyKeeps(View(), Op.End(id));
      if Lookup(calls, id).None? {
        return;
      }
      calls := Remove(calls, id);
      Flush();
    }

    method Clear()
      requires Valid()
      modifies this, path
      ensures Valid() && View() == Apply(old(View()), Op.Clear) && path.marker.None?
    {
      calls := [];
      Flush();
    }

    /** Writes what is held, or removes the file when nothing is. */
    method Flush()
      modifies path
      ensures path.marker == Image(calls)
    {
      path.marker := if calls == [] then None else Some(Listed(InFull(calls)));
    }
  }
}
