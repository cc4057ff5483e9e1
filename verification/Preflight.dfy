/**
 * Prompt preflights for one host. Each waits for the ones before it through a chain of
 * promises; the chain's state is dropped when nobody is left in it and made afresh for the
 * next. Between any two steps of one preflight any steps of others may come.
 */
module Preflight {
  import opened Wrappers

  /** What a tail resolves to: nothing to wait for, or an earlier tail and then one preflight's end. */
  datatype Promise = Resolved | Then(previous: Promise, own: nat)

  predicate Settled(promise: Promise, tickets: seq<Ticket>) {
    match promise
    case Resolved => true
    case Then(previous, own) => Settled(previous, tickets) && own < |tickets| && tickets[own].finished
  }

  /** One shared state object; a host's preflights keep the one they began with. */
  datatype Chain = Chain(active: nat, tail: Promise)

  /** `entered` once it is past its wait and may touch the session. */
  datatype Ticket = Ticket(chain: nat, waitsFor: Option<Promise>, entered: bool, finished: bool)

  datatype State = State(chains: seq<Chain>, current: Option<nat>, tickets: seq<Ticket>)

  datatype Step = Begin | Enter(ticket: nat) | Finish(ticket: nat)

  const START := State([], None, [])

  predicate WellFormed(s: State) {
    && (s.current.Some? ==> s.current.value < |s.chains|)
    && (forall t: nat :: t < |s.tickets| ==> s.tickets[t].chain < |s.chains|)
  }

  /** The state a new preflight joins: the one in the map, or a fresh one. */
  function Joined(s: State): State {
    if s.current.Some? then s
    else s.(chains := s.chains + [Chain(0, Resolved)], current := Some(|s.chains|))
  }

  function BeginOne(s: State): (t: State)
    requires WellFormed(s)
    ensures WellFormed(t)
  {
    var joined := Joined(s);
    var index := joined.current.value;
    var chain := joined.chains[index];
    var waitsFor := if chain.active > 0 then Some(chain.tail) else None;
    joined.(chains := joined.chains[index := Chain(chain.active + 1, Then(chain.tail, |s.tickets|))],
            tickets := s.tickets + [Ticket(index, waitsFor, false, false)])
  }

  predicate MayEnter(s: State, t: nat) {
    && t < |s.tickets| && !s.tickets[t].entered && !s.tickets[t].finished
    && (s.tickets[t].waitsFor.None? || Settled(s.tickets[t].waitsFor.value, s.tickets))
  }

  function EnterOne(s: State, t: nat): (r: State)
    requires WellFormed(s)
    ensures WellFormed(r)
  {
    if MayEnter(s, t) then s.(tickets := s.tickets[t := s.tickets[t].(entered := true)]) else s
  }

  /** Finishing is idempotent, and the last one out drops the state if it is still the host's. */
  function FinishOne(s: State, t: nat): (r: State)
    requires WellFormed(s)
    ensures WellFormed(r)
  {
    if t >= |s.tickets| || s.tickets[t].finished then s
    else
      var index := s.tickets[t].chain;
      var chain := s.chains[index];
      var active := if chain.active > 0 then chain.active - 1 else 0;
      State(
        s.chains[index := chain.(active := active)],
        if active == 0 && s.current == Some(index) then None else s.current,
        s.tickets[t := s.tickets[t].(finished := true)])
  }

  function Next(s: State, step: Step): (r: State)
    requires WellFormed(s)
    ensures WellFormed(r)
  {
    match step
    case Begin => BeginOne(s)
    case Enter(t) => EnterOne(s, t)
    case Finish(t) => FinishOne(s, t)
  }

  function Run(s: State, steps: seq<Step>): (r: State)
    requires WellFormed(s)
    ensures WellFormed(r)
    decreases |steps|
  {
    if steps == [] then s else Run(Next(s, steps[0]), steps[1..])
  }

  // ---- What every step keeps ------------------------------------------------------------

  function Unfinished(tickets: seq<Ticket>): set<nat> {
    set t: nat | t < |tickets| && !tickets[t].finished
  }

  predicate DoneBefore(tickets: seq<Ticket>, t: nat) {
    t <= |tickets| && forall k: nat :: k < t ==> tickets[k].finished
  }

  /** The preflights a tail mentions, all of which came before it. */
  predicate Mentions(promise: Promise, t: nat) {
    match promise
    case Resolved => false
    case Then(previous, own) => own == t || Mentions(previous, t)
  }

  /** A tail stands for everything before `t`: what it leaves out has already finished. */
  ghost predicate Covers(s: State, promise: Promise, t: nat) {
    && t <= |s.tickets|
    && (forall k: nat :: Mentions(promise, k) ==> k < t)
    && (forall k: nat :: k < t && !s.tickets[k].finished ==> Mentions(promise, k))
  }

  ghost predicate Ordered(s: State) {
    && WellFormed(s)
    && (s.current.None? ==> Unfinished(s.tickets) == {})
    && (s.current.Some? ==>
          && s.chains[s.current.value].active == |Unfinished(s.tickets)| > 0
          && Covers(s, s.chains[s.current.value].tail, |s.tickets|))
    && (forall t: nat :: t < |s.tickets| && !s.tickets[t].finished ==> Some(s.tickets[t].chain) == s.current)
    && (forall t: nat :: t < |s.tickets| ==>
          match s.tickets[t].waitsFor
          case Some(promise) => Covers(s, promise, t)
          case None => DoneBefore(s.tickets, t))
    && (forall t: nat :: t < |s.tickets| && s.tickets[t].entered ==> DoneBefore(s.tickets, t))
  }

  lemma {:induction false} SettledHasFinished(promise: Promise, tickets: seq<Ticket>, k: nat)
    requires Settled(promise, tickets) && Mentions(promise, k)
    ensures k < |tickets| && tickets[k].finished
  {
    if k != promise.own {
      SettledHasFinished(promise.previous, tickets, k);
    }
  }

  lemma {:induction false} FinishedSettles(promise: Promise, tickets: seq<Ticket>)
    requires forall k: nat :: Mentions(promise, k) ==> k < |tickets| && tickets[k].finished
    ensures Settled(promise, tickets)
  {
    match promise
    case Resolved =>
    case Then(previous, own) =>
      assert Mentions(promise, own);
      forall k: nat | Mentions(previous, k)
        ensures k < |tickets| && tickets[k].finished
      {
        assert Mentions(promise, k);
      }
      FinishedSettles(previous, tickets);
  }

  /** A tail that covers what came before settles exactly when all of it has finished. */
  lemma CoverSettles(s: State, promise: Promise, t: nat)
    requires Covers(s, promise, t)
    ensures Settled(promise, s.tickets) <==> DoneBefore(s.tickets, t)
  {
    if Settled(promise, s.tickets) {
      forall k: nat | k < t
        ensures s.tickets[k].finished
      {
        if Mentions(promise, k) {
          SettledHasFinished(promise, s.tickets, k);
        }
      }
    } else if DoneBefore(s.tickets, t) {
      FinishedSettles(promise, s.tickets);
    }
  }

  lemma CoverStays(s: State, r: State, promise: Promise, t: nat)
    requires Covers(s, promise, t) && |s.tickets| <= |r.tickets|
    requires forall k: nat :: k < |s.tickets| && s.tickets[k].finished ==> r.tickets[k].finished
    ensures Covers(r, promise, t)
  {
  }

  lemma BeginKeeps(s: State)
    requires Ordered(s)
    ensures Ordered(BeginOne(s))
  {
    var r := BeginOne(s);
    var n := |s.tickets|;
    assert Unfinished(r.tickets) == Unfinished(s.tickets) + {n};
    var index := r.current.value;
    if s.current.None? {
      assert forall k: nat :: k < n ==> k !in Unfinished(s.tickets);
      assert DoneBefore(r.tickets, n);
      assert r.chains[index].tail == Then(Resolved, n);
    } else {
      CoverStays(s, r, s.chains[index].tail, n);
      assert r.chains[index].tail == Then(s.chains[index].tail, n);
    }
    assert Covers(r, r.chains[index].tail, |r.tickets|);
    forall t: nat | t < n
      ensures match r.tickets[t].waitsFor
              case Some(promise) => Covers(r, promise, t)
              case None => DoneBefore(r.tickets, t)
    {
      if s.tickets[t].waitsFor.Some? {
        CoverStays(s, r, s.tickets[t].waitsFor.value, t);
      } else {
        assert DoneBefore(s.tickets, t);
      }
    }
    forall t: nat | t < n && s.tickets[t].entered
      ensures DoneBefore(r.tickets, t)
    {
      assert DoneBefore(s.tickets, t);
    }
  }

  lemma EnterKeeps(s: State, t: nat)
    requires Ordered(s)
    ensures Ordered(EnterOne(s, t))
  {
    var r := EnterOne(s, t);
    if MayEnter(s, t) {
      assert Unfinished(r.tickets) == Unfinished(s.tickets);
      var waitsFor := s.tickets[t].waitsFor;
      if waitsFor.Some? {
        CoverSettles(s, waitsFor.value, t);
      }
      assert DoneBefore(s.tickets, t);
      DoneKept(s, r);
    }
  }

  /** What has finished stays finished, so what waits and what has entered stays in order. */
  lemma DoneKept(s: State, r: State)
    requires |r.tickets| == |s.tickets|
    requires forall k: nat :: k < |s.tickets| && s.tickets[k].finished ==> r.tickets[k].finished
    ensures forall t: nat :: DoneBefore(s.tickets, t) ==> DoneBefore(r.tickets, t)
    ensures forall promise: Promise, t: nat :: Covers(s, promise, t) ==> Covers(r, promise, t)
  {
    forall promise: Promise, t: nat | Covers(s, promise, t)
      ensures Covers(r, promise, t)
    {
      CoverStays(s, r, promise, t);
    }
  }

  lemma FinishKeeps(s: State, t: nat)
    requires Ordered(s)
    ensures Ordered(FinishOne(s, t))
  {
    var r := FinishOne(s, t);
    if t < |s.tickets| && !s.tickets[t].finished {
      assert t in Unfinished(s.tickets);
      assert Unfinished(r.tickets) == Unfinished(s.tickets) - {t};
      DoneKept(s, r);
      assert s.current == Some(s.tickets[t].chain);
      assert |Unfinished(r.tickets)| == |Unfinished(s.tickets)| - 1;
      assert |Unfinished(r.tickets)| == 0 ==> Unfinished(r.tickets) == {};
      assert forall k: nat :: k < |r.tickets| && !r.tickets[k].finished ==> k in Unfinished(r.tickets);
    }
  }

  lemma StepKeeps(s: State, step: Step)
    requires Ordered(s)
    ensures Ordered(Next(s, step))
  {
    match step
    case Begin => BeginKeeps(s);
    case Enter(t) => EnterKeeps(s, t);
    case Finish(t) => FinishKeeps(s, t);
  }

  lemma {:induction false} RunKeeps(s: State, steps: seq<Step>)
    requires Ordered(s)
    ensures Ordered(Run(s, steps))
    decreases |steps|
  {
    if steps != [] {
      StepKeeps(s, steps[0]);
      RunKeeps(Next(s, steps[0]), steps[1..]);
    }
  }

  // ---- Mutual exclusion and order ----------------------------------------------------------

  predicate Running(s: State, t: nat) {
    t < |s.tickets| && s.tickets[t].entered && !s.tickets[t].finished
  }

  /**
   * After every run from the start at most one preflight is past its wait and unfinished, and
   * one passes its wait only when all begun before it have finished, across every time the
   * state was dropped and made again.
   */
  lemma OneAtATime(steps: seq<Step>, a: nat, b: nat)
    requires Running(Run(START, steps), a)
    ensures Running(Run(START, steps), b) ==> a == b
    ensures DoneBefore(Run(START, steps).tickets, a)
  {
    assert Unfinished(START.tickets) == {};
    RunKeeps(START, steps);
    var s := Run(START, steps);
    assert DoneBefore(s.tickets, a);
    if Running(s, b) {
      assert DoneBefore(s.tickets, b);
    }
  }

  /** A waiting preflight may go on exactly when all before it have finished, so the first never waits for ever. */
  lemma MayEnterExactlyWhen(steps: seq<Step>, t: nat)
    requires var s := Run(START, steps); t < |s.tickets| && !s.tickets[t].entered && !s.tickets[t].finished
    ensures MayEnter(Run(START, steps), t) <==> DoneBefore(Run(START, steps).tickets, t)
  {
    assert Unfinished(START.tickets) == {};
    RunKeeps(START, steps);
    var s := Run(START, steps);
    if s.tickets[t].waitsFor.Some? {
      CoverSettles(s, s.tickets[t].waitsFor.value, t);
    }
  }

  /** The map keeps no state for a host with no preflight in it, and one for a host that has any. */
  lemma KeptWhileNeeded(steps: seq<Step>)
    ensures var s := Run(START, steps);
            s.current.None? <==> forall t: nat :: t < |s.tickets| ==> s.tickets[t].finished
  {
    assert Unfinished(START.tickets) == {};
    RunKeeps(START, steps);
    var s := Run(START, steps);
    assert Unfinished(s.tickets) == {} <==> forall t: nat :: t < |s.tickets| ==> s.tickets[t].finished by {
      assert forall t: nat :: t < |s.tickets| ==> (t in Unfinished(s.tickets) <==> !s.tickets[t].finished);
    }
  }

  /** A second finish of the same preflight changes nothing. */
  lemma FinishTwice(s: State, t: nat)
    requires WellFormed(s)
    ensures FinishOne(FinishOne(s, t), t) == FinishOne(s, t)
  {
  }

  // ---- What the steps say --------------------------------------------------------------------

  function Begun(steps: seq<Step>): nat {
    if steps == [] then 0
    else Begun(steps[..|steps| - 1]) + if steps[|steps| - 1].Begin? then 1 else 0
  }

  /** A preflight has finished once a finish of it came after its begin. */
  predicate Finished(steps: seq<Step>, t: nat) {
    steps != [] &&
    var before := steps[..|steps| - 1];
    Finished(before, t) || (steps[|steps| - 1] == Finish(t) && t < Begun(before))
  }

  /** A preflight is past its wait once it tried when all begun before it had finished, and it had not. */
  predicate Passed(steps: seq<Step>, t: nat) {
    steps != [] &&
    var before := steps[..|steps| - 1];
    || Passed(before, t)
    || (steps[|steps| - 1] == Enter(t) && t < Begun(before) && !Finished(before, t)
        && forall k: nat :: k < t ==> Finished(before, k))
  }

  lemma {:induction false} RunLast(s: State, steps: seq<Step>)
    requires WellFormed(s) && steps != []
    ensures Run(s, steps) == Next(Run(s, steps[..|steps| - 1]), steps[|steps| - 1])
    decreases |steps|
  {
    var n := |steps| - 1;
    if n > 0 {
      assert steps[1..][..n - 1] == steps[..n][1..];
      RunLast(Next(s, steps[0]), steps[1..]);
    } else {
      assert steps[..0] == [] && steps[1..] == [];
    }
  }

  /** Over every run, which preflights there are, which are past their wait and which have finished. */
  lemma {:induction false} RunIs(steps: seq<Step>)
    ensures var s := Run(START, steps);
            && |s.tickets| == Begun(steps)
            && forall t: nat :: t < |s.tickets| ==>
                 s.tickets[t].finished == Finished(steps, t) && s.tickets[t].entered == Passed(steps, t)
    ensures forall t: nat :: Finished(steps, t) ==> t < Begun(steps)
    ensures forall t: nat :: Passed(steps, t) ==> t < Begun(steps)
    decreases |steps|
  {
    if steps != [] {
      var n := |steps| - 1;
      var before, last := steps[..n], steps[n];
      RunIs(before);
      RunLast(START, steps);
      var s := Run(START, before);
      hide Run;
      if last.Enter? && last.ticket < |s.tickets| && !s.tickets[last.ticket].entered
         && !s.tickets[last.ticket].finished
      {
        MayEnterExactlyWhen(before, last.ticket);
      }
    }
  }

  // ---- The runtime's map -----------------------------------------------------------------------

  /** The preflights of one host: its entry in the map, and what each preflight holds on to. */
  class PromptPreflights {
    var chains: seq<Chain>
    var current: Option<nat>
    var tickets: seq<Ticket>

    ghost function View(): State
      reads this
    {
      State(chains, current, tickets)
    }

    ghost predicate Valid()
      reads this
    {
      Ordered(View())
    }

    constructor ()
      ensures Valid() && View() == START
    {
      chains, current, tickets := [], None, [];
      new;
      assert Unfinished(tickets) == {};
    }

    /** Joins the line. It must wait exactly when somebody else is in it. */
    method Begin() returns (ticket: nat, followsAnother: bool)
      requires Valid()
      modifies this
      ensures Valid() && View() == Next(old(View()), Step.Begin)
      ensures ticket == |old(tickets)|
      ensures followsAnother <==> !DoneBefore(old(tickets), |old(tickets)|)
    {
      ghost var before := View();
      BeginKeeps(before);
      KeptExactly(before);
      if current.None? {
        chains, current := chains + [Chain(0, Resolved)], Some(|chains|);
      }
      var state := chains[current.value];
      followsAnother := state.active > 0;
      ticket := |tickets|;
      chains := chains[current.value := Chain(state.active + 1, Then(state.tail, ticket))];
      tickets := tickets + [Ticket(current.value, if followsAnother then Some(state.tail) else None, false, false)];
    }

    /** Goes on past the wait if the promise it waits for is settled. */
    method Enter(ticket: nat) returns (entered: bool)
      requires Valid() && ticket < |tickets| && !tickets[ticket].entered && !tickets[ticket].finished
      modifies `tickets
      ensures Valid() && View() == Next(old(View()), Step.Enter(ticket))
      ensures entered <==> DoneBefore(old(tickets), ticket)
    {
      ghost var before := View();
      EnterKeeps(before, ticket);
      if tickets[ticket].waitsFor.Some? {
        CoverSettles(before, tickets[ticket].waitsFor.value, ticket);
      }
      entered := tickets[ticket].waitsFor.None? || Settled(tickets[ticket].waitsFor.value, tickets);
      if entered {
        tickets := tickets[ticket := tickets[ticket].(entered := true)];
      }
    }

    method Finish(ticket: nat)
      requires Valid() && ticket < |tickets|
      modifies this
      ensures Valid() && View() == Next(old(View()), Step.Finish(ticket))
    {
      ghost var before := View();
      FinishKeeps(before, ticket);
      if tickets[ticket].finished {
        return;
      }
      var index := tickets[ticket].chain;
      assert ticket in Unfinished(tickets);
      var active := chains[index].active - 1;
      tickets := tickets[ticket := tickets[ticket].(finished := true)];
      chains := chains[index := chains[index].(active := active)];
      if active == 0 && current == Some(index) {
        current := None;
      }
    }
  }

  lemma KeptExactly(s: State)
    requires Ordered(s)
    ensures s.current.Some? <==> !DoneBefore(s.tickets, |s.tickets|)
  {
    assert forall t: nat :: t < |s.tickets| ==> (t in Unfinished(s.tickets) <==> !s.tickets[t].finished);
    if DoneBefore(s.tickets, |s.tickets|) {
      assert Unfinished(s.tickets) == {};
    }
  }
}
