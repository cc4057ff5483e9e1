/** The gate the agent's tool hook waits at, over the two maps of parked requests. */
module ApprovalGate {
  import opened Wrappers
  import opened P = Parking
  import A = Approvals

  datatype Verdict = Proceed | Block

  class ApprovalGate {
    const parked: ParkedRequests<A.Call, A.Resolution>
    var allowances: map<Session, set<string>>
    /** The hook calls suspended between their two halves, by the request each waits on. */
    var awaiting: map<Id, A.Call>
    ghost var trace: seq<A.Event>

    ghost function View(): A.State
      reads this, parked
    {
      A.State.State(parked.View(), allowances, awaiting, trace)
    }

    ghost predicate Valid()
      reads this, parked
    {
      parked.Valid() && A.Safe(View())
    }

    constructor ()
      ensures Valid() && View() == A.START && fresh(parked)
    {
      parked := new ParkedRequests();
      allowances, awaiting, trace := map[], map[], [];
    }

    /** Judges a call, giving its verdict at once or parking a request for it. */
    method Evaluate(call: A.Call, id: Id, aborted: bool) returns (verdict: Option<Verdict>)
      requires Valid() && Fresh(parked.View(), id)
      modifies this, parked
      ensures Valid() && View() == A.Next(old(View()), A.Evaluate(call, id, aborted))
      ensures verdict == if call.trust.None? then Some(Block)
                         else if A.LetsThrough(old(trace), call) then Some(Proceed)
                         else None
    {
      ghost var before := View();
      A.AllowedIsStanding(before, call.session, call.tool);
      A.StepStaysSafe(before, A.Evaluate(call, id, aborted));
      hide A.Safe, A.RequiresApproval, Sound, Fresh, A.Standing;
      if call.trust.None? {
        trace := trace + [A.Blocked(call, A.UnknownSession)];
        return Some(Block);
      }
      var reason := A.RequiresApproval(call.trust.value, call.targets, call.resolved);
      if reason.None? {
        trace := trace + [A.Proceeded(call, A.Unasked)];
        return Some(Proceed);
      }
      if A.IsAllowed(allowances, call.session, call.tool) {
        trace := trace + [A.Proceeded(call, A.UnderAllowance)];
        return Some(Proceed);
      }
      parked.Add(Entry(id, call.session, call));
      awaiting := awaiting[id := call];
      if aborted {
        var _ := parked.Resolve(id, A.GIVEN_UP);
      }
      return None;
    }

    /** Applies a user's decision; an id nothing is parked under is dropped and allows nothing. */
    method Respond(id: Id, decision: A.Decision) returns (applied: bool)
      requires Valid()
      modifies this, parked
      ensures Valid() && View() == A.Next(old(View()), A.Respond(id, decision))
      ensures applied == Lookup(old(parked.pending), id).Some?
      ensures !applied ==> View() == old(View())
    {
      ghost var before := View();
      A.StepStaysSafe(before, A.Respond(id, decision));
      hide A.Safe, Sound;
      if Lookup(parked.pending, id).None? {
        return false;
      }
      applied := parked.Resolve(id, A.Resolution(decision, A.User));
    }

    /** A timer that fires, or a signal that aborts: both deny. */
    method Expire(id: Id)
      requires Valid()
      modifies this, parked
      ensures Valid() && View() == A.Next(old(View()), A.Expire(id))
    {
      ghost var before := View();
      A.StepStaysSafe(before, A.Expire(id));
      hide A.Safe, Sound;
      var _ := parked.Resolve(id, A.GIVEN_UP);
    }

    method CancelSession(session: Session)
      requires Valid()
      modifies this, parked
      ensures Valid() && View() == A.Next(old(View()), A.Close(session))
    {
      ghost var before := View();
      A.StepStaysSafe(before, A.Close(session));
      hide A.Safe, Sound, SettleEach;
      parked.Close(session, (_: A.Call) => A.GIVEN_UP);
      allowances := A.Forget(allowances, session);
      trace := trace + [A.Forgotten(session)];
    }

    method CancelAll()
      requires Valid()
      modifies this, parked
      ensures Valid() && View() == A.Next(old(View()), A.Shutdown)
      ensures parked.pending == []
    {
      ghost var before := View();
      A.StepStaysSafe(before, A.Shutdown);
      CancelAllLeavesNone(before.parking, (_: A.Call) => A.GIVEN_UP);
      hide A.Safe, Sound, SettleEach;
      parked.CloseAll((_: A.Call) => A.GIVEN_UP);
    }

    /** The hook resumes once its promise is settled, and only a user's allow lets the call proceed. */
    method Resume(id: Id) returns (verdict: Verdict)
      requires Valid() && id in awaiting && id in parked.answers
      modifies this
      ensures Valid() && View() == A.Next(old(View()), A.Continue(id))
      ensures verdict.Proceed? <==> !parked.answers[id].decision.Deny?
      ensures verdict.Proceed? ==> A.UserAllowed(parked.history, id, old(awaiting[id]))
    {
      ghost var before := View();
      A.StepStaysSafe(before, A.Continue(id));
      var resolution := parked.answers[id];
      var call := awaiting[id];
      assert ValueOf(parked.history, id) == Some(resolution);
      AllowedByUser(before, id, resolution);
      Continues(before, id, resolution);
      hide A.Safe, Sound, A.UserAllowed, A.Allow, A.Next, A.ContinueCall, ValueOf, IdsOf;
      var granted := resolution.decision.AllowForSession?;
      awaiting := awaiting - {id};
      if granted {
        allowances := A.Allow(allowances, call.session, call.tool);
      }
      verdict := if resolution.decision.Deny? then Block else Proceed;
      trace := trace
               + (if granted then [A.Granted(call.session, call.tool, id)] else [])
               + [if resolution.decision.Deny? then A.Blocked(call, A.Denied(id, resolution.party))
                  else A.Proceeded(call, A.Decided(id))];
    }
  }

  lemma Continues(s: A.State, id: Id, resolution: A.Resolution)
    requires id in s.awaiting && ValueOf(s.parking.history, id) == Some(resolution)
    ensures A.Next(s, A.Continue(id)) == A.Conclude(s, id, resolution)
  {
    hide A.Conclude, ValueOf, Lookup, Without;
  }

  lemma AllowedByUser(s: A.State, id: Id, resolution: A.Resolution)
    requires A.Safe(s) && id in s.awaiting && ValueOf(s.parking.history, id) == Some(resolution)
    ensures !resolution.decision.Deny? ==> A.UserAllowed(s.parking.history, id, s.awaiting[id])
  {
    ValueIsSettled(s.parking.history, id);
    assert A.AwaitsItsOwn(s, id);
    assert resolution.party.User? || resolution.decision.Deny?;
    assert resolution.decision.AllowOnce? ==>
        resolution == A.Resolution(A.AllowOnce, A.User) || resolution.party.Cancelled?;
  }
}
