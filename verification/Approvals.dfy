/**
 * The approval policy and the gate that parks a tool call until somebody decides it. The
 * gate's hook has two halves with a wait between them, so a run interleaves first halves,
 * decisions, expiries, closes and second halves in any order.
 */
module Approvals {
  import opened Wrappers
  import opened P = Parking

  // ---- The policy -----------------------------------------------------------------

  datatype Trust = Untrusted | Trusted | FullAccess
  datatype Access = ReadsIt | WritesIt | ExecutesIt
  datatype Target = Target(insideWorkspace: bool, access: Access)
  datatype Reason = WorkspaceUntrusted | OutsideWorkspace | TargetsUnknown

  predicate Escapes(target: Target) {
    !target.insideWorkspace && !target.access.ReadsIt?
  }

  function RequiresApproval(trust: Trust, targets: seq<Target>, resolved: bool): (reason: Option<Reason>)
    ensures reason.None? <==>
            trust.FullAccess? || (trust.Trusted? && resolved && forall target :: target in targets ==> !Escapes(target))
    ensures reason == Some(WorkspaceUntrusted) <==> trust.Untrusted?
    ensures reason == Some(OutsideWorkspace) <==>
            trust.Trusted? && exists target :: target in targets && !target.insideWorkspace && target.access != ReadsIt
    ensures reason == Some(TargetsUnknown) ==> trust.Trusted? && !resolved
  {
    if trust.Untrusted? then Some(WorkspaceUntrusted)
    else if trust.FullAccess? then None
    else if exists target :: target in targets && Escapes(target) then Some(OutsideWorkspace)
    else if !resolved then Some(TargetsUnknown)
    else None
  }

  // ---- The gate -----------------------------------------------------------------------

  /** A tool call as the gate judges it; without a trust level its session is not one of ours. */
  datatype Call = Call(session: Session, tool: string, trust: Option<Trust>, targets: seq<Target>, resolved: bool)

  datatype Decision = AllowOnce | AllowForSession | Deny
  datatype Party = User | Cancelled
  datatype Resolution = Resolution(decision: Decision, party: Party)

  const GIVEN_UP := Resolution(Deny, Cancelled)

  datatype How = Unasked | UnderAllowance | Decided(id: Id)
  datatype Why = UnknownSession | Denied(id: Id, party: Party)

  datatype Event =
    | Proceeded(call: Call, how: How)
    | Blocked(call: Call, why: Why)
    | Granted(session: Session, tool: string, id: Id)
    | Forgotten(session: Session)

  datatype State = State(
    parking: P.State<Call, Resolution>,
    allowances: map<Session, set<string>>,
    awaiting: map<Id, Call>,
    trace: seq<Event>)

  datatype Step =
    | Evaluate(call: Call, id: Id, aborted: bool)
    | Respond(id: Id, decision: Decision)
    | Expire(id: Id)
    | Close(session: Session)
    | Shutdown
    | Continue(id: Id)

  function Names(allowances: map<Session, set<string>>, session: Session): set<string> {
    if session in allowances then allowances[session] else {}
  }

  predicate IsAllowed(allowances: map<Session, set<string>>, session: Session, tool: string) {
    tool in Names(allowances, session)
  }

  function Allow(allowances: map<Session, set<string>>, session: Session, tool: string): map<Session, set<string>> {
    allowances[session := Names(allowances, session) + {tool}]
  }

  function Forget(allowances: map<Session, set<string>>, session: Session): map<Session, set<string>> {
    map other | other in allowances && other != session :: allowances[other]
  }

  /** What the policy says of a call whose session is known. */
  function ReasonFor(call: Call): Option<Reason>
    requires call.trust.Some?
  {
    RequiresApproval(call.trust.value, call.targets, call.resolved)
  }

  function ParkCall(s: State, call: Call, id: Id, aborted: bool): State {
    var parked := Park(s.parking, Entry(id, call.session, call));
    s.(parking := if aborted then Settle(parked, id, GIVEN_UP) else parked, awaiting := s.awaiting[id := call])
  }

  /** The hook's first half: a verdict at once, or a request parked under a fresh id. */
  function EvaluateCall(s: State, call: Call, id: Id, aborted: bool): State {
    if call.trust.None? then s.(trace := s.trace + [Blocked(call, UnknownSession)])
    else if ReasonFor(call).None? then s.(trace := s.trace + [Proceeded(call, Unasked)])
    else if IsAllowed(s.allowances, call.session, call.tool) then
        s.(trace := s.trace + [Proceeded(call, UnderAllowance)])
    else ParkCall(s, call, id, aborted)
  }

  function CloseSession(s: State, session: Session): State {
    s.(parking := CancelSession(s.parking, session, (_: Call) => GIVEN_UP),
       allowances := Forget(s.allowances, session),
       trace := s.trace + [Forgotten(session)])
  }

  /** The hook's second half, once its promise holds a resolution. */
  function Conclude(s: State, id: Id, resolution: Resolution): State
    requires id in s.awaiting
  {
    var call := s.awaiting[id];
    var granted := resolution.decision.AllowForSession?;
    s.(allowances := if granted then Allow(s.allowances, call.session, call.tool) else s.allowances,
       awaiting := s.awaiting - {id},
       trace := s.trace
                + (if granted then [Granted(call.session, call.tool, id)] else [])
                + [if resolution.decision.Deny? then Blocked(call, Denied(id, resolution.party))
                   else Proceeded(call, Decided(id))])
  }

  function ContinueCall(s: State, id: Id): State {
    var value := ValueOf(s.parking.history, id);
    if id in s.awaiting && value.Some? then Conclude(s, id, value.value) else s
  }

  function Next(s: State, step: Step): State {
    match step
    case Evaluate(call, id, aborted) => EvaluateCall(s, call, id, aborted)
    case Respond(id, decision) => s.(parking := Settle(s.parking, id, Resolution(decision, User)))
    case Expire(id) => s.(parking := Settle(s.parking, id, GIVEN_UP))
    case Close(session) => CloseSession(s, session)
    case Shutdown => s.(parking := CancelAll(s.parking, (_: Call) => GIVEN_UP))
    case Continue(id) => ContinueCall(s, id)
  }

  function Run(s: State, steps: seq<Step>): State
    decreases |steps|
  {
    if steps == [] then s else Run(Next(s, steps[0]), steps[1..])
  }

  const START: State := State.State(P.State([], []), map[], map[], [])

  /** Ids are random: each parked request's is one never seen before. */
  ghost predicate FreshIds(s: State, steps: seq<Step>)
    decreases |steps|
  {
    steps == [] ||
    ((steps[0].Evaluate? ==> Fresh(s.parking, steps[0].id)) && FreshIds(Next(s, steps[0]), steps[1..]))
  }

  // ---- Safety -----------------------------------------------------------------------------

  /** Whether the newest word on a session and tool was a grant rather than a close. */
  predicate Standing(trace: seq<Event>, session: Session, tool: string) {
    if trace == [] then false
    else
      match trace[|trace| - 1]
      case Granted(s, t, _) => (s == session && t == tool) || Standing(trace[..|trace| - 1], session, tool)
      case Forgotten(s) => s != session && Standing(trace[..|trace| - 1], session, tool)
      case _ => Standing(trace[..|trace| - 1], session, tool)
  }

  /** A user said yes to this very request, which was parked for this very call. */
  ghost predicate UserAllowed(history: seq<Happening<Call, Resolution>>, id: Id, call: Call) {
    && Parked(Entry(id, call.session, call)) in history
    && (Settled(id, Resolution(AllowOnce, User)) in history
        || Settled(id, Resolution(AllowForSession, User)) in history)
  }

  ghost predicate UserGranted(history: seq<Happening<Call, Resolution>>, session: Session, tool: string, id: Id) {
    && (exists call: Call :: call.session == session && call.tool == tool
                              && Parked(Entry(id, session, call)) in history)
    && Settled(id, Resolution(AllowForSession, User)) in history
  }

  /** Why a trace's event was permitted, by what had happened when it was added. */
  ghost predicate Justified(history: seq<Happening<Call, Resolution>>, before: seq<Event>, event: Event) {
    match event
    case Proceeded(call, how) =>
      call.trust.Some? &&
      (match how
       case Unasked => ReasonFor(call).None?
       case UnderAllowance => ReasonFor(call).Some? && Standing(before, call.session, call.tool)
       case Decided(id) => ReasonFor(call).Some? && UserAllowed(history, id, call))
    case Granted(session, tool, id) => UserGranted(history, session, tool, id)
    case Blocked(call, Denied(id, party)) => Settled(id, Resolution(Deny, party)) in history
    case Blocked(call, UnknownSession) => call.trust.None?
    case Forgotten(_) => true
  }

  /** Every way out of a parked request that is not the user's own decision denies. */
  ghost predicate DeniesByDefault(history: seq<Happening<Call, Resolution>>) {
    forall i :: 0 <= i < |history| && history[i].Settled? && !history[i].value.party.User? ==>
        history[i].value.decision.Deny?
  }

  ghost predicate AwaitsItsOwn(s: State, id: Id)
    requires id in s.awaiting
  {
    var call := s.awaiting[id];
    call.trust.Some? && ReasonFor(call).Some? && Parked(Entry(id, call.session, call)) in s.parking.history
  }

  ghost predicate Safe(s: State) {
    && P.Sound(s.parking)
    && DeniesByDefault(s.parking.history)
    && (forall session, tool :: IsAllowed(s.allowances, session, tool) <==> Standing(s.trace, session, tool))
    && (forall id :: id in s.awaiting ==> AwaitsItsOwn(s, id))
    && (forall i :: 0 <= i < |s.trace| ==> Justified(s.parking.history, s.trace[..i], s.trace[i]))
  }

  lemma PrefixKeeps<T>(history: seq<T>, more: seq<T>, h: T)
    requires history <= more && h in history
    ensures h in more
  {
    var i :| 0 <= i < |history| && history[i] == h;
    assert more[i] == h;
  }

  lemma JustifiedStays(history: seq<Happening<Call, Resolution>>, more: seq<Happening<Call, Resolution>>,
                       before: seq<Event>, event: Event)
    requires Justified(history, before, event) && history <= more
    ensures Justified(more, before, event)
  {
    hide RequiresApproval, Standing;
    forall h | h in history
      ensures h in more
    {
      PrefixKeeps(history, more, h);
    }
  }

  /** A step that only adds to the history keeps the gate safe if what it adds denies by default. */
  lemma HistoryGrows(s: State, parking: P.State<Call, Resolution>)
    requires Safe(s) && Sound(parking) && DeniesByDefault(parking.history)
    requires s.parking.history <= parking.history
    ensures Safe(s.(parking := parking))
  {
    hide Justified, Sound, DeniesByDefault, RequiresApproval;
    forall i | 0 <= i < |s.trace|
      ensures Justified(parking.history, s.trace[..i], s.trace[i])
    {
      JustifiedStays(s.parking.history, parking.history, s.trace[..i], s.trace[i]);
    }
    var t := s.(parking := parking);
    forall id | id in s.awaiting
      ensures AwaitsItsOwn(t, id)
    {
      assert AwaitsItsOwn(s, id);
      var call := s.awaiting[id];
      PrefixKeeps(s.parking.history, parking.history, Parked(Entry(id, call.session, call)));
    }
  }

  /** One more event on the trace, permitted by what went before. */
  lemma TraceGrows(s: State, t: State, event: Event)
    requires Safe(s)
    requires t.parking == s.parking && t.trace == s.trace + [event]
    requires Justified(s.parking.history, s.trace, event)
    requires forall id :: id in t.awaiting ==> AwaitsItsOwn(t, id)
    requires forall session, tool :: IsAllowed(t.allowances, session, tool) <==> Standing(t.trace, session, tool)
    ensures Safe(t)
  {
    forall i | 0 <= i < |t.trace|
      ensures Justified(t.parking.history, t.trace[..i], t.trace[i])
    {
      if i < |s.trace| {
        assert t.trace[..i] == s.trace[..i];
      } else {
        assert t.trace[..i] == s.trace;
      }
    }
  }

  lemma StandingExtends(trace: seq<Event>, event: Event, session: Session, tool: string)
    ensures Standing(trace + [event], session, tool) ==
            match event
            case Granted(s, t, _) => (s == session && t == tool) || Standing(trace, session, tool)
            case Forgotten(s) => s != session && Standing(trace, session, tool)
            case _ => Standing(trace, session, tool)
  {
    assert (trace + [event])[..|trace|] == trace;
  }

  /** An event that is neither a grant nor a close leaves what is standing. */
  lemma TraceOnly(s: State, t: State, event: Event)
    requires Safe(s) && Justified(s.parking.history, s.trace, event)
    requires event.Proceeded? || event.Blocked?
    requires t.parking == s.parking && t.allowances == s.allowances && t.trace == s.trace + [event]
    requires forall id :: id in t.awaiting ==> id in s.awaiting && t.awaiting[id] == s.awaiting[id]
    ensures Safe(t)
  {
    forall session, tool
      ensures IsAllowed(t.allowances, session, tool) <==> Standing(t.trace, session, tool)
    {
      StandingExtends(s.trace, event, session, tool);
    }
    forall id | id in t.awaiting
      ensures AwaitsItsOwn(t, id)
    {
      assert AwaitsItsOwn(s, id);
    }
    TraceGrows(s, t, event);
  }

  lemma SettleStaysSafe(s: State, id: Id, resolution: Resolution)
    requires Safe(s) && (resolution.party.User? || resolution.decision.Deny?)
    ensures Safe(s.(parking := Settle(s.parking, id, resolution)))
  {
    SettleKeeps(s.parking, id, resolution);
    HistoryGrows(s, Settle(s.parking, id, resolution));
  }

  lemma GiveUpEach(s: State, ids: seq<Id>)
    requires Safe(s)
    ensures Safe(s.(parking := SettleEach(s.parking, ids, (_: Call) => GIVEN_UP)))
  {
    var value := (_: Call) => GIVEN_UP;
    SettleEachKeeps(s.parking, ids, value);
    SettleEachAdds(s.parking, ids, value);
    HistoryGrows(s, SettleEach(s.parking, ids, value));
  }

  lemma ParkStaysSafe(s: State, call: Call, id: Id, aborted: bool)
    requires Safe(s) && Fresh(s.parking, id)
    requires call.trust.Some? && ReasonFor(call).Some?
    ensures Safe(ParkCall(s, call, id, aborted))
  {
    var entry := Entry(id, call.session, call);
    var parked := Park(s.parking, entry);
    ParkKeeps(s.parking, entry);
    HistoryGrows(s, parked);
    var t := s.(parking := parked, awaiting := s.awaiting[id := call]);
    assert parked.history[|s.parking.history|] == Parked(entry);
    forall other | other in t.awaiting
      ensures AwaitsItsOwn(t, other)
    {
      if other != id {
        assert AwaitsItsOwn(s.(parking := parked), other);
      }
    }
    assert Safe(t);
    if aborted {
      SettleStaysSafe(t, id, GIVEN_UP);
    }
  }

  lemma CloseStaysSafe(s: State, session: Session)
    requires Safe(s)
    ensures Safe(CloseSession(s, session))
  {
    GiveUpEach(s, IdsOf(s.parking.pending, session));
    var settled := s.(parking := CancelSession(s.parking, session, (_: Call) => GIVEN_UP));
    var t := CloseSession(s, session);
    forall other, tool
      ensures IsAllowed(t.allowances, other, tool) <==> Standing(t.trace, other, tool)
    {
      StandingExtends(s.trace, Forgotten(session), other, tool);
      assert IsAllowed(s.allowances, other, tool) <==> Standing(s.trace, other, tool);
    }
    forall id | id in t.awaiting
      ensures AwaitsItsOwn(t, id)
    {
      assert AwaitsItsOwn(settled, id);
    }
    TraceGrows(settled, t, Forgotten(session));
  }

  lemma GrantStaysSafe(s: State, id: Id)
    requires Safe(s) && id in s.awaiting
    requires Settled(id, Resolution(AllowForSession, User)) in s.parking.history
    ensures var call := s.awaiting[id];
            Safe(s.(allowances := Allow(s.allowances, call.session, call.tool),
                    trace := s.trace + [Granted(call.session, call.tool, id)]))
  {
    var call := s.awaiting[id];
    assert AwaitsItsOwn(s, id);
    var event := Granted(call.session, call.tool, id);
    var t := s.(allowances := Allow(s.allowances, call.session, call.tool), trace := s.trace + [event]);
    forall session, tool
      ensures IsAllowed(t.allowances, session, tool) <==> Standing(t.trace, session, tool)
    {
      StandingExtends(s.trace, event, session, tool);
      assert IsAllowed(s.allowances, session, tool) <==> Standing(s.trace, session, tool);
    }
    forall other | other in t.awaiting
      ensures AwaitsItsOwn(t, other)
    {
      assert AwaitsItsOwn(s, other);
    }
    TraceGrows(s, t, event);
  }

  lemma ConcludeStaysSafe(s: State, id: Id, resolution: Resolution)
    requires Safe(s) && id in s.awaiting && Settled(id, resolution) in s.parking.history
    ensures Safe(Conclude(s, id, resolution))
  {
    var call := s.awaiting[id];
    assert AwaitsItsOwn(s, id);
    var t := Conclude(s, id, resolution);
    if resolution.decision.Deny? {
      assert t.trace == s.trace + [Blocked(call, Denied(id, resolution.party))];
      TraceOnly(s, t, Blocked(call, Denied(id, resolution.party)));
    } else {
      assert resolution.party.User?;
      var granted := s;
      if resolution.decision.AllowForSession? {
        GrantStaysSafe(s, id);
        granted := s.(allowances := Allow(s.allowances, call.session, call.tool),
                      trace := s.trace + [Granted(call.session, call.tool, id)]);
      }
      assert t.trace == granted.trace + [Proceeded(call, Decided(id))];
      TraceOnly(granted, t, Proceeded(call, Decided(id)));
    }
  }

  lemma StepStaysSafe(s: State, step: Step)
    requires Safe(s) && (step.Evaluate? ==> Fresh(s.parking, step.id))
    ensures Safe(Next(s, step))
  {
    match step
    case Evaluate(call, id, aborted) =>
      if call.trust.None? {
        TraceOnly(s, Next(s, step), Blocked(call, UnknownSession));
      } else if ReasonFor(call).None? {
        TraceOnly(s, Next(s, step), Proceeded(call, Unasked));
      } else if IsAllowed(s.allowances, call.session, call.tool) {
        TraceOnly(s, Next(s, step), Proceeded(call, UnderAllowance));
      } else {
        ParkStaysSafe(s, call, id, aborted);
      }
    case Respond(id, decision) => SettleStaysSafe(s, id, Resolution(decision, User));
    case Expire(id) => SettleStaysSafe(s, id, GIVEN_UP);
    case Close(session) => CloseStaysSafe(s, session);
    case Shutdown => GiveUpEach(s, Ids(s.parking.pending));
    case Continue(id) =>
      ValueIsSettled(s.parking.history, id);
      if id in s.awaiting && ValueOf(s.parking.history, id).Some? {
        ConcludeStaysSafe(s, id, ValueOf(s.parking.history, id).value);
      }
  }

  /**
   * Over every run: a call the policy stops proceeds only on a user's allow for its own
   * request, or under an allowance a user granted for that session and tool with no close
   * of the session since; every request is settled at most once; nothing but a user allows.
   */
  lemma {:induction false} RunStaysSafe(s: State, steps: seq<Step>)
    requires Safe(s) && FreshIds(s, steps)
    ensures Safe(Run(s, steps))
    decreases |steps|
  {
    if steps != [] {
      StepStaysSafe(s, steps[0]);
      RunStaysSafe(Next(s, steps[0]), steps[1..]);
    }
  }

  lemma StartIsSafe()
    ensures Safe(START)
  {
  }

  // ---- Every verdict, exactly ---------------------------------------------------------------

  /** A call nobody has to be asked about: by the policy, or under a grant with no close since. */
  predicate LetsThrough(trace: seq<Event>, call: Call) {
    call.trust.Some? &&
    (|| call.trust.value.FullAccess?
     || (call.trust.value.Trusted? && call.resolved
         && forall target :: target in call.targets ==> target.insideWorkspace || target.access.ReadsIt?)
     || Standing(trace, call.session, call.tool))
  }

  /**
   * The hook's first half, by the call and the trace alone: a call of no session of ours is
   * refused, one that nobody has to be asked about proceeds, and any other is parked as it is.
   */
  lemma VerdictExactly(s: State, call: Call, id: Id, aborted: bool)
    requires Safe(s) && Fresh(s.parking, id)
    ensures var t, entry := Next(s, Evaluate(call, id, aborted)), Entry(id, call.session, call);
            if call.trust.None? then t == s.(trace := s.trace + [Blocked(call, UnknownSession)])
            else if LetsThrough(s.trace, call)
            then
              || t == s.(trace := s.trace + [Proceeded(call, Unasked)])
              || t == s.(trace := s.trace + [Proceeded(call, UnderAllowance)])
            else
              && t.trace == s.trace && t.allowances == s.allowances && t.awaiting == s.awaiting[id := call]
              && (if aborted
                  then t.parking.history == s.parking.history + [Parked(entry), Settled(id, GIVEN_UP)]
                       && Lookup(t.parking.pending, id).None?
                  else t.parking == P.State(s.parking.pending + [entry], s.parking.history + [Parked(entry)]))
  {
    assert IsAllowed(s.allowances, call.session, call.tool) <==> Standing(s.trace, call.session, call.tool);
    if call.trust.Some? && !LetsThrough(s.trace, call) {
      var parked := Park(s.parking, Entry(id, call.session, call));
      ParkKeeps(s.parking, Entry(id, call.session, call));
      FoundIs(parked.pending, Entry(id, call.session, call));
      assert parked.pending[|s.parking.pending|] == Entry(id, call.session, call);
      SettleKeeps(parked, id, GIVEN_UP);
    }
  }

  /** A user's answer settles the request it names with that answer, and an id nothing is parked under with none. */
  lemma RespondExactly(s: State, id: Id, decision: Decision)
    requires Safe(s)
    ensures var t := Next(s, Respond(id, decision));
            if Lookup(s.parking.pending, id).None? then t == s
            else
              && t == s.(parking := t.parking) && Lookup(t.parking.pending, id).None?
              && t.parking.history == s.parking.history + [Settled(id, Resolution(decision, User))]
  {
    SettleKeeps(s.parking, id, Resolution(decision, User));
  }

  /** A timer or a signal settles it with a denial that no user made. */
  lemma ExpireExactly(s: State, id: Id)
    requires Safe(s)
    ensures var t := Next(s, Expire(id));
            if Lookup(s.parking.pending, id).None? then t == s
            else
              && t == s.(parking := t.parking) && Lookup(t.parking.pending, id).None?
              && t.parking.history == s.parking.history + [Settled(id, Resolution(Deny, Cancelled))]
  {
    SettleKeeps(s.parking, id, GIVEN_UP);
  }

  /**
   * Closing a session settles its own requests and no others, forgets its own allowances and no
   * others; shutting down leaves no request and every allowance.
   */
  lemma CloseExactly(s: State, session: Session)
    requires Safe(s)
    ensures var t := Next(s, Close(session));
            && t.parking.pending == OfOthers(s.parking.pending, session) && t.awaiting == s.awaiting
            && t.trace == s.trace + [Forgotten(session)] && OnlyDenies(s.parking.history, t.parking.history)
            && forall other, tool ::
                 IsAllowed(t.allowances, other, tool) <==> other != session && IsAllowed(s.allowances, other, tool)
    ensures var t := Next(s, Shutdown);
            && t == s.(parking := t.parking) && t.parking.pending == []
            && OnlyDenies(s.parking.history, t.parking.history)
  {
    hide SettleEach, OfOthers, Sound, Standing, Justified;
    var value := (_: Call) => GIVEN_UP;
    SafeParking(s);
    CancelSessionLeaves(s.parking, session, value);
    CancelAllLeavesNone(s.parking, value);
    SettleEachAdds(s.parking, IdsOf(s.parking.pending, session), value);
    SettleEachAdds(s.parking, Ids(s.parking.pending), value);
  }

  /** Whatever was settled from one history to the next was denied, and by no user. */
  predicate OnlyDenies(history: seq<Happening<Call, Resolution>>, next: seq<Happening<Call, Resolution>>) {
    && history <= next
    && forall i :: |history| <= i < |next| ==> next[i].Settled? && next[i].value == Resolution(Deny, Cancelled)
  }

  lemma SafeParking(s: State)
    requires Safe(s)
    ensures Sound(s.parking) && Distinct(s.parking.pending)
  {
  }

  /** A hook that resumes says what its request was settled with, and grants what that allows for the session. */
  lemma ContinueExactly(s: State, id: Id)
    requires Safe(s) && id in s.awaiting && ValueOf(s.parking.history, id).Some?
    ensures var t, call, value := Next(s, Continue(id)), s.awaiting[id], ValueOf(s.parking.history, id).value;
            && t.parking == s.parking && t.awaiting == s.awaiting - {id}
            && (value.decision.AllowOnce? ==> t.trace == s.trace + [Proceeded(call, Decided(id))])
            && (value.decision.AllowForSession? ==>
                  t.trace == s.trace + [Granted(call.session, call.tool, id)] + [Proceeded(call, Decided(id))])
            && (value.decision.Deny? ==> t.trace == s.trace + [Blocked(call, Denied(id, value.party))])
            && forall session, tool ::
                 IsAllowed(t.allowances, session, tool) <==>
                 IsAllowed(s.allowances, session, tool)
                 || (value.decision.AllowForSession? && session == call.session && tool == call.tool)
  {
    hide Sound, Justified, RequiresApproval;
    assert s.trace + [] == s.trace;
  }

  lemma AllowanceStays(s: State, step: Step, session: Session, tool: string)
    requires IsAllowed(s.allowances, session, tool) && step != Close(session)
    ensures IsAllowed(Next(s, step).allowances, session, tool)
  {
    hide RequiresApproval, SettleEach, Settle, ValueOf;
  }

  lemma {:induction false} StaysAllowed(s: State, steps: seq<Step>, session: Session, tool: string)
    requires IsAllowed(s.allowances, session, tool)
    requires Close(session) !in steps
    ensures IsAllowed(Run(s, steps).allowances, session, tool)
    decreases |steps|
  {
    if steps != [] {
      assert steps[0] in steps;
      AllowanceStays(s, steps[0], session, tool);
      StaysAllowed(Next(s, steps[0]), steps[1..], session, tool);
    }
  }

  /**
   * Once the hook of a call the user allowed for the session has resumed, every later call of that
   * session and tool proceeds at once, whatever happens in between, until the session is closed.
   */
  lemma AllowedUntilClosed(s: State, id: Id, steps: seq<Step>, call: Call, next: Id, aborted: bool)
    requires Safe(s) && id in s.awaiting
    requires ValueOf(s.parking.history, id) == Some(Resolution(AllowForSession, User))
    requires FreshIds(Next(s, Continue(id)), steps)
    requires Close(call.session) !in steps
    requires call.session == s.awaiting[id].session && call.tool == s.awaiting[id].tool && call.trust.Some?
    ensures var t := Run(Next(s, Continue(id)), steps);
            Fresh(t.parking, next) ==>
              var u := Next(t, Evaluate(call, next, aborted));
              && |u.trace| == |t.trace| + 1 && u.trace[|t.trace|].Proceeded? && u.trace[|t.trace|].call == call
              && u.awaiting == t.awaiting && u.parking == t.parking
  {
    hide Safe, Next, FreshIds, Standing;
    var resumed := Next(s, Continue(id));
    ContinueExactly(s, id);
    StepStaysSafe(s, Continue(id));
    StaysAllowed(resumed, steps, call.session, call.tool);
    RunStaysSafe(resumed, steps);
    var t := Run(resumed, steps);
    AllowedIsStanding(t, call.session, call.tool);
    if Fresh(t.parking, next) {
      hide Fresh;
      VerdictExactly(t, call, next, aborted);
    }
  }

  lemma AllowedIsStanding(s: State, session: Session, tool: string)
    requires Safe(s)
    ensures IsAllowed(s.allowances, session, tool) <==> Standing(s.trace, session, tool)
  {
  }

  /** A request's promise is settled the moment it stops being pending, so no call waits on one that never will be. */
  lemma AwaitedOrAnswered(s: State, id: Id)
    requires Safe(s) && id in s.awaiting
    ensures Lookup(s.parking.pending, id).Some? <==> ValueOf(s.parking.history, id).None?
  {
    var call := s.awaiting[id];
    assert AwaitsItsOwn(s, id);
    ValueIsSettled(s.parking.history, id);
    var entry := Entry(id, call.session, call);
    if !IsSettled(s.parking.history, id) {
      var i :| 0 <= i < |s.parking.history| && s.parking.history[i] == Parked(entry);
      assert s.parking.history[i].entry in s.parking.pending;
    }
  }

  /** Shutting down answers every call still waiting. */
  lemma ShutdownAnswersAll(s: State, id: Id)
    requires Safe(s) && id in s.awaiting
    ensures ValueOf(Next(s, Shutdown).parking.history, id).Some?
  {
    hide Safe, CancelAll, ValueOf;
    var t := Next(s, Shutdown);
    StepStaysSafe(s, Shutdown);
    CancelAllLeavesNone(s.parking, (_: Call) => GIVEN_UP);
    AwaitedOrAnswered(t, id);
  }

  /**
   * Closing a session forgets its allowances, but a call whose request the user had already
   * allowed for the session grants it again when its own hook resumes: the allowance outlives
   * the close exactly when that answer came first.
   */
  lemma GrantOutlivesClose(s: State, id: Id)
    requires Safe(s) && id in s.awaiting
    ensures var call := s.awaiting[id];
            var t := Next(Next(s, Close(call.session)), Continue(id));
            IsAllowed(t.allowances, call.session, call.tool)
            <==> ValueOf(s.parking.history, id) == Some(Resolution(AllowForSession, User))
  {
    hide Sound, Justified, RequiresApproval, SettleEach;
    var call := s.awaiting[id];
    var closed := CloseSession(s, call.session);
    SettleEachValue(s.parking, IdsOf(s.parking.pending, call.session), id);
    ValueIsSettled(s.parking.history, id);
    assert !IsAllowed(closed.allowances, call.session, call.tool);
    assert closed.awaiting == s.awaiting;
  }

  /** A call the policy stops in an untrusted workspace, and the run that keeps its allowance past the close. */
  const STOPPED: Call := Call(7, "write", Some(Untrusted), [], true)
  const ALLOWED_THEN_CLOSED: seq<Step> :=
    [Evaluate(STOPPED, 1, false), Respond(1, AllowForSession), Close(7), Continue(1)]

  /** From the empty gate: asked, allowed for the session, closed and only then resumed. */
  lemma AllowanceStandsAfterClose()
    ensures FreshIds(START, ALLOWED_THEN_CLOSED)
    ensures IsAllowed(Run(START, ALLOWED_THEN_CLOSED).allowances, 7, "write")
  {
    var steps := ALLOWED_THEN_CLOSED;
    var asked := Next(START, steps[0]);
    var allowed := Next(asked, steps[1]);
    var closed := Next(allowed, steps[2]);
    assert steps[1..][1..] == steps[2..] && steps[2..][1..] == steps[3..] && steps[3..][1..] == [];
    assert Run(START, steps) == Run(asked, steps[1..]) == Run(allowed, steps[2..]) == Run(closed, steps[3..]);
    assert Run(closed, steps[3..]) == Next(closed, steps[3]);
    assert FreshIds(closed, steps[3..]) by {
      assert FreshIds(Next(closed, steps[3]), steps[3..][1..]);
    }
    assert FreshIds(allowed, steps[2..]) && FreshIds(asked, steps[1..]);
    assert ValueOf(allowed.parking.history, 1) == Some(Resolution(AllowForSession, User));
    StartIsSafe();
    StepStaysSafe(START, steps[0]);
    StepStaysSafe(asked, steps[1]);
    GrantOutlivesClose(allowed, 1);
  }

  /** Giving up a list of requests changes nobody's answer who already had one. */
  lemma {:induction false} SettleEachValue(s: P.State<Call, Resolution>, ids: seq<Id>, id: Id)
    requires P.Sound(s)
    ensures var t := SettleEach(s, ids, (_: Call) => GIVEN_UP);
            ValueOf(t.history, id) == ValueOf(s.history, id)
            || (ValueOf(s.history, id).None? && ValueOf(t.history, id) == Some(GIVEN_UP))
    decreases |ids|
  {
    if ids != [] {
      var found := Lookup(s.pending, ids[0]);
      if found.Some? {
        var next := Settle(s, ids[0], GIVEN_UP);
        SettleKeeps(s, ids[0], GIVEN_UP);
        ValueOfExtends(s.history, Settled(ids[0], GIVEN_UP), id);
        ValueIsSettled(s.history, ids[0]);
        SettleEachValue(next, ids[1..], id);
      } else {
        SettleEachValue(s, ids[1..], id);
      }
    }
  }
}
