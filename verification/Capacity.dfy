/** The one object every admission goes through, and the claims it hands out. */
module Capacity {
  import opened Wrappers
  import opened Admission

  /** A claim's own flag; giving the claim back is idempotent because of it. */
  class Reservation {
    const session: SessionId
    var released: bool

    constructor (session: SessionId)
      ensures this.session == session && !released
    {
      this.session, this.released := session, false;
    }
  }

  ghost function ClaimsFor(claims: set<Reservation>, session: SessionId): set<Reservation> {
    set r | r in claims && r.session == session
  }

  lemma OneMore(claims: set<Reservation>, claim: Reservation)
    requires claim !in claims
    ensures forall session :: |ClaimsFor(claims + {claim}, session)|
                              == |ClaimsFor(claims, session)| + if session == claim.session then 1 else 0
  {
    forall session
      ensures |ClaimsFor(claims + {claim}, session)|
           == |ClaimsFor(claims, session)| + if session == claim.session then 1 else 0
    {
      if session == claim.session {
        assert ClaimsFor(claims + {claim}, session) == ClaimsFor(claims, session) + {claim};
      } else {
        assert ClaimsFor(claims + {claim}, session) == ClaimsFor(claims, session);
      }
    }
  }

  function CountIn(counts: map<SessionId, nat>, session: SessionId): nat {
    if session in counts then counts[session] else 0
  }

  function OneTaken(counts: map<SessionId, nat>, session: SessionId): map<SessionId, nat> {
    counts[session := CountIn(counts, session) + 1]
  }

  /** The last claim out takes the session's entry with it. */
  function OneGiven(counts: map<SessionId, nat>, session: SessionId): map<SessionId, nat>
    requires CountIn(counts, session) > 0
  {
    if counts[session] == 1 then counts - {session} else counts[session := counts[session] - 1]
  }

  /** Each count is the number of claims out, and a session without any takes no room in the map. */
  ghost predicate Counted(counts: map<SessionId, nat>, claims: set<Reservation>) {
    && (forall session :: CountIn(counts, session) == |ClaimsFor(claims, session)|)
    && (forall session :: session in counts ==> counts[session] > 0)
  }

  lemma CountIs(counts: map<SessionId, nat>, claims: set<Reservation>, session: SessionId)
    requires Counted(counts, claims)
    ensures CountIn(counts, session) == |ClaimsFor(claims, session)|
  {
  }

  lemma TakenIsCounted(counts: map<SessionId, nat>, claims: set<Reservation>, claim: Reservation)
    requires Counted(counts, claims) && claim !in claims
    ensures Counted(OneTaken(counts, claim.session), claims + {claim})
  {
    OneMore(claims, claim);
  }

  lemma GivenIsCounted(counts: map<SessionId, nat>, claims: set<Reservation>, claim: Reservation)
    requires Counted(counts, claims) && claim in claims
    ensures CountIn(counts, claim.session) > 0
    ensures Counted(OneGiven(counts, claim.session), claims - {claim})
  {
    OneMore(claims - {claim}, claim);
    assert claims - {claim} + {claim} == claims;
    assert CountIn(counts, claim.session) == |ClaimsFor(claims, claim.session)|;
  }

  class Capacity {
    const limits: Limits
    var reservedSessions: nat
    var reservedQueuedPrompts: map<SessionId, nat>
    ghost var sessionClaims: set<Reservation>
    ghost var queueClaims: set<Reservation>

    /** The claims out are unreleased, and both counts are counts of them. */
    ghost predicate Valid()
      reads this, sessionClaims, queueClaims
    {
      && (forall r :: r in sessionClaims ==> !r.released && r !in queueClaims)
      && (forall r :: r in queueClaims ==> !r.released)
      && reservedSessions == |sessionClaims|
      && Counted(reservedQueuedPrompts, queueClaims)
    }

    constructor (limits: Limits)
      ensures Valid() && this.limits == limits && sessionClaims == {} && queueClaims == {}
    {
      this.limits := limits;
      reservedSessions, reservedQueuedPrompts := 0, map[];
      sessionClaims, queueClaims := {}, {};
      new;
      forall session
        ensures ClaimsFor(queueClaims, session) == {}
      {
      }
    }

    /** Claims room for a session being built; refused, it changes nothing. */
    method ReserveSession(openSessions: nat, resident: nat) returns (r: Result<Reservation, Refusal>)
      requires Valid()
      modifies `reservedSessions, `sessionClaims
      ensures Valid()
      ensures r.Ok? <==>
              openSessions + |old(sessionClaims)| < limits.maxOpenSessions && resident < limits.memoryCeilingBytes
      ensures r.Ok? ==> fresh(r.value) && sessionClaims == old(sessionClaims) + {r.value}
                        && openSessions + |sessionClaims| <= limits.maxOpenSessions
      ensures r.Err? ==> sessionClaims == old(sessionClaims)
      ensures r.Err? ==> r == (match AdmitSession(limits, openSessions + |old(sessionClaims)|, resident)
                               case Err(error) => Err(error)
                               case Ok(_) => r)
    {
      var admitted := AdmitSession(limits, openSessions + reservedSessions, resident);
      if admitted.Err? {
        return Err(admitted.error);
      }
      reservedSessions := reservedSessions + 1;
      var claim := new Reservation(0);
      sessionClaims := sessionClaims + {claim};
      return Ok(claim);
    }

    /** Gives a session's claim back; a claim already given back is ignored. */
    method ReleaseSession(claim: Reservation)
      requires Valid() && (claim in sessionClaims || claim.released)
      modifies `reservedSessions, `sessionClaims, claim`released
      ensures Valid() && claim.released
      ensures sessionClaims == old(sessionClaims) - {claim}
    {
      if claim.released {
        return;
      }
      claim.released := true;
      reservedSessions := reservedSessions - 1;
      sessionClaims := sessionClaims - {claim};
    }

    /** Claims one place in a session's queue, which only that session's own claims can fill. */
    method ReserveQueuedPrompt(session: SessionId, queued: nat) returns (r: Result<Reservation, Refusal>)
      requires Valid()
      modifies `reservedQueuedPrompts, `queueClaims
      ensures Valid()
      ensures r.Ok? <==> queued + |ClaimsFor(old(queueClaims), session)| < limits.maxQueuedPrompts
      ensures r.Ok? ==> fresh(r.value) && r.value.session == session && queueClaims == old(queueClaims) + {r.value}
                        && queued + |ClaimsFor(queueClaims, session)| <= limits.maxQueuedPrompts
      ensures r.Err? ==> r == Err(QueueCapExceeded) && queueClaims == old(queueClaims)
    {
      hide ClaimsFor, Counted;
      CountIs(reservedQueuedPrompts, queueClaims, session);
      var reserved := CountIn(reservedQueuedPrompts, session);
      if queued + reserved >= limits.maxQueuedPrompts {
        return Err(QueueCapExceeded);
      }
      var claim := new Reservation(session);
      TakenIsCounted(reservedQueuedPrompts, queueClaims, claim);
      CountIs(OneTaken(reservedQueuedPrompts, session), queueClaims + {claim}, session);
      assert claim !in sessionClaims;
      reservedQueuedPrompts := reservedQueuedPrompts[session := reserved + 1];
      queueClaims := queueClaims + {claim};
      return Ok(claim);
    }

    /** Gives a queue place back once; the last one out takes the session's entry with it. */
    method ReleaseQueuedPrompt(claim: Reservation)
      requires Valid() && (claim in queueClaims || claim.released)
      modifies `reservedQueuedPrompts, `queueClaims, claim`released
      ensures Valid() && claim.released
      ensures queueClaims == old(queueClaims) - {claim}
    {
      hide ClaimsFor, Counted;
      if claim.released {
        return;
      }
      claim.released := true;
      GivenIsCounted(reservedQueuedPrompts, queueClaims, claim);
      var remaining := (if claim.session in reservedQueuedPrompts then reservedQueuedPrompts[claim.session] else 1) - 1;
      if remaining == 0 {
        reservedQueuedPrompts := reservedQueuedPrompts - {claim.session};
      } else {
        reservedQueuedPrompts := reservedQueuedPrompts[claim.session := remaining];
      }
      queueClaims := queueClaims - {claim};
    }
  }
}
