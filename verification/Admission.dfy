/**
 * The host's admission limits while commands interleave: a session counts from the moment it
 * is being built, a queued prompt from the moment it is accepted, and each claim is handed
 * over or given back once.
 */
module Admission {
  import opened Wrappers

  datatype Limits = Limits(maxOpenSessions: nat, memoryCeilingBytes: nat, maxQueuedPrompts: nat)

  datatype Refusal = SessionLimitReached | MemoryCeilingReached | QueueCapExceeded

  /** The count is checked before memory, since it is the limit a user can act on. */
  function AdmitSession(limits: Limits, openSessions: nat, resident: nat): (r: Result<(), Refusal>)
    ensures r.Ok? <==> openSessions < limits.maxOpenSessions && resident < limits.memoryCeilingBytes
    ensures r == Err(MemoryCeilingReached) ==> openSessions < limits.maxOpenSessions
  {
    if openSessions >= limits.maxOpenSessions then Err(SessionLimitReached)
    else if resident < limits.memoryCeilingBytes then Ok(())
    else Err(MemoryCeilingReached)
  }

  // ---- Sessions -----------------------------------------------------------------------

  type SessionId = nat
  type Build = nat

  /** `released` says, of each session build begun, whether its claim has been given up. */
  datatype Sessions = Sessions(open: set<SessionId>, released: map<Build, bool>, reserved: nat)

  datatype SessionStep =
    | Reserve(build: Build, resident: nat)
    | Register(build: Build, session: SessionId)
    | Release(build: Build)
    | Close(session: SessionId)

  function ReleaseClaim(s: Sessions, build: Build): Sessions {
    if build !in s.released || s.released[build] || s.reserved == 0 then s
    else s.(released := s.released[build := true], reserved := s.reserved - 1)
  }

  function NextSession(limits: Limits, s: Sessions, step: SessionStep): Sessions {
    match step
    case Reserve(build, resident) =>
      if build in s.released || AdmitSession(limits, |s.open| + s.reserved, resident).Err? then s
      else s.(released := s.released[build := false], reserved := s.reserved + 1)
    case Register(build, session) =>
      // A build registers once, while it still holds its claim.
      if build !in s.released || s.released[build] then s
      else ReleaseClaim(s.(open := s.open + {session}), build)
    case Release(build) => ReleaseClaim(s, build)
    case Close(session) => s.(open := s.open - {session})
  }

  function RunSessions(limits: Limits, s: Sessions, steps: seq<SessionStep>): Sessions
    decreases |steps|
  {
    if steps == [] then s else RunSessions(limits, NextSession(limits, s, steps[0]), steps[1..])
  }

  function Unreleased(released: map<Build, bool>): set<Build> {
    set build | build in released && !released[build]
  }

  predicate SessionsCapped(limits: Limits, s: Sessions) {
    s.reserved == |Unreleased(s.released)| && |s.open| + s.reserved <= limits.maxOpenSessions
  }

  lemma ReleaseOne(released: map<Build, bool>, build: Build)
    requires build in released && !released[build]
    ensures |Unreleased(released[build := true])| == |Unreleased(released)| - 1
  {
    assert Unreleased(released[build := true]) == Unreleased(released) - {build};
  }

  lemma SessionStepKeeps(limits: Limits, s: Sessions, step: SessionStep)
    requires SessionsCapped(limits, s)
    ensures SessionsCapped(limits, NextSession(limits, s, step))
  {
    match step
    case Reserve(build, resident) =>
      if build !in s.released {
        assert Unreleased(s.released[build := false]) == Unreleased(s.released) + {build};
      }
    case Register(build, session) =>
      if build in s.released && !s.released[build] {
        ReleaseOne(s.released, build);
        AddOne(s.open, session);
        assert build in Unreleased(s.released);
      }
    case Release(build) =>
      if build in s.released && !s.released[build] {
        ReleaseOne(s.released, build);
      }
    case Close(session) =>
      DropOne(s.open, session);
  }

  lemma AddOne<T>(s: set<T>, x: T)
    ensures |s + {x}| <= |s| + 1
  {
    assert s + {x} == if x in s then s else s + {x};
  }

  lemma DropOne<T>(s: set<T>, x: T)
    ensures |s - {x}| == |s| - if x in s then 1 else 0
  {
    assert x !in s ==> s - {x} == s;
  }

  /** Open sessions and those being built never exceed the cap, however their steps interleave. */
  lemma {:induction false} RunStaysCapped(limits: Limits, s: Sessions, steps: seq<SessionStep>)
    requires SessionsCapped(limits, s)
    ensures SessionsCapped(limits, RunSessions(limits, s, steps))
    decreases |steps|
  {
    if steps != [] {
      SessionStepKeeps(limits, s, steps[0]);
      RunStaysCapped(limits, NextSession(limits, s, steps[0]), steps[1..]);
    }
  }

  /** Once a build's claim is given up, giving it up again changes nothing, at any later point of any run. */
  lemma {:induction false} ReleasedForGood(limits: Limits, s: Sessions, steps: seq<SessionStep>, build: Build)
    requires build in s.released && s.released[build]
    ensures var t := RunSessions(limits, s, steps);
            build in t.released && t.released[build] && NextSession(limits, t, Release(build)) == t
    decreases |steps|
  {
    if steps != [] {
      ReleasedForGood(limits, NextSession(limits, s, steps[0]), steps[1..], build);
    }
  }

  // What each step does to the sessions open and the builds under way.

  /** A build is granted exactly while both together are below the cap and memory allows. */
  lemma ReserveExactly(limits: Limits, s: Sessions, build: Build, resident: nat)
    requires SessionsCapped(limits, s) && build !in s.released
    ensures var t, building := NextSession(limits, s, Reserve(build, resident)), Unreleased(s.released);
            var granted := |s.open| + |building| < limits.maxOpenSessions && resident < limits.memoryCeilingBytes;
            t.open == s.open && Unreleased(t.released) == building + if granted then {build} else {}
  {
    assert Unreleased(s.released[build := false]) == Unreleased(s.released) + {build};
  }

  /** A session opens when its build registers, which ends the build, and at no other time. */
  lemma RegisterExactly(limits: Limits, s: Sessions, build: Build, session: SessionId)
    requires SessionsCapped(limits, s)
    ensures var t, building := NextSession(limits, s, Register(build, session)), Unreleased(s.released);
            && t.open == s.open + (if build in building then {session} else {})
            && Unreleased(t.released) == building - {build}
  {
    ReleaseExactly(limits, s, build);
  }

  /** A build that ends makes room, and a session that closes makes room. */
  lemma ReleaseExactly(limits: Limits, s: Sessions, build: Build)
    requires SessionsCapped(limits, s)
    ensures var t := NextSession(limits, s, Release(build));
            t.open == s.open && Unreleased(t.released) == Unreleased(s.released) - {build}
  {
    if build in s.released && !s.released[build] {
      assert build in Unreleased(s.released);
      assert Unreleased(s.released[build := true]) == Unreleased(s.released) - {build};
    } else {
      assert build !in Unreleased(s.released);
    }
  }

  lemma CloseExactly(limits: Limits, s: Sessions, session: SessionId)
    requires SessionsCapped(limits, s)
    ensures var t := NextSession(limits, s, Close(session));
            && session !in t.open && |t.open| == |s.open| - (if session in s.open then 1 else 0)
            && (forall other :: other != session ==> (other in t.open <==> other in s.open))
            && Unreleased(t.released) == Unreleased(s.released)
  {
    DropOne(s.open, session);
  }

  // ---- One session's queue ----------------------------------------------------------------

  type Claim = nat

  /**
   * `pending` is what the agent itself has queued. A claim is handed over when its prompt
   * enters that queue and is released a moment later, so for that moment both count it.
   * `strays` counts prompts that entered the queue without ever having had a claim.
   */
  datatype Queue = Queue(pending: nat, held: set<Claim>, handedOver: set<Claim>, used: set<Claim>,
                         reserved: nat, strays: nat)

  datatype QueueStep =
    | Claimed(claim: Claim)
    | HandOver(claim: Claim)
    | GiveBack(claim: Claim)
    | Stray
    | Deliver
    | Clear

  function NextQueue(limits: Limits, q: Queue, step: QueueStep): Queue {
    match step
    case Claimed(claim) =>
      if claim in q.used || q.pending + q.reserved >= limits.maxQueuedPrompts then q
      else q.(held := q.held + {claim}, used := q.used + {claim}, reserved := q.reserved + 1)
    case HandOver(claim) =>
      if claim !in q.held || claim in q.handedOver then q
      else q.(pending := q.pending + 1, handedOver := q.handedOver + {claim})
    case GiveBack(claim) =>
      if claim !in q.held || q.reserved == 0 then q
      else q.(held := q.held - {claim}, handedOver := q.handedOver - {claim}, reserved := q.reserved - 1)
    case Stray => q.(pending := q.pending + 1, strays := q.strays + 1)
    case Deliver => if q.pending == 0 then q else q.(pending := q.pending - 1)
    case Clear => q.(pending := 0)
  }

  function RunQueue(limits: Limits, q: Queue, steps: seq<QueueStep>): Queue
    decreases |steps|
  {
    if steps == [] then q else RunQueue(limits, NextQueue(limits, q, steps[0]), steps[1..])
  }

  /** What waits plus what has still to arrive never exceeds the cap but by the strays. */
  predicate QueueCapped(limits: Limits, q: Queue) {
    && q.reserved == |q.held|
    && q.handedOver <= q.held <= q.used
    && q.pending + |q.held - q.handedOver| <= limits.maxQueuedPrompts + q.strays
  }

  /** What a claim still to be handed over adds or takes away. */
  lemma ClaimedKeeps(limits: Limits, q: Queue, claim: Claim)
    requires QueueCapped(limits, q)
    ensures QueueCapped(limits, NextQueue(limits, q, Claimed(claim)))
  {
    Partition(q.held, q.handedOver);
    if claim !in q.used {
      assert q.held + {claim} - q.handedOver == (q.held - q.handedOver) + {claim};
    }
  }

  lemma HandOverKeeps(limits: Limits, q: Queue, claim: Claim)
    requires QueueCapped(limits, q)
    ensures QueueCapped(limits, NextQueue(limits, q, HandOver(claim)))
  {
    if claim in q.held && claim !in q.handedOver {
      assert q.held - (q.handedOver + {claim}) == (q.held - q.handedOver) - {claim};
      DropOne(q.held - q.handedOver, claim);
    }
  }

  lemma GiveBackKeeps(limits: Limits, q: Queue, claim: Claim)
    requires QueueCapped(limits, q)
    ensures QueueCapped(limits, NextQueue(limits, q, GiveBack(claim)))
  {
    assert q.held - {claim} - (q.handedOver - {claim}) == (q.held - q.handedOver) - {claim};
    DropOne(q.held, claim);
    DropOne(q.held - q.handedOver, claim);
  }

  lemma QueueStepKeeps(limits: Limits, q: Queue, step: QueueStep)
    requires QueueCapped(limits, q)
    ensures QueueCapped(limits, NextQueue(limits, q, step))
  {
    match step
    case Claimed(claim) => ClaimedKeeps(limits, q, claim);
    case HandOver(claim) => HandOverKeeps(limits, q, claim);
    case GiveBack(claim) => GiveBackKeeps(limits, q, claim);
    case _ =>
  }

  // What each step does to the prompts waiting and the claims held.

  /** A claim is granted exactly while both together are below the cap. */
  lemma ClaimExactly(limits: Limits, q: Queue, claim: Claim)
    requires QueueCapped(limits, q) && claim !in q.used
    ensures var t := NextQueue(limits, q, Claimed(claim));
            && (claim in t.held <==> q.pending + |q.held| < limits.maxQueuedPrompts)
            && t.held - {claim} == q.held && t.pending == q.pending && t.handedOver == q.handedOver
  {
    assert claim !in q.held;
  }

  /** A claim is handed over once, and then its prompt waits. */
  lemma HandOverExactly(limits: Limits, q: Queue, claim: Claim)
    requires QueueCapped(limits, q)
    ensures var t := NextQueue(limits, q, HandOver(claim));
            && t.pending == q.pending + (if claim in q.held - q.handedOver then 1 else 0)
            && t.held == q.held && t.handedOver == q.handedOver + (if claim in q.held then {claim} else {})
  {
  }

  /** Giving a claim back makes room for another and takes nothing out of the queue. */
  lemma GiveBackExactly(limits: Limits, q: Queue, claim: Claim)
    requires QueueCapped(limits, q)
    ensures var t := NextQueue(limits, q, GiveBack(claim));
            && t.pending == q.pending && t.held == q.held - {claim} && t.handedOver == q.handedOver - {claim}
            && t.reserved == |q.held| - (if claim in q.held then 1 else 0)
  {
    DropOne(q.held, claim);
  }

  /** Each delivery takes one prompt out of the queue, clearing takes all, and neither touches a claim. */
  lemma RestExactly(limits: Limits, q: Queue, step: QueueStep)
    requires step.Stray? || step.Deliver? || step.Clear?
    ensures var t := NextQueue(limits, q, step);
            && t.held == q.held && t.handedOver == q.handedOver && t.reserved == q.reserved
            && (step.Stray? ==> t.pending == q.pending + 1)
            && (step.Deliver? && q.pending > 0 ==> t.pending == q.pending - 1)
            && (step.Deliver? && q.pending == 0 ==> t.pending == 0)
            && (step.Clear? ==> t.pending == 0)
  {
  }

  lemma Partition<T>(s: set<T>, part: set<T>)
    requires part <= s
    ensures |s| == |part| + |s - part|
  {
    assert s == part + (s - part);
  }

  /**
   * Over every run, when prompts reach the agent's queue only by being handed over, the queue
   * never exceeds the cap; the queue and the claims together exceed it by no more than the
   * claims handed over and not yet given back.
   */
  lemma {:induction false} RunQueueCapped(limits: Limits, q: Queue, steps: seq<QueueStep>)
    requires QueueCapped(limits, q)
    ensures var t := RunQueue(limits, q, steps);
            && QueueCapped(limits, t)
            && t.pending <= limits.maxQueuedPrompts + t.strays
            && t.pending + t.reserved <= limits.maxQueuedPrompts + t.strays + |t.handedOver|
    decreases |steps|
  {
    if steps == [] {
      Partition(q.held, q.handedOver);
    } else {
      QueueStepKeeps(limits, q, steps[0]);
      RunQueueCapped(limits, NextQueue(limits, q, steps[0]), steps[1..]);
    }
  }

  /**
   * Both excesses are real. At the cap a prompt being handed over is counted twice until its
   * claim is given back, and a prompt that the agent turns into a follow-up without a claim
   * takes the queue past the cap.
   */
  lemma FullQueueIsExceeded(limits: Limits, q: Queue, claim: Claim)
    requires QueueCapped(limits, q) && claim in q.held && claim !in q.handedOver
    requires q.pending + q.reserved == limits.maxQueuedPrompts
    ensures var t := NextQueue(limits, q, HandOver(claim));
            t.pending + t.reserved == limits.maxQueuedPrompts + 1
    ensures var t := RunQueue(limits, q, [HandOver(claim), GiveBack(claim), Stray]);
            t.pending + t.reserved == limits.maxQueuedPrompts + 1
  {
    var steps := [HandOver(claim), GiveBack(claim), Stray];
    assert steps[1..] == [GiveBack(claim), Stray] && steps[1..][1..] == [Stray] && steps[1..][1..][1..] == [];
    var t1 := NextQueue(limits, q, HandOver(claim));
    var t2 := NextQueue(limits, t1, GiveBack(claim));
    assert q.held != {};
    assert RunQueue(limits, t2, [Stray]) == NextQueue(limits, t2, Stray);
    assert RunQueue(limits, t1, [GiveBack(claim), Stray]) == RunQueue(limits, t2, [Stray]);
  }

  // ---- Exactly when the queue and its claims stay within the cap ------------------------------

  const NOTHING_QUEUED := Queue(0, {}, {}, {}, 0, 0)

  /** The queue and the claims on it together. */
  function Weight(q: Queue): nat {
    q.pending + q.reserved
  }

  predicate WithinCap(limits: Limits, q: Queue) {
    Weight(q) <= limits.maxQueuedPrompts
  }

  /** A step that puts a prompt in the agent's queue: by handing a claim over, or with no claim at all. */
  predicate Fills(q: Queue, step: QueueStep) {
    step.Stray? || (step.HandOver? && step.claim in q.held && step.claim !in q.handedOver)
  }

  /** One step leaves the cap exactly by filling a queue that is full; claiming never does. */
  lemma StepWithinCap(limits: Limits, q: Queue, step: QueueStep)
    requires WithinCap(limits, q)
    ensures WithinCap(limits, NextQueue(limits, q, step)) <==>
            (Fills(q, step) ==> Weight(q) < limits.maxQueuedPrompts)
  {
  }

  lemma {:induction false} RunOneMore(limits: Limits, q: Queue, steps: seq<QueueStep>, step: QueueStep)
    ensures RunQueue(limits, q, steps + [step]) == NextQueue(limits, RunQueue(limits, q, steps), step)
    decreases |steps|
  {
    if steps == [] {
      assert steps + [step] == [step] && [step][1..] == [];
      assert RunQueue(limits, NextQueue(limits, q, step), []) == NextQueue(limits, q, step);
    } else {
      assert (steps + [step])[1..] == steps[1..] + [step];
      RunOneMore(limits, NextQueue(limits, q, steps[0]), steps[1..], step);
    }
  }

  function Reached(limits: Limits, steps: seq<QueueStep>, i: nat): Queue
    requires i <= |steps|
  {
    RunQueue(limits, NOTHING_QUEUED, steps[..i])
  }

  lemma ReachedNext(limits: Limits, steps: seq<QueueStep>, i: nat)
    requires i < |steps|
    ensures Reached(limits, steps, i + 1) == NextQueue(limits, Reached(limits, steps, i), steps[i])
  {
    assert steps[..i + 1] == steps[..i] + [steps[i]];
    RunOneMore(limits, NOTHING_QUEUED, steps[..i], steps[i]);
  }

  /** No prompt enters the agent's queue while the queue and its claims are at the cap. */
  ghost predicate NeverFillsFull(limits: Limits, steps: seq<QueueStep>) {
    forall i :: 0 <= i < |steps| && Fills(Reached(limits, steps, i), steps[i]) ==>
                  Weight(Reached(limits, steps, i)) < limits.maxQueuedPrompts
  }

  ghost predicate AlwaysWithinCap(limits: Limits, steps: seq<QueueStep>) {
    forall i :: 0 <= i <= |steps| ==> WithinCap(limits, Reached(limits, steps, i))
  }

  lemma {:induction false} WithinCapSoFar(limits: Limits, steps: seq<QueueStep>, i: nat)
    requires NeverFillsFull(limits, steps) && i <= |steps|
    ensures WithinCap(limits, Reached(limits, steps, i))
  {
    if i == 0 {
      assert steps[..0] == [];
    } else {
      WithinCapSoFar(limits, steps, i - 1);
      ReachedNext(limits, steps, i - 1);
      StepWithinCap(limits, Reached(limits, steps, i - 1), steps[i - 1]);
    }
  }

  /**
   * From an empty queue, the queue and its claims together stay within the cap all through a
   * run exactly when no step of it fills a full queue.
   */
  lemma AlwaysWithinCapExactlyWhen(limits: Limits, steps: seq<QueueStep>)
    ensures AlwaysWithinCap(limits, steps) <==> NeverFillsFull(limits, steps)
  {
    if AlwaysWithinCap(limits, steps) {
      forall i | 0 <= i < |steps| && Fills(Reached(limits, steps, i), steps[i])
        ensures Weight(Reached(limits, steps, i)) < limits.maxQueuedPrompts
      {
        ReachedNext(limits, steps, i);
        StepWithinCap(limits, Reached(limits, steps, i), steps[i]);
        assert WithinCap(limits, Reached(limits, steps, i + 1));
      }
    }
    if NeverFillsFull(limits, steps) {
      forall i | 0 <= i <= |steps|
        ensures WithinCap(limits, Reached(limits, steps, i))
      {
        WithinCapSoFar(limits, steps, i);
      }
    }
  }

  function FirstClaims(n: nat): (claims: set<Claim>)
    ensures forall claim: Claim :: claim in claims <==> claim < n
  {
    if n == 0 then {} else FirstClaims(n - 1) + {n - 1}
  }

  function ClaimSteps(n: nat): seq<QueueStep> {
    if n == 0 then [] else ClaimSteps(n - 1) + [Claimed(n - 1)]
  }

  lemma {:induction false} ClaimsFill(limits: Limits, n: nat)
    requires n <= limits.maxQueuedPrompts
    ensures RunQueue(limits, NOTHING_QUEUED, ClaimSteps(n)) == Queue(0, FirstClaims(n), {}, FirstClaims(n), n, 0)
  {
    if n > 0 {
      ClaimsFill(limits, n - 1);
      RunOneMore(limits, NOTHING_QUEUED, ClaimSteps(n - 1), Claimed(n - 1));
    }
  }

  /**
   * Full queues are reached and both ways of filling one happen: whatever the cap, as many
   * claims as it allows and then one prompt handed over, or one without a claim, exceed it.
   */
  lemma CapIsExceeded(limits: Limits)
    requires limits.maxQueuedPrompts > 0
    ensures Weight(RunQueue(limits, NOTHING_QUEUED, ClaimSteps(limits.maxQueuedPrompts) + [HandOver(0)]))
            == limits.maxQueuedPrompts + 1
    ensures Weight(RunQueue(limits, NOTHING_QUEUED, ClaimSteps(limits.maxQueuedPrompts) + [Stray]))
            == limits.maxQueuedPrompts + 1
  {
    ClaimsFill(limits, limits.maxQueuedPrompts);
    RunOneMore(limits, NOTHING_QUEUED, ClaimSteps(limits.maxQueuedPrompts), HandOver(0));
    RunOneMore(limits, NOTHING_QUEUED, ClaimSteps(limits.maxQueuedPrompts), Stray);
  }
}
