/**
 * The lock file beside a session, as the hosts that contend for it see it. Every system
 * call is one step and the hosts' steps interleave freely; a host may crash between any
 * two. A file has an identity of its own, so a write through a descriptor reaches the
 * file that was created and not whatever now has its name.
 */
module LockProtocol {
  import opened Wrappers

  const CLAIM_WINDOW_MS: nat := 1000

  datatype Holder = Holder(pid: nat, host: nat)

  /** `Garbled` is anything that does not parse as a holder and is not empty. */
  datatype Content = Empty | Named(holder: Holder) | Garbled

  datatype File = File(inode: nat, content: Content, modifiedAt: nat)

  /** Whose lock a new holder took, the signal that a host died with the session open. */
  datatype Taken = Nothing | From(holder: Holder) | FromUnreadable

  /** Where one host is in taking or releasing the lock. */
  datatype Phase =
    | Idle
    | Reading
    | Checking(seen: Option<File>)
    | Unlinking(seen: Option<File>)
    | Recreating(seen: Option<File>)
    | Claiming(inode: nat, taken: Taken)
    | Holding(taken: Taken)
    | Releasing
    | Dead

  datatype State = State(now: nat, path: Option<File>, nextInode: nat, pids: seq<nat>, hosts: seq<Phase>)

  datatype Step =
    | Tick(elapsed: nat)
    | Create(host: nat, linked: bool)
    | Read(host: nat, alive: bool)
    | Stat(host: nat)
    | Unlink(host: nat)
    | Recreate(host: nat, linked: bool)
    | Write(host: nat)
    | WriteFails(host: nat)
    | ReleaseRead(host: nat)
    | ReleaseUnlink(host: nat)
    | Crash(host: nat)

  // ---- One system call --------------------------------------------------------

  function ReadHolder(path: Option<File>): Option<Holder> {
    match path
    case Some(File(_, Named(holder), _)) => Some(holder)
    case _ => None
  }

  function TakenFrom(seen: Option<File>): Taken {
    match ReadHolder(seen)
    case Some(holder) => From(holder)
    case None => FromUnreadable
  }

  predicate ClaimInFlight(path: Option<File>, now: nat) {
    path.Some? && path.value.content.Empty? && now < path.value.modifiedAt + CLAIM_WINDOW_MS
  }

  function Enter(s: State, h: nat, phase: Phase): State
    requires h < |s.hosts|
  {
    s.(hosts := s.hosts[h := phase])
  }

  /**
   * A hard link publishes the file with its holder already in it. Where links are refused
   * the file is created empty and its holder is a second call away.
   */
  function TryCreate(s: State, h: nat, linked: bool, taken: Taken, lost: Phase): State
    requires h < |s.hosts| == |s.pids|
  {
    if s.path.Some? then Enter(s, h, lost)
    else
      var content := if linked then Named(Holder(s.pids[h], h)) else Empty;
      var phase := if linked then Holding(taken) else Claiming(s.nextInode, taken);
      Enter(s.(path := Some(File(s.nextInode, content, s.now)), nextInode := s.nextInode + 1), h, phase)
  }

  function AfterRead(s: State, h: nat, alive: bool): State
    requires h < |s.hosts|
  {
    match ReadHolder(s.path)
    case None => Enter(s, h, Checking(s.path))
    case Some(_) => Enter(s, h, if alive then Idle else Unlinking(s.path))
  }

  function AfterStat(s: State, h: nat, seen: Option<File>): State
    requires h < |s.hosts|
  {
    Enter(s, h, if ClaimInFlight(s.path, s.now) then Idle else Unlinking(seen))
  }

  function AfterWrite(s: State, h: nat, inode: nat, taken: Taken): State
    requires h < |s.hosts| == |s.pids|
  {
    var wrote :=
      if s.path.Some? && s.path.value.inode == inode
      then s.(path := Some(File(inode, Named(Holder(s.pids[h], h)), s.now)))
      else s;
    Enter(wrote, h, Holding(taken))
  }

  function AfterReleaseRead(s: State, h: nat): State
    requires h < |s.hosts|
  {
    match ReadHolder(s.path)
    case Some(holder) => Enter(s, h, if holder.host == h then Releasing else Idle)
    case None => Enter(s, h, Releasing)
  }

  /**
   * A step a host is not at changes nothing. A first create whose write fails reads as a name
   * that was taken, so the host goes on to look at the empty file it left; a second one gives up.
   */
  function Next(s: State, step: Step): (r: State)
    requires |s.pids| == |s.hosts|
    ensures r.pids == s.pids && |r.hosts| == |s.hosts|
  {
    if step.Tick? then s.(now := s.now + step.elapsed)
    else if step.host >= |s.hosts| then s
    else
      var h := step.host;
      match (step, s.hosts[h])
      case (Create(_, linked), Idle) => TryCreate(s, h, linked, Nothing, Reading)
      case (Read(_, alive), Reading) => AfterRead(s, h, alive)
      case (Stat(_), Checking(seen)) => AfterStat(s, h, seen)
      case (Unlink(_), Unlinking(seen)) => Enter(s.(path := None), h, Recreating(seen))
      case (Recreate(_, linked), Recreating(seen)) => TryCreate(s, h, linked, TakenFrom(seen), Idle)
      case (Write(_), Claiming(inode, taken)) => AfterWrite(s, h, inode, taken)
      case (WriteFails(_), Claiming(_, taken)) => Enter(s, h, if taken.Nothing? then Reading else Idle)
      case (ReleaseRead(_), Holding(_)) => AfterReleaseRead(s, h)
      case (ReleaseUnlink(_), Releasing) => Enter(s.(path := None), h, Idle)
      case (Crash(_), _) => Enter(s, h, Dead)
      case _ => s
  }

  function Run(s: State, steps: seq<Step>): (r: State)
    requires |s.pids| == |s.hosts|
    ensures r.pids == s.pids && |r.hosts| == |s.hosts|
    decreases |steps|
  {
    if steps == [] then s else Run(Next(s, steps[0]), steps[1..])
  }

  // ---- What the protocol relies on ---------------------------------------------

  predicate Owns(s: State, h: nat) {
    h < |s.hosts| && (s.hosts[h].Claiming? || s.hosts[h].Holding? || s.hosts[h].Releasing?)
  }

  predicate Live(s: State, h: nat) {
    h < |s.hosts| && !s.hosts[h].Dead?
  }

  /** A running process is never reported gone; a pid reused after a crash may be reported alive. */
  ghost predicate Truthful(s: State, step: Step)
    requires |s.pids| == |s.hosts|
  {
    step.Read? && ReadHolder(s.path).Some? ==>
      forall k: nat :: Live(s, k) && s.pids[k] == ReadHolder(s.path).value.pid ==> step.alive
  }

  /** A claim that is still being written is finished, or its host is dead, inside the window. */
  ghost predicate Timely(s: State, step: Step) {
    step.Tick? ==>
      forall k: nat :: k < |s.hosts| && s.hosts[k].Claiming?
                       && s.path.Some? && s.path.value.inode == s.hosts[k].inode ==>
        s.now + step.elapsed < s.path.value.modifiedAt + CLAIM_WINDOW_MS
  }

  /** A steal removes the file it judged and not one that has since taken its name. */
  predicate Undisturbed(s: State, step: Step) {
    step.Unlink? && step.host < |s.hosts| && s.hosts[step.host].Unlinking? && s.path.Some? ==>
      s.path == s.hosts[step.host].seen
  }

  ghost predicate Disciplined(s: State, step: Step)
    requires |s.pids| == |s.hosts|
  {
    Truthful(s, step) && Timely(s, step) && Undisturbed(s, step)
  }

  ghost predicate DisciplinedRun(s: State, steps: seq<Step>)
    requires |s.pids| == |s.hosts|
    decreases |steps|
  {
    steps == [] || (Disciplined(s, steps[0]) && DisciplinedRun(Next(s, steps[0]), steps[1..]))
  }

  // ---- What every step keeps ------------------------------------------------------

  predicate Gone(s: State, host: nat) {
    host >= |s.hosts| || s.hosts[host].Dead?
  }

  /** No running host is the one this file stands for. */
  ghost predicate Stale(s: State, file: File) {
    match file.content
    case Named(holder) => Gone(s, holder.host)
    case Empty => forall k: nat :: k < |s.hosts| && s.hosts[k].Claiming? ==> s.hosts[k].inode != file.inode
    case Garbled => true
  }

  /** The file a host that holds, takes or gives up the lock must find under its name. */
  predicate FileStandsFor(s: State, h: nat)
    requires h < |s.hosts| == |s.pids|
  {
    && s.path.Some?
    && var file := s.path.value;
       if s.hosts[h].Claiming? then file.inode == s.hosts[h].inode && ClaimInFlight(s.path, s.now)
       else file.content == Named(Holder(s.pids[h], h))
  }

  predicate Minted(s: State, file: File)
    requires |s.pids| == |s.hosts|
  {
    && file.inode < s.nextInode
    && (file.content.Named? && file.content.holder.host < |s.hosts| ==>
          file.content.holder.pid == s.pids[file.content.holder.host])
  }

  ghost predicate PhaseSound(s: State, h: nat)
    requires h < |s.hosts| == |s.pids|
  {
    match s.hosts[h]
    case Checking(seen) => seen.Some? ==> Minted(s, seen.value) && !seen.value.content.Named?
    case Unlinking(seen) => seen.Some? ==> Minted(s, seen.value) && Stale(s, seen.value)
    case Recreating(seen) => seen.Some? ==> Minted(s, seen.value) && Stale(s, seen.value)
    case Claiming(inode, taken) => inode < s.nextInode && (taken.From? ==> Gone(s, taken.holder.host))
    case Holding(taken) => taken.From? ==> Gone(s, taken.holder.host)
    case _ => true
  }

  /** At most one running host has the lock, and the file under the lock's name is that host's. */
  ghost predicate Exclusive(s: State)
    requires |s.pids| == |s.hosts|
  {
    && (forall a: nat, b: nat :: Owns(s, a) && Owns(s, b) ==> a == b)
    && (forall h: nat :: Owns(s, h) ==> FileStandsFor(s, h))
  }

  ghost predicate Sound(s: State) {
    && |s.pids| == |s.hosts|
    && (s.path.Some? ==> Minted(s, s.path.value))
    && Exclusive(s)
    && (forall h: nat :: h < |s.hosts| ==> PhaseSound(s, h))
  }

  /** A file that stands for a running host is not stale, and so is never the one a steal judged. */
  lemma OwnedIsNotStale(s: State, h: nat)
    requires Sound(s) && Owns(s, h)
    ensures !Stale(s, s.path.value)
  {
    assert FileStandsFor(s, h);
    if s.hosts[h].Claiming? {
      assert s.hosts[h].inode == s.path.value.inode;
    }
  }

  lemma CreateKeeps(s: State, h: nat, linked: bool, taken: Taken, lost: Phase)
    requires Sound(s) && h < |s.hosts|
    requires s.hosts[h].Idle? || s.hosts[h].Recreating?
    requires lost == Idle || lost == Reading
    requires taken.From? ==> Gone(s, taken.holder.host)
    ensures Sound(TryCreate(s, h, linked, taken, lost))
  {
    var t := TryCreate(s, h, linked, taken, lost);
    forall k: nat | Owns(s, k)
      ensures s.path.Some?
    {
      assert FileStandsFor(s, k);
    }
    forall k: nat | Owns(t, k)
      ensures if s.path.Some? then Owns(s, k) else k == h
    {
      if k != h {
        assert Owns(s, k);
      }
    }
    forall k: nat | k < |t.hosts|
      ensures PhaseSound(t, k)
    {
      assert PhaseSound(s, k);
    }
    forall k: nat | Owns(t, k)
      ensures FileStandsFor(t, k)
    {
      if s.path.Some? {
        assert k != h && Owns(s, k);
      }
    }
  }

  lemma ReadKeeps(s: State, h: nat, alive: bool)
    requires Sound(s) && h < |s.hosts| && s.hosts[h].Reading?
    requires Truthful(s, Read(h, alive))
    ensures Sound(AfterRead(s, h, alive))
  {
    var t := AfterRead(s, h, alive);
    var holder := ReadHolder(s.path);
    if holder.Some? && Live(s, holder.value.host) {
      assert s.pids[holder.value.host] == holder.value.pid;
      assert alive;
    }
    forall k: nat | Owns(t, k)
      ensures Owns(s, k) && FileStandsFor(t, k)
    {
      assert Owns(s, k) && FileStandsFor(s, k);
    }
    forall k: nat | k < |t.hosts|
      ensures PhaseSound(t, k)
    {
      assert PhaseSound(s, k);
    }
  }

  lemma ClaimsAreInFlight(s: State)
    requires Sound(s)
    ensures forall k: nat :: k < |s.hosts| && s.hosts[k].Claiming? ==> ClaimInFlight(s.path, s.now)
  {
    forall k: nat | k < |s.hosts| && s.hosts[k].Claiming?
      ensures ClaimInFlight(s.path, s.now)
    {
      assert Owns(s, k) && FileStandsFor(s, k);
    }
  }

  lemma StatKeeps(s: State, h: nat)
    requires Sound(s) && h < |s.hosts| && s.hosts[h].Checking?
    ensures Sound(AfterStat(s, h, s.hosts[h].seen))
  {
    var seen := s.hosts[h].seen;
    var t := AfterStat(s, h, seen);
    ClaimsAreInFlight(s);
    forall k: nat | Owns(t, k)
      ensures Owns(s, k) && FileStandsFor(t, k)
    {
      assert Owns(s, k) && FileStandsFor(s, k);
    }
    forall k: nat | k < |t.hosts|
      ensures PhaseSound(t, k)
    {
      assert PhaseSound(s, k);
      assert PhaseSound(s, h);
      if k == h && t.hosts[k].Unlinking? && seen.Some? {
        assert Stale(t, seen.value);
      }
    }
  }

  lemma UnlinkKeeps(s: State, h: nat)
    requires Sound(s) && h < |s.hosts| && s.hosts[h].Unlinking?
    requires forall k: nat :: !Owns(s, k)
    ensures Sound(Next(s, Unlink(h)))
  {
    var t := Next(s, Unlink(h));
    forall k: nat
      ensures !Owns(t, k)
    {
      assert !Owns(s, k);
    }
    forall k: nat | k < |t.hosts|
      ensures PhaseSound(t, k)
    {
      assert PhaseSound(s, k);
    }
  }

  /** What a host has seen stays as stale as it was while others die and claims end. */
  lemma PhaseKept(s: State, t: State, k: nat)
    requires |s.pids| == |s.hosts| && t.pids == s.pids && |t.hosts| == |s.hosts| && s.nextInode <= t.nextInode
    requires forall j: nat :: Gone(s, j) ==> Gone(t, j)
    requires forall j: nat :: j < |t.hosts| && t.hosts[j].Claiming? ==> s.hosts[j] == t.hosts[j]
    requires k < |s.hosts| && t.hosts[k] == s.hosts[k] && PhaseSound(s, k)
    ensures PhaseSound(t, k)
  {
    forall file | Stale(s, file)
      ensures Stale(t, file)
    {
    }
  }

  predicate OwnersStep(step: Step) {
    step.Write? || step.WriteFails? || step.ReleaseRead? || step.ReleaseUnlink? || step.Crash?
  }

  /** A step taken by the owner, or by a host that owns nothing, leaves every other owner its file. */
  lemma OwnStepKeeps(s: State, step: Step)
    requires Sound(s) && OwnersStep(step)
    ensures Sound(Next(s, step))
  {
    var t := Next(s, step);
    if step.host < |s.hosts| {
      OwnStepExclusive(s, step);
      assert PhaseSound(s, step.host);
      assert forall j: nat :: Gone(s, j) ==> Gone(t, j);
      assert forall j: nat :: j < |t.hosts| && t.hosts[j].Claiming? ==> s.hosts[j] == t.hosts[j];
      forall k: nat | k < |t.hosts| && k != step.host
        ensures PhaseSound(t, k)
      {
        PhaseKept(s, t, k);
      }
    }
  }

  lemma OwnStepExclusive(s: State, step: Step)
    requires Sound(s) && OwnersStep(step) && step.host < |s.hosts|
    ensures Exclusive(Next(s, step))
  {
    var h := step.host;
    var t := Next(s, step);
    forall k: nat | Owns(t, k)
      ensures Owns(s, k) && FileStandsFor(t, k)
    {
      assert Owns(s, k) && FileStandsFor(s, k);
      if k != h {
        assert !Owns(s, h);
        assert t.path == s.path;
      }
    }
  }

  lemma TickKeeps(s: State, elapsed: nat)
    requires Sound(s) && Timely(s, Tick(elapsed))
    ensures Sound(Next(s, Tick(elapsed)))
  {
    var t := Next(s, Tick(elapsed));
    forall k: nat | Owns(t, k)
      ensures Owns(s, k) && FileStandsFor(t, k)
    {
      assert Owns(s, k) && FileStandsFor(s, k);
    }
    forall k: nat | k < |t.hosts|
      ensures PhaseSound(t, k)
    {
      assert PhaseSound(s, k);
    }
  }

  lemma StepKeeps(s: State, step: Step)
    requires Sound(s) && Disciplined(s, step)
    ensures Sound(Next(s, step))
  {
    if step.Tick? {
      TickKeeps(s, step.elapsed);
    } else if OwnersStep(step) {
      OwnStepKeeps(s, step);
    } else if step.host < |s.hosts| {
      var h := step.host;
      assert PhaseSound(s, h);
      match (step, s.hosts[h])
      case (Create(_, linked), Idle) => CreateKeeps(s, h, linked, Nothing, Reading);
      case (Read(_, alive), Reading) => ReadKeeps(s, h, alive);
      case (Stat(_), Checking(_)) => StatKeeps(s, h);
      case (Unlink(_), Unlinking(seen)) =>
        forall k: nat
          ensures !Owns(s, k)
        {
          if Owns(s, k) {
            assert FileStandsFor(s, k);
            OwnedIsNotStale(s, k);
          }
        }
        UnlinkKeeps(s, h);
      case (Recreate(_, linked), Recreating(seen)) => CreateKeeps(s, h, linked, TakenFrom(seen), Idle);
      case _ =>
    }
  }

  /** Hosts that have not asked for the lock yet, beside whatever file a dead host may have left. */
  predicate Start(s: State) {
    && |s.pids| == |s.hosts|
    && (forall h: nat :: h < |s.hosts| ==> s.hosts[h].Idle? || s.hosts[h].Dead?)
    && (s.path.Some? ==> Minted(s, s.path.value))
  }

  /** Mutual exclusion over every run whose steals remove what they judged. */
  lemma {:induction false} RunExcludes(s: State, steps: seq<Step>)
    requires Sound(s) && DisciplinedRun(s, steps)
    ensures Sound(Run(s, steps)) && Exclusive(Run(s, steps))
    decreases |steps|
  {
    if steps != [] {
      StepKeeps(s, steps[0]);
      RunExcludes(Next(s, steps[0]), steps[1..]);
    }
  }

  lemma StartIsSound(s: State)
    requires Start(s)
    ensures Sound(s)
  {
    assert forall h: nat :: !Owns(s, h);
  }

  /**
   * A running host's lock ends only by its own hand, and until then the file stays: no
   * other host's step removes or replaces it, not a steal and not a release that comes late.
   */
  lemma NeverStolen(s: State, step: Step, h: nat)
    requires Sound(s) && Disciplined(s, step) && Owns(s, h)
    ensures !Owns(Next(s, step), h) ==>
              step == WriteFails(h) || step == ReleaseUnlink(h) || step == Crash(h)
    ensures step != ReleaseUnlink(h) ==>
            Next(s, step).path.Some? && Next(s, step).path.value.inode == s.path.value.inode
    ensures Next(s, step).path != s.path ==> step == Write(h) || step == ReleaseUnlink(h)
  {
    assert FileStandsFor(s, h);
    if !step.Tick? && step.host < |s.hosts| && step.host != h {
      assert !Owns(s, step.host);
      assert PhaseSound(s, step.host);
      OwnedIsNotStale(s, h);
    }
  }

  // ---- When a steal is safe --------------------------------------------------------

  /** Removing the file keeps the lock exclusive exactly when no running host has it. */
  lemma UnlinkIsSafe(s: State, h: nat)
    requires Sound(s) && h < |s.hosts| && s.hosts[h].Unlinking?
    ensures Sound(Next(s, Unlink(h))) <==> forall k: nat :: !Owns(s, k)
  {
    if k: nat :| Owns(s, k) {
      assert k != h;
      assert Owns(Next(s, Unlink(h)), k);
      assert !FileStandsFor(Next(s, Unlink(h)), k);
    } else {
      UnlinkKeeps(s, h);
    }
  }

  /** Every removal of the lock file, by a host that has judged one, finds no running host with the lock. */
  ghost predicate RemovesNobodys(s: State, steps: seq<Step>)
    requires |s.pids| == |s.hosts|
    decreases |steps|
  {
    steps == [] ||
    ((Removes(s, steps[0]) ==> forall k: nat :: !Owns(s, k)) && RemovesNobodys(Next(s, steps[0]), steps[1..]))
  }

  predicate Removes(s: State, step: Step) {
    step.Unlink? && step.host < |s.hosts| && s.hosts[step.host].Unlinking?
  }

  ghost predicate HonestRun(s: State, steps: seq<Step>)
    requires |s.pids| == |s.hosts|
    decreases |steps|
  {
    steps == [] || (Truthful(s, steps[0]) && Timely(s, steps[0]) && HonestRun(Next(s, steps[0]), steps[1..]))
  }

  ghost predicate ExclusiveThroughout(s: State, steps: seq<Step>)
    requires |s.pids| == |s.hosts|
    decreases |steps|
  {
    Exclusive(s) && (steps == [] || ExclusiveThroughout(Next(s, steps[0]), steps[1..]))
  }

  /**
   * With honest liveness checks and timely claims, the lock is exclusive in every state of a run
   * exactly when no removal of the run hits the file of a running host.
   */
  lemma {:induction false} ExclusiveExactlyWhen(s: State, steps: seq<Step>)
    requires Sound(s) && HonestRun(s, steps)
    ensures ExclusiveThroughout(s, steps) <==> RemovesNobodys(s, steps)
    decreases |steps|
  {
    if steps != [] {
      var step, next := steps[0], Next(s, steps[0]);
      hide Exclusive, Truthful, Timely, Sound, Next;
      if !Removes(s, step) {
        StepKeeps(s, step);
        ExclusiveExactlyWhen(next, steps[1..]);
      } else if k: nat :| Owns(s, k) {
        OwnersFileRemoved(s, step.host, k);
      } else {
        UnlinkIsSafe(s, step.host);
        ExclusiveExactlyWhen(next, steps[1..]);
      }
      SoundIsExclusive(s);
    }
  }

  lemma SoundIsExclusive(s: State)
    requires Sound(s)
    ensures Exclusive(s)
  {
  }

  lemma OwnersFileRemoved(s: State, h: nat, k: nat)
    requires Sound(s) && h < |s.hosts| && s.hosts[h].Unlinking? && Owns(s, k)
    ensures !Exclusive(Next(s, Unlink(h)))
  {
    assert Owns(Next(s, Unlink(h)), k);
    assert !FileStandsFor(Next(s, Unlink(h)), k);
  }

  /** The calls from reading the holder to removing the file, with nothing in between. */
  function Steal(h: nat, alive: bool): seq<Step> {
    [Read(h, alive), Stat(h), Unlink(h)]
  }

  /** Taken as one step, a steal removes the file it judged. */
  lemma WholeStealIsDisciplined(s: State, h: nat, alive: bool)
    requires Sound(s) && h < |s.hosts| && s.hosts[h].Reading?
    requires Truthful(s, Read(h, alive))
    ensures DisciplinedRun(s, Steal(h, alive))
  {
    var read := Read(h, alive);
    var s1 := Next(s, read);
    var s2 := Next(s1, Stat(h));
    assert s2.path == s1.path == s.path;
    assert Disciplined(s, read) && Disciplined(s1, Stat(h)) && Disciplined(s2, Unlink(h));
    var steps := Steal(h, alive);
    assert steps[1..] == [Stat(h), Unlink(h)] && steps[1..][1..] == [Unlink(h)] && steps[1..][1..][1..] == [];
    assert DisciplinedRun(Next(s2, Unlink(h)), []);
    assert DisciplinedRun(s2, [Unlink(h)]);
    assert DisciplinedRun(s1, [Stat(h), Unlink(h)]);
  }

  /** A run in which every steal is one step, other calls interleaving around it. */
  datatype Move = Alone(step: Step) | Whole(host: nat, alive: bool)

  function StepsOf(move: Move): seq<Step> {
    match move
    case Alone(step) => [step]
    case Whole(h, alive) => Steal(h, alive)
  }

  /** What is relied on once steals are whole: the liveness check and the claim window, no more. */
  ghost predicate Relied(s: State, move: Move)
    requires |s.pids| == |s.hosts|
  {
    match move
    case Alone(step) => !step.Read? && !step.Stat? && !step.Unlink? && Timely(s, step)
    case Whole(h, alive) => h < |s.hosts| && s.hosts[h].Reading? && Truthful(s, Read(h, alive))
  }

  function RunMoves(s: State, moves: seq<Move>): (r: State)
    requires |s.pids| == |s.hosts|
    ensures |r.pids| == |r.hosts|
    decreases |moves|
  {
    if moves == [] then s else RunMoves(Run(s, StepsOf(moves[0])), moves[1..])
  }

  ghost predicate ReliedRun(s: State, moves: seq<Move>)
    requires |s.pids| == |s.hosts|
    decreases |moves|
  {
    moves == [] || (Relied(s, moves[0]) && ReliedRun(Run(s, StepsOf(moves[0])), moves[1..]))
  }

  /** With every steal one step, any interleaving from any leftover file keeps the lock exclusive. */
  lemma {:induction false} WholeStealsExclude(s: State, moves: seq<Move>)
    requires Sound(s) && ReliedRun(s, moves)
    ensures Sound(RunMoves(s, moves)) && Exclusive(RunMoves(s, moves))
    decreases |moves|
  {
    if moves != [] {
      var steps := StepsOf(moves[0]);
      match moves[0] {
        case Alone(step) =>
          assert steps[1..] == [];
          assert DisciplinedRun(Next(s, step), []);
          assert DisciplinedRun(s, steps);
        case Whole(h, alive) =>
          WholeStealIsDisciplined(s, h, alive);
      }
      RunExcludes(s, steps);
      WholeStealsExclude(Run(s, steps), moves[1..]);
    }
  }

  // ---- When a steal is not --------------------------------------------------------------

  /** Two idle hosts beside the lock of a third that died. */
  function TwoBesideAStaleLock(): State {
    State(0, Some(File(0, Named(Holder(30, 2)), 0)), 1, [10, 20, 30], [Idle, Idle, Dead])
  }

  /**
   * Two hosts judge the same stale lock before either removes it; the second then removes
   * the first one's new lock, and both hold the session.
   */
  lemma OverlappingStealsBothHold()
    ensures var s := TwoBesideAStaleLock();
            var s1 := Next(Next(s, Create(0, true)), Create(1, true));
            var s2 := Next(Next(s1, Read(0, false)), Read(1, false));
            var s3 := Next(Next(s2, Unlink(0)), Recreate(0, true));
            var s4 := Next(Next(s3, Unlink(1)), Recreate(1, true));
            && Start(s) && Truthful(s1, Read(0, false)) && Truthful(Next(s1, Read(0, false)), Read(1, false))
            && s4.hosts[0] == Holding(From(Holder(30, 2))) && s4.hosts[1] == Holding(From(Holder(30, 2)))
            && ReadHolder(s4.path) == Some(Holder(20, 1))
  {
    var s := TwoBesideAStaleLock();
    var s1 := Next(Next(s, Create(0, true)), Create(1, true));
    assert s1.hosts == [Reading, Reading, Dead];
    var s2 := Next(Next(s1, Read(0, false)), Read(1, false));
    assert s2.hosts == [Unlinking(s.path), Unlinking(s.path), Dead];
    var s3 := Next(Next(s2, Unlink(0)), Recreate(0, true));
    assert s3.hosts == [Holding(From(Holder(30, 2))), Unlinking(s.path), Dead];
    var s4 := Next(Next(s3, Unlink(1)), Recreate(1, true));
    assert s4.hosts == [Holding(From(Holder(30, 2))), Holding(From(Holder(30, 2))), Dead];
  }

  /** Host 0 has just written its claim; host 1 read the file while it was empty. */
  function ClaimJustFinished(): State {
    State(0, Some(File(0, Named(Holder(10, 0)), 0)), 1, [10, 20], [Holding(Nothing), Checking(Some(File(0, Empty, 0)))])
  }

  lemma ClaimJustFinishes()
    ensures var s := State(0, None, 0, [10, 20], [Idle, Idle]);
            var s1 := Next(Next(s, Create(0, false)), Create(1, false));
            Start(s) && Next(Next(s1, Read(1, true)), Write(0)) == ClaimJustFinished()
  {
    var s := State(0, None, 0, [10, 20], [Idle, Idle]);
    var s1 := Next(Next(s, Create(0, false)), Create(1, false));
    assert s1.hosts == [Claiming(0, Nothing), Reading];
    assert Next(Next(s1, Read(1, true)), Write(0)).hosts == ClaimJustFinished().hosts;
  }

  /**
   * No stale lock at all, only a volume without links: a host that read the file empty and
   * looks at its size after the claimant has written it no longer sees a claim in flight,
   * and takes a lock that is held.
   */
  lemma FinishedClaimIsStolen()
    ensures var s := Next(Next(ClaimJustFinished(), Stat(1)), Unlink(1));
            var t := Next(s, Recreate(1, true));
            t.hosts[0] == Holding(Nothing) && t.hosts[1] == Holding(FromUnreadable)
  {
    var s := Next(Next(ClaimJustFinished(), Stat(1)), Unlink(1));
    assert s.hosts == [Holding(Nothing), Recreating(Some(File(0, Empty, 0)))];
  }

  // ---- Acquiring and releasing as whole operations ----------------------------------------

  /** The first create, and the write that completes it where links are refused. */
  function Created(s: State, h: nat, linked: bool): State
    requires |s.pids| == |s.hosts|
  {
    Next(Next(s, Create(h, linked)), Write(h))
  }

  function Stolen(s: State, h: nat, alive: bool): State
    requires |s.pids| == |s.hosts|
  {
    Next(Next(Next(s, Read(h, alive)), Stat(h)), Unlink(h))
  }

  function Recreated(s: State, h: nat, linked: bool): State
    requires |s.pids| == |s.hosts|
  {
    Next(Next(s, Recreate(h, linked)), Write(h))
  }

  /** One acquisition with no other host in between; a call it does not reach changes nothing. */
  function Acquired(s: State, h: nat, alive: bool, linked: bool, relinked: bool): State
    requires |s.pids| == |s.hosts|
  {
    Recreated(Stolen(Created(s, h, linked), h, alive), h, relinked)
  }

  /** The lock as one create leaves it: named and held. */
  function Locked(s: State, h: nat, taken: Taken): State
    requires h < |s.hosts| == |s.pids|
  {
    Enter(s.(path := Some(File(s.nextInode, Named(Holder(s.pids[h], h)), s.now)), nextInode := s.nextInode + 1),
          h, Holding(taken))
  }

  lemma CreatedIs(s: State, h: nat, linked: bool)
    requires |s.pids| == |s.hosts| && h < |s.hosts| && s.hosts[h].Idle?
    ensures Created(s, h, linked) == if s.path.Some? then Enter(s, h, Reading) else Locked(s, h, Nothing)
  {
    assert Enter(Enter(s, h, Claiming(s.nextInode, Nothing)), h, Holding(Nothing)).hosts
        == Enter(s, h, Holding(Nothing)).hosts;
  }

  lemma StolenIs(s: State, h: nat, alive: bool)
    requires |s.pids| == |s.hosts| && h < |s.hosts|
    ensures !s.hosts[h].Reading? && !s.hosts[h].Checking? && !s.hosts[h].Unlinking? ==> Stolen(s, h, alive) == s
    ensures s.hosts[h].Reading? ==>
              Stolen(s, h, alive) ==
              if (if ReadHolder(s.path).Some? then alive else ClaimInFlight(s.path, s.now))
              then Enter(s, h, Idle)
              else Enter(s.(path := None), h, Recreating(s.path))
  {
    if s.hosts[h].Reading? {
      var read := Next(s, Read(h, alive));
      var checked := Next(read, Stat(h));
      if ReadHolder(s.path).Some? {
        assert checked == read == Enter(s, h, if alive then Idle else Unlinking(s.path));
      } else {
        assert read == Enter(s, h, Checking(s.path));
        assert checked.hosts == Enter(s, h, if ClaimInFlight(s.path, s.now) then Idle else Unlinking(s.path)).hosts;
      }
      assert Next(checked, Unlink(h)).hosts == s.hosts[h := Next(checked, Unlink(h)).hosts[h]];
    }
  }

  lemma RecreatedIs(s: State, h: nat, linked: bool)
    requires |s.pids| == |s.hosts| && h < |s.hosts|
    ensures !s.hosts[h].Recreating? && !s.hosts[h].Claiming? ==> Recreated(s, h, linked) == s
    ensures s.hosts[h].Recreating? && s.path.None? ==>
              Recreated(s, h, linked) == Locked(s, h, TakenFrom(s.hosts[h].seen))
  {
    if s.hosts[h].Recreating? && s.path.None? {
      var taken := TakenFrom(s.hosts[h].seen);
      assert Enter(Enter(s, h, Claiming(s.nextInode, taken)), h, Holding(taken)).hosts
          == Enter(s, h, Holding(taken)).hosts;
    }
  }

  /** Whether an acquisition that nobody interrupts gets the lock. */
  predicate Free(s: State, alive: bool) {
    s.path.None? || (if ReadHolder(s.path).Some? then !alive else !ClaimInFlight(s.path, s.now))
  }

  /**
   * The lock is taken exactly when it is free, or its holder is gone, or it names nobody and
   * is no fresh claim; a refusal leaves everything as it was.
   */
  lemma AcquiredExactlyWhen(s: State, h: nat, alive: bool, linked: bool, relinked: bool)
    requires |s.pids| == |s.hosts| && h < |s.hosts| && s.hosts[h].Idle?
    ensures Acquired(s, h, alive, linked, relinked) ==
            if Free(s, alive) then Locked(s, h, if s.path.None? then Nothing else TakenFrom(s.path)) else s
  {
    hide Created, Stolen, Recreated;
    var created := Created(s, h, linked);
    CreatedIs(s, h, linked);
    StolenIs(created, h, alive);
    RecreatedIs(Stolen(created, h, alive), h, relinked);
    var t := Acquired(s, h, alive, linked, relinked);
    assert t.hosts == s.hosts[h := t.hosts[h]];
    assert s.hosts[h := Idle] == s.hosts;
  }

  lemma RunTwo(s: State, a: Step, b: Step)
    requires |s.pids| == |s.hosts|
    ensures Run(s, [a, b]) == Next(Next(s, a), b)
  {
    hide Next;
    assert [a, b][1..] == [b] && [b][1..] == [];
    assert Run(Next(s, a), [b]) == Next(Next(s, a), b);
  }

  /**
   * Releasing removes the file exactly when it names this host or nobody at all. A file that
   * names another host is left, in every state; one that cannot be read is removed whoever's it is.
   */
  lemma ReleaseRemoves(s: State, h: nat)
    requires |s.pids| == |s.hosts| && h < |s.hosts| && s.hosts[h].Holding?
    ensures var t := Run(s, [ReleaseRead(h), ReleaseUnlink(h)]);
            var holder := ReadHolder(s.path);
            t == Enter(if holder.Some? && holder.value.host != h then s else s.(path := None), h, Idle)
  {
    RunTwo(s, ReleaseRead(h), ReleaseUnlink(h));
    var read := AfterReleaseRead(s, h);
    assert Next(s, ReleaseRead(h)) == read;
    var phase := read.hosts[h];
    assert phase == Releasing || phase == Idle;
    assert s.hosts[h := phase][h := Idle] == s.hosts[h := Idle];
  }

  /** After the holder crashes the next attempt that finds its process gone has the lock and knows whose it was. */
  lemma CrashedLockIsRecovered(s: State, owner: nat, h: nat, linked: bool, relinked: bool)
    requires Sound(s) && Owns(s, owner) && !s.hosts[owner].Claiming?
    requires h < |s.hosts| && s.hosts[h].Idle?
    ensures var t := Acquired(Next(s, Crash(owner)), h, false, linked, relinked);
            && t.hosts[h] == Holding(From(Holder(s.pids[owner], owner)))
            && t.hosts[owner].Dead?
  {
    assert FileStandsFor(s, owner);
    AcquiredExactlyWhen(Next(s, Crash(owner)), h, false, linked, relinked);
  }

  /**
   * Said of the file alone: an attempt has the lock exactly when there is no file, or it names a
   * holder that is gone, or it is empty and a second old, or it is garbled; and then the file names
   * the new holder, who knows whose lock it took.
   */
  lemma AcquiredSays(s: State, h: nat, alive: bool, linked: bool, relinked: bool)
    requires |s.pids| == |s.hosts| && h < |s.hosts| && s.hosts[h].Idle?
    ensures var t := Acquired(s, h, alive, linked, relinked);
            var free := s.path.None?
                        || match s.path.value.content {
                             case Named(_) => !alive
                             case Empty => s.path.value.modifiedAt + 1000 <= s.now
                             case Garbled => true
                           };
            && (t.hosts[h].Holding? <==> free)
            && (free ==>
                  && t.path == Some(File(s.nextInode, Named(Holder(s.pids[h], h)), s.now))
                  && t.hosts[h].taken == if s.path.None? then Nothing
                                         else if s.path.value.content.Named? then From(s.path.value.content.holder)
                                         else FromUnreadable)
            && (!free ==> t.path == s.path && t.hosts[h].Idle?)
            && forall k :: 0 <= k < |s.hosts| && k != h ==> t.hosts[k] == s.hosts[k]
  {
    hide Acquired;
    AcquiredExactlyWhen(s, h, alive, linked, relinked);
  }

  /**
   * A first claim that cannot be written leaves an empty file: the host that made it finds the file
   * fresh and gives up for now, and whoever comes a second later, and finds it so, has the lock.
   */
  lemma FailedClaimIsRecovered(s: State, h: nat, k: nat, alive: bool, elapsed: nat, linked: bool, relinked: bool)
    requires |s.pids| == |s.hosts| && h < |s.hosts| && k < |s.hosts| && s.path.None?
    requires s.hosts[h].Idle? && s.hosts[k].Idle?
    ensures var failed := Next(Next(Next(Next(s, Create(h, false)), WriteFails(h)), Read(h, alive)), Stat(h));
            && failed.path == Some(File(s.nextInode, Empty, s.now)) && failed.hosts == s.hosts
            && var t := Acquired(Next(failed, Tick(elapsed)), k, alive, linked, relinked);
               if elapsed >= 1000 then t.hosts[k] == Holding(FromUnreadable) else t.hosts[k].Idle?
  {
    var created := Next(s, Create(h, false));
    var failed := Next(Next(Next(created, WriteFails(h)), Read(h, alive)), Stat(h));
    assert created.hosts[h] == Claiming(s.nextInode, Nothing);
    assert failed.path == Some(File(s.nextInode, Empty, s.now));
    assert failed.hosts == s.hosts[h := failed.hosts[h]];
    assert s.hosts[h := Idle] == s.hosts;
    AcquiredSays(Next(failed, Tick(elapsed)), k, alive, linked, relinked);
  }
}
