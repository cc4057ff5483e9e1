/** The lock object a host keeps while it has a session open, over the directory the lock file is in. */
module SessionLock {
  import opened Wrappers
  import opened P = LockProtocol

  /** The lock's name in its directory, and what the system calls do to it. */
  class Directory {
    const pids: seq<nat>
    var now: nat
    var path: Option<File>
    var nextInode: nat
    ghost var hosts: seq<Phase>

    ghost predicate Valid()
      reads this
    {
      |pids| == |hosts|
    }

    ghost function View(): State
      reads this
    {
      State(now, path, nextInode, pids, hosts)
    }

    constructor (pids: seq<nat>, now: nat, leftover: Option<File>, nextInode: nat)
      ensures Valid()
      ensures View() == State(now, leftover, nextInode, pids, seq(|pids|, _ => Idle))
    {
      this.pids, this.now, this.path, this.nextInode := pids, now, leftover, nextInode;
      this.hosts := seq(|pids|, _ => Idle);
    }

    /** Publishes a file that already names its holder, failing if the name is taken. */
    method Link(h: nat) returns (ok: bool)
      requires h < |pids|
      modifies `path, `nextInode
      ensures ok == old(path).None?
      ensures path == if ok then Some(File(old(nextInode), Named(Holder(pids[h], h)), now)) else old(path)
      ensures nextInode == old(nextInode) + if ok then 1 else 0
    {
      ok := path.None?;
      if ok {
        path := Some(File(nextInode, Named(Holder(pids[h], h)), now));
        nextInode := nextInode + 1;
      }
    }

    /** Creates the file empty, failing if the name is taken. */
    method OpenExclusive() returns (inode: Option<nat>)
      modifies `path, `nextInode
      ensures inode == if old(path).None? then Some(old(nextInode)) else None
      ensures path == if inode.Some? then Some(File(inode.value, Empty, now)) else old(path)
      ensures nextInode == old(nextInode) + if inode.Some? then 1 else 0
    {
      if path.Some? {
        return None;
      }
      inode := Some(nextInode);
      path := Some(File(nextInode, Empty, now));
      nextInode := nextInode + 1;
    }

    /** Writes through a descriptor: to the file it opened, whatever has the name now. */
    method WriteHolder(inode: nat, h: nat)
      requires h < |pids|
      modifies `path
      ensures path == if old(path).Some? && old(path).value.inode == inode
                      then Some(File(inode, Named(Holder(pids[h], h)), now))
                      else old(path)
    {
      if path.Some? && path.value.inode == inode {
        path := Some(File(inode, Named(Holder(pids[h], h)), now));
      }
    }

    method RemoveName()
      modifies `path
      ensures path.None?
    {
      path := None;
    }

    /** Creates the lock by link, or by exclusive create and write where links are refused. */
    method TryCreate(h: nat, linked: bool, ghost retry: bool) returns (created: bool)
      requires Valid() && h < |hosts|
      requires if retry then hosts[h].Recreating? else hosts[h].Idle?
      modifies this
      ensures Valid()
      ensures created == old(path).None?
      ensures View() == if retry then Recreated(old(View()), h, linked) else Created(old(View()), h, linked)
    {
      if linked {
        created := Link(h);
      } else {
        var inode := OpenExclusive();
        if inode.Some? {
          WriteHolder(inode.value, h);
        }
        created := inode.Some?;
      }
      ghost var before := old(View());
      hosts := (if retry then Recreated(before, h, linked) else Created(before, h, linked)).hosts;
      if retry {
        if created {
          RecreatedIs(before, h, linked);
        }
      } else {
        CreatedIs(before, h, linked);
      }
    }
  }

  class SessionLock {
    const directory: Directory
    const hostId: nat
    var released: bool

    constructor (directory: Directory, hostId: nat)
      ensures this.directory == directory && this.hostId == hostId && !released
    {
      this.directory, this.hostId, this.released := directory, hostId, false;
    }

    /**
     * Takes the lock, or says who has it. What it does to the directory is one uninterrupted
     * acquisition, and it succeeds exactly when the lock is free, its holder is gone, or the
     * file names nobody and is no fresh claim.
     */
    static method Acquire(directory: Directory, hostId: nat, isAlive: nat -> bool, linked: bool, relinked: bool)
      returns (lock: Option<SessionLock>, stoleFrom: Taken, heldBy: Option<Holder>)
      requires directory.Valid() && hostId < |directory.hosts| && directory.hosts[hostId].Idle?
      modifies directory
      ensures directory.Valid()
      ensures var holder := ReadHolder(old(directory.path));
              var alive := holder.Some? && isAlive(holder.value.pid);
              && directory.View() == Acquired(old(directory.View()), hostId, alive, linked, relinked)
              && (lock.Some? <==> Free(old(directory.View()), alive))
              && (lock.None? ==> heldBy == holder && directory.View() == old(directory.View()))
      ensures lock.Some? ==>
                && fresh(lock.value) && lock.value.directory == directory && lock.value.hostId == hostId
                && !lock.value.released
                && directory.hosts[hostId] == Holding(stoleFrom)
                && ReadHolder(directory.path) == Some(Holder(directory.pids[hostId], hostId))
    {
      hide Created, Stolen, Recreated;
      ghost var s := directory.View();
      CreatedIs(s, hostId, linked);
      var created := directory.TryCreate(hostId, linked, false);
      ghost var c := directory.View();
      var holder := ReadHolder(directory.path);
      var alive := !created && holder.Some? && isAlive(holder.value.pid);
      ghost var was := ReadHolder(s.path);
      ghost var wasAlive := was.Some? && isAlive(was.value.pid);
      AcquiredExactlyWhen(s, hostId, wasAlive, linked, relinked);
      stoleFrom, heldBy := Nothing, None;
      if created {
        var mine := new SessionLock(directory, hostId);
        return Some(mine), Nothing, None;
      }
      StolenIs(c, hostId, alive);
      if alive || (holder.None? && ClaimInFlight(directory.path, directory.now)) {
        directory.hosts := s.hosts;
        return None, Nothing, holder;
      }
      directory.hosts := Stolen(c, hostId, alive).hosts;
      stoleFrom := TakenFrom(directory.path);
      directory.RemoveName();
      RecreatedIs(directory.View(), hostId, relinked);
      var recreated := directory.TryCreate(hostId, relinked, true);
      var mine := new SessionLock(directory, hostId);
      return Some(mine), stoleFrom, None;
    }

    /** Gives the lock up once; a file that by now names another host is left alone. */
    method Release()
      requires directory.Valid() && hostId < |directory.hosts|
      requires !released ==> directory.hosts[hostId].Holding?
      modifies this, directory
      ensures directory.Valid() && released
      ensures directory.View() ==
              if old(released) then old(directory.View())
              else Run(old(directory.View()), [ReleaseRead(hostId), ReleaseUnlink(hostId)])
    {
      if released {
        return;
      }
      ReleaseRemoves(directory.View(), hostId);
      released := true;
      var holder := ReadHolder(directory.path);
      directory.hosts := directory.hosts[hostId := Idle];
      if holder.Some? && holder.value.host != hostId {
        return;
      }
      directory.RemoveName();
    }
  }
}
