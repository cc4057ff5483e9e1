/**
 * What the host says, told by the operations alone. Each operation logs the one envelope it is
 * for, an attachment its greeting and a snapshot for every session not repaired already, and all
 * that is logged besides are announcements of losses and the snapshots that repair them. Each
 * counter numbers its envelopes from one without a hole.
 */
module EventLog {
  import opened Wrappers
  import opened EventStream

  // ---- Numbering -----------------------------------------------------------------------------

  /** How many of a log's envelopes one counter numbered. */
  function Numbers(log: seq<Logged>, session: Option<SessionId>, epoch: nat): nat {
    if log == [] then 0
    else
      var last := log[|log| - 1];
      Numbers(log[..|log| - 1], session, epoch)
      + if last.envelope.session == session && last.epoch == epoch then 1 else 0
  }

  /** Every envelope has the next number of its counter, and every counter says how many it gave out. */
  ghost predicate Numbered(st: State) {
    && (forall i :: 0 <= i < |st.trace.log| ==> NumberedAt(st.trace.log, i))
    && st.hostSequence == Numbers(st.trace.log, None, 0)
    && (forall s :: SequenceFor(st, s) == Numbers(st.trace.log, Some(s), Lookup(st.trace.epochs, s)))
    && (forall s, epoch: nat :: epoch > Lookup(st.trace.epochs, s) ==> Numbers(st.trace.log, Some(s), epoch) == 0)
  }

  predicate NumberedAt(log: seq<Logged>, i: nat)
    requires i < |log|
  {
    log[i].envelope.sequence == 1 + Numbers(log[..i], log[i].envelope.session, log[i].epoch)
  }

  lemma NumbersOneMore(log: seq<Logged>, entry: Logged, session: Option<SessionId>, epoch: nat)
    ensures Numbers(log + [entry], session, epoch) ==
            Numbers(log, session, epoch)
            + if entry.envelope.session == session && entry.epoch == epoch then 1 else 0
  {
    assert (log + [entry])[..|log|] == log;
  }

  lemma IssueNumbered(st: State, payload: Payload, session: Option<SessionId>)
    requires Numbered(st)
    ensures Numbered(Issue(st, payload, session))
  {
    hide Numbers, NumberedAt;
    var next := Issue(st, payload, session);
    var log, entry := st.trace.log, next.trace.log[|st.trace.log|];
    forall i | 0 <= i < |next.trace.log|
      ensures NumberedAt(next.trace.log, i)
    {
      IssuedNumber(st, payload, session, i);
    }
    NumbersOneMore(log, entry, None, 0);
    forall s
      ensures SequenceFor(next, s) == Numbers(next.trace.log, Some(s), Lookup(next.trace.epochs, s))
    {
      NumbersOneMore(log, entry, Some(s), Lookup(st.trace.epochs, s));
    }
    forall s, epoch: nat | epoch > Lookup(next.trace.epochs, s)
      ensures Numbers(next.trace.log, Some(s), epoch) == 0
    {
      NumbersOneMore(log, entry, Some(s), epoch);
    }
  }

  lemma IssuedNumber(st: State, payload: Payload, session: Option<SessionId>, i: nat)
    requires Numbered(st) && i <= |st.trace.log|
    ensures NumberedAt(Issue(st, payload, session).trace.log, i)
  {
    hide Numbers;
    var log, next := st.trace.log, Issue(st, payload, session).trace.log;
    assert next[..i] == log[..i];
    if i < |log| {
      assert NumberedAt(log, i);
    } else {
      assert log[..i] == log;
    }
  }

  lemma ResetNumbered(st: State, s: SessionId)
    requires Numbered(st)
    ensures Numbered(Reset(st, s))
  {
    hide Numbers;
  }

  lemma CloseNumbered(st: State, s: SessionId)
    requires Numbered(st)
    ensures Numbered(Close(st, s))
  {
    hide Numbers;
  }

  // ---- Repairs ---------------------------------------------------------------------------------

  /** An announcement of losses, or the snapshot after it: of the host's state, first of its counter. */
  predicate Repairs(hosts: map<SessionId, seq<Change>>, e: Envelope) {
    match e.session
    case None => false
    case Some(s) =>
      e.payload.StreamGap? || (s in hosts && e.payload == Snapshot(0, hosts[s], true) && e.sequence == 1)
  }

  /** How many announcements, or snapshots for a gap, of a session a log holds. */
  function Told(log: seq<Logged>, s: SessionId): nat {
    if log == [] then 0
    else
      var e := log[|log| - 1].envelope;
      Told(log[..|log| - 1], s) + if e.session == Some(s) && e.payload.StreamGap? then 1 else 0
  }

  function Mended(log: seq<Logged>, s: SessionId): nat {
    if log == [] then 0
    else
      var e := log[|log| - 1].envelope;
      Mended(log[..|log| - 1], s)
      + if e.session == Some(s) && e.payload.Snapshot? && e.payload.afterGap then 1 else 0
  }

  /** Every announcement of a session the host has is followed by a snapshot of it, its own. */
  ghost predicate Balanced(hosts: map<SessionId, seq<Change>>, log: seq<Logged>) {
    && (forall s, k :: 0 <= k <= |log| ==> Mended(log[..k], s) <= Told(log[..k], s))
    && (forall s :: s in hosts ==> Mended(log, s) == Told(log, s))
  }

  lemma {:induction false} CountsSplit(a: seq<Logged>, b: seq<Logged>, s: SessionId)
    ensures Told(a + b, s) == Told(a, s) + Told(b, s) && Mended(a + b, s) == Mended(a, s) + Mended(b, s)
  {
    if b == [] {
      assert a + b == a;
    } else {
      assert (a + b)[..|a + b| - 1] == a + b[..|b| - 1];
      CountsSplit(a, b[..|b| - 1], s);
    }
  }

  lemma BalancedAt(hosts: map<SessionId, seq<Change>>, log: seq<Logged>, s: SessionId, k: nat)
    requires Balanced(hosts, log) && k <= |log|
    ensures Mended(log[..k], s) <= Told(log[..k], s)
    ensures Mended(log, s) <= Told(log, s) && (s in hosts ==> Mended(log, s) == Told(log, s))
  {
    assert log[..|log|] == log;
  }

  lemma BalancedJoin(hosts: map<SessionId, seq<Change>>, a: seq<Logged>, b: seq<Logged>)
    requires Balanced(hosts, a) && Balanced(hosts, b)
    ensures Balanced(hosts, a + b)
  {
    hide Balanced, Told, Mended;
    var log := a + b;
    forall s, k | 0 <= k <= |log|
      ensures Mended(log[..k], s) <= Told(log[..k], s)
    {
      if k <= |a| {
        BalancedAt(hosts, a, s, k);
        assert log[..k] == a[..k];
      } else {
        BalancedAt(hosts, a, s, |a|);
        BalancedAt(hosts, b, s, k - |a|);
        CountsSplit(a, b[..k - |a|], s);
        assert log[..k] == a + b[..k - |a|];
      }
    }
    forall s | s in hosts
      ensures Mended(log, s) == Told(log, s)
    {
      BalancedAt(hosts, a, s, |a|);
      BalancedAt(hosts, b, s, |b|);
      CountsSplit(a, b, s);
    }
    IsBalanced(hosts, log);
  }

  lemma IsBalanced(hosts: map<SessionId, seq<Change>>, log: seq<Logged>)
    requires forall s, k :: 0 <= k <= |log| ==> Mended(log[..k], s) <= Told(log[..k], s)
    requires forall s :: s in hosts ==> Mended(log, s) == Told(log, s)
    ensures Balanced(hosts, log)
  {
  }

  lemma OneCounts(entry: Logged, s: SessionId)
    ensures var e := entry.envelope;
            && Told([entry], s) == (if e.session == Some(s) && e.payload.StreamGap? then 1 else 0)
            && Mended([entry], s) ==
               (if e.session == Some(s) && e.payload.Snapshot? && e.payload.afterGap then 1 else 0)
  {
    assert [entry][..0] == [];
  }

  /** An announcement, what came of it, and for a session the host has its snapshot. */
  lemma BalancedRepair(hosts: map<SessionId, seq<Change>>, gap: Logged, a: seq<Logged>, mend: seq<Logged>)
    requires Balanced(hosts, a) && gap.envelope.session.Some? && gap.envelope.payload.StreamGap?
    requires if gap.envelope.session.value in hosts
             then |mend| == 1 && mend[0].envelope.session == gap.envelope.session
                  && mend[0].envelope.payload.Snapshot? && mend[0].envelope.payload.afterGap
             else mend == []
    ensures Balanced(hosts, [gap] + a + mend)
  {
    hide Balanced, Told, Mended;
    var log := [gap] + a + mend;
    forall s, k | 0 <= k <= |log|
      ensures Mended(log[..k], s) <= Told(log[..k], s)
    {
      RepairCounts(hosts, gap, a, mend, s, k);
    }
    forall s | s in hosts
      ensures Mended(log, s) == Told(log, s)
    {
      RepairCounts(hosts, gap, a, mend, s, |log|);
      assert log[..|log|] == log;
    }
    IsBalanced(hosts, log);
  }

  lemma RepairCounts(hosts: map<SessionId, seq<Change>>, gap: Logged, a: seq<Logged>, mend: seq<Logged>,
                     s: SessionId, k: nat)
    requires Balanced(hosts, a) && gap.envelope.session.Some? && gap.envelope.payload.StreamGap?
    requires if gap.envelope.session.value in hosts
             then |mend| == 1 && mend[0].envelope.session == gap.envelope.session
                  && mend[0].envelope.payload.Snapshot? && mend[0].envelope.payload.afterGap
             else mend == []
    requires k <= |[gap] + a + mend|
    ensures var log := [gap] + a + mend;
            && Mended(log[..k], s) <= Told(log[..k], s)
            && (k == |log| && s in hosts ==> Mended(log[..k], s) == Told(log[..k], s))
  {
    hide Balanced, Told, Mended;
    var log := [gap] + a + mend;
    OneCounts(gap, s);
    if k == 0 {
      NothingCounts(s);
    } else {
      var n := if k <= 1 + |a| then k - 1 else |a|;
      BalancedAt(hosts, a, s, n);
      CountsSplit([gap], a[..n], s);
      if k <= 1 + |a| {
        assert log[..k] == [gap] + a[..n];
      } else {
        CountsSplit([gap] + a, mend, s);
        OneCounts(mend[0], s);
        assert log[..k] == [gap] + a + mend && mend == [mend[0]] && a[..n] == a;
      }
      assert k == |log| ==> n == |a| && a[..n] == a;
    }
  }

  lemma NothingCounts(s: SessionId)
    ensures Told([], s) == 0 && Mended([], s) == 0
  {
  }

  /** Nothing changed that a log entry could tell of. */
  predicate SameLog(st: State, next: State) {
    && next.hosts == st.hosts && next.open == st.open && next.trace.log == st.trace.log
    && next.sequences == st.sequences && next.hostSequence == st.hostSequence
    && next.trace.epochs == st.trace.epochs
  }

  /** Nothing but repairs was logged. */
  ghost predicate OnlyRepairs(st: State, next: State) {
    && next.hosts == st.hosts && next.open == st.open
    && st.trace.log <= next.trace.log
    && (forall i :: |st.trace.log| <= i < |next.trace.log| ==> Repairs(st.hosts, next.trace.log[i].envelope))
    && Balanced(st.hosts, next.trace.log[|st.trace.log|..])
  }

  lemma SameLogNumbered(st: State, next: State)
    requires Numbered(st) && SameLog(st, next)
    ensures Numbered(next) && OnlyRepairs(st, next)
  {
    hide Numbers;
  }

  lemma RepairsChain(a: State, b: State, c: State)
    requires OnlyRepairs(a, b) && OnlyRepairs(b, c)
    ensures OnlyRepairs(a, c)
  {
    hide Balanced, Repairs;
    var first, second := b.trace.log[|a.trace.log|..], c.trace.log[|b.trace.log|..];
    BalancedJoin(a.hosts, first, second);
    assert c.trace.log[|a.trace.log|..] == first + second;
  }

  lemma {:induction false} DrainSameLog(size: Size, st: State)
    ensures SameLog(st, Drain(size, st))
    decreases |st.pending|
  {
    hide Sum;
    if st.attached && st.pending != [] && !Blocked(size, st) {
      DrainSameLog(size, PostFirst(size, st));
    }
  }

  lemma DrainSays(size: Size, st: State)
    requires Numbered(st)
    ensures Numbered(Drain(size, st)) && OnlyRepairs(st, Drain(size, st)) && SameLog(st, Drain(size, st))
  {
    hide Drain, Numbered;
    DrainSameLog(size, st);
    SameLogNumbered(st, Drain(size, st));
  }

  /** An emission logs its own envelope, and after it nothing but repairs. */
  lemma {:induction false} EmitSays(size: Size, depth: nat, st: State, payload: Payload, session: Option<SessionId>)
    requires Numbered(st) && Emit(size, depth, st, payload, session).Some?
    ensures var next := Emit(size, depth, st, payload, session).value;
            Numbered(next) && OnlyRepairs(Issue(st, payload, session), next)
    decreases depth, 0
  {
    hide Drain, Numbered, Issue, BumpAll, Bytes, OnlyRepairs, Overflows, AnnounceEach;
    var issued := Issue(st, payload, session);
    IssueNumbered(st, payload, session);
    if !Overflows(size, st, payload, session) {
      var queued := Enqueue(st, payload, session);
      SameLogNumbered(issued, queued);
      DrainSays(size, queued);
      RepairsChain(issued, queued, Drain(size, queued));
    } else {
      var lost := Lose(st, payload, session);
      SameLogNumbered(issued, lost);
      if lost.attached {
        AnnounceSays(size, depth - 1, lost);
        var repaired := Announce(size, depth - 1, lost).value;
        DrainSays(size, repaired);
        RepairsChain(issued, lost, repaired);
        RepairsChain(issued, repaired, Drain(size, repaired));
      }
    }
  }

  lemma {:induction false} AnnounceSays(size: Size, depth: nat, st: State)
    requires Numbered(st) && Announce(size, depth, st).Some?
    ensures Numbered(Announce(size, depth, st).value) && OnlyRepairs(st, Announce(size, depth, st).value)
    decreases depth, 4
  {
    hide Numbered, AnnounceEach;
    var cleared := st.(dropped := []);
    SameLogNumbered(st, cleared);
    AnnounceEachSays(size, depth, cleared, st.dropped);
  }

  lemma {:induction false} AnnounceEachSays(size: Size, depth: nat, st: State, gaps: seq<Gap>)
    requires Numbered(st) && AnnounceEach(size, depth, st, gaps).Some?
    ensures Numbered(AnnounceEach(size, depth, st, gaps).value)
            && OnlyRepairs(st, AnnounceEach(size, depth, st, gaps).value)
    decreases depth, 3, |gaps|
  {
    hide Numbered, Emit, Resync, OnlyRepairs;
    if gaps == [] {
      SameLogNumbered(st, st);
    } else {
      var first := gaps[0];
      var told := Emit(size, depth, st, StreamGap(first.count), Some(first.session)).value;
      EmitSays(size, depth, st, StreamGap(first.count), Some(first.session));
      RepairedHosts(Issue(st, StreamGap(first.count), Some(first.session)), told);
      if first.session in told.hosts {
        RepairSays(size, depth, told, first.session);
        GapIsMended(st, first, told, Resync(size, depth, told, first.session, true).value);
      } else {
        GapIsTold(st, first, told);
      }
      var repaired := OnGap(size, depth, told, first.session).value;
      AnnounceEachSays(size, depth, repaired, gaps[1..]);
      RepairsChain(st, repaired, AnnounceEach(size, depth, repaired, gaps[1..]).value);
    }
  }

  lemma RepairedHosts(st: State, next: State)
    requires OnlyRepairs(st, next)
    ensures next.hosts == st.hosts
  {
  }

  lemma GapIsTold(st: State, gap: Gap, told: State)
    requires OnlyRepairs(Issue(st, StreamGap(gap.count), Some(gap.session)), told) && gap.session !in st.hosts
    ensures OnlyRepairs(st, told)
  {
    hide Balanced;
    var issued := Issue(st, StreamGap(gap.count), Some(gap.session));
    var n := |st.trace.log|;
    BalancedRepair(st.hosts, issued.trace.log[n], told.trace.log[n + 1..], []);
    assert told.trace.log[n..] == [issued.trace.log[n]] + told.trace.log[n + 1..] + [];
  }

  lemma GapIsMended(st: State, gap: Gap, told: State, next: State)
    requires OnlyRepairs(Issue(st, StreamGap(gap.count), Some(gap.session)), told) && gap.session in told.hosts
    requires var snapshot := Snapshot(0, told.hosts[gap.session], true);
             OnlyRepairs(Issue(Reset(told, gap.session), snapshot, Some(gap.session)), next)
    ensures OnlyRepairs(st, next)
  {
    hide Balanced;
    var issued := Issue(st, StreamGap(gap.count), Some(gap.session));
    var fenced := Issue(Reset(told, gap.session), Snapshot(0, told.hosts[gap.session], true), Some(gap.session));
    var n, m := |st.trace.log|, |told.trace.log|;
    var a, mend, rest := told.trace.log[n + 1..], fenced.trace.log[m], next.trace.log[m + 1..];
    BalancedRepair(st.hosts, issued.trace.log[n], a, [mend]);
    BalancedJoin(st.hosts, [issued.trace.log[n]] + a + [mend], rest);
    MendedLog(st.trace.log, issued.trace.log, told.trace.log, fenced.trace.log, next.trace.log);
  }

  lemma MendedLog(a: seq<Logged>, b: seq<Logged>, c: seq<Logged>, d: seq<Logged>, e: seq<Logged>)
    requires a <= b <= c <= d <= e && |b| == |a| + 1 && |d| == |c| + 1
    ensures e[|a|..] == [b[|a|]] + c[|a| + 1..] + [d[|c|]] + e[|c| + 1..]
  {
  }

  lemma {:induction false} RepairSays(size: Size, depth: nat, st: State, s: SessionId)
    requires Numbered(st) && s in st.hosts && Resync(size, depth, st, s, true).Some?
    ensures var next := Resync(size, depth, st, s, true).value;
            Numbered(next) && OnlyRepairs(Issue(Reset(st, s), Snapshot(0, st.hosts[s], true), Some(s)), next)
    decreases depth, 1
  {
    hide Numbered, Emit, OnlyRepairs, Issue;
    ResetNumbered(st, s);
    EmitSays(size, depth, Reset(st, s), Snapshot(0, st.hosts[s], true), Some(s));
  }

  // ---- Operations --------------------------------------------------------------------------------

  /** One envelope was logged, a snapshot as the first of its counter, and nothing after it but repairs. */
  ghost predicate Says(st: State, next: State, payload: Payload, session: Option<SessionId>) {
    && Numbered(next)
    && next.hosts == st.hosts && next.open == st.open
    && |next.trace.log| > |st.trace.log| && st.trace.log <= next.trace.log
    && next.trace.log[|st.trace.log|].envelope.payload == payload
    && next.trace.log[|st.trace.log|].envelope.session == session
    && (payload.Snapshot? ==> next.trace.log[|st.trace.log|].envelope.sequence == 1)
    && (forall i :: |st.trace.log| < i < |next.trace.log| ==> Repairs(next.hosts, next.trace.log[i].envelope))
    && Balanced(next.hosts, next.trace.log[|st.trace.log| + 1..])
  }

  lemma EmitLogs(size: Size, depth: nat, st: State, payload: Payload, session: Option<SessionId>)
    requires Numbered(st) && Emit(size, depth, st, payload, session).Some? && !payload.Snapshot?
    ensures Says(st, Emit(size, depth, st, payload, session).value, payload, session)
  {
    hide Numbered, Emit;
    EmitSays(size, depth, st, payload, session);
  }

  lemma ResyncLogs(size: Size, depth: nat, st: State, s: SessionId, afterGap: bool)
    requires Numbered(st) && s in st.hosts && Resync(size, depth, st, s, afterGap).Some?
    ensures Says(st, Resync(size, depth, st, s, afterGap).value, Snapshot(0, st.hosts[s], afterGap), Some(s))
  {
    hide Numbered, Emit;
    ResetNumbered(st, s);
    EmitSays(size, depth, Reset(st, s), Snapshot(0, st.hosts[s], afterGap), Some(s));
  }

  datatype Said = Said(payload: Payload, session: Option<SessionId>)

  function SaidIn(e: Envelope): seq<Said> {
    if e.payload.StreamGap? || (e.payload.Snapshot? && e.payload.afterGap) then [] else [Said(e.payload, e.session)]
  }

  /** What was logged besides announcements and the snapshots for a gap. */
  function Spoken(log: seq<Logged>): seq<Said> {
    if log == [] then [] else Spoken(log[..|log| - 1]) + SaidIn(log[|log| - 1].envelope)
  }

  lemma {:induction false} SpokenSplits(a: seq<Logged>, b: seq<Logged>)
    ensures Spoken(a + b) == Spoken(a) + Spoken(b)
  {
    hide SaidIn;
    if b == [] {
      assert a + b == a;
    } else {
      assert (a + b)[..|a + b| - 1] == a + b[..|b| - 1];
      SpokenSplits(a, b[..|b| - 1]);
    }
  }

  /** A snapshot logged is of the host's state and the first of its counter. */
  predicate TrueSnapshot(hosts: map<SessionId, seq<Change>>, e: Envelope) {
    e.payload.Snapshot? ==>
      && e.session.Some? && e.session.value in hosts && e.sequence == 1
      && e.payload.fence == 0 && e.payload.history == hosts[e.session.value]
  }

  /** What was logged from one state to the next, the host's own state staying as it is. */
  ghost predicate Speaks(st: State, next: State, said: seq<Said>) {
    && Numbered(next) && next.hosts == st.hosts && next.open == st.open
    && st.trace.log <= next.trace.log
    && Spoken(next.trace.log) == Spoken(st.trace.log) + said
    && (forall i :: |st.trace.log| <= i < |next.trace.log| ==> TrueSnapshot(st.hosts, next.trace.log[i].envelope))
    && Balanced(st.hosts, next.trace.log[|st.trace.log|..])
  }

  lemma SpeaksChain(a: State, b: State, c: State, first: seq<Said>, second: seq<Said>)
    requires Speaks(a, b, first) && Speaks(b, c, second)
    ensures first == [] ==> Speaks(a, c, second)
    ensures Speaks(a, c, first + second)
  {
    hide Numbered, TrueSnapshot, Spoken, Balanced;
    BalancedJoin(a.hosts, b.trace.log[|a.trace.log|..], c.trace.log[|b.trace.log|..]);
    assert c.trace.log[|a.trace.log|..] == b.trace.log[|a.trace.log|..] + c.trace.log[|b.trace.log|..];
  }

  lemma {:induction false} RepairsUnspoken(log: seq<Logged>, hosts: map<SessionId, seq<Change>>)
    requires forall i :: 0 <= i < |log| ==> Repairs(hosts, log[i].envelope)
    ensures Spoken(log) == []
  {
    if log != [] {
      RepairsUnspoken(log[..|log| - 1], hosts);
      assert Repairs(hosts, log[|log| - 1].envelope);
    }
  }

  lemma RepairsAreTrue(hosts: map<SessionId, seq<Change>>, e: Envelope)
    requires Repairs(hosts, e)
    ensures TrueSnapshot(hosts, e)
  {
  }

  lemma RepairedSpeaks(st: State, next: State)
    requires OnlyRepairs(st, next) && Numbered(next)
    ensures Speaks(st, next, [])
  {
    hide Numbered, Repairs, TrueSnapshot, Spoken, Balanced;
    var n := |st.trace.log|;
    var more := next.trace.log[n..];
    assert next.trace.log == st.trace.log + more;
    forall i | n <= i < |next.trace.log|
      ensures TrueSnapshot(st.hosts, next.trace.log[i].envelope)
    {
      RepairsAreTrue(st.hosts, next.trace.log[i].envelope);
    }
    RepairsUnspoken(more, st.hosts);
    SpokenSplits(st.trace.log, more);
  }

  /** What an envelope logged by itself says, and that its snapshots and those after it are true. */
  lemma SaysTruly(st: State, next: State, payload: Payload, session: Option<SessionId>)
    requires Says(st, next, payload, session)
    requires payload.Snapshot? ==> session.Some? && session.value in st.hosts
                                   && payload == Snapshot(0, st.hosts[session.value], payload.afterGap)
    ensures Spoken(next.trace.log) == Spoken(st.trace.log) + SaidIn(Envelope(1, session, payload))
    ensures forall i :: |st.trace.log| <= i < |next.trace.log| ==> TrueSnapshot(st.hosts, next.trace.log[i].envelope)
  {
    hide Numbered, Repairs, Spoken, TrueSnapshot, SaidIn, Balanced;
    var n := |st.trace.log|;
    var first := next.trace.log[n];
    FirstIsTrue(st, next, payload, session);
    forall i | n < i < |next.trace.log|
      ensures TrueSnapshot(st.hosts, next.trace.log[i].envelope)
    {
      RepairsAreTrue(st.hosts, next.trace.log[i].envelope);
    }
    FirstIsSpoken(st.trace.log, first, next.trace.log, st.hosts);
    SaidOf(first.envelope, Envelope(1, session, payload));
  }

  lemma SaysSpeaks(st: State, next: State, payload: Payload, session: Option<SessionId>)
    requires Says(st, next, payload, session)
    requires payload.Snapshot? ==> session.Some? && session.value in st.hosts
                                   && payload == Snapshot(0, st.hosts[session.value], false)
    requires !payload.StreamGap?
    ensures Speaks(st, next, [Said(payload, session)])
  {
    hide Numbered, Repairs, Spoken, TrueSnapshot, Balanced;
    SaysTruly(st, next, payload, session);
    var n := |st.trace.log|;
    OtherIsBalanced(st.hosts, next.trace.log[n]);
    BalancedJoin(st.hosts, [next.trace.log[n]], next.trace.log[n + 1..]);
    assert next.trace.log[n..] == [next.trace.log[n]] + next.trace.log[n + 1..];
  }

  lemma OtherIsBalanced(hosts: map<SessionId, seq<Change>>, entry: Logged)
    requires !entry.envelope.payload.StreamGap?
    requires entry.envelope.payload.Snapshot? ==> !entry.envelope.payload.afterGap
    ensures Balanced(hosts, [entry])
  {
    hide Balanced, Told, Mended;
    forall s, k | 0 <= k <= |[entry]|
      ensures Mended([entry][..k], s) <= Told([entry][..k], s)
    {
      OneCounts(entry, s);
      NothingCounts(s);
      assert [entry][..k] == [entry] || [entry][..k] == [];
    }
    forall s | s in hosts
      ensures Mended([entry], s) == Told([entry], s)
    {
      OneCounts(entry, s);
    }
    IsBalanced(hosts, [entry]);
  }

  lemma FirstIsTrue(st: State, next: State, payload: Payload, session: Option<SessionId>)
    requires Says(st, next, payload, session)
    requires payload.Snapshot? ==> session.Some? && session.value in st.hosts
                                   && payload == Snapshot(0, st.hosts[session.value], payload.afterGap)
    ensures TrueSnapshot(st.hosts, next.trace.log[|st.trace.log|].envelope)
  {
    hide Numbered, Repairs;
  }

  lemma FirstIsSpoken(log: seq<Logged>, first: Logged, next: seq<Logged>, hosts: map<SessionId, seq<Change>>)
    requires |next| > |log| && log <= next && next[|log|] == first
    requires forall i :: |log| < i < |next| ==> Repairs(hosts, next[i].envelope)
    ensures Spoken(next) == Spoken(log) + SaidIn(first.envelope)
  {
    hide Repairs, SaidIn;
    var more := next[|log| + 1..];
    RepairsUnspoken(more, hosts);
    assert next == (log + [first]) + more;
    SpokenSplits(log + [first], more);
    assert (log + [first])[..|log|] == log;
  }

  lemma SaidOf(e: Envelope, f: Envelope)
    requires e.payload == f.payload && e.session == f.session
    ensures SaidIn(e) == SaidIn(f)
  {
  }

  lemma EmitSpeaks(size: Size, depth: nat, st: State, payload: Payload, session: Option<SessionId>)
    requires Numbered(st) && Emit(size, depth, st, payload, session).Some?
    requires payload.Changed? || payload.HostNotice?
    ensures Speaks(st, Emit(size, depth, st, payload, session).value, [Said(payload, session)])
  {
    hide Numbered, Emit, Says, Speaks;
    EmitLogs(size, depth, st, payload, session);
    SaysSpeaks(st, Emit(size, depth, st, payload, session).value, payload, session);
  }

  lemma ResyncSpeaks(size: Size, depth: nat, st: State, s: SessionId)
    requires Numbered(st) && s in st.hosts && Resync(size, depth, st, s, false).Some?
    ensures Speaks(st, Resync(size, depth, st, s, false).value, [Said(Snapshot(0, st.hosts[s], false), Some(s))])
  {
    hide Numbered, Resync, Says, Speaks;
    ResyncLogs(size, depth, st, s, false);
    SaysSpeaks(st, Resync(size, depth, st, s, false).value, Snapshot(0, st.hosts[s], false), Some(s));
  }

  // ---- Attaching ---------------------------------------------------------------------------------

  /** The sessions an attachment gives a snapshot of, each with the host's state of it. */
  function Greeted(hosts: map<SessionId, seq<Change>>, ids: seq<SessionId>, already: set<SessionId>): seq<Said> {
    if ids == [] then []
    else
      (if ids[0] in already || ids[0] !in hosts then [] else [Said(Snapshot(0, hosts[ids[0]], false), Some(ids[0]))])
      + Greeted(hosts, ids[1..], already)
  }

  lemma {:induction false} ResyncEachSpeaks(
      size: Size, depth: nat, st: State, ids: seq<SessionId>, already: set<SessionId>)
    requires Numbered(st) && ResyncEach(size, depth, st, ids, already).Some?
    ensures Speaks(st, ResyncEach(size, depth, st, ids, already).value, Greeted(st.hosts, ids, already))
    decreases |ids|
  {
    hide Numbered, Resync;
    if ids == [] {
    } else if ids[0] in already || ids[0] !in st.hosts {
      ResyncEachSpeaks(size, depth, st, ids[1..], already);
    } else {
      ResyncSpeaks(size, depth, st, ids[0]);
      var fenced := Resync(size, depth, st, ids[0], false).value;
      ResyncEachSpeaks(size, depth, fenced, ids[1..], already);
      hide Speaks;
      SpeaksHosts(st, fenced, [Said(Snapshot(0, st.hosts[ids[0]], false), Some(ids[0]))]);
      SpeaksChain(st, fenced, ResyncEach(size, depth, fenced, ids[1..], already).value,
                  [Said(Snapshot(0, st.hosts[ids[0]], false), Some(ids[0]))],
                  Greeted(st.hosts, ids[1..], already));
    }
  }

  lemma SpeaksHosts(st: State, next: State, said: seq<Said>)
    requires Speaks(st, next, said)
    ensures Numbered(next) && next.hosts == st.hosts && next.open == st.open
  {
  }

  /** An attachment says the host is ready, what it restored, and the sessions no announcement repaired. */
  lemma AttachSpeaks(size: Size, depth: nat, st: State, restore: bool)
    requires Numbered(st) && Attach(size, depth, st, restore).Some?
    ensures Speaks(st, Attach(size, depth, st, restore).value,
                   [Said(HostNotice(0), None)] + (if restore then [Said(HostNotice(1), None)] else [])
                   + Greeted(st.hosts, st.open, GapSessions(st.dropped)))
  {
    hide Numbered, Emit, Announce, ResyncEach, Drain, Speaks, OnlyRepairs;
    var taken := TakePort(st);
    SameLogNumbered(st, taken);
    DrainSays(size, taken);
    var flushed := Drain(size, taken);
    DrainKeepsGaps(size, taken);
    RepairsChain(st, taken, flushed);
    AnnounceSays(size, depth, flushed);
    var announced := Announce(size, depth, flushed).value;
    RepairsChain(st, flushed, announced);
    RepairedSpeaks(st, announced);
    SpeaksHosts(st, announced, []);
    EmitSpeaks(size, depth, announced, HostNotice(HOST_READY), None);
    var ready := Emit(size, depth, announced, HostNotice(HOST_READY), None).value;
    SpeaksChain(st, announced, ready, [], [Said(HostNotice(0), None)]);
    SpeaksHosts(st, ready, [Said(HostNotice(0), None)]);
    var restored := if restore then Emit(size, depth, ready, HostNotice(WORKSPACE_CHANGED), None).value else ready;
    if restore {
      EmitSpeaks(size, depth, ready, HostNotice(WORKSPACE_CHANGED), None);
      SpeaksChain(st, ready, restored, [Said(HostNotice(0), None)], [Said(HostNotice(1), None)]);
      GreetingEnds(size, depth, st, restored, [Said(HostNotice(0), None)] + [Said(HostNotice(1), None)]);
    } else {
      assert [Said(HostNotice(0), None)] + [] == [Said(HostNotice(0), None)];
      GreetingEnds(size, depth, st, restored, [Said(HostNotice(0), None)]);
    }
  }

  lemma GreetingEnds(size: Size, depth: nat, st: State, restored: State, said: seq<Said>)
    requires Speaks(st, restored, said)
    requires ResyncEach(size, depth, restored, restored.open, GapSessions(st.dropped)).Some?
    ensures Speaks(st, Drain(size, ResyncEach(size, depth, restored, restored.open, GapSessions(st.dropped)).value),
                   said + Greeted(st.hosts, st.open, GapSessions(st.dropped)))
  {
    hide Numbered, ResyncEach, Drain, Speaks, OnlyRepairs;
    var already := GapSessions(st.dropped);
    SpeaksHosts(st, restored, said);
    ResyncEachSpeaks(size, depth, restored, restored.open, already);
    var greeted := ResyncEach(size, depth, restored, restored.open, already).value;
    var greeting := Greeted(st.hosts, st.open, already);
    SpeaksHosts(restored, greeted, greeting);
    DrainSays(size, greeted);
    RepairedSpeaks(greeted, Drain(size, greeted));
    SpeaksChain(st, restored, greeted, said, greeting);
    SpeaksChain(st, greeted, Drain(size, greeted), said + greeting, []);
    assert said + greeting + [] == said + greeting;
  }

  lemma {:induction false} DrainKeepsGaps(size: Size, st: State)
    ensures Drain(size, st).dropped == st.dropped
    decreases |st.pending|
  {
    hide Sum;
    if st.attached && st.pending != [] && !Blocked(size, st) {
      DrainKeepsGaps(size, PostFirst(size, st));
    }
  }

  // ---- Every operation, and every run --------------------------------------------------------------

  /** What an operation is for saying. */
  function Asked(st: State, op: Op): seq<Said> {
    match op
    case DoChange(s, change) => [Said(Changed(change), Some(s))]
    case DoNotice(notice) => [Said(HostNotice(notice), None)]
    case DoReplace(s, history) => if s in st.hosts then [Said(Snapshot(0, history, false), Some(s))] else []
    case DoAttach(restore) =>
      [Said(HostNotice(0), None)] + (if restore then [Said(HostNotice(1), None)] else [])
      + Greeted(st.hosts, st.open, GapSessions(st.dropped))
    case _ => []
  }

  /** The host's state of a session after an operation, or nothing for one that is not open. */
  function HostAfter(op: Op, s: SessionId, before: Option<seq<Change>>): Option<seq<Change>> {
    match op
    case DoRegister(t, history) => if t == s then Some(history) else before
    case DoReplace(t, history) => if t == s && before.Some? then Some(history) else before
    case DoChange(t, change) => if t == s && before.Some? then Some(before.value + [change]) else before
    case DoClose(t) => if t == s then None else before
    case _ => before
  }

  function HostOf(st: State, s: SessionId): Option<seq<Change>> {
    if s in st.hosts then Some(st.hosts[s]) else None
  }

  /** What a resync asked for logs first: a snapshot of the session that says it is for a gap. */
  predicate ResyncFirst(st: State, next: State, s: SessionId)
    requires s in st.hosts
  {
    && |next.trace.log| > |st.trace.log|
    && next.trace.log[|st.trace.log|].envelope == Envelope(1, Some(s), Snapshot(0, st.hosts[s], true))
  }

  lemma ResyncComesFirst(size: Size, depth: nat, st: State, s: SessionId)
    requires Numbered(st) && s in st.hosts && Resync(size, depth, st, s, true).Some?
    ensures var next := Resync(size, depth, st, s, true).value;
            && ResyncFirst(st, next, s) && Balanced(next.hosts, next.trace.log[|st.trace.log| + 1..])
            && Numbered(next) && next.hosts == st.hosts && next.open == st.open
            && st.trace.log <= next.trace.log && Spoken(next.trace.log) == Spoken(st.trace.log)
            && forall i :: |st.trace.log| <= i < |next.trace.log| ==>
                 TrueSnapshot(st.hosts, next.trace.log[i].envelope)
  {
    hide Resync, Numbered, Repairs, Balanced, Spoken;
    ResyncLogs(size, depth, st, s, true);
    SaysTruly(st, Resync(size, depth, st, s, true).value, Snapshot(0, st.hosts[s], true), Some(s));
  }

  /**
   * Each operation logs what it is for, and besides that nothing but announcements, each followed by
   * the snapshot that repairs its session if the host still has it.
   */
  lemma StepSpeaks(size: Size, depth: nat, st: State, op: Op)
    requires Numbered(st) && Step(size, depth, st, op).Some?
    ensures var next := Step(size, depth, st, op).value;
            && Numbered(next) && st.trace.log <= next.trace.log
            && Spoken(next.trace.log) == Spoken(st.trace.log) + Asked(st, op)
            && (forall i :: |st.trace.log| <= i < |next.trace.log| ==>
                  TrueSnapshot(next.hosts, next.trace.log[i].envelope))
            && (if op.DoResync? && op.session in st.hosts
                then ResyncFirst(st, next, op.session)
                     && Balanced(next.hosts, next.trace.log[|st.trace.log| + 1..])
                else Balanced(next.hosts, next.trace.log[|st.trace.log|..]))
  {
    hide Emit, Resync, Attach, Drain, Close;
    hide Balanced, Numbered, Greeted, TrueSnapshot, Spoken, ResyncFirst, OnlyRepairs;
    NothingIsBalanced(Step(size, depth, st, op).value.hosts);
    assert st.trace.log[|st.trace.log|..] == [];
    match op
    case DoRegister(s, history) => SameNumbered(st, Register(st, s, history));
    case DoAnswer(s) => SameNumbered(st, Step(size, depth, st, op).value);
    case DoChange(s, change) =>
      SameNumbered(st, Apply(st, s, change));
      EmitSpeaks(size, depth, Apply(st, s, change), Changed(change), Some(s));
    case DoNotice(notice) => EmitSpeaks(size, depth, st, HostNotice(notice), None);
    case DoReplace(s, history) =>
      if s in st.hosts {
        var replaced := st.(hosts := st.hosts[s := history]);
        SameNumbered(st, replaced);
        ResyncSpeaks(size, depth, replaced, s);
      }
    case DoResync(s) =>
      if s in st.hosts {
        ResyncComesFirst(size, depth, st, s);
      }
    case DoClose(s) =>
      CloseNumbered(st, s);
      CloseSameLog(st, s);
    case DoAttach(restore) => AttachSpeaks(size, depth, st, restore);
    case DoDetach => SameNumbered(st, Detach(st));
    case DoAck(count) =>
      var credited := st.(inFlight := st.inFlight[(if count < |st.inFlight| then count else |st.inFlight|)..]);
      SameNumbered(st, credited);
      DrainSays(size, credited);
  }

  lemma NothingIsBalanced(hosts: map<SessionId, seq<Change>>)
    ensures Balanced(hosts, [])
  {
  }

  lemma CloseSameLog(st: State, s: SessionId)
    ensures Close(st, s).trace.log == st.trace.log
  {
  }

  /** The numbers read only the log, the counters and the epochs. */
  lemma SameNumbered(st: State, next: State)
    requires Numbered(st) && next.trace.log == st.trace.log && next.sequences == st.sequences
    requires next.hostSequence == st.hostSequence && next.trace.epochs == st.trace.epochs
    ensures Numbered(next)
  {
    hide Numbers;
  }

  lemma {:induction false} RemoveIs(ids: seq<SessionId>, s: SessionId)
    ensures forall t :: t in Remove(ids, s) <==> t in ids && t != s
  {
    if ids != [] {
      RemoveIs(ids[1..], s);
    }
  }

  /** The host's own state of every session after each operation. */
  lemma StepHosts(size: Size, depth: nat, st: State, op: Op, s: SessionId)
    requires Numbered(st) && Step(size, depth, st, op).Some?
    requires s in st.open <==> s in st.hosts
    ensures var next := Step(size, depth, st, op).value;
            HostOf(next, s) == HostAfter(op, s, HostOf(st, s)) && (s in next.open <==> s in next.hosts)
  {
    hide Numbered, Emit, Resync, Attach, Drain, Greeted, TrueSnapshot, Spoken, OnlyRepairs, Speaks, Remove;
    match op
    case DoRegister(t, history) =>
    case DoAnswer(t) =>
    case DoChange(t, change) =>
      var applied := Apply(st, t, change);
      SameNumbered(st, applied);
      EmitSpeaks(size, depth, applied, Changed(change), Some(t));
      SpeaksHosts(applied, Step(size, depth, st, op).value, [Said(Changed(change), Some(t))]);
    case DoNotice(notice) =>
      EmitSpeaks(size, depth, st, HostNotice(notice), None);
      SpeaksHosts(st, Step(size, depth, st, op).value, [Said(HostNotice(notice), None)]);
    case DoReplace(t, history) =>
      if t in st.hosts {
        var replaced := st.(hosts := st.hosts[t := history]);
        SameNumbered(st, replaced);
        ResyncSpeaks(size, depth, replaced, t);
        SpeaksHosts(replaced, Step(size, depth, st, op).value, [Said(Snapshot(0, history, false), Some(t))]);
      }
    case DoResync(t) =>
      if t in st.hosts {
        ResyncComesFirst(size, depth, st, t);
      }
    case DoClose(t) => RemoveIs(st.open, t);
    case DoAttach(restore) =>
      AttachSpeaks(size, depth, st, restore);
      SpeaksHosts(st, Step(size, depth, st, op).value,
                  [Said(HostNotice(0), None)] + (if restore then [Said(HostNotice(1), None)] else [])
                  + Greeted(st.hosts, st.open, GapSessions(st.dropped)));
    case DoDetach =>
    case DoAck(count) =>
      var credited := st.(inFlight := st.inFlight[(if count < |st.inFlight| then count else |st.inFlight|)..]);
      DrainSameLog(size, credited);
  }

  function AskedOver(size: Size, depth: nat, ops: seq<Op>): seq<Said> {
    if ops == [] then []
    else
      var before := Run(size, depth, ops[..|ops| - 1]);
      AskedOver(size, depth, ops[..|ops| - 1])
      + if before.Some? then Asked(before.value, ops[|ops| - 1]) else []
  }

  function HostSaid(ops: seq<Op>, s: SessionId): Option<seq<Change>> {
    if ops == [] then None else HostAfter(ops[|ops| - 1], s, HostSaid(ops[..|ops| - 1], s))
  }

  /**
   * Over every run that returns: what was said is what the operations asked for, in their order; each
   * counter's envelopes are numbered from one without a hole; and the host's state of each session, to
   * which the receiver's is compared, is what the operations made it.
   */
  lemma {:induction false} RunSpeaks(size: Size, depth: nat, ops: seq<Op>)
    requires Run(size, depth, ops).Some?
    ensures var st := Run(size, depth, ops).value;
            && Numbered(st)
            && Spoken(st.trace.log) == AskedOver(size, depth, ops)
            && forall s :: HostOf(st, s) == HostSaid(ops, s) && (s in st.open <==> s in st.hosts)
    decreases |ops|
  {
    hide Step, Numbered, Spoken, HostAfter;
    if ops == [] {
      StartSpeaks();
    } else {
      var n := |ops| - 1;
      RunSpeaks(size, depth, ops[..n]);
      var st := Run(size, depth, ops[..n]).value;
      StepSpeaks(size, depth, st, ops[n]);
      forall s
        ensures HostOf(Run(size, depth, ops).value, s) == HostSaid(ops, s)
        ensures s in Run(size, depth, ops).value.open <==> s in Run(size, depth, ops).value.hosts
      {
        assert HostOf(st, s) == HostSaid(ops[..n], s);
        StepHosts(size, depth, st, ops[n], s);
      }
    }
  }

  lemma StartSpeaks()
    ensures Numbered(INITIAL) && Spoken(INITIAL.trace.log) == []
  {
  }

  // ---- What is lost --------------------------------------------------------------------------------

  /** Draining sends and loses nothing. */
  lemma {:induction false} DrainSends(size: Size, st: State)
    ensures var next := Drain(size, st);
            && st.trace.fates <= next.trace.fates
            && forall i :: |st.trace.fates| <= i < |next.trace.fates| ==> next.trace.fates[i] == Sent
    decreases |st.pending|
  {
    hide Sum;
    if st.attached && st.pending != [] && !Blocked(size, st) {
      DrainSends(size, PostFirst(size, st));
    }
  }

  lemma {:induction false} EmitFates(size: Size, depth: nat, st: State, payload: Payload, session: Option<SessionId>)
    requires Emit(size, depth, st, payload, session).Some?
    ensures var next := Emit(size, depth, st, payload, session).value;
            && st.trace.fates <= next.trace.fates
            && if Overflows(size, st, payload, session)
               then st.trace.fates + Losses(|st.pending| + 1) <= next.trace.fates
               else forall i :: |st.trace.fates| <= i < |next.trace.fates| ==> next.trace.fates[i] == Sent
    decreases depth, 0
  {
    hide Drain, Overflows, BumpAll, Announce, Losses;
    if !Overflows(size, st, payload, session) {
      DrainSends(size, Enqueue(st, payload, session));
    } else {
      var lost := Lose(st, payload, session);
      if lost.attached {
        AnnounceFates(size, depth - 1, lost);
        DrainSends(size, Announce(size, depth - 1, lost).value);
      }
    }
  }

  lemma {:induction false} AnnounceFates(size: Size, depth: nat, st: State)
    requires Announce(size, depth, st).Some?
    ensures st.trace.fates <= Announce(size, depth, st).value.trace.fates
    decreases depth, 4
  {
    AnnounceEachFates(size, depth, st.(dropped := []), st.dropped);
  }

  lemma {:induction false} AnnounceEachFates(size: Size, depth: nat, st: State, gaps: seq<Gap>)
    requires AnnounceEach(size, depth, st, gaps).Some?
    ensures st.trace.fates <= AnnounceEach(size, depth, st, gaps).value.trace.fates
    decreases depth, 3, |gaps|
  {
    hide Emit, Resync, Losses, Overflows;
    if gaps != [] {
      var s, gap := gaps[0].session, StreamGap(gaps[0].count);
      EmitFates(size, depth, st, gap, Some(s));
      var told := Emit(size, depth, st, gap, Some(s)).value;
      if s in told.hosts {
        ResyncFates(size, depth, told, s);
      }
      AnnounceEachFates(size, depth, OnGap(size, depth, told, s).value, gaps[1..]);
    }
  }

  lemma {:induction false} ResyncFates(size: Size, depth: nat, st: State, s: SessionId)
    requires s in st.hosts && Resync(size, depth, st, s, true).Some?
    ensures st.trace.fates <= Resync(size, depth, st, s, true).value.trace.fates
    decreases depth, 1
  {
    hide Emit, Losses, Overflows;
    var fenced := Reset(st, s);
    EmitFates(size, depth, fenced, Snapshot(SequenceFor(fenced, s), st.hosts[s], true), Some(s));
  }

  /**
   * An emission loses everything that waits and its own envelope, in that order and before anything
   * else, exactly when the two together are larger than sixteen mebibytes; otherwise it loses nothing.
   */
  lemma LosesExactlyWhen(size: Size, depth: nat, st: State, payload: Payload, session: Option<SessionId>)
    requires Emit(size, depth, st, payload, session).Some?
    ensures var next := Emit(size, depth, st, payload, session).value;
            var n, counter := |st.trace.fates|, (match session
                                                 case None => st.hostSequence
                                                 case Some(s) => SequenceFor(st, s));
            && n <= |next.trace.fates|
            && if Bytes(size, st.pending) + size(Envelope(counter + 1, session, payload)) > 16 * 1024 * 1024
               then n + |st.pending| + 1 <= |next.trace.fates|
                    && (forall i :: n <= i <= n + |st.pending| ==> next.trace.fates[i] == Lost)
                    && (!st.attached ==> next.pending == [] && |next.trace.fates| == n + |st.pending| + 1
                                         && next.droppedWhileDetached == st.droppedWhileDetached + |st.pending|
                                                                         + if session.Some? then 1 else 0)
               else && (forall i :: n <= i < |next.trace.fates| ==> next.trace.fates[i] == Sent)
                    && (!st.attached ==> next.pending == st.pending + [Envelope(counter + 1, session, payload)]
                                         && next.droppedWhileDetached == st.droppedWhileDetached)
  {
    hide Announce, BumpAll, Bytes;
    EmitFates(size, depth, st, payload, session);
    var next := Emit(size, depth, st, payload, session).value;
    if Overflows(size, st, payload, session) {
      forall i | |st.trace.fates| <= i <= |st.trace.fates| + |st.pending|
        ensures next.trace.fates[i] == Lost
      {
        assert next.trace.fates[i] == (st.trace.fates + Losses(|st.pending| + 1))[i];
      }
    }
  }

  // ---- The order of announcements --------------------------------------------------------------------

  function SessionsOf(gaps: seq<Gap>): seq<SessionId> {
    if gaps == [] then [] else [gaps[0].session] + SessionsOf(gaps[1..])
  }

  /** A list of sessions and then those of some envelopes that were not in it, as they first come. */
  function AsTheyCome(ids: seq<SessionId>, envelopes: seq<Envelope>): seq<SessionId> {
    if envelopes == [] then ids
    else
      var before := AsTheyCome(ids, envelopes[..|envelopes| - 1]);
      match envelopes[|envelopes| - 1].session
      case Some(s) => if s in before then before else before + [s]
      case None => before
  }

  lemma {:induction false} BumpInOrder(gaps: seq<Gap>, s: SessionId)
    ensures var ids := SessionsOf(gaps);
            SessionsOf(Bump(gaps, s)) == if s in ids then ids else ids + [s]
  {
    if gaps == [] {
      assert [Gap(s, 1)][1..] == [];
    } else if gaps[0].session != s {
      BumpInOrder(gaps[1..], s);
      assert Bump(gaps, s)[1..] == Bump(gaps[1..], s);
    } else {
      assert Bump(gaps, s)[1..] == gaps[1..];
    }
  }

  /** Losses are announced session by session, in the order in which each first lost something. */
  lemma {:induction false} LossesInOrder(gaps: seq<Gap>, envelopes: seq<Envelope>)
    ensures SessionsOf(BumpAll(gaps, envelopes)) == AsTheyCome(SessionsOf(gaps), envelopes)
  {
    if envelopes != [] {
      var n := |envelopes| - 1;
      LossesInOrder(gaps, envelopes[..n]);
      if envelopes[n].session.Some? {
        BumpInOrder(BumpAll(gaps, envelopes[..n]), envelopes[n].session.value);
      }
    }
  }
}
