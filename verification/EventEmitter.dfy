/**
 * The emitter as the host runs it: a queue and a credit window kept as arrays with a
 * head offset and a byte counter, compacted now and then, and a repair that calls back
 * into the emission that triggered it. Every method is proved to move the abstract
 * state exactly as the function of the same name in `EventStream` does, so every
 * theorem about runs there is a theorem about this class.
 */
module EventEmitter {
  import opened Sequences
  import opened Wrappers
  import Stream = EventStream
  import Flow = EventFlow

  datatype Entry = Entry(envelope: Stream.Envelope, bytes: nat)

  const COMPACT_AT: nat := 1024

  function Envelopes(entries: seq<Entry>): seq<Stream.Envelope> {
    seq(|entries|, i requires 0 <= i < |entries| => entries[i].envelope)
  }

  class Emitter {
    const size: Stream.Size

    var attached: bool
    var sequences: map<Stream.SessionId, nat>
    var hostSequence: nat
    var pending: seq<Entry>
    var pendingHead: nat
    var pendingBytes: nat
    var inFlight: seq<nat>
    var inFlightHead: nat
    var inFlightBytes: nat
    var droppedWhileDetached: nat
    var droppedPerSession: seq<Stream.Gap>

    /** The runtime's map of open sessions, which the gap and attach handlers read. */
    var open: seq<Stream.SessionId>
    var hosts: map<Stream.SessionId, seq<Stream.Change>>

    ghost var trace: Stream.Trace

    ghost predicate Valid()
      reads this
    {
      && pendingHead <= |pending|
      && (forall i :: 0 <= i < |pending| ==> pending[i].bytes == size(pending[i].envelope))
      && pendingBytes == Stream.Bytes(size, Envelopes(pending[pendingHead..]))
      && inFlightHead <= |inFlight|
      && inFlightBytes == Stream.Sum(inFlight[inFlightHead..])
    }

    /** The abstract state: what lies past the heads, and no counters. */
    ghost function View(): Stream.State
      requires pendingHead <= |pending| && inFlightHead <= |inFlight|
      reads this
    {
      Stream.State(attached, sequences, hostSequence, Envelopes(pending[pendingHead..]), inFlight[inFlightHead..],
                   droppedWhileDetached, droppedPerSession, open, hosts, trace)
    }

    constructor (size: Stream.Size)
      ensures Valid() && View() == Stream.INITIAL && this.size == size
    {
      this.size := size;
      attached := false;
      sequences, hostSequence := map[], 0;
      pending, pendingHead, pendingBytes := [], 0, 0;
      inFlight, inFlightHead, inFlightBytes := [], 0, 0;
      droppedWhileDetached, droppedPerSession := 0, [];
      open, hosts := [], map[];
      trace := Stream.EMPTY_TRACE;
    }

    // ---- Delivery -----------------------------------------------------------

    method Drain()
      requires Valid()
      modifies this
      ensures Valid() && View() == Stream.Drain(size, old(View()))
    {
      if !attached {
        return;
      }
      ghost var result := Stream.Drain(size, View());
      while pendingHead < |pending|
        invariant Valid() && attached
        invariant Stream.Drain(size, View()) == result
        decreases |pending| - pendingHead
      {
        var bytes := pending[pendingHead].bytes;
        assert View().pending[0] == pending[pendingHead].envelope;
        if inFlightBytes > 0 && inFlightBytes + bytes > Stream.EVENT_DELIVERY_WINDOW_BYTES {
          CompactPending();
          return;
        }
        PostNext();
      }
      pending := [];
      pendingHead := 0;
    }

    /** Drops the posted prefix of the array once it is both long and the larger half. */
    method CompactPending()
      requires Valid()
      modifies `pending, `pendingHead
      ensures Valid() && View() == old(View())
    {
      if pendingHead >= COMPACT_AT && pendingHead * 2 >= |pending| {
        pending := pending[pendingHead..];
        pendingHead := 0;
      }
    }

    /** Hands the oldest waiting envelope to the port and charges it to the window. */
    method PostNext()
      requires Valid() && pendingHead < |pending|
      modifies `pendingHead, `pendingBytes, `inFlight, `inFlightBytes, `trace
      ensures Valid() && old(View()).pending != [] && View() == Stream.PostFirst(size, old(View()))
      ensures pendingHead == old(pendingHead) + 1
    {
      hide Stream.Bytes, Stream.Sum;
      assert View().pending[0] == pending[pendingHead].envelope;
      var next := TakeNext();
      Charge(next.bytes);
      trace := trace.(received := trace.received + [Stream.Posted(next.envelope)],
                      fates := trace.fates + [Stream.Sent],
                      sent := trace.sent + [next.envelope]);
    }

    method TakeNext() returns (next: Entry)
      requires Valid() && pendingHead < |pending|
      modifies `pendingHead, `pendingBytes
      ensures Valid() && pendingHead == old(pendingHead) + 1
      ensures next == pending[old(pendingHead)] && next.bytes == size(next.envelope)
      ensures Envelopes(pending[pendingHead..]) == Envelopes(pending[old(pendingHead)..])[1..]
    {
      next := pending[pendingHead];
      PostedBytes(size, pending[pendingHead..]);
      assert pending[pendingHead..][1..] == pending[pendingHead + 1..];
      pendingHead := pendingHead + 1;
      pendingBytes := pendingBytes - next.bytes;
    }

    method Charge(bytes: nat)
      requires Valid()
      modifies `inFlight, `inFlightBytes
      ensures Valid() && inFlight[inFlightHead..] == old(inFlight[inFlightHead..]) + [bytes]
    {
      Flow.SumSplits(inFlight[inFlightHead..], [bytes]);
      OneEntry(bytes);
      inFlight := inFlight + [bytes];
      inFlightBytes := inFlightBytes + bytes;
      assert inFlight[inFlightHead..] == old(inFlight[inFlightHead..]) + [bytes];
    }

    method Acknowledge(count: nat)
      requires Valid()
      modifies this
      ensures Valid() && View() == Stream.Acknowledge(size, old(View()), count)
    {
      TakeCredit(count);
      CompactInFlight();
      Drain();
    }

    method TakeCredit(count: nat)
      requires Valid()
      modifies `inFlightHead, `inFlightBytes
      ensures Valid()
      ensures inFlight[inFlightHead..] == old(inFlight[inFlightHead..])[Min(count, old(|inFlight| - inFlightHead))..]
    {
      ghost var start := inFlightHead;
      var index := 0;
      while index < count && inFlightHead < |inFlight|
        invariant index <= count && inFlightHead == start + index <= |inFlight|
        invariant inFlightBytes == Stream.Sum(inFlight[inFlightHead..])
      {
        Flow.SumSplits([inFlight[inFlightHead]], inFlight[inFlightHead + 1..]);
        OneEntry(inFlight[inFlightHead]);
        assert inFlight[inFlightHead..] == [inFlight[inFlightHead]] + inFlight[inFlightHead + 1..];
        inFlightBytes := inFlightBytes - inFlight[inFlightHead];
        inFlightHead := inFlightHead + 1;
        index := index + 1;
      }
    }

    method CompactInFlight()
      requires Valid()
      modifies `inFlight, `inFlightHead
      ensures Valid() && View() == old(View())
    {
      if inFlightHead == |inFlight| {
        inFlight := [];
        inFlightHead := 0;
      } else if inFlightHead >= COMPACT_AT && inFlightHead * 2 >= |inFlight| {
        inFlight := inFlight[inFlightHead..];
        inFlightHead := 0;
      }
    }

    // ---- Emission and repair ------------------------------------------------

    /** Refuses a session-scoped event that names no session; anything else is queued and drained. */
    method Emit(ghost depth: nat, payload: Stream.Payload, session: Option<Stream.SessionId>) returns (thrown: bool)
      requires Valid()
      requires (payload.SessionScoped() && session.None?) || Stream.Emit(size, depth, View(), payload, session).Some?
      modifies this
      ensures Valid() && thrown == (payload.SessionScoped() && session.None?)
      ensures thrown ==> View() == old(View())
      ensures !thrown ==> Some(View()) == Stream.Emit(size, depth, old(View()), payload, session)
      decreases depth, 1
    {
      if payload.SessionScoped() && session.None? {
        return true;
      }
      ghost var before := View();
      var sequence: nat;
      match session {
        case None =>
          hostSequence := hostSequence + 1;
          sequence := hostSequence;
        case Some(s) =>
          sequence := (if s in sequences then sequences[s] else 0) + 1;
          sequences := sequences[s := sequence];
      }
      var envelope := Stream.Envelope(sequence, session, payload);
      trace := Stream.Issue(before, payload, session).trace;
      Buffer(depth, envelope, before, payload, session);
      Drain();
      return false;
    }

    /** `before` is the state the envelope was numbered in. */
    method Buffer(ghost depth: nat, envelope: Stream.Envelope,
                  ghost before: Stream.State, ghost payload: Stream.Payload, ghost session: Option<Stream.SessionId>)
      requires Valid()
      requires View() == Stream.Issue(before, payload, session) && envelope == Stream.Next(before, payload, session)
      requires Stream.Emit(size, depth, before, payload, session).Some?
      modifies this
      ensures Valid()
      ensures if !Stream.Overflows(size, before, payload, session) then
              View() == Stream.Enqueue(before, payload, session)
              else if !before.attached then View() == Stream.Lose(before, payload, session)
              else depth > 0 && Some(View()) == Stream.Announce(size, depth - 1, Stream.Lose(before, payload, session))
      decreases depth, 0
    {
      var bytes := size(envelope);
      if pendingBytes + bytes > Stream.MAX_QUEUED_SESSION_BYTES {
        Discard(envelope);
        trace := Stream.Lose(before, payload, session).trace;
        assert View() == Stream.Lose(before, payload, session);
        if attached {
          var _ := AnnounceGaps(depth - 1);
        }
        return;
      }
      Append(Entry(envelope, bytes));
    }

    method Append(entry: Entry)
      requires Valid() && entry.bytes == size(entry.envelope)
      modifies `pending, `pendingBytes
      ensures Valid()
      ensures View() == old(View()).(pending := old(View()).pending + [entry.envelope])
    {
      ghost var waiting := pending[pendingHead..];
      pending := pending + [entry];
      pendingBytes := pendingBytes + entry.bytes;
      assert pending[pendingHead..] == waiting + [entry];
      assert Envelopes(pending[pendingHead..]) == Envelopes(waiting) + [entry.envelope];
    }

    /** Drops the queue and the envelope that breached the cap, counting each against its session. */
    method Discard(envelope: Stream.Envelope)
      requires Valid()
      modifies `droppedWhileDetached, `droppedPerSession, `pending, `pendingHead, `pendingBytes
      ensures Valid()
      ensures View() == old(View()).(
                pending := [],
                droppedWhileDetached := old(droppedWhileDetached) + |old(View()).pending|
                    + (if envelope.session.Some? then 1 else 0),
                dropped := Stream.BumpAll(old(droppedPerSession), old(View()).pending + [envelope]))
    {
      hide Stream.BumpAll, Stream.Bytes, Stream.Sum;
      droppedWhileDetached := droppedWhileDetached + (|pending| - pendingHead);
      if envelope.session.Some? {
        droppedWhileDetached := droppedWhileDetached + 1;
      }
      CountDropped(Envelopes(pending[pendingHead..]) + [envelope]);
      ClearPending();
    }

    method ClearPending()
      requires Valid()
      modifies `pending, `pendingHead, `pendingBytes
      ensures Valid() && Envelopes(pending[pendingHead..]) == []
    {
      pending := [];
      pendingHead := 0;
      pendingBytes := 0;
      assert pending[pendingHead..] == [];
    }

    /** A host envelope is lost like any other, but no session is owed a word about it. */
    method CountDropped(gone: seq<Stream.Envelope>)
      modifies `droppedPerSession
      ensures droppedPerSession == Stream.BumpAll(old(droppedPerSession), gone)
    {
      var index := 0;
      while index < |gone|
        invariant index <= |gone|
        invariant droppedPerSession == Stream.BumpAll(old(droppedPerSession), gone[..index])
      {
        assert gone[..index + 1][..index] == gone[..index];
        if gone[index].session.Some? {
          droppedPerSession := Stream.Bump(droppedPerSession, gone[index].session.value);
        }
        index := index + 1;
      }
      assert gone[..|gone|] == gone;
    }

    /** Says what was lost, then asks for it to be repaired; returns the sessions it announced. */
    method AnnounceGaps(ghost depth: nat) returns (announced: set<Stream.SessionId>)
      requires Valid()
      requires Stream.Announce(size, depth, View()).Some?
      modifies this
      ensures Valid() && Some(View()) == Stream.Announce(size, depth, old(View()))
      ensures announced == Stream.GapSessions(old(droppedPerSession))
      decreases depth, 4
    {
      var gaps := droppedPerSession;
      droppedPerSession := [];
      ghost var result := Stream.AnnounceEach(size, depth, View(), gaps);
      var index := 0;
      while index < |gaps|
        invariant index <= |gaps| && Valid()
        invariant Stream.AnnounceEach(size, depth, View(), gaps[index..]) == result
      {
        var gap := gaps[index];
        assert gaps[index..][0] == gap && gaps[index..][1..] == gaps[index + 1..];
        var _ := Emit(depth, Stream.StreamGap(gap.count), Some(gap.session));
        OnGap(depth, gap.session);
        index := index + 1;
      }
      announced := set gap | gap in gaps :: gap.session;
    }

    method OnGap(ghost depth: nat, s: Stream.SessionId)
      requires Valid()
      requires Stream.OnGap(size, depth, View(), s).Some?
      modifies this
      ensures Valid() && Some(View()) == Stream.OnGap(size, depth, old(View()), s)
      decreases depth, 3
    {
      if s !in hosts {
        return;
      }
      Resync(depth, s, true);
    }

    method ResetSession(s: Stream.SessionId)
      requires Valid()
      modifies this
      ensures Valid() && View() == Stream.Reset(old(View()), s)
    {
      ghost var before := View();
      sequences := sequences[s := 0];
      trace := Stream.Reset(before, s).trace;
    }

    method SequenceFor(s: Stream.SessionId) returns (sequence: nat)
      requires Valid()
      ensures sequence == Stream.SequenceFor(View(), s)
    {
      sequence := if s in sequences then sequences[s] else 0;
    }

    method Resync(ghost depth: nat, s: Stream.SessionId, afterGap: bool)
      requires Valid() && s in hosts
      requires Stream.Resync(size, depth, View(), s, afterGap).Some?
      modifies this
      ensures Valid() && Some(View()) == Stream.Resync(size, depth, old(View()), s, afterGap)
      decreases depth, 2
    {
      ResetSession(s);
      var fence := SequenceFor(s);
      var _ := Emit(depth, Stream.Snapshot(fence, hosts[s], afterGap), Some(s));
    }

    // ---- Ports --------------------------------------------------------------

    method Attach(ghost depth: nat, restoreProjection: bool)
      requires Valid()
      requires Stream.Attach(size, depth, View(), restoreProjection).Some?
      modifies this
      ensures Valid() && Some(View()) == Stream.Attach(size, depth, old(View()), restoreProjection)
    {
      TakePort();
      Drain();
      var alreadyResynced := AnnounceGaps(depth);
      OnAttach(depth, alreadyResynced, restoreProjection);
      Drain();
    }

    method TakePort()
      requires Valid()
      modifies this
      ensures Valid() && View() == Stream.TakePort(old(View()))
    {
      attached := true;
      inFlight, inFlightHead, inFlightBytes := [], 0, 0;
      trace := trace.(received := [], based := {});
    }

    method OnAttach(ghost depth: nat, alreadyResynced: set<Stream.SessionId>, restoreProjection: bool)
      requires Valid()
      requires Stream.OnAttach(size, depth, View(), alreadyResynced, restoreProjection).Some?
      modifies this
      ensures Valid() && Some(View()) == Stream.OnAttach(size, depth, old(View()), alreadyResynced, restoreProjection)
    {
      var _ := Emit(depth, Stream.HostNotice(Stream.HOST_READY), None);
      if restoreProjection {
        var _ := Emit(depth, Stream.HostNotice(Stream.WORKSPACE_CHANGED), None);
      }
      var ids := open;
      ghost var result := Stream.ResyncEach(size, depth, View(), ids, alreadyResynced);
      var index := 0;
      while index < |ids|
        invariant index <= |ids| && Valid()
        invariant Stream.ResyncEach(size, depth, View(), ids[index..], alreadyResynced) == result
      {
        assert ids[index..][0] == ids[index] && ids[index..][1..] == ids[index + 1..];
        if ids[index] !in alreadyResynced && ids[index] in hosts {
          Resync(depth, ids[index], false);
        }
        index := index + 1;
      }
    }

    /** Also what a remote close of the current port does. */
    method Detach()
      requires Valid()
      modifies this
      ensures Valid() && View() == Stream.Detach(old(View()))
    {
      attached := false;
      inFlight, inFlightHead, inFlightBytes := [], 0, 0;
    }

    // ---- Sessions -----------------------------------------------------------

    method Register(s: Stream.SessionId, history: seq<Stream.Change>)
      requires Valid()
      modifies this
      ensures Valid() && View() == Stream.Register(old(View()), s, history)
    {
      ghost var before := View();
      if s !in open {
        open := open + [s];
      }
      hosts := hosts[s := history];
      trace := Stream.Register(before, s, history).trace;
    }

    /** The host's state moves first, then the event that says so is emitted. */
    method Change(ghost depth: nat, s: Stream.SessionId, change: Stream.Change)
      requires Valid()
      requires Stream.Step(size, depth, View(), Stream.DoChange(s, change)).Some?
      modifies this
      ensures Valid() && Some(View()) == Stream.Step(size, depth, old(View()), Stream.DoChange(s, change))
    {
      if s in hosts {
        hosts := hosts[s := hosts[s] + [change]];
      }
      var _ := Emit(depth, Stream.Changed(change), Some(s));
    }

    /** Answers a command with a fenced snapshot, outside the event stream. */
    method Answer(s: Stream.SessionId) returns (fence: nat, history: seq<Stream.Change>)
      requires Valid() && s in hosts
      modifies this
      ensures Valid() && View() == Stream.Answer(old(View()), s)
      ensures fence == Stream.SequenceFor(old(View()), s) && history == old(hosts[s])
    {
      ghost var before := View();
      fence := SequenceFor(s);
      history := hosts[s];
      trace := Stream.Answer(before, s).trace;
    }

    /** Disposes of a session: the counter and its unannounced drops are forgotten. */
    method Close(s: Stream.SessionId)
      requires Valid() && s in hosts
      modifies this
      ensures Valid() && View() == Stream.Close(old(View()), s)
    {
      ghost var before := View();
      sequences := sequences - {s};
      droppedPerSession := Stream.Without(droppedPerSession, s);
      open := Stream.Remove(open, s);
      hosts := hosts - {s};
      trace := Stream.Close(before, s).trace;
    }
  }

  lemma OneEntry(bytes: nat)
    ensures Stream.Sum([bytes]) == bytes
  {
    assert [bytes][..0] == [];
  }

  lemma PostedBytes(size: Stream.Size, entries: seq<Entry>)
    requires entries != []
    ensures Envelopes(entries)[1..] == Envelopes(entries[1..])
    ensures Stream.Bytes(size, Envelopes(entries)) ==
            size(entries[0].envelope) + Stream.Bytes(size, Envelopes(entries[1..]))
  {
    var first := [entries[0].envelope];
    assert Envelopes(entries) == first + Envelopes(entries[1..]);
    Flow.BytesSplit(size, first, Envelopes(entries[1..]));
    assert first[..0] == [] && Stream.Bytes(size, first) == size(first[0]);
  }
}
