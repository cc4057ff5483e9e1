# Verification of the Bake Pi agent host

This project models the parts of Bake Pi where several things happen at once and a mistake
would be silent, and proves what they promise over every run:

- **The event stream** (`EventStream`, `EventEmitter`): a bounded, lossy queue behind receiver
  credit that discards everything when it breaches its byte cap and repairs each session with a
  fenced snapshot. It says what the operations ask for, numbered without a hole, and besides that
  nothing but announcements and the snapshots that repair (`EventLog`). The queue with its snapshots
  is shown to be as good as a lossless stream (`EventRuns`, `EventConvergence`), to account for every
  envelope (`EventConservation`), to count each session's losses exactly outside one case of attaching
  (`EventGaps`, `EventSurvivors`, `EventMiscount`), to respect its cap and its window (`EventFlow`),
  and to give back as much credit as was acknowledged and no more (`EventCredit`). Its repairs, which recurse,
  return whenever they fit the queue together (`EventRepair`, `EventRuns`); exactly when they return
  is a matter of arithmetic (`EventRepairLimit`), and none needs more than one nested pass
  (`EventNesting`).
- **The timing store** (`TimingSpec`, `TimingStore`): a ring of parallel arrays, a bounded session
  table with recycled indices, open spans, bucketed percentiles (`Percentiles`) and the readings of
  the clock they cost (`TimingClock`). What it records is told by the operations alone: every duration
  is the difference of two named readings (`TimingReadings`), every aggregate is that of its own
  durations and abandonments (`TimingTallies`), and which sessions are tracked and which spans are open
  follows from what was last said of each (`TimingTable`).
- **Session ownership** (`LockProtocol`, `SessionLock`): the lock file beside a session, one system
  call at a time, with crashes and steals; the marker that survives a crash (`ToolMarker`); and the
  tail reader that must name the entry a whole scan names (`SessionFile`).
- **Parked decisions** (`Parking`, `Approvals`, `ApprovalGate`, `Dialogs`) and **admission**
  (`Admission`, `Capacity`, `Preflight`).
- **Queue identity** (`PromptQueue`), **path translation** (`WorkspacePaths`) and **version order**
  (`Versions`).

A file that works by changing state is a class here too. Its abstract state is a value, its methods
are proved to move that value as a function of the same name does, and the theorems about whole runs
are lemmas about those functions. Where steps of several parties interleave, a run is any list of
steps, and a step that is not possible changes nothing. What a run leaves behind (logs, fates,
histories) is kept in ghost fields that the program does not have.

Where the code does not do what was hoped for, or its comments say otherwise, the code was followed:

- Two hosts that judge the same stale lock before either removes it both end up holding the session
  (`OverlappingStealsBothHold`); the comment at `ownership.ts:104-106` says the second would lose.
  On a volume without links a claim that finishes between another host's read and its look at the
  file's size is stolen as well (`FinishedClaimIsStolen`). With each steal taken as one step the lock
  is exclusive in every run (`WholeStealsExclude`), and in general a run is exclusive throughout exactly
  when none of its removals hits the file of a running host (`ExclusiveExactlyWhen`).
- Releasing also removes a lock file that cannot be read, whoever's it is (`ReleaseRemoves`).
- Repairs that do not fit the queue together recurse for ever: with two open sessions whose snapshots are
  ten mebibytes each, and one change of one mebibyte made with no renderer attached, attaching one never
  returns (`TwoSnapshotsNeverReturn`). An emission returns exactly when it fits the queue or the repairs of
  the sessions it discards overflow nowhere (`EmitReturnsExactlyWhen`), and a whole run, attachments
  included, returns exactly when it does within one nested pass (`RunReturnsExactlyWhen`). One snapshot
  larger than the queue is enough (`OversizedEmitNeverReturns`).
- A gap announced from inside the announcement of another can count fewer losses than its session had:
  attaching after a detached overflow announces one of three (`SurvivorIsMiscounted`). Only an attachment
  can do that, and one that returns does it exactly when something waits behind its flush of a session
  that comes after the first whose repair does not fit (`OnlyAttachMiscounts`).
- A session closed and opened again while its old events still wait for credit is answered with a
  fence that lets them through a second time (`ReopenedTooSoon`). `AnswerConverges` is the exact condition,
  a fact about what waits, and a session answered while it holds stays right (`AnsweredStaysRight`).
- The total of discarded events leaves out a host-scoped envelope that breaches the cap (`TotalCountsDiscard`).
- A percentile's bottom range starts at zero, so it misses a sample below zero (`PercentileIsSound`).
- An allowance can outlive the close of its session when the user's answer came first but the tool
  hook resumed after (`GrantOutlivesClose`); `AllowanceStandsAfterClose` is such a run.
- A dialog option longer than 256 characters comes back cut (`ChosenOption`).
- While a queued prompt is being handed over it is counted twice, and a prompt that turns into a
  follow-up without a claim takes the queue past its cap (`CapIsExceeded`). A run stays within the cap
  exactly when no prompt enters a full queue (`AlwaysWithinCapExactlyWhen`).
- An interruption whose marker was taken by an attempt that then fails to open is never shown; one
  refused before that, at an unreadable header or at the lock, leaves it to the next (`ShownOnce`).
- A root with a carriage return or a Unicode line separator does not come back from the picker, like
  one with a newline (`ComesBackExactlyWhen`).
- A prerelease number with a leading zero ends the comparison of two versions (`LeadingZeroTies`).
- Alphanumeric identifiers are collated by the locale where Semantic Versioning 2.0.0 asks for ASCII order,
  so 1.0.0-Beta can rank above 1.0.0-alpha (`LocaleDisagrees`); `StandardExactlyWhen` is the exact condition.

## Model

| member | source | states |
|---|---|---|
| EventConservation.RunSound | packages/agent-host/src/emitter.ts:96-190 | after any run every emitted envelope is exactly one of sent, lost or waiting, what was sent is in order of emission, sequence numbers of a session strictly increase between resets, and every loss was announced, is still to be announced, or was given up by a close |
| EventConservation.EmitSound | packages/agent-host/src/emitter.ts:96-114 | one emission keeps those accounts even when it overflows, announces and emits again from inside itself |
| EventConservation.StepSound | packages/agent-host/src/emitter.ts:54-129 | every operation of emitter and runtime keeps the accounts |
| EventConservation.GapCountsTheRest | packages/agent-host/src/emitter.ts:219-225 | with no pass under way, each session in the map of losses is counted there for exactly its losses that no earlier announcement and no close has accounted for |
| EventGaps.ExactExactlyWhen | packages/agent-host/src/emitter.ts:219-225 | at the moment of announcing, whatever passes are under way, a count is the session's losses since its previous announcement if and only if nothing more of the session is in the map or owed by those passes |
| EventGaps.ExactLeavesNothing | packages/agent-host/src/emitter.ts:222-224 | after an exact announcement nothing of the session is untold, so the next one counts only what is lost from then on |
| EventGaps.EmitIsExact | packages/agent-host/src/emitter.ts:96-165 | every announcement an emission makes, at any depth of nesting, is exact as long as no pass outside owes one to a session that waits or that it belongs to |
| EventGaps.PassIsExact | packages/agent-host/src/emitter.ts:219-227 | a pass over sessions of which nothing waits announces exactly, with all the passes nested in it |
| EventSurvivors.PassExactExactlyWhen | packages/agent-host/src/emitter.ts:219-227 | a pass that returns announces exactly, with all the passes nested in it, if and only if none of its overflows discards an envelope of a session it has yet to announce |
| EventSurvivors.PassSparesExactlyWhen | packages/agent-host/src/emitter.ts:219-227 | behind envelopes that cannot be posted, that is so if and only if nothing waits of the sessions after the first whose repair does not fit the queue, which can be counted before the pass begins |
| EventSurvivors.AttachIsExact | packages/agent-host/src/emitter.ts:54-80 | an attachment that returns announces exactly throughout if and only if that holds of what its flush leaves; one that leaves nothing of a session with losses does whether it returns or not |
| EventSurvivors.OnlyAttachMiscounts | packages/agent-host/src/emitter.ts:54-227 | after any run every announcement of any next operation is exact, except that an attachment that returns announces exactly if and only if what survived spares the later sessions |
| EventSurvivors.OwedIsMiscounted | packages/agent-host/src/emitter.ts:219-227 | a pass that comes to a session an outer pass still owes announces some session wrongly |
| EventMiscount.SurvivorIsMiscounted | packages/agent-host/src/emitter.ts:73-77 | a concrete run, which returns, whose attachment announces a wrong count |
| EventMiscount.OneOfThree | packages/agent-host/src/emitter.ts:219-225 | in that run the announcement counts one loss where three are untold |
| EventConservation.TotalCountsDiscard | packages/agent-host/src/emitter.ts:149-153 | the total counts every envelope of a discard if and only if the one that breached the cap belongs to a session |
| EventConservation.LoseSound | packages/agent-host/src/emitter.ts:149-162 | a discard turns each waiting envelope and the breaching one into one unit owed to its session |
| EventFlow.RunFlows | packages/agent-host/src/emitter.ts:147-207 | after any run what waits is within the cap, what is in flight is within the window unless one envelope alone is larger, and nothing that could be posted waits |
| EventFlow.StepFlows | packages/agent-host/src/emitter.ts:147-207 | every operation keeps both bounds and leaves the stream at rest |
| EventFlow.WindowedAfterAck | packages/agent-host/src/emitter.ts:192-198 | credit returned from the front keeps the window bound even with an oversized envelope in flight |
| EventFlow.AcksDrain | packages/agent-host/src/emitter.ts:170-207 | an attached stream at rest with envelopes waiting has bytes in flight, and enough acknowledgements empty it |
| EventCredit.WindowIsKept | packages/agent-host/src/emitter.ts:170-207 | after any run what is in flight is exactly the sizes of the envelopes handed to the current port and not acknowledged, counting acknowledgements from the operations and never past what was handed over; those bytes are within a mebibyte or one envelope, and whatever waits would take them past it |
| EventCredit.RunCredits | packages/agent-host/src/emitter.ts:54-60 | over every run the credit spent is that of what the current port was handed, less one envelope for each acknowledged since; attaching and detaching begin anew with the whole window |
| EventLog.RunSpeaks | packages/agent-host/src/emitter.ts:96-129 | over every run that returns, what was logged besides announcements and snapshots for a gap is what the operations asked for, in their order; every counter numbers its envelopes from one without a hole; and the host's state of each session, to which the receiver's is compared, is what the operations made it |
| EventLog.StepSpeaks | packages/agent-host/src/emitter.ts:54-114 | each operation logs its own envelope and nothing else but announcements, each followed by its own snapshot if the host still has the session; every snapshot holds the host's state at fence zero and has number one; a resync asked for says it is for a gap |
| EventLog.AttachSpeaks | packages/agent-host/src/runtime.ts:374-387 | attaching says that the host is ready, then what it restored, then the state of every open session that no announcement repaired |
| EventLog.LosesExactlyWhen | packages/agent-host/src/emitter.ts:147-165 | an emission loses everything that waits and its own envelope if and only if together they are larger than sixteen mebibytes, and otherwise loses nothing |
| EventLog.LossesInOrder | packages/agent-host/src/emitter.ts:155-159 | losses are kept for announcement in the order in which each session first lost something |
| EventRepair.EmitTerminates | packages/agent-host/src/emitter.ts:147-165 | when the announcements and snapshots of the sessions concerned fit the cap together, an emission returns after at most one nested overflow |
| EventRepair.AnnounceFits | packages/agent-host/src/emitter.ts:219-227 | from an empty queue announcing and repairing every session with losses overflows nowhere |
| EventRepair.StepTerminates | packages/agent-host/src/session-host.ts:275-285 | the same for every operation, resync and attach included |
| EventRepair.StepKeeps | packages/agent-host/src/emitter.ts:147-227 | with a port attached no loss outlives the operation that caused it, and no session is listed twice in the map of losses |
| EventRuns.RunTerminates | packages/agent-host/src/emitter.ts:147-227 | over every run in each of whose states the repairs of the sessions that appear fit the queue together, each operation returns, one nested overflow deep, and leaves the map of losses empty while attached |
| EventRepair.EmitDeeper | packages/agent-host/src/emitter.ts:147-165 | allowing deeper recursion never changes the result of an emission that returned |
| EventRepair.OversizedResyncNeverReturns | packages/agent-host/src/session-host.ts:275-285 | a snapshot larger than the cap is lost, announced and taken again at every depth |
| EventRuns.OversizedEmitNeverReturns | packages/agent-host/src/emitter.ts:147-165 | attached, an emission that overflows while such a session waits, or that belongs to it, never returns |
| EventRepairLimit.PassReturnsExactlyWhen | packages/agent-host/src/emitter.ts:219-227 | from an empty queue, with any credit left, announcing and repairing a list of sessions returns at some depth if and only if it overflows nowhere: each repair goes out until one does not fit the window, and that one and all behind it fit the queue |
| EventRepairLimit.PassNeverReturns | packages/agent-host/src/emitter.ts:219-227 | a pass that will overflow starts over with the sessions whose repairs were waiting and can never finish, at any depth and from any point of it |
| EventRepairLimit.EmitReturnsExactlyWhen | packages/agent-host/src/emitter.ts:147-165 | an emission on an attached stream returns if and only if it fits the queue or the repairs of the sessions it discards overflow nowhere, and then with one nested pass |
| EventRepairLimit.StepReturnsExactlyWhen | packages/agent-host/src/session-host.ts:275-285 | the same of a change, a notice, a replacement or a resync |
| EventNesting.StepWithinOne | packages/agent-host/src/emitter.ts:54-165 | any operation, attaching included, that returns at some depth returns the same within one nested pass |
| EventNesting.RunReturnsExactlyWhen | packages/agent-host/src/emitter.ts:54-227 | over every run, all operations return if and only if they all do within one nested pass |
| EventNesting.TwoSnapshotsNeverReturn | packages/agent-host/src/runtime.ts:374-387 | a concrete run of two sessions with snapshots of ten mebibytes, one change of one mebibyte and notices of one byte, in which attaching returns at no depth |
| EventConvergence.EmitTracks | packages/agent-host/src/emitter.ts:96-165 | one emission, through any overflow and repair inside it, keeps every tracked session's pending and posted events folding to its host state |
| EventConvergence.StepTracks | packages/agent-host/src/runtime.ts:368-387 | every operation keeps what the fold of posted and waiting envelopes says of each session |
| EventRuns.RunConverges | packages/agent-host/src/emitter.ts:14-21 | after any run with a port attached no loss is unannounced, and folding what the port was handed and then what waits gives exactly the host's state of every session the receiver was given, by an emitted snapshot or by an answer that what waited let stand |
| EventRuns.AttachConvergesAll | packages/agent-host/src/emitter.ts:54-80 | after any run, attaching gives the new receiver every open session's state |
| EventConvergence.AnswerConverges | packages/agent-host/src/session-host.ts:264-268 | a snapshot answered to a command leaves the receiver right if and only if every waiting change is at or below its fence, or with a snapshot queued, the queue from that one on folds to the host's state at a fence no higher than the counter |
| EventRuns.AnsweredStaysRight | packages/agent-host/src/runtime.ts:546-603 | a session answered while that condition holds is right whenever a port is attached, after any operations but registering, answering or closing it, reopened sessions included |
| EventRuns.AnsweringIsRight | packages/agent-host/src/session-host.ts:264-268 | after any run with a port attached the condition holds of every session of which nothing waits, and of every one whose past envelopes were gone when it was registered |
| EventRuns.ReopenedTooSoon | packages/agent-host/src/emitter.ts:125-129 | a concrete run in which a closed and reopened session's old event is applied a second time |
| EventEmitter.Emitter.Emit | packages/agent-host/src/emitter.ts:96-114 | refuses a session-scoped event without a session and otherwise moves the abstract stream as one emission |
| EventEmitter.Emitter.Buffer | packages/agent-host/src/emitter.ts:147-168 | queues within the cap, and otherwise discards, counts and, attached, announces |
| EventEmitter.Emitter.Drain | packages/agent-host/src/emitter.ts:170-190 | posts from the head until the window is spent; head offset and byte counter stay exact |
| EventEmitter.Emitter.CompactPending | packages/agent-host/src/emitter.ts:176-179 | compaction does not change the abstract queue |
| EventEmitter.Emitter.Acknowledge | packages/agent-host/src/emitter.ts:192-207 | returns credit for as many envelopes as are acknowledged, at most what is in flight, and drains |
| EventEmitter.Emitter.CompactInFlight | packages/agent-host/src/emitter.ts:199-205 | compaction does not change the credit outstanding |
| EventEmitter.Emitter.CountDropped | packages/agent-host/src/emitter.ts:156-159 | counts each discarded envelope against its own session and no other |
| EventEmitter.Emitter.AnnounceGaps | packages/agent-host/src/emitter.ts:219-227 | announces and repairs each session of the map it emptied first, and names them |
| EventEmitter.Emitter.Resync | packages/agent-host/src/session-host.ts:275-285 | resets the counter, then emits the snapshot taken at it |
| EventEmitter.Emitter.Attach | packages/agent-host/src/emitter.ts:54-80 | flush, announce, fence every other session, drain |
| EventEmitter.Emitter.OnAttach | packages/agent-host/src/runtime.ts:374-387 | re-sends the host's baseline and every open session not already repaired |
| EventEmitter.Emitter.OnGap | packages/agent-host/src/runtime.ts:368-373 | repairs a session still open and ignores one that closed |
| EventEmitter.Emitter.Detach | packages/agent-host/src/emitter.ts:82-89 | forgets the port's credit and keeps what waits |
| EventEmitter.Emitter.Close | packages/agent-host/src/emitter.ts:125-129 | forgets the counter and the losses of a session and leaves its queued events |
| Percentiles.BuildBounds | packages/agent-host/src/observability/timings.ts:254-266 | the ladder built octave by octave is the recursive one with 35 bounds |
| Percentiles.BoundsAscend | packages/agent-host/src/observability/timings.ts:254-264 | the bounds strictly increase |
| Percentiles.LadderEnds | packages/agent-host/src/observability/timings.ts:254-264 | the 35 bounds begin at half a millisecond, three quarters and one, and end at 65,536 |
| Percentiles.BucketHolds | packages/agent-host/src/observability/timings.ts:268-283 | a duration lies between the edges of exactly one bucket, the one counted for it |
| Percentiles.BucketOf | packages/agent-host/src/observability/timings.ts:277-283 | the scan finds that bucket |
| Percentiles.Tally | packages/agent-host/src/observability/timings.ts:711-717 | adds one sample to count, sum, maximum and its bucket |
| Percentiles.AggregateIsExact | packages/agent-host/src/observability/timings.ts:711-717 | after any history the count, the sum, the maximum and every bucket are exact |
| Percentiles.BucketsBelowBound | packages/agent-host/src/observability/timings.ts:298-315 | the buckets below a bound hold exactly the samples below it |
| Percentiles.PercentileOf | packages/agent-host/src/observability/timings.ts:298-321 | returns the edges of the bucket the target rank falls in, and nothing for no samples |
| Percentiles.RankBucketIsSound | packages/agent-host/src/observability/timings.ts:300-315 | the range reported for a rank contains the sample of that rank if and only if it is not negative |
| Percentiles.PercentileIsSound | packages/agent-host/src/observability/timings.ts:298-321 | the same for the rank of any quantile over any history ever tallied |
| Percentiles.RankExists | packages/agent-host/src/observability/timings.ts:300-304 | every rank names a sample, so the range is always about one |
| Percentiles.RangesAreNarrow | packages/agent-host/src/observability/timings.ts:254-264 | between the ends a range reaches at most half again its lower edge |
| TimingRuns.RunKeeps | packages/agent-host/src/observability/timings.ts:1078-1204 | over every run the recent list is the last of everything recorded with each turn credited to its own session or nobody, the table is bounded and least recently active first, every turn leg is live, forgotten or unattributed, and begun spans are ended, abandoned or open |
| TimingRuns.NoCrossAttribution | packages/agent-host/src/observability/timings.ts:1181-1204 | whatever was evicted and reused, a span in the ring names the session it was recorded against or none |
| TimingRuns.TouchKeeps | packages/agent-host/src/observability/timings.ts:1146-1166 | admitting, moving or evicting a session keeps ring, order, bound and leg counts |
| TimingRuns.ForgetKeeps | packages/agent-host/src/observability/timings.ts:1188-1204 | forgetting a session moves its legs to the forgotten ones and takes its name out of the ring |
| TimingRuns.StepKeeps | packages/agent-host/src/observability/timings.ts:1078-1204 | every operation keeps ring, table and leg counts |
| TimingRuns.StepAccounts | packages/agent-host/src/observability/timings.ts:1007-1065 | every operation keeps begun equal to ended plus abandoned plus open, within the cap |
| TimingRuns.KeysStayApart | packages/agent-host/src/observability/timings.ts:1003-1005 | two open keys are equal if and only if kind and key are |
| TimingRuns.DeltasReadOnce | packages/agent-host/src/observability/timings.ts:658-662 | any number of deltas back to back is the first one and reads the clock at most once |
| TimingClock.AtMostThreeReadings | packages/agent-host/src/observability/timings.ts:658-662 | over every run, with deltas among any other operations, each span accounts for at most three readings of the clock and at most one of them a delta's, and all readings taken are those |
| TimingClock.RunSerials | packages/agent-host/src/observability/timings.ts:1007-1028 | over every run no span ends twice or has two first deltas, and an open span knows its first delta if and only if one was read |
| TimingRuns.LegsSumToTotal | packages/agent-host/src/observability/timings.ts:828-848 | settling a streamed turn reads the clock once and records two legs that sum to the total, all for the same session |
| TimingReadings.OpenSpansAreTrue | packages/agent-host/src/observability/timings.ts:1007-1018 | over every run an open span has the key and session of the operation that began it, the name last given to it, and as its start and its first delta what the clock read at those operations |
| TimingReadings.EndTurnRecords | packages/agent-host/src/observability/timings.ts:828-848 | settling a turn records the first delta's reading less the begin's, the settling reading less the first delta's, and the settling reading less the begin's, in that order and under those names; without a delta only the last |
| TimingReadings.EndRecords | packages/agent-host/src/observability/timings.ts:1020-1028 | ending a tool or command records its own name and its reading less that of its begin, against no session |
| TimingReadings.NothingElseRecords | packages/agent-host/src/observability/timings.ts:1007-1028 | no other operation records a span, and neither does an end of one that is not open |
| TimingTallies.AggregatesAreExact | packages/agent-host/src/observability/timings.ts:1067-1088 | over every run the aggregate of a name is that of exactly the durations recorded and the spans given up under it, and a tracked session's is that of its own since it was last forgotten |
| TimingTable.TouchExactly | packages/agent-host/src/observability/timings.ts:1146-1166 | touching a session leaves it last and open and the others in their order; one is forgotten if and only if it was not tracked and the table was full: the first closed one, or without one the first |
| TimingTable.RunStands | packages/agent-host/src/observability/timings.ts:880-892 | over every run a tracked session is closed if and only if its last word, of turns begun and closes, was a close, and no closed session has a turn open |
| TimingTable.ForgetsTheClosedFirst | packages/agent-host/src/observability/timings.ts:1188-1197 | after any run a newcomer to a full table makes it forget the least recently active of the sessions last closed, or without one of all |
| TimingTable.BeginOpens | packages/agent-host/src/observability/timings.ts:1007-1018 | a span that begins is last of the open ones; the one under its key is given up, and the oldest of the rest when they have no room for it |
| TimingTable.CloseOpens | packages/agent-host/src/observability/timings.ts:880-888 | a close gives up the session's turn and leaves every other span open |
| TimingTable.EndOpens | packages/agent-host/src/observability/timings.ts:1020-1028 | a span that ends is open no more, reads the clock once and gives up nothing; one that is not open reads nothing |
| TimingSpec.Victim | packages/agent-host/src/observability/timings.ts:1188-1197 | the first closed session, and without one the least recently active |
| SessionTable.Table.Append | packages/agent-host/src/observability/timings.ts:1162-1165 | a new session's index is held by no other and at most the size of the table |
| SessionTable.Table.Remove | packages/agent-host/src/observability/timings.ts:1198-1199 | frees the one index the session held |
| SessionTable.Table.TakeIndex | packages/agent-host/src/observability/timings.ts:1162-1162 | live and free indices stay a partition of those ever minted |
| SessionTable.Table.ChooseVictim | packages/agent-host/src/observability/timings.ts:1189-1196 | the walk stops at the victim |
| SpanRing.Ring.File | packages/agent-host/src/observability/timings.ts:1078-1084 | the ring holds the last spans filed, oldest first, at any capacity |
| SpanRing.Ring.Sweep | packages/agent-host/src/observability/timings.ts:1200-1202 | takes one index out of every slot and nothing else |
| TimingStore.Store.SessionEntryFor | packages/agent-host/src/observability/timings.ts:1146-1166 | finds or admits a session as the abstract store does, and returns an index that names it |
| TimingStore.Store.ForgetOneSession | packages/agent-host/src/observability/timings.ts:1188-1204 | the freed index names nobody in the ring |
| TimingStore.Store.Record | packages/agent-host/src/observability/timings.ts:1078-1088 | files a span in ring and aggregate under the session its index names |
| TimingStore.Store.Begin | packages/agent-host/src/observability/timings.ts:1007-1018 | abandons a displaced and an evicted span before opening a new one |
| TimingStore.Store.EndTurn | packages/agent-host/src/observability/timings.ts:828-848 | settles a turn with one clock reading as the abstract store does, whose durations `EndTurnRecords` names, or does nothing for a turn not open |
| TimingStore.Store.End | packages/agent-host/src/observability/timings.ts:1020-1028 | ends a tool or command span with no session |
| TimingStore.Store.CloseSession | packages/agent-host/src/observability/timings.ts:880-892 | abandons the open turn, then marks the session closed |
| TimingStore.Store.NoteFirstDelta | packages/agent-host/src/observability/timings.ts:658-662 | reads the clock for the first delta of a span still open and never again |
| TimingStore.Store.ReadRing | packages/agent-host/src/observability/timings.ts:1218-1235 | reports exactly the abstract recent list, each span under the session its slot still names |
| LockProtocol.RunExcludes | packages/agent-host/src/session/ownership.ts:108-170 | over every interleaving of hosts' calls and crashes whose removals hit the file they judged, at most one running host has the lock and the file names it |
| LockProtocol.WholeStealsExclude | packages/agent-host/src/session/ownership.ts:112-151 | the same over every interleaving in which each steal is one step, relying only on the liveness check and the claim window |
| LockProtocol.WholeStealIsDisciplined | packages/agent-host/src/session/ownership.ts:118-140 | a steal taken as one step removes the file it judged |
| LockProtocol.StartIsSound | packages/agent-host/src/session/ownership.ts:108-116 | idle and dead hosts beside any leftover file are a start from which these runs are exclusive |
| LockProtocol.UnlinkIsSafe | packages/agent-host/src/session/ownership.ts:136-140 | removing the file keeps the lock exclusive if and only if no running host has it |
| LockProtocol.ExclusiveExactlyWhen | packages/agent-host/src/session/ownership.ts:108-170 | with honest liveness checks and timely claims, the lock is exclusive in every state of a run if and only if no removal in it hits the file of a running host |
| LockProtocol.NeverStolen | packages/agent-host/src/session/ownership.ts:108-170 | a running host loses the lock only by its own step, and no other host's steal or late release removes or replaces its file |
| LockProtocol.OverlappingStealsBothHold | packages/agent-host/src/session/ownership.ts:118-151 | a concrete run in which two hosts take one stale lock |
| LockProtocol.FinishedClaimIsStolen | packages/agent-host/src/session/ownership.ts:131-147 | a concrete state from which a lock that is held and was never stale is taken |
| LockProtocol.ClaimJustFinishes | packages/agent-host/src/session/ownership.ts:218-229 | that state is reached from a start with no lock at all |
| LockProtocol.AcquiredExactlyWhen | packages/agent-host/src/session/ownership.ts:108-151 | an uninterrupted attempt takes the lock if and only if it is free, its holder is gone, or it names nobody and is no fresh claim; a refusal changes nothing |
| LockProtocol.AcquiredSays | packages/agent-host/src/session/ownership.ts:108-151 | said of the file alone: an attempt has the lock if and only if there is no file, or it names a holder that is gone, or it is empty and at least a second old, or it is garbled; the file then names the new holder, who knows whose lock it took |
| LockProtocol.FailedClaimIsRecovered | packages/agent-host/src/session/ownership.ts:205-229 | a first claim that cannot be written leaves an empty file that refuses everyone for a second and then gives the lock to the next attempt |
| LockProtocol.ReleaseRemoves | packages/agent-host/src/session/ownership.ts:160-170 | in any state at all releasing removes the file unless it names another host |
| LockProtocol.CrashedLockIsRecovered | packages/agent-host/src/session/ownership.ts:142-147 | after a holder's crash the next attempt that finds it gone has the lock and knows whose it was |
| SessionLock.SessionLock.Acquire | packages/agent-host/src/session/ownership.ts:108-151 | does what one uninterrupted acquisition does and reports success, the stolen holder or the present one accordingly |
| SessionLock.SessionLock.Release | packages/agent-host/src/session/ownership.ts:160-170 | releases once; a second call changes nothing |
| SessionLock.Directory.TryCreate | packages/agent-host/src/session/ownership.ts:187-229 | creates the lock by link or by exclusive create and write, only when the name is free |
| SessionFile.SplitJoins | packages/agent-host/src/session/ownership.ts:309-313 | cutting a file in two cuts at most one of its lines |
| SessionFile.WindowDecides | packages/agent-host/src/session/ownership.ts:309-317 | an id found among a window's complete lines is the whole file's newest |
| SessionFile.LastIdIs | packages/agent-host/src/session/ownership.ts:317-321 | the newest entry is that of the last line that parses to a value with an id, and there is none if and only if no line does |
| SessionFile.LinesAre | packages/agent-host/src/session/ownership.ts:309-313 | lines hold no newline, and with newlines between them they are the file |
| SessionFile.LastEntryIdFromTail | packages/agent-host/src/session/ownership.ts:297-325 | terminates and returns the id of the last line of the file that has one, for any file, any parser and any short reads |
| SessionFile.LoadWindow | packages/agent-host/src/session/ownership.ts:302-307 | fills the window whatever each read brings |
| SessionFile.InspectSessionFile | packages/agent-host/src/session/integrity.ts:85-131 | counts valid lines, scars and the torn fragment, names the last entry with an id, and takes the header's session id from the first line when that is a session header |
| SessionFile.NewestEntry | packages/agent-host/src/session/integrity.ts:99-116 | the tail reader and the scan name the same entry of every file |
| ToolMarker.CrashIsReported | packages/agent-host/src/session/tool-marker.ts:114-156 | after a crash between operations the next host is told exactly the calls begun and not ended or cleared since |
| ToolMarker.ReportedInOrder | packages/agent-host/src/session/tool-marker.ts:114-129 | after a crash the calls are reported in the order from which they have been running, a call begun again keeping its place |
| ToolMarker.ReportedExactlyWhenInterrupted | packages/agent-host/src/session/tool-marker.ts:169-186 | however a host's life ends, something is reported if and only if a call was running or being written down |
| ToolMarker.TornIsUnknown | packages/agent-host/src/session/tool-marker.ts:172-182 | a torn marker is reported as one unknown call |
| ToolMarker.ShownOnce | packages/agent-host/src/runtime.ts:717-776 | over any attempts to open, refused before the marker is taken, failing after it or opening into lives of their own, an interruption changes exactly one thing: the first attempt not refused shows it whole if it opens; it is lost if that one fails and stays on disk while all are refused |
| ToolMarker.FateIs | packages/agent-host/src/runtime.ts:725-761 | an interruption is still waiting if and only if every attempt was refused, shown at the attempt that opens after refusals only, and lost at one that fails after refusals only |
| ToolMarker.ShowsTheLastLife | packages/agent-host/src/runtime.ts:735-775 | over any attempts and lives, what an attempt that opens shows is of the last life before it and exactly what was running when that host crashed, and nothing if a failed attempt came between |
| ToolMarker.HoldsTheOutstanding | packages/agent-host/src/session/tool-marker.ts:114-139 | the calls held are those whose last word is a begin, and the marker on disk is always their image |
| ToolMarker.MarkerPath.TakeInterruptedTools | packages/agent-host/src/session/tool-marker.ts:169-186 | reports a marker and removes it |
| ToolMarker.ToolMarker.Begin | packages/agent-host/src/session/tool-marker.ts:114-117 | the marker names the call before it runs |
| ToolMarker.ToolMarker.End | packages/agent-host/src/session/tool-marker.ts:126-129 | an end for an unknown call writes nothing |
| ToolMarker.ToolMarker.Clear | packages/agent-host/src/session/tool-marker.ts:136-139 | leaves no marker |
| Parking.SettleKeeps | packages/agent-host/src/policy/gate.ts:241-250 | no request is settled twice or before it was parked, and what is pending is what was parked and not settled |
| Parking.SettleEachLeaves | packages/agent-host/src/policy/gate.ts:177-188 | settling a list of ids leaves every other request, in order |
| Parking.CancelSessionLeaves | packages/agent-host/src/policy/gate.ts:177-183 | closing a session settles its requests and no others |
| Parking.CancelAllLeavesNone | packages/agent-host/src/policy/gate.ts:186-188 | shutting down leaves none |
| Parking.ParkedRequests.Add | packages/agent-host/src/policy/gate.ts:216-227 | both maps go on indexing the same requests |
| Parking.ParkedRequests.Resolve | packages/agent-host/src/policy/gate.ts:241-250 | settles a pending request once, in both maps, and an unknown id not at all |
| Parking.ParkedRequests.Close | packages/agent-host/src/policy/gate.ts:177-183 | walks a copy of the session's ids and drops its entry |
| Parking.ParkedRequests.PendingFor | packages/agent-host/src/policy/gate.ts:197-201 | the session's pending requests in the order they were asked |
| Approvals.RequiresApproval | packages/agent-host/src/policy/approval.ts:43-61 | no reason is raised if and only if the workspace has full access, or is trusted with every target known and none but reads outside it; the reason is that of the first rule to object |
| Approvals.VerdictExactly | packages/agent-host/src/policy/gate.ts:106-149 | a call of a session that is not known is blocked at once; any other proceeds at once if and only if the workspace has full access, or is trusted with every target known and none but reads outside it, or an allowance stands; and otherwise it is parked |
| Approvals.RespondExactly | packages/agent-host/src/policy/gate.ts:170-174 | a user's decision settles its own request with that decision, if it is pending, and no other |
| Approvals.ExpireExactly | packages/agent-host/src/policy/gate.ts:203-239 | a request whose timer or signal fires is denied as cancelled, if it is pending, and no other |
| Approvals.CloseExactly | packages/agent-host/src/policy/gate.ts:177-188 | a close denies as cancelled the requests of its session alone and forgets its allowances alone; a shutdown denies all and forgets no allowance |
| Approvals.ContinueExactly | packages/agent-host/src/policy/gate.ts:149-159 | a waiting call that resumes is blocked if it was denied and proceeds otherwise, and is granted for the session if and only if that was the decision |
| Approvals.AllowedUntilClosed | packages/agent-host/src/policy/gate.ts:130-150 | over every run after a grant, and until a close of its session, every call of that session and tool proceeds at once |
| Approvals.RunStaysSafe | packages/agent-host/src/policy/gate.ts:106-188 | over every run a call the policy stops proceeds only on a user's allow for its own request, or under an allowance a user granted for that session and tool with no close since; nothing but a user allows |
| Approvals.StartIsSafe | packages/agent-host/src/policy/gate.ts:86-95 | an empty gate is a start from which every run is safe |
| Approvals.ConcludeStaysSafe | packages/agent-host/src/policy/gate.ts:149-159 | the hook's second half grants and proceeds only on what its own request was settled with |
| Approvals.AwaitedOrAnswered | packages/agent-host/src/policy/gate.ts:203-250 | a waiting call's promise is settled if and only if its request is no longer pending |
| Approvals.ShutdownAnswersAll | packages/agent-host/src/policy/gate.ts:185-188 | shutting down answers every waiting call |
| Approvals.GrantOutlivesClose | packages/agent-host/src/policy/gate.ts:149-183 | an allowance is in force after a close and the hook's resumption if and only if the user allowed the session before the close |
| Approvals.AllowanceStandsAfterClose | packages/agent-host/src/policy/gate.ts:149-183 | a concrete run from an empty gate after which an allowance stands for a closed session |
| ApprovalGate.ApprovalGate.Evaluate | packages/agent-host/src/policy/gate.ts:106-149 | blocks, proceeds or parks exactly as the policy and the allowances granted and not forgotten say |
| ApprovalGate.ApprovalGate.Respond | packages/agent-host/src/policy/gate.ts:170-174 | an unknown or stale id is dropped and changes nothing |
| ApprovalGate.ApprovalGate.Resume | packages/agent-host/src/policy/gate.ts:149-159 | lets a call proceed if and only if its resolution allows, which only a user's can |
| ApprovalGate.ApprovalGate.CancelSession | packages/agent-host/src/policy/gate.ts:177-183 | denies the session's requests and forgets its allowances |
| Dialogs.RunStaysSafe | packages/agent-host/src/extension-ui/gate.ts:121-209 | over every run each dialog settles at most once, with the harmless answer of its kind or a response of it |
| Dialogs.OnlyResponsesAnswer | packages/agent-host/src/extension-ui/gate.ts:147-209 | on every step but a response a dialog that settles is told false if it is a confirmation and nothing otherwise |
| Dialogs.RespondExactly | packages/agent-host/src/extension-ui/gate.ts:121-145 | a response of its kind settles a dialog with what the user said, choice, text or nothing, and another settles none |
| Dialogs.ExpireExactly | packages/agent-host/src/extension-ui/gate.ts:193-198 | a timeout or an abort tells a confirmation false and any other dialog nothing |
| Dialogs.AskExactly | packages/agent-host/src/extension-ui/gate.ts:40-85 | a dialog is parked as it was asked, a selection with its first 64 options each cut to 256 characters, and an abort in the meantime answers it harmlessly at once; one with nothing to choose, or with its signal already aborted, is never parked |
| Dialogs.OnlyUsersCommit | packages/agent-host/src/extension-ui/gate.ts:121-209 | over every run each answer is harmless or what a response to that dialog said |
| Dialogs.ConfirmedByUser | packages/agent-host/src/extension-ui/gate.ts:133-137 | over every run a confirmation is told true only if a user confirmed it |
| Dialogs.CloseAnswersSession | packages/agent-host/src/extension-ui/gate.ts:147-154 | closing a session leaves it no open dialog and every other session's as they were |
| Dialogs.ChosenOption | packages/agent-host/src/extension-ui/gate.ts:40-52 | choosing an offered option returns the option passed in if and only if it was at most 256 characters |
| Dialogs.HiddenOption | packages/agent-host/src/extension-ui/gate.ts:121-127 | a value is accepted if and only if one of the first 64 options reads that way once cut |
| Dialogs.ExtensionUiGate.Ask | packages/agent-host/src/extension-ui/gate.ts:163-192 | answers false to a confirmation and nothing to the rest at once when there is nothing to choose or the signal already aborted, and otherwise parks |
| Dialogs.ExtensionUiGate.Respond | packages/agent-host/src/extension-ui/gate.ts:121-145 | applies a response if and only if it is of the dialog's kind and names an offered option |
| Admission.AdmitSession | packages/agent-host/src/session/budget.ts:160-180 | admits if and only if both limits allow, and blames memory only when the count does not |
| Admission.RunStaysCapped | packages/agent-host/src/runtime.ts:509-645 | open sessions and sessions being built together never exceed the cap, however builds, registrations, failures and closes interleave |
| Admission.ReserveExactly | packages/agent-host/src/session/budget.ts:191-201 | a build is granted if and only if open sessions and builds under way are below the cap and memory below its ceiling |
| Admission.RegisterExactly | packages/agent-host/src/runtime.ts:546-603 | a session opens when its build registers, which ends the build, and never without one |
| Admission.CloseExactly | packages/agent-host/src/runtime.ts:1101-1117 | a close makes room for one session and touches no other |
| Admission.ReleasedForGood | packages/agent-host/src/session/budget.ts:191-201 | a claim given back is never given back again, at any later point of any run |
| Admission.RunQueueCapped | packages/agent-host/src/session/budget.ts:218-231 | the queue stays within its cap when prompts enter it only by being handed over, and queue and claims together exceed it by at most the claims being handed over |
| Admission.ClaimExactly | packages/agent-host/src/session/budget.ts:218-221 | a claim is granted if and only if the prompts that wait and the claims held are below the cap |
| Admission.HandOverExactly | packages/agent-host/src/runtime.ts:1196-1209 | a claim is handed over once, and its prompt then waits |
| Admission.GiveBackExactly | packages/agent-host/src/session/budget.ts:223-230 | giving a claim back makes room for another and takes nothing out of the queue |
| Admission.FullQueueIsExceeded | packages/agent-host/src/runtime.ts:1196-1209 | at any full queue with a claim out, handing it over exceeds the cap until the claim is given back, and a prompt without a claim exceeds it after |
| Admission.StepWithinCap | packages/agent-host/src/runtime.ts:1171-1209 | a step takes queue and claims together past the cap if and only if it puts a prompt into a full queue |
| Admission.AlwaysWithinCapExactlyWhen | packages/agent-host/src/session/budget.ts:218-231 | from an empty queue they stay within the cap throughout a run if and only if no step of it puts a prompt into a full queue |
| Admission.CapIsExceeded | packages/agent-host/src/runtime.ts:1196-1209 | for every cap, a run from an empty queue that exceeds it by handing over, and one by a prompt without a claim |
| Capacity.Capacity.ReserveSession | packages/agent-host/src/session/budget.ts:191-201 | claims a place if and only if the limits allow and keeps the count equal to the claims out |
| Capacity.Capacity.ReleaseSession | packages/agent-host/src/session/budget.ts:195-200 | gives one claim back, once |
| Capacity.Capacity.ReserveQueuedPrompt | packages/agent-host/src/session/budget.ts:218-231 | claims a place in one session's queue that other sessions' claims do not touch |
| Capacity.Capacity.ReleaseQueuedPrompt | packages/agent-host/src/session/budget.ts:223-230 | gives it back once, and the last one drops the session's entry |
| Preflight.OneAtATime | packages/agent-host/src/runtime.ts:267-293 | after any run at most one preflight is past its wait and unfinished, and all begun before it have finished, across every time the state was dropped and made again |
| Preflight.RunIs | packages/agent-host/src/runtime.ts:267-293 | over every run a preflight has finished if and only if a finish of it came after its begin, and is past its wait if and only if it tried once all begun before it had finished |
| Preflight.MayEnterExactlyWhen | packages/agent-host/src/runtime.ts:272-278 | a waiting preflight may go on if and only if all before it have finished |
| Preflight.KeptWhileNeeded | packages/agent-host/src/runtime.ts:285-291 | the map keeps a host's state if and only if one of its preflights is unfinished |
| Preflight.FinishTwice | packages/agent-host/src/runtime.ts:285-287 | in any state a second finish of one preflight changes nothing |
| Preflight.PromptPreflights.Begin | packages/agent-host/src/runtime.ts:267-284 | follows another if and only if an earlier one is unfinished |
| Preflight.PromptPreflights.Enter | packages/agent-host/src/runtime.ts:1171-1174 | passes the wait if and only if all earlier ones have finished |
| Preflight.PromptPreflights.Finish | packages/agent-host/src/runtime.ts:285-291 | finishes once and drops the state with the last one out |
| PromptQueue.WantedInOrder | packages/agent-host/src/session-host.ts:416-419 | the entries follow the wanted prompts one by one |
| PromptQueue.ProjectShows | packages/agent-host/src/session-host.ts:416-419 | an update shows as many entries as both lists hold, the steering texts in their order and behind them the follow-up texts in theirs, each in its own mode |
| PromptQueue.RunShowsTheLast | packages/agent-host/src/session-host.ts:408-421 | after any updates that is so of the lists last reported |
| PromptQueue.KeepsTheOldest | packages/agent-host/src/session-host.ts:408-421 | of every text and mode the update keeps the oldest entries it had, as many as are still wanted, with their ids and times, and the rest are new |
| PromptQueue.ProjectIdentifies | packages/agent-host/src/session-host.ts:411-415 | ids stay pairwise distinct and were all issued |
| PromptQueue.RunIdentifies | packages/agent-host/src/session-host.ts:408-421 | over any updates an id that left the queue never names another entry |
| PromptQueue.PromptQueue.ProjectQueue | packages/agent-host/src/session-host.ts:408-421 | the loop that consumes what is left of the old queue computes that projection and shows the steering texts and then the follow-up ones |
| WorkspacePaths.ComesBackExactlyWhen | apps/desktop/src/main/workspace-locations.ts:93-136 | an absolute root comes back from both translations as itself if and only if it is canonical, its mounted drive letter is small, and the distribution's name, where used, is not empty and has no backslash |
| WorkspacePaths.MountedComesBack | apps/desktop/src/main/workspace-locations.ts:95-99 | the drive form brings a canonical mounted root back |
| WorkspacePaths.UncComesBack | apps/desktop/src/main/workspace-locations.ts:100-101 | the share form brings any other canonical root back |
| WorkspacePaths.MountedOnlyIf | apps/desktop/src/main/workspace-locations.ts:127-133 | no other mounted root comes back |
| WorkspacePaths.UncOnlyIf | apps/desktop/src/main/workspace-locations.ts:114-124 | no other root comes back through the share form |
| WorkspacePaths.NativeForms | apps/desktop/src/main/workspace-locations.ts:93-102 | a mounted root is shown as its drive, in a capital, and any other below the distribution's share |
| WorkspacePaths.ShareOf | apps/desktop/src/main/workspace-locations.ts:114-125 | a share of another distribution is refused if and only if the names differ once folded; of its own, a path with a dot segment is refused and any other stands for its segments |
| WorkspacePaths.DriveOf | apps/desktop/src/main/workspace-locations.ts:127-133 | a picked drive path stands for its segments below the mount of its letter, made small, unless one of them is a dot or two |
| WorkspacePaths.OtherPathsAreRefused | apps/desktop/src/main/workspace-locations.ts:135-135 | a path that begins with no backslash and with no drive is refused |
| WorkspacePaths.WindowsPathsStay | apps/desktop/src/main/workspace-locations.ts:94-112 | with a Windows runtime both translations leave every path as it is |
| Versions.CompareVersions | packages/agent-host/src/update-check.ts:43-75 | the sign is the standard's precedence unless two identifiers differ as text and compare equal; an unparsed version compares equal |
| Versions.MatchesTheStandard | packages/agent-host/src/update-check.ts:61-74 | without leading zeros it is the precedence of section 11 of Semantic Versioning 2.0.0 with the program's own collation in place of ASCII order |
| Versions.StandardExactlyWhen | packages/agent-host/src/update-check.ts:61-74 | on the versions the standard allows it is section 11 with ASCII order if and only if the collation orders every two identifiers that are not numbers as ASCII does |
| Versions.CoreDecides | packages/agent-host/src/update-check.ts:48-59 | sections 11.2 and 11.3: major, then minor, then patch, and then a prerelease is below its release |
| Versions.PrereleaseDecides | packages/agent-host/src/update-check.ts:61-74 | section 11.4: the first identifiers that differ decide, numbers by length and then digit by digit, numbers below words, words by the collation, and a list below any that it begins |
| Versions.LocaleDisagrees | packages/agent-host/src/update-check.ts:72-72 | two versions that a locale ranks the other way round than section 11 |
| Versions.Antisymmetric | packages/agent-host/src/update-check.ts:43-75 | turning the arguments round turns the sign round |
| Versions.Transitive | packages/agent-host/src/update-check.ts:43-75 | not above is transitive, and strictly so unless both steps were level |
| Versions.EqualOnlyToItself | packages/agent-host/src/update-check.ts:43-75 | only equal versions compare equal |
| Versions.LeadingZeroTies | packages/agent-host/src/update-check.ts:66-71 | three versions with leading zeros that no order could sort so |

## Left out

- EventRepair.EmitTerminates: the recursion has no guard in the program; `depth` bounds nested overflows here and no result means the program goes deeper, which `OversizedEmitNeverReturns` shows can be without end.
- EventRepairLimit.EmitReturnsExactlyWhen: an announcement's size may depend on its session but not on its two numbers, where the program's estimate counts their digits; within those few bytes of the cap a second nested pass may fit where the first did not. The same holds of the other members of `EventRepairLimit` and `EventNesting` that speak of every size.
- EventRuns.RunConverges: a session never answered on this port, or answered while `AnswersRightly` failed, is not covered until a snapshot of it is emitted, a port is attached or it is answered again.
- Timing: the span handle is a serial number and an aggregate is a value, so two handles on one aggregate object are not modelled; nor are the numbered span-name column, its `Uint16` and `Uint32` widths and the rounding of reported milliseconds.
- SessionFile.LastEntryIdFromTail: the file does not change while it is read, and UTF-8 decoding is left to the parser of a line.
- LockProtocol.RunExcludes: writing the holder is all or nothing, removal and reading never fail for permissions, and the clock is the file's own.
- ToolMarker.CrashIsReported: writes and removals succeed; the faults the program swallows would lose the warning.
- Approvals.RunStaysSafe: the classification of a tool's targets and the text of a verdict are not modelled; a call carries its targets.
- Versions.MatchesTheStandard: numbers are unbounded, where the program's lose precision past 2^53, the collation is any total order, and parsing a version string is not modelled.
- WorkspacePaths.ComesBackExactlyWhen: the case folding of distribution names is any function that neither adds nor removes backslashes.
- The size of an envelope is any function of it, so the estimate for a text delta is not modelled; posting appends to a log and does not call back.
- A session's host state is the history of its changes, of which every projection the renderer shows is a function; the event-to-status projection itself is left out.
- The runtime's map of sessions and the emitter's two handlers are folded into the emitter class.
- The fingerprint check before a mutation, the settings, resource, extension and diagnostics services, workspace opening and git: field plumbing or foreign calls.
- Two hosts' preflights are independent because the map is keyed by host, so one host is modelled.
- The renderer's store, transports, Electron, and the Pi SDK.
