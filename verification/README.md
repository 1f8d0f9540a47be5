# Verified model of the Jetstreamer firehose

Jetstreamer streams Solana history out of epoch archives. This project models the parts of its
`jetstreamer-firehose` crate on which the completeness of a replay depends, and proves what they promise.

**Work-stealing replay** (`Slots`, `Subranges`, `Worker`, `Fleet*`, `StealInbox`, `StealReach`, `Delivery*`,
`Audit`). A requested slot range is split over workers. Each worker retries its pass over the epochs of its range, counts the slots
it has processed, and hands half of what is left to idle workers that ask. `Worker` is one worker seen
alone; `Fleet` is the machine of all workers, inboxes and grants in flight, in which the interleaving, the
failures, the points where streams break off and the order in which victims are tried are all left open.
Safety and progress are proved over every run; as long as nothing fails any more and no worker was stopped,
every schedule comes to an end at which all workers have retired. `Delivery` adds the emission gates and says
which counted blocks reach the block callback.

**Reverse replay** (`Reverse`, `ReverseSafety`, `ReverseLoss`, `ReverseOnce`). One worker takes epochs from the highest down
and keeps a resume marker and the highest epoch left across retries.

**Parent hashes** (`HashChain`). What a restart in the middle of an epoch does to the chain of block hashes.

**Range prefetch** (`RangeReader`, `RangeResponse`, `Pool*`). Readers of remote objects, each with an ordered
pipeline of chunk requests, share a budget of memory permits. `Pool` is the machine of all pipelines; what
readers are given, the conservation of permits, and progress are proved over every run. Acceptance of an
answer follows section 14.4 (Content-Range) and section 15.3.7 (206 Partial Content) of RFC 9110. `Sums` holds
the sums over workers and readers that both machines count with.

**Index and archive reading** (`Octets`, `BucketSearch`, `SlotIndex`, `Varint`, `CarReader`, `CarArchive`,
`ArchiveIndex`, `Frames`, `FrameChains`). Bucket search, slot tables, the legacy derivation of slot ranges,
reading and seeking in a CARv1 stream (the Header and Data sections of the IPLD CARv1 specification), and
reassembly of linked frames.

**Bucket streaming** (`Horizon`). A fetcher and a decoder that pass buffers back and forth.

`dafny verify dfyconfig.toml` checks everything.

## Findings

Where code and documentation disagree the model follows the code.

- Slot 0 is never counted. The counted cursor starts at `start.saturating_sub(1)`, which for a range that
  starts at 0 is slot 0 itself (`firehose.rs:1763`, `1936`, `2394`). "Due" below means present and not slot 0;
  `EveryPresentSlotCountedIff` gives the exact condition. The audit probes a hole at 0 from slot 1 and does
  not notice. `SlotZeroIsMissed` gives such a run for every request of the kind.
- `resume_floor` promises that everything below it is complete (`firehose.rs:381-384`). That fails while a
  grant is on its way: the victim's ledger no longer covers it and the thief's does not yet.
  `FloorMissesGrant` is such a run, `ResumeFloorExact` the exact condition; `FloorReadAlongIsSafe` covers a floor
  loaded field by field.
- A block can be counted, journaled and audited without ever reaching `on_block`. The retry branch resets the
  emission gate to the variable of `firehose.rs:1752`, one below the worker's first range, and not to the one an
  adoption has set (`2727`, `2834`). So a thief that fails on a stolen range below its first drops what it then
  counts there (`2411`). `CountedIsDeliveredIff` is the exact condition at a count. `DropsIffStealable` states on the
  request which ranges can lose a block: those in which some worker but the last has a due slot it may be asked
  to give away. `SafeRunDeliversOnce` is the promise kept otherwise.
- In reverse mode an epoch can be retired unread (`firehose.rs:538-566`). If the slice of the epoch above began
  at its first slot and held no block, the counted cursor still stands one slot below that epoch. A failure
  to open the lower epoch, or of the stats handler, is then taken for an error at the lower epoch's tail.
  `LosesIffGap` states on the request which ranges can lose a slot: those with an epoch without due slots
  right above one with due slots. `ErrorIsSafeIff` is the exact condition at the failing branch and
  `OneFailedOpenLosesAnEpoch` a family of runs that lose an epoch.
- In reverse mode whole epochs can be processed twice (`firehose.rs:1873-1882`). A failure right after the last slot
  of a range that ends inside an epoch leaves the resume marker beyond the slice. The retry then skips that epoch
  without retiring it, and after the next failure in a lower epoch it starts over. `TwiceIffOverrun` states on the
  request which ranges this can happen to; on all others `NeverTwice` holds.
- The parent hash survives a forward restart under a weaker condition than every block having an entry: only
  the priming block needs one, but no block left may lie below the worker's first range
  (`ForwardRestartKeepsChainIff`). In reverse mode a priming block inside the range is not below
  `slot_range.start`, takes the duplicate path, and leaves the parent at its default (`ReverseRestartDropsParent`;
  `ReverseRestartKeepsChainIff` is the exact condition).
- The comment at `firehose.rs:452` says the steal lock is held around scan and send. It is released before the
  send, so the model lets any number of thieves ask one victim.
- Reassembly follows only the links of a group's last frame and drops bytes linked from any other frame
  (`ReassemblyIsTreeIff`, with a collection in `DroppedBytes`). On cyclic links it does not end (`CycleNeverEnds`);
  `EndsIffWithinNodes` and `EndsIffNoRepeat` say on the collection when it does.
- A CAR header of length zero is never cached, so the next read takes a section for a header
  (`node_reader.rs:195-212`, `EmptyHeaderSwallows`; `HeaderThenSection` says exactly when it is cached). A
  section whose own fields overrun it ends a batch as if the data had ended (`OverrunEndsBatch`); `EarlyEndIff` is
  the exact condition.

## Model

| member | source | states |
|---|---|---|
| Slots.EpochBounds | jetstreamer-firehose/src/epochs.rs:25-34 | a slot lies inside the bounds of its own epoch, and the next epoch starts right after them |
| Slots.NextPresent | jetstreamer-firehose/src/index.rs:468-501 | the least present slot of a window, or none |
| Slots.PrevPresent | jetstreamer-firehose/src/index.rs:240-254 | the greatest present slot below a slot, above a floor and within a window, or none |
| Subranges.SubrangesAbut | jetstreamer-firehose/src/firehose.rs:3786-3829 | the initial sub-ranges start and end with the request, abut, and no two sizes differ by more than one, larger ones first |
| Worker.SplitPoint | jetstreamer-firehose/src/firehose.rs:421-428 | a split is offered exactly when at least 64 slots are left, halves them, and leaves at least 32 on each side |
| Worker.ResumeKeepsCursor | jetstreamer-firehose/src/firehose.rs:2800-2834 | a restart goes on right above the counted cursor or at the slot that failed, whichever is higher, and steps over no due slot when none lies below the slot the error is attributed to |
| Worker.EpochDoneKeepsCursor | jetstreamer-firehose/src/firehose.rs:2606-2661 | ending an epoch, or failing in its stats handler, passes over no due slot; an interrupted handler stops the worker, which is the step `StopNow` of `Worker.StepKeepsCursor` |
| Worker.DecideKeepsCursor | jetstreamer-firehose/src/firehose.rs:2024-2131 | every verdict on a batch (genuine end, cut stream, past the slice, past a shrunken range, priming block) keeps the cursor invariant |
| Worker.OpenKeepsCursor | jetstreamer-firehose/src/firehose.rs:1931-1980 | opening an epoch, with or without a mid-epoch seek, passes over no due slot |
| Worker.OpenEntersOneEarly | jetstreamer-firehose/src/firehose.rs:1931-1980 | an epoch is entered at its slice's first slot, or at the nearest present slot of the 64 before it inside the epoch |
| Worker.StepKeepsCursor | jetstreamer-firehose/src/firehose.rs:1793-2661 | every local step of a worker keeps its cursor invariant and moves the counted cursor only over slots that are not due |
| Worker.ServeKeepsCursor | jetstreamer-firehose/src/firehose.rs:2024-2040 | what a victim gives away lies above its counted cursor, and what it keeps satisfies its invariant |
| Worker.CountKeepsCursor | jetstreamer-firehose/src/firehose.rs:2394-2505 | a count takes exactly the next due slot, inside the range, and publishes the slot after it; only slot 0 is passed over; the last slot of the range finishes it |
| Worker.ErrorsAreAttributed | jetstreamer-firehose/src/firehose.rs:1890-2834 | after each kind of error the next pass begins at the slot that was opened, sought or processed, or behind the last one taken up, and never at a counted one |
| Worker.EpochEnds | jetstreamer-firehose/src/firehose.rs:2043-2070 | an epoch ends with the next one, which keeps the last slot taken up; a failed stats handler is retried from there, a stream that broke off is read on behind the counted cursor |
| Worker.AnythingCanFail | jetstreamer-firehose/src/firehose.rs:1890-2661 | an open, a seek, a read, a stats call or a handler can fail, and a stream break off, wherever a worker stands |
| StealInbox.ServeAllConserves | jetstreamer-firehose/src/firehose.rs:413-441 | the ranges granted out of one inbox abut from the old end down to the new end, each at least 32 long; abandoned proposals cost nothing |
| StealInbox.ServeAllRefusesOnlyScraps | jetstreamer-firehose/src/firehose.rs:421-425 | a waiting thief is refused only when the victim is completing or ends up with fewer than 64 slots |
| StealInbox.Victim.ServiceStealInbox | jetstreamer-firehose/src/firehose.rs:413-441 | the loop empties the inbox, answers as specified, and shrinks range end and ledger end together |
| FleetInvariant.InitHolds | jetstreamer-firehose/src/firehose.rs:1612-1770 | the invariant holds in the initial state |
| FleetInvariant.SplitKeepsTiles | jetstreamer-firehose/src/firehose.rs:426-439 | splitting an assignment keeps the assignments a partition of the range |
| FleetSafety.CountKeeps | jetstreamer-firehose/src/firehose.rs:2394-2505 | committing a block keeps assignments, history and journal consistent |
| FleetSafety.JournalKeeps | jetstreamer-firehose/src/firehose.rs:2675-2700 | journaling a finished range keeps them consistent: what is journaled has been counted |
| FleetSafety.AdoptKeeps | jetstreamer-firehose/src/firehose.rs:510-517 | each of the three ledger stores of an adoption keeps them consistent |
| FleetSafety.ServeKeeps | jetstreamer-firehose/src/firehose.rs:413-441 | answering a request, by grant or refusal, to a waiting or a departed thief, keeps them consistent |
| FleetSafety.AskKeeps | jetstreamer-firehose/src/firehose.rs:486-493 | sending a request keeps them consistent |
| FleetSafety.StepKeepsWait | jetstreamer-firehose/src/firehose.rs:489-509 | no step strands a waiting thief: its request is in its victim's inbox, or answered, or its victim is gone |
| FleetSafety.StepKeepsInv | jetstreamer-firehose/src/firehose.rs:413-523 | every step of every worker keeps the whole invariant, whichever started workers a thief ends up ranking |
| FleetSafety.RunKeepsInv | jetstreamer-firehose/src/firehose.rs:413-523 | hence it holds in every reachable state |
| FleetTheorems.SlotsHaveOneOwner | jetstreamer-firehose/src/firehose.rs:413-441 | in every reachable state the assignments held, in flight and finished partition the requested range, and each is held by whoever the ledger says |
| FleetTheorems.CountsOwnSlotOnce | jetstreamer-firehose/src/firehose.rs:2024-2106 | a worker counts only uncounted slots of its own assignment; never one it has granted away |
| FleetTheorems.EveryDueSlotCountedOnce | jetstreamer-firehose/src/firehose.rs:1793-2840 | when all workers have retired, whatever failed on the way, the counted slots are exactly the due slots of the range, each counted once |
| FleetTheorems.EveryPresentSlotCountedIff | jetstreamer-firehose/src/firehose.rs:1763-1763 | the same for all present slots, exactly when slot 0 is not a requested present slot |
| FleetTheorems.StealsAreBounded | jetstreamer-firehose/src/firehose.rs:421-439 | 32 times the number of committed grants is at most the number of requested slots |
| FleetTheorems.OneAssignmentPerGrant | jetstreamer-firehose/src/firehose.rs:426-439 | assignments grow by one exactly at a delivered grant |
| StealReach.KeptMovesOn | jetstreamer-firehose/src/firehose.rs:421-428 | moving on before being asked never leaves a worker with less of its range |
| StealReach.NeverStolen | jetstreamer-firehose/src/firehose.rs:413-441 | in every reachable state the slots a worker would keep if it were asked from the start until it refuses are still its own or finished by it, and nobody else has counted one |
| FleetTheorems.ResumeFloor | jetstreamer-firehose/src/firehose.rs:385-397 | the least published next slot of a slice with work left |
| FleetTheorems.ResumeFloorExact | jetstreamer-firehose/src/firehose.rs:381-397 | everything below the floor is counted exactly when no grant in flight or in adoption holds a due slot below it |
| FleetFloor.FloorReadAlongIsSafe | jetstreamer-firehose/src/firehose.rs:385-397 | read slice by slice and field by field while workers go on, with no grant on its way at the first load and none committed before the last, the floor has only counted due slots below it |
| FleetLedger.PublishedIsExact | jetstreamer-firehose/src/firehose.rs:2502-2509 | in every reachable state, of the slots of a worker's assignment exactly the due ones below its published `next` have been counted |
| FleetLedger.FloorIsTight | jetstreamer-firehose/src/firehose.rs:385-397 | when the floor is a slot, some slice with work left begins there and nothing of it has been counted from there on; when there is none, no slice has work left |
| FleetLedger.JournaledAsCounted | jetstreamer-firehose/src/firehose.rs:2679-2695 | a finished range is journaled from the start of its assignment to the counted cursor, and nothing left is published |
| FleetLedger.AdoptionStores | jetstreamer-firehose/src/firehose.rs:510-517 | a grant is stored as start, next and end, in that order, before the thief begins on it |
| FleetLedger.AnswersWhereQuiescent | jetstreamer-firehose/src/firehose.rs:1806-1817 | requests can be answered exactly at a restart, while parked after an error, between batches and when the range is done |
| FleetLedger.HunterGoesOn | jetstreamer-firehose/src/firehose.rs:489-523 | a refusal or a vanished victim leads the hunter to its next candidate, a grant to its adoption |
| FleetLedger.RunClosesInboxes | jetstreamer-firehose/src/firehose.rs:489-509 | in every reachable state a worker that has exited holds no request |
| FleetLedger.AnyoneCanGiveUp | jetstreamer-firehose/src/firehose.rs:498-523 | shutdown can come at any time, a worker with a block in hand can stop before it, a hunter can be left without an answer |
| FleetTheorems.JournalFitsAudit | jetstreamer-firehose/src/firehose.rs:2889-2905 | journaled intervals always lie inside the requested range |
| FleetTheorems.RetiredRunPassesAudit | jetstreamer-firehose/src/firehose.rs:2889-2937 | a run whose workers all retired passes its audit |
| FleetTheorems.PassedAuditMeansCounted | jetstreamer-firehose/src/firehose.rs:2889-2937 | whenever the audit passes, in any state, every due slot has been counted exactly once |
| FleetCounterexample.FloorMissesGrant | jetstreamer-firehose/src/firehose.rs:381-397 | a run after which the floor reports nothing left while a granted slot is uncounted |
| FleetCounterexample.WitnessExists | jetstreamer-firehose/src/firehose.rs:381-397 | a concrete request with such a run |
| FleetProgress.OwnStepsAnswerInbox | jetstreamer-firehose/src/firehose.rs:449-452 | every step a worker takes itself answers its first request, or brings it closer to answering, or ends it |
| FleetProgress.OthersDoNotDisturb | jetstreamer-firehose/src/firehose.rs:486-509 | nobody else can set a worker back |
| FleetProgress.RequestsAreAnsweredInTime | jetstreamer-firehose/src/firehose.rs:445-509 | in any interleaving, once its victim has taken more own steps than the request's place in the inbox plus the victim's rank, the request has been answered or the victim has left |
| FleetProgress.WaitingThiefIsServed | jetstreamer-firehose/src/firehose.rs:494-509 | a thief still without an answer has a departed victim, or its request is in the inbox of a victim that can take a step |
| FleetProgress.NoDeadlock | jetstreamer-firehose/src/firehose.rs:489-523 | in every reachable state with a worker that has not left, some worker can take a step of its own |
| FleetCompletion.CleanIsCloser | jetstreamer-firehose/src/firehose.rs:413-523 | whoever takes it, a step without failure, broken stream, abandoned request or stop makes a grant or lowers a measure of the work left over all workers |
| FleetCompletion.EveryRunCanRetire | jetstreamer-firehose/src/firehose.rs:1793-2840 | every run in which no worker was stopped, whatever has failed so far, can be continued until all workers have retired |
| FleetCompletion.EveryCleanScheduleRetires | jetstreamer-firehose/src/firehose.rs:1793-2840 | no endless schedule of such steps exists: from every reachable state without a stopped worker, in whatever order the workers move, all have retired after finitely many |
| FleetCompletion.EveryRequestCanBeServed | jetstreamer-firehose/src/firehose.rs:1793-2937 | every valid request has a run that retires all workers, passes its audit and counts exactly the due slots |
| FleetCompletion.SlotZeroIsMissed | jetstreamer-firehose/src/firehose.rs:1763-1763 | for every request of several workers that holds a present slot 0, a run that retires, passes its audit and has not counted the slot |
| Delivery.RestartGate | jetstreamer-firehose/src/firehose.rs:2720-2834 | in every reachable state the next pass of a worker starts with the emission gate one below its assignment, or, once a pass over that has failed, one below the worker's first range |
| Delivery.CountedIsDeliveredIff | jetstreamer-firehose/src/firehose.rs:2394-2443 | on every run a counted block is handed to `on_block` exactly when the worker has not failed since it took up its assignment or the block does not lie below its first range |
| Delivery.DroppedLieBelowFirst | jetstreamer-firehose/src/firehose.rs:2411-2412 | whatever happens, a block counted and never delivered lies below the first range of the worker that counted it |
| Delivery.DeliveredAtMostOnce | jetstreamer-firehose/src/firehose.rs:2394-2443 | unless a failure strikes between the callback and the count, nothing is delivered twice and only counted blocks are |
| Delivery.SafeRunsDeliver | jetstreamer-firehose/src/firehose.rs:1752-1796 | if besides no worker fails on an assignment that starts below its first, the blocks delivered are the blocks counted, in the same order |
| Delivery.SafeRunDeliversOnce | jetstreamer-firehose/src/firehose.rs:1752-2840 | and once all workers have retired they are exactly the due slots of the request, each delivered once |
| DeliveryLoss.GoesThrough | jetstreamer-firehose/src/firehose.rs:1793-2661 | a worker that nobody asks can go through its assignment on its own, leaving everyone else as they are |
| DeliveryLoss.CountedNeverDelivered | jetstreamer-firehose/src/firehose.rs:2394-2834 | for every due slot that a later worker can steal, a run after which all workers have retired, the audit passes, and the slot was counted and never delivered |
| DeliveryLoss.DroppedIsStealable | jetstreamer-firehose/src/firehose.rs:2394-2834 | on runs that end with all workers retired, only such slots are ever left undelivered |
| DeliveryLoss.DropsIffStealable | jetstreamer-firehose/src/firehose.rs:2394-2834 | so a request can end with a due block undelivered exactly when some worker but the last has a due slot beyond what it keeps of its first range |
| DeliveryLoss.SuchARequest | jetstreamer-firehose/src/firehose.rs:2394-2834 | a concrete request of that kind |
| Audit.Prepare | jetstreamer-firehose/src/firehose.rs:2890-2892 | the result is ascending and holds an interval exactly when it was journaled and is not empty |
| Audit.PrepareSorts | jetstreamer-firehose/src/firehose.rs:2890-2892 | as a multiset the result is the journaled intervals without the empty ones, ordered by start and then by end |
| Audit.FindHoles | jetstreamer-firehose/src/firehose.rs:2889-2903 | holes are nonempty, ascending, disjoint, and exactly the range minus the journaled intervals |
| Audit.AuditCoverage | jetstreamer-firehose/src/firehose.rs:2904-2937 | no hole is reported exactly when every due slot of the range is journaled or hidden behind an epoch whose index cannot be scanned; with all epochs scannable, exactly when every due slot is journaled |
| ReverseSafety.RetryMarker | jetstreamer-firehose/src/firehose.rs:538-566 | after a retry the resume marker lies above no uncounted slot of its epoch |
| ReverseSafety.OpenEntersOneEarlyInReverse | jetstreamer-firehose/src/firehose.rs:1860-1980 | a slice starts at its epoch's marker, or where range and epoch begin, is entered at most one present slot early, and ends with range or epoch |
| ReverseSafety.MarkRetires | jetstreamer-firehose/src/firehose.rs:2620-2632 | a finished slice retires its epoch exactly when that is the highest left, and drops the marker exactly when it is in that epoch |
| ReverseSafety.Attribution | jetstreamer-firehose/src/firehose.rs:1890-2661 | the slot each kind of error is attributed to and the counted cursor the handler then sees |
| ReverseSafety.ErrorOutcome | jetstreamer-firehose/src/firehose.rs:538-566 | an error behind the end of the cursor's epoch retires that epoch, if it is the highest left, and drops the marker; any other sets the marker above the cursor |
| ReverseSafety.CutOutcome | jetstreamer-firehose/src/firehose.rs:2043-2065 | a stream that broke off with a due slot left is an error at the slot behind the cursor |
| ReverseSafety.NextEpochDown | jetstreamer-firehose/src/firehose.rs:1840-1854 | the next epoch down keeps the last slot taken up |
| ReverseSafety.AnythingCanFailInReverse | jetstreamer-firehose/src/firehose.rs:1890-2661 | here too an open, a seek, a read, a stats call or a handler can fail anywhere |
| ReverseSafety.MoveKeeps | jetstreamer-firehose/src/firehose.rs:538-566 | every step but a harmful error keeps the reverse-mode invariant |
| ReverseSafety.NothingIsLost | jetstreamer-firehose/src/firehose.rs:538-566 | on runs without a harmful error an epoch leaves the remaining set only when its slice is counted, markers are safe, and a finished run has counted every due slot |
| ReverseSafety.ErrorIsSafeIff | jetstreamer-firehose/src/firehose.rs:538-566 | after any such run, an error retires only counted epochs exactly when it is not poisoned or the epoch it would drop has been counted |
| ReverseSafety.PoisonNeedsBlocklessSlice | jetstreamer-firehose/src/firehose.rs:545-566 | a poisoned error strikes only between epochs, after a slice that began at its epoch's first slot, and that epoch has no due slot in the request |
| ReverseSafety.NoGapIsHarmless | jetstreamer-firehose/src/firehose.rs:538-566 | no error of any run is harmful when the request has no epoch without due slots right above one with due slots |
| ReverseLoss.ReadThrough | jetstreamer-firehose/src/firehose.rs:538-566 | from any point of an epoch there is a run to its end that touches only that epoch's slots |
| ReverseLoss.GapLosesSlot | jetstreamer-firehose/src/firehose.rs:545-566 | every such pair of epochs has a run that ends as complete with a due slot of the lower one uncounted |
| ReverseLoss.LosesIffGap | jetstreamer-firehose/src/firehose.rs:538-566 | some run ends as complete with a due slot uncounted exactly when the request has such a pair |
| ReverseOnce.RetryResumesAbove | jetstreamer-firehose/src/firehose.rs:563-565 | a retry after an error inside a slice resumes right above the counted cursor or at the block that failed, and the epoch is still to be done |
| ReverseOnce.NeverTwice | jetstreamer-firehose/src/firehose.rs:538-566 | on requests that do not end inside an epoch on a due slot above another epoch, whatever fails, no slot is counted twice |
| ReverseOnce.SlicesStartAbove | jetstreamer-firehose/src/firehose.rs:1860-1870 | there, every slice opened starts above everything counted of its epoch |
| ReverseOnce.LastSlotTwice | jetstreamer-firehose/src/firehose.rs:1873-1882 | on all other requests a run with two failed reads counts the last slot twice |
| ReverseOnce.TwiceIffOverrun | jetstreamer-firehose/src/firehose.rs:1873-1882 | so some run counts a slot twice exactly when the request ends inside an epoch on a due slot, above another epoch |
| ReverseSafety.OneFailedOpenLosesAnEpoch | jetstreamer-firehose/src/firehose.rs:545-566 | a family of runs in which one failed open ends the run as complete with nothing counted |
| ReverseSafety.LossIsReal | jetstreamer-firehose/src/firehose.rs:545-566 | a concrete member of the family with a present slot lost |
| HashChain.EmitPass | jetstreamer-firehose/src/firehose.rs:2108-2443 | the pass loop emits what its step-by-step specification says: exactly the blocks above its gate, each with the parent and hash it has behind an open gate |
| HashChain.WholeEmits | jetstreamer-firehose/src/firehose.rs:2275-2443 | an uninterrupted pass emits each block with the hash of its last entry, or without entries the hash before it, and with the hash of the block before it as parent |
| HashChain.RestartEmitsAboveGate | jetstreamer-firehose/src/firehose.rs:2394-2443 | a restarted pass emits exactly the blocks from its start on that lie above its gate, in order, with the parents and hashes of the ungated pass |
| HashChain.SeekEntersOneEarly | jetstreamer-firehose/src/firehose.rs:1950-1980 | a mid-epoch seek enters at the block before the start when it lies within 64 slots, else at the start |
| HashChain.RestartKeepsChainIff | jetstreamer-firehose/src/firehose.rs:1950-2443 | in either direction of replay and behind any gate, a restarted pass emits the same parents and hashes as an uninterrupted one exactly when nothing is left to emit, or the gate lies below the first block left and the pass stands at the start with the hash of the last block before it |
| HashChain.ForwardRestartKeepsChainIff | jetstreamer-firehose/src/firehose.rs:1950-2443 | forward, that is when no block left lies below the worker's first range and the priming block leaves the true parent hash |
| HashChain.ForwardRestartDropsIff | jetstreamer-firehose/src/firehose.rs:2411-2834 | a forward restart drops a block exactly when a block left lies below the worker's first range |
| HashChain.AdoptedBlockIsDropped | jetstreamer-firehose/src/firehose.rs:2411-2834 | a worker with first range [100, 200) that failed once on the adopted [50, 100) emits nothing, where an uninterrupted pass emits slot 60 |
| HashChain.RestartKeepsChainWithin64 | jetstreamer-firehose/src/firehose.rs:1950-1980 | on archives whose blocks have entries and no last entry hash is the default one: exactly when the start is after the last block, or no block left lies below the worker's first range and the start is at or before the first block or within 64 slots of the block before it |
| HashChain.ReverseRestartKeepsChainIff | jetstreamer-firehose/src/firehose.rs:1936-2443 | in reverse mode, where the gate is reset for each epoch, on any archive: exactly when nothing is left to emit, or the true parent is the default hash when the priming block lies inside the range, and what it leaves otherwise |
| HashChain.ReverseRestartKeepsChainWithin64 | jetstreamer-firehose/src/firehose.rs:1936-2443 | on archives as above, exactly when the start is at or before the first block, after the last, or the block before it lies below the range and within 64 slots |
| HashChain.ReverseRestartDropsParent | jetstreamer-firehose/src/firehose.rs:2394-2443 | when the block before the start lies inside the range, the first block emitted carries the default parent hash |
| Pool.Settings | jetstreamer-firehose/src/prefetch.rs:30-49 | settings are accepted exactly within their bounds; a chunk always fits the budget |
| RangeReader.Handle.Cancel | jetstreamer-firehose/src/prefetch.rs:282-289 | cancel forgets channel, chunk and offset and keeps the position |
| RangeReader.Handle.PollRead | jetstreamer-firehose/src/prefetch.rs:308-352 | on every channel outcome: a read takes what fits of the chunk in hand or of the next one and moves over exactly that, a failure gives the channel up and leaves the position; as long as chunks arrive in order every read begins at the position |
| RangeReader.Handle.StartSeek | jetstreamer-firehose/src/prefetch.rs:355-372 | an invalid target or a seek in place changes none of the fields; any other seek leaves no channel, no chunk and no offset, and the position asked for |
| RangeReader.SeekTarget | jetstreamer-firehose/src/prefetch.rs:356-363 | a seek target is accepted exactly when it is a 64-bit offset, and is then the offset asked for |
| RangeResponse.ContentRange | jetstreamer-firehose/src/prefetch.rs:99-128 | a header is accepted exactly with status 206, a readable range and start <= end < total, and is then what was read |
| RangeResponse.SpanRoundTrip | jetstreamer-firehose/src/prefetch.rs:106-124 | the header written for a range is read back as that range |
| RangeResponse.ParseSpanIff | jetstreamer-firehose/src/prefetch.rs:106-124 | a header is read exactly when it is `bytes `, a number, a dash, a number, a slash and a number, and then as those numbers |
| RangeResponse.ParseU64Iff | jetstreamer-firehose/src/prefetch.rs:118-122 | a number is accepted exactly when, after at most one plus sign, it is digits only, not empty, and fits 64 bits |
| RangeResponse.UnknownLengthRefused | jetstreamer-firehose/src/prefetch.rs:106-124 | a range of an object of unknown length is refused |
| RangeResponse.Accept | jetstreamer-firehose/src/prefetch.rs:130-167 | a request succeeds exactly on a 206 for the range and length asked for with a body of that length, and yields the body |
| RangeResponse.HonestIffAsked | jetstreamer-firehose/src/prefetch.rs:130-167 | an honest answer is accepted exactly when it is for the range asked for, and carries the object's bytes |
| PoolSafety.WorkKeeps | jetstreamer-firehose/src/prefetch.rs:203-244 | every step of a producer keeps its pieces in stream order and its permits accounted for |
| PoolSafety.AbandonKeeps | jetstreamer-firehose/src/prefetch.rs:282-294 | cancelling a reader loses no permit and disturbs no other reader |
| PoolSafety.ReadIsExact | jetstreamer-firehose/src/prefetch.rs:308-352 | a read moves exactly over the bytes it returns, starting at the position, and the pipeline never ends before the object |
| PoolSafety.StepKeepsInv | jetstreamer-firehose/src/prefetch.rs:203-372 | every step of the pool keeps its invariant |
| PoolSafety.RunKeepsInv | jetstreamer-firehose/src/prefetch.rs:203-372 | hence it holds in every reachable state |
| PoolSafety.ReadersHearTheObject | jetstreamer-firehose/src/prefetch.rs:203-352 | what a reader has been given since it last moved is exactly the object from there to its position |
| PoolSafety.ReadsAreExact | jetstreamer-firehose/src/prefetch.rs:308-352 | each read of a run returns the bytes at the position or leaves the position alone; no unexpected end |
| PoolSafety.ReadsAreFull | jetstreamer-firehose/src/prefetch.rs:340-344 | a read that yields bytes fills the buffer as far as its chunk goes |
| PoolSafety.RequestsAreFull | jetstreamer-firehose/src/prefetch.rs:214-236 | a producer asks for a whole chunk or for all that is left, right behind what it has asked for, and pays for exactly that |
| PoolSafety.WindowFills | jetstreamer-firehose/src/prefetch.rs:213-225 | it asks exactly while fewer than `concurrency` requests pend, bytes are left and memory is free, and waits for memory exactly with nothing pending |
| PoolSafety.ChannelHasRoom | jetstreamer-firehose/src/prefetch.rs:241-241 | a finished chunk is handed over exactly when fewer than `concurrency` wait or the reader is gone |
| PoolSafety.ChannelShows | jetstreamer-firehose/src/prefetch.rs:308-352 | a reader finds the oldest chunk, the end of an exited producer's empty channel, or nothing yet |
| PoolSafety.AbortsTakeTime | jetstreamer-firehose/src/prefetch.rs:203-244 | a producer that returns gives back the chunk in hand at once and the memory of its fetches only when their aborts take effect |
| PoolSafety.FetchesCanFail | jetstreamer-firehose/src/prefetch.rs:226-236 | any running fetch can fail or succeed in any order, and only a failed one returns its memory |
| PoolSafety.PermitsAreConserved | jetstreamer-firehose/src/prefetch.rs:211-289 | free, dying, in-flight, queued and current permits add up to the budget; at most `concurrency` fetches pend per reader; a producer waiting for memory has none |
| PoolSafety.PermitsComeBack | jetstreamer-firehose/src/prefetch.rs:78-96 | once readers are dropped and aborts have taken effect, the whole budget is free |
| PoolProgress.StepIsCloser | jetstreamer-firehose/src/prefetch.rs:213-243 | every productive step decreases a global measure |
| PoolProgress.NeverStuck | jetstreamer-firehose/src/prefetch.rs:213-243 | while a reader has bytes left, a productive step is enabled |
| PoolProgress.EveryReaderFinishes | jetstreamer-firehose/src/prefetch.rs:213-243 | from every state productive steps alone lead to all readers having read everything |
| PoolProgress.EveryScheduleFinishes | jetstreamer-firehose/src/prefetch.rs:213-243 | and so does every endless schedule of productive steps, in whatever order, whatever failures were pending when it began |
| PoolProgress.ProductiveRunsAreBounded | jetstreamer-firehose/src/prefetch.rs:213-243 | a productive run without failures is no longer than the measure it starts with |
| BucketSearch.SubtreeSplits | jetstreamer-firehose/src/index.rs:1128-1131 | below a node of the implicit tree lie only its children's subtrees |
| BucketSearch.BucketReads | jetstreamer-firehose/src/index.rs:1121-1131 | every record of a bucket written as hash and value after hash and value is read back from its place |
| BucketSearch.Descend | jetstreamer-firehose/src/index.rs:1121-1131 | a comparison sends the search to the only child that can hold the target |
| BucketSearch.SearchIsScan | jetstreamer-firehose/src/index.rs:1121-1131 | in a search tree the descent answers, hit or miss, as a linear scan |
| BucketSearch.LookupInMemory | jetstreamer-firehose/src/index.rs:1153-1173 | the descent ends and answers as `Search` on any bytes; a hit is stored under the hash; in a search tree hit, value and miss are those of a linear scan |
| BucketSearch.LookupInFile | jetstreamer-firehose/src/index.rs:1112-1134 | the descent in the file as specified by `FileSearch`; with the bucket inside the file it never fails and answers as the in-memory lookup on the same bytes, whatever they are |
| BucketSearch.FileSearchAgrees | jetstreamer-firehose/src/index.rs:1112-1134 | where the file ends inside the bucket, an answer is the one the whole bucket would give, whatever the missing bytes; without missing bytes there is always an answer |
| Octets.LittleEndianRoundTrip | jetstreamer-firehose/src/index.rs:1246-1252 | a number is read back from its little-endian bytes |
| SlotIndex.TableRoundTrip | jetstreamer-firehose/src/index.rs:566-606 | a slots table gives back exactly the archive's ranges, absent slots as not found, foreign slots as an error |
| SlotIndex.LegacyLookup | jetstreamer-firehose/src/index.rs:666-720 | the backward scan ends and answers from the nearest plausible section below the slot |
| SlotIndex.LegacyAgreesIff | jetstreamer-firehose/src/index.rs:666-720 | for a present slot the legacy answer is right exactly when the nearest absent slot answered plausibly, if any, is answered with a section ending where the slot's data starts |
| SlotIndex.LegacyOfAbsent | jetstreamer-firehose/src/index.rs:666-690 | for an absent slot the legacy answer is not found, as in the table, when the compact indexes know nothing of it, and an error when they cannot answer |
| SlotIndex.LegacyMatchesTable | jetstreamer-firehose/src/index.rs:660-720 | when lookups of absent slots miss or end beyond the slot, legacy and table lookups agree |
| SlotIndex.NextPresentSlot | jetstreamer-firehose/src/index.rs:468-501 | the answer is the least present slot after a slot, across epochs; it is withheld exactly when an epoch that cannot be scanned lies before that slot or holds it |
| SlotIndex.PrevPresentSlot | jetstreamer-firehose/src/index.rs:240-254 | the first of at most 64 slots below that is not absent decides the answer |
| SlotIndex.PrevKnownIsPresent | jetstreamer-firehose/src/index.rs:240-254 | with a complete index that is the nearest present slot of the window |
| Varint.DecodeEncode | jetstreamer-firehose/src/node_reader.rs:30-61 | every 64-bit number is read back from its encoding, whatever follows |
| Varint.DecodeCut | jetstreamer-firehose/src/node_reader.rs:37-38 | a truncated encoding is reported as an early end |
| Varint.DecodeFits | jetstreamer-firehose/src/node_reader.rs:40-46 | a decoded number fits in 64 bits |
| Varint.DecodeRefuses | jetstreamer-firehose/src/node_reader.rs:37-58 | refused are exactly the bytes that end while another is announced, and those whose tenth byte announces another or exceeds one bit |
| Varint.ReadUvarint | jetstreamer-firehose/src/node_reader.rs:30-61 | the shift-and-or loop decodes as specified and consumes exactly the bytes it read |
| CarReader.NodeReader.ReadRawHeader | jetstreamer-firehose/src/node_reader.rs:195-212 | the header is read once and cached; oversized and truncated ones are refused |
| CarArchive.HeaderVerdict | jetstreamer-firehose/src/node_reader.rs:195-212 | an announced header is refused when longer than 1024 bytes, an early end when the data is shorter, and read otherwise |
| CarArchive.SectionVerdict | jetstreamer-firehose/src/node_reader.rs:324-361 | the same for a section of at most 32 MiB, which is then what its decoder makes of it |
| CarArchive.NoLength | jetstreamer-firehose/src/node_reader.rs:37-58 | where no length can be read, the end of the data or a malformed number is reported |
| CarReader.NodeReader.NextParsed | jetstreamer-firehose/src/node_reader.rs:324-361 | the next section, or the end of data, or an error, and the bytes consumed |
| CarReader.NodeReader.ReadUntilBlock | jetstreamer-firehose/src/node_reader.rs:364-384 | a batch up to and including a block; the end of data ends it without an error |
| CarReader.NodeReader.SeekToSlot | jetstreamer-firehose/src/node_reader.rs:231-274 | the position is that of the first present slot from the slot to the end of its epoch, or just past the last one below; a header read on the way is cached; header, index and stream failures are told apart and move the position at most past the header |
| CarReader.NodeReader.SeekToEpochTail | jetstreamer-firehose/src/node_reader.rs:278-309 | the tail position, or that the epoch has no indexed slot, or a stream failure; the position moves only on success |
| CarArchive.GroupReads | jetstreamer-firehose/src/node_reader.rs:364-384 | a batch read at a slot's data is exactly that slot's nodes |
| CarArchive.CutReads | jetstreamer-firehose/src/node_reader.rs:364-384 | a stream cut inside a slot's data yields some of its nodes, never its block, and no error |
| CarArchive.TailReads | jetstreamer-firehose/src/node_reader.rs:364-384 | a batch read at the tail is the tail, without a block |
| CarArchive.SeekFindsGroup | jetstreamer-firehose/src/node_reader.rs:231-309 | a seek lands on the first group at or after the slot, or on the tail, and fails only when the epoch has no present slot |
| CarArchive.SeekAnswerIs | jetstreamer-firehose/src/node_reader.rs:231-309 | said of the index alone: the first slot up to the end of the epoch that is not absent decides where a seek goes, else the last one below; an index error there is reported |
| CarArchive.SeekFindsNothing | jetstreamer-firehose/src/node_reader.rs:300-309 | the epoch is reported empty exactly when the index calls all its slots absent |
| CarArchive.GarbledBatch | jetstreamer-firehose/src/node_reader.rs:364-384 | an unreadable section makes the batch unusable, wherever it stands before the block |
| CarArchive.SeekThenRead | jetstreamer-firehose/src/node_reader.rs:231-384 | after a seek, batches are exactly the groups of the present slots at or after it in order, then the tail, then nothing |
| ArchiveIndex.TableDescribes | jetstreamer-firehose/src/index.rs:566-606 | the bytes of the slots table built from an archive's offsets answer every slot of the epoch with that archive's groups |
| ArchiveIndex.SeekByTableThenRead | jetstreamer-firehose/src/node_reader.rs:231-384 | so seeking by the table's bytes and reading on yields exactly the groups from the slot on, then the tail, then nothing |
| ArchiveIndex.SeekAndRead | jetstreamer-firehose/src/node_reader.rs:231-384 | a fresh reader that seeks to a slot and reads batches gets exactly those, or the failure of an empty epoch or of the stream |
| ArchiveIndex.EarlyEndIff | jetstreamer-firehose/src/node_reader.rs:364-384 | a batch without block or error has reached the end of the data exactly when it met no section that overruns itself with data behind it |
| ArchiveIndex.OverrunEndsBatch | jetstreamer-firehose/src/node_reader.rs:364-384 | such a section ends the batch right there, whatever follows |
| ArchiveIndex.HeaderThenSection | jetstreamer-firehose/src/node_reader.rs:195-212 | without a cached header a read takes one section for a header and yields the next; the header is cached exactly when it is not empty |
| ArchiveIndex.EmptyHeaderSwallows | jetstreamer-firehose/src/node_reader.rs:195-212 | after a header of length zero the second section is consumed as a header and never returned |
| Frames.NodesWithCids.Push | jetstreamer-firehose/src/node.rs:55-59 | a pushed node is found by its CID and hides an earlier one with the same CID; nothing else changes |
| Frames.NodesWithCids.GetByCid | jetstreamer-firehose/src/node.rs:77-79 | the last node pushed with the CID |
| Frames.NodesWithCids.AppendGroup | jetstreamer-firehose/src/node.rs:107-126 | one group's bytes are appended in order and the last frame's links are kept; a missing CID or a node of another kind is reported |
| Frames.NodesWithCids.Reassemble | jetstreamer-firehose/src/node.rs:92-134 | the nested loops, with their shortcut, answer as specified on every collection on which they end; the whole payload is returned exactly when no checksum is given or one of the two checksums of the whole is the one given |
| FrameChains.EndsIffWithinNodes | jetstreamer-firehose/src/node.rs:105-128 | reassembly ends exactly when it ends within as many groups as there are nodes |
| FrameChains.EndsIffNoRepeat | jetstreamer-firehose/src/node.rs:105-128 | and exactly when the last CIDs of successive groups do not repeat |
| FrameChains.AcyclicEnds | jetstreamer-firehose/src/node.rs:105-128 | acyclic links make it end from every group of CIDs |
| FrameChains.AcyclicIsComplete | jetstreamer-firehose/src/node.rs:105-128 | acyclic links with every linked frame there make the whole tree of links finite |
| FrameChains.ReassembleReturnsAll | jetstreamer-firehose/src/node.rs:92-134 | when all frames linked from the first are there down to some depth, reassembly ends, collects all linked bytes in order exactly when none hang off a frame that is not the last of its group, and returns them when only last frames link on, subject to the checksum |
| FrameChains.CycleNeverEnds | jetstreamer-firehose/src/node.rs:105-128 | a frame linked to itself, on which it never ends |
| FrameChains.DroppedBytes | jetstreamer-firehose/src/node.rs:105-128 | a collection whose second byte is dropped |
| Frames.ReassemblyIsTreeIff | jetstreamer-firehose/src/node.rs:105-128 | reassembly yields all linked bytes in order exactly when no bytes hang off a frame that is not the last of its group |
| Frames.GroupStopsAtFirst | jetstreamer-firehose/src/node.rs:107-126 | a group stops at its first CID that leads nowhere or to another kind of node, and says which and why |
| Frames.StoppedGroupFails | jetstreamer-firehose/src/node.rs:107-126 | and that stops the whole reassembly |
| Frames.ReassemblyChecksWhole | jetstreamer-firehose/src/node.rs:92-134 | when only last frames link on, the whole payload is returned exactly when no checksum is given or one of its two checksums is the one given |
| Frames.ShortcutAgrees | jetstreamer-firehose/src/node.rs:96-102 | a frame that nothing follows is answered by the shortcut as by the loop |
| Horizon.PartitionBuckets | jetstreamer-firehose/src/firehose_horizon.rs:347-359 | chunks abut, cover the buckets exactly, and differ in size by at most one, larger ones first |
| Horizon.BuffersAreBounded | jetstreamer-firehose/src/firehose_horizon.rs:207-283 | at most PREFETCH_DEPTH + 2 buffers are ever allocated and a returned buffer always finds room |
| Horizon.BucketsInOrder | jetstreamer-firehose/src/firehose_horizon.rs:227-275 | buckets are decoded in order without gaps; when the channel drains after a clean fetch, all of them |
| Horizon.DrainedAsFetched | jetstreamer-firehose/src/firehose_horizon.rs:263-290 | in every reachable state a decoder that drained its channel ended well exactly if its fetcher did |
| Horizon.EndsAreReported | jetstreamer-firehose/src/firehose_horizon.rs:219-290 | a failed load, a reached end slot, a failed fetch and a fetch cut short by a gone decoder each end as what they are, and any fetch or load can fail |
| Horizon.NeverStuck | jetstreamer-firehose/src/firehose_horizon.rs:207-283 | until fetcher and decoder are both done one of them can move |

## Left out

- Delivery to the transaction, entry and reward callbacks: they are called while a block is still being read, so a restart inside a block repeats them. `Delivery` follows whole blocks.
- Skip events, statistics, pulses, the recycle monitor, the launch gate, back-off delays and timeouts: they do not move the cursors. Timeouts appear as failures that can strike at any step.
- The sequential and the single-worker forward mode, and the geyser variant: simpler loops without stealing.
- The ranking of steal candidates by completed fraction: any order is allowed.
- Legacy or unavailable indexes in the fleet and reverse models: there, the index knows every slot. `SlotIndex.NextPresentSlot` and `SlotIndex.PrevPresentSlot` say what they answer otherwise.
- A grant's send and the commit that follows it are one step of the fleet.
- FleetTheorems.ResumeFloorExact: reads all ledgers in one state, while the source loads their fields one after the other as workers go on. `FleetFloor.FloorReadAlongIsSafe` covers that, as a sufficient condition.
- Machine overflow of slots and offsets: integers are unbounded except where a width is checked (varints, table records, header numbers, seek targets).
- The waiting order of the permit semaphore: `acquire` takes its permits at once when they are free. HTTP retries inside one fetch are folded into its success or failure.
- Decoding of sections, CIDs and blocks, hash and checksum functions, HTTP, S3 and the bucket decoder: parameters of the model.
- BucketSearch.LookupInMemory: hashes are read as unbounded integers, so a bucket whose `hash_len` exceeds 8, where the source's shift overflows, is not modelled.
- Audit.FindHoles: requires journaled intervals inside the requested range, which `FleetTheorems.JournalFitsAudit` proves of every journal a run writes.
- Frames.NodesWithCids.Reassemble: requires that the links end within as many groups as there are nodes, which by `FrameChains.EndsIffWithinNodes` is all that is needed for the source's loop to end at all; a loop that does not end has no result to state.
- PoolProgress.NeverStuck: the enabled step may be a read by another reader, so progress assumes that every live reader keeps reading; one that is left unread may hold its chunks for ever.
- Index caches, index downloads, bucket headers and metadata, archive discovery, the user interface and command line: a replay takes what they deliver (index bytes, bucket layout, archive location, the request) as given, and here it is a parameter.
