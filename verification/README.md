# Channel numbering, bulk commits, telemetry and reverts

Enhanced Channel Manager (ECM) edits a Dispatcharr lineup that other clients edit too, over calls that can
fail one at a time. This project models the parts of its backend that have to stay right in spite of that,
and proves what they keep over every input, every run and every interleaving.

| Files | What they are about |
|---|---|
| `Binary64`, `ChannelNumber`, `Rounding`, `TickSharing` | the contract for channel numbers (at most one decimal place, in a double), the grid of tenths, and which numbers share a place on it |
| `WriteScheduler`, `NumberingApply`, `NumberingCompensation` | the order in which a numbering plan is written, and the undo of one that stopped half way |
| `NumberingPlan`, `RangeSlots`, `NumberingConsent`, `FinalLineup` | validation of the lineup a request would leave, with consent to each shared number, and what that lineup and its acceptance are in terms of the request alone |
| `BandwidthTracker`, `TelemetryRuns`, `ConnectionRuns`, `ObservationMeaning` | byte deltas, connections and their edges, and the throttled telemetry write, with every database write free to fail |
| `EventIngest`, `TelemetryRows`, `StreamProviders` | event deduplication, the rows a poll writes, and the provider cache before the resolver |
| `BulkCommitLedger`, `BulkCommitMeaning` | the bulk-commit ledger, the audit of its envelope, the run that drives both, and what a run comes to in terms of its script alone |
| `GroupReparent` | emptying a group before it is deleted, while others move channels |
| `RunHistory`, `ReverseReplay`, `SurgicalUnmerge`, `UnmergeMeaning`, `RollbackRuns`, `JournalCoverage` | what a pipeline run does and what it records of that, and what a rollback makes of it |
| `OrphanReconciliation` | which channels a rule may remove or move, over many runs |
| `Common` | options, sequences and sorting |

Code that works in place is modelled by classes and methods with loops, each proved against functions of its
inputs or old state; what the code is for is then proved of those functions. What such a function comes to is
also stated without it, by quantifiers over the inputs alone. A client's calls, failures, clocks and other
people's edits are parameters over which every result is universally quantified, but for what is left out below.

## Where the code does not do what it says

Each of these has a lemma, or a method, with the input that shows it, and the condition under which the code
does do it.

- A tenth comes back from its tick below 2^49 and a half tick is rejected below 2^48, as `channel_number.py`
  claims from measurements; `ChannelNumber.RoundTrip` and `ChannelNumber.HalfTicks` say exactly which ticks
  are right from there up; the first that is wrong is three ticks above the one bound, three
  twentieths above the other.
- The further claim that numbers in contract map one-to-one onto ticks below 2^49 is true of the doubles of
  tenths, and false of the others in contract, such as the double after 1.9. `TickSharing.SharedIff` says
  exactly which ticks have more than one: those up to 2^23, where the tolerance reaches a neighbour, and
  those whose doubles lie so close that two of them have one product; `ChannelNumber.TicksAreShared` is a pair.
  A number in contract comes back from its tick exactly when it is the double of a tenth
  (`TickSharing.TenthsComeBack`).
- A range assignment that stays below 2^52 gives each channel its own slot, whether it starts at a whole
  number, a fraction or nowhere. From there neighbours may meet (`RangeSlots.RangeSlotsCanMeet`):
  `RangeSlots.RangeSlotsMeetIff` says exactly which do below 2^53, and `RangeSlots.NumberMeetsIff` which do
  anywhere. Then one operation puts two channels on a slot
  (`NumberingConsent.MeetingArrivesTogether`), and otherwise arrival order is strict
  (`NumberingConsent.ArrivalIsStrict`). The consent theorems need no such condition: ties arrive in lineup
  order, as `sorted` leaves them.
- The undo of a numbering run lands on a number still held when a swap, broken, had landed
  (`NumberingCompensation.SwapUndoneUnsafely`): two of its steps conflict exactly where the writes they undo
  did (`NumberingCompensation.CompensationDuality`), so never unless a cycle break landed
  (`NumberingCompensation.UndoIsSafe`).
- Daily bytes and the channels' bytes part when a row without an id grows (`TelemetryRuns.NamelessBytes`), and
  when one of the two writes fails and is passed over (`TelemetryRuns.LostDay`). They differ by what only one of
  them was credited with, and `TelemetryRuns.BytesConserved` says of each side exactly when that is nothing.
- Stamps of telemetry batches telescope, but a batch that fails has moved the clock on, so that its time is in
  no row (`TelemetryRuns.LostStamp`): what is written adds up exactly when each batch that failed stood for none
  (`TelemetryRuns.StampsTelescope`).
- A client that leaves a channel which stays active keeps its connection
  (`ConnectionRuns.DepartedStaysConnected`), since by then the clients it is compared with are the present
  ones. For the same reason a channel listed twice closes a client of its last row that another row lacks, which
  is then not connected again for as long as it stays (`ConnectionRuns.RepeatedRow`); nor is one whose first
  write failed (`ConnectionRuns.FailedCount`). `ConnectionRuns.ConnectionsHeld` says exactly who is connected
  after any run, and `ConnectionRuns.AlwaysCovered` when all who should be are.
- A cleared cache is filled again by an answer that was asked for before the clear
  (`StreamProviders.ClearedTooSoon`). What is cached was asked for since the last clear exactly when no clear
  came between its asking and its answer (`StreamProviders.AskedSinceClear`); it always came since
  (`StreamProviders.CachedWasGiven`).
- An integer that no double can hold makes `evaluate_final_numbering` raise before it is reported, when the
  channel existed and had a number to compare it with, or when nobody moved it
  (`NumberingConsent.TooLargeRaisesUntouched`): `NumberingPlan.TooLargeRaises` and
  `NumberingPlan.EvaluateFinalNumbering` say exactly when.
- A PATCH that lands but whose reply is lost is not reported to `on_channel_moved`
  (`GroupReparent.UntoldMove`). The callbacks are the landed PATCHes exactly when every PATCH returned, and at
  most one, the one that ends the run, is missing (`GroupReparent.ReparentGroupChannels`).
- A run writes much that it does not record: the rename of a channel that a name matched, the pruning and the
  sorting of streams, renumberings, deferred guide assignments, ownership markers, any write whose call raises
  though it landed; and it records a removal of a stream as a change to the stream, which the restore passes
  over. A restore leaves such writes as they are (`ReverseReplay.RenameStays`, `ReverseReplay.RemovalStays`). A
  field is restored exactly when no such write came before its first note, or the last that did wrote what had
  been there (`ReverseReplay.RestoredIff`).
- Nor can the check that guards the snapshot path see such writes: it takes a run that also sorted a list,
  renamed a channel, or merged a stream without hearing of it for one that only merged and was heard
  (`JournalCoverage.CoveredThoughSorted`, `JournalCoverage.CoveredThoughRenamed`,
  `JournalCoverage.CoveredThoughUnheard`). All it says is that what was recorded was merges, all of them
  read; they are all that the run did to a channel's streams exactly when it neither pruned nor sorted them nor
  wrote them unheard (`JournalCoverage.CoverageIsSound`). Which covered runs are undone,
  `JournalCoverage.CoveredUndoneIff` says of streams and `JournalCoverage.CoveredFieldsStay` of other fields.
- A merge writes the executor's own copy of a stream list, so an edit that somebody makes during the run,
  before the run's last merge into that channel, is gone before any un-merge can preserve it
  (`RollbackRuns.MergeDiscardsEdits`); edits made after it are kept (`UnmergeMeaning.UnmergeLeavesEdits`),
  exactly when none of them brought in a stream that the run had merged.
- The un-merge reads one page of 1000 journal entries. A run with more merges than that is left partly
  merged and still reported as handled; a quiet run that only merged is undone exactly when it fits
  (`RollbackRuns.UndoneIffOnePage`). The check that guards the snapshot path does compare the count.
- On the legacy path one journaled merge is enough to skip the restore, so the fields that the same run set
  stay as it set them (`RollbackRuns.MergesLeaveFields`); the restore runs exactly when the un-merge finds no
  entries (`RollbackRuns.LegacyRollback`).

## Model

| member | source | states |
|---|---|---|
| Binary64.RoundsToNearest | backend/channel_number.py:89-113 | the result of rounding is a double, and no double is nearer to the exact value |
| Binary64.RoundsHalfEven | backend/channel_number.py:89-113 | brought by doubling or halving into the binade whose last place is the units, the argument goes to the nearest whole number, of two to the even one: with the row above, the rounding used throughout is that of IEEE 754 |
| Binary64.DoublingCommutes | backend/channel_number.py:89-113 | rounding commutes with doubling, so that what holds in one binade carries to the next |
| ChannelNumber.ValidIff | backend/channel_number.py:144-181 | in contract are just the integers from zero up that a double can hold and the floats from zero up whose product by ten, rounded, is within the tolerance of a whole number: nothing negative, and nothing that is not a number |
| ChannelNumber.TickIs | backend/channel_number.py:184-242 | a tick is ten times an integer, or a double of 2^53 or more in size; of a smaller one it is the whole number nearest the rounded product, of two the even one; nothing else has one |
| ChannelNumber.FromTicksIs | backend/channel_number.py:245-283 | a tick divides to an integer if ten divides it, else to the double nearest its tenth, and at all unless that is out of range |
| ChannelNumber.RoundTrip | backend/channel_number.py:245-283 | for every tick, of either sign and any size, dividing by ten and scaling back gives the tick again if and only if it is whole, or below 2^49 in value, or on an explicit set of ticks above |
| ChannelNumber.TickAndBack | backend/channel_number.py:184-242 | multiplying the quotient by ten, each rounded, gives a whole number whatever the magnitude, and the tick itself exactly for ticks with their own number |
| ChannelNumber.TicksAreInContract | backend/channel_number.py:144-181 | every non-negative tick's number is in contract, except a whole number too large for a double |
| ChannelNumber.HalfTicks | backend/channel_number.py:89-113 | the double nearest half a tick past a tick is accepted if and only if it is on an explicit set that starts at 2^48: the tolerance never admits one |
| ChannelNumber.HalfRejected | backend/channel_number.py:176-181 | a product half way between two whole numbers is out of contract |
| ChannelNumber.LargeAccepted | backend/channel_number.py:162-165 | from 2^52 / 10 up every number is in contract, since its product is whole |
| ChannelNumber.TicksAreShared | backend/channel_number.py:193-199 | two different numbers in contract near zero share a tick |
| TickSharing.SharedIff | backend/channel_number.py:193-199 | of every tick below 2^49, whether more than one number in contract is on it: if and only if it is within the reach of the tolerance, or two multiples of ten round to it, which its residue decides |
| TickSharing.TenthsComeBack | backend/channel_number.py:193-283 | a number in contract below 2^49 comes back from its tick if and only if it is the double of a tenth |
| NumberingApply.TenthsHaveOwnSlots | backend/channel_number_apply.py:81-103 | below 2^49 two tenths are the same channel number only if they are the same tick |
| FinalLineup.SlotIff | backend/channel_number_apply.py:81-103 | the slot of a number: itself from 2^53 up in size, else the whole number nearest ten times it; what is no number, or too large for a double, has none |
| NumberingApply.BlocksIff | backend/channel_number_apply.py:183-206 | one write waits for another if and only if it lands on the slot that the other is on and does not stay on |
| NumberingApply.KeepingBlocksNone | backend/channel_number_apply.py:115-127 | so a write that keeps its channel's slot holds up no other and is in no cycle |
| NumberingApply.LeavingSlots | backend/channel_number_apply.py:183-193 | the index of slots holds exactly the moving writes that leave each |
| NumberingApply.Dependencies | backend/channel_number_apply.py:193-206 | both edge maps are the dependency graph: who must leave a write's target first, never itself |
| WriteScheduler.Schedule | backend/channel_number_apply.py:206-245 | the scheduler ends, writes each position once, in rounds, and each position comes after all that block it unless it is the recorded lowest member of a genuine cycle none of which was written before |
| WriteScheduler.OrderIsDetermined | backend/channel_number_apply.py:173-245 | the order goes in rounds, each of which writes all that no unwritten position blocks, in submitted order, or else the earliest member of the cycle that the walk from the earliest position left leads to; and no other order does |
| WriteScheduler.BreaksIffCyclic | backend/channel_number_apply.py:225-245 | a cycle is recorded if and only if the graph has one |
| WriteScheduler.EarlyAreBreaks | backend/channel_number_apply.py:225-245 | the positions written too early are exactly the breaks, as many as there are cycles recorded |
| WriteScheduler.DisjointCycles | backend/channel_number_apply.py:225-245 | when nothing waits for two others, two recorded cycles have no member in common |
| WriteScheduler.NoOrderIsBetter | backend/channel_number_apply.py:150-181 | then no order whatever writes fewer positions too early |
| NumberingApply.OrderNumberingWrites | backend/channel_number_apply.py:150-251 | the writes returned are the plan permuted, safe but for the breaks; each cycle is reported once, sorted; a plan without dependencies comes back as it was |
| NumberingApply.ReportCycles | backend/channel_number_apply.py:233-251 | what is reported is each broken cycle's channel ids ascending, the cycles in order |
| NumberingApply.FewestSharedNumbers | backend/channel_number_apply.py:150-181 | when no two moving writes leave one slot, no order of the plan shares fewer numbers on the way, and the reported cycles are disjoint |
| NumberingCompensation.NumberingCompensator.constructor | backend/channel_number_apply.py:274-284 | nothing has landed or failed |
| NumberingCompensation.NumberingCompensator.RecordLanded | backend/channel_number_apply.py:286-301 | the write is logged, and a channel's first number is kept |
| NumberingCompensation.NumberingCompensator.RecordFailed | backend/channel_number_apply.py:303-317 | a failure is logged against the channel's first number |
| NumberingCompensation.NumberingCompensator.CompensationSteps | backend/channel_number_apply.py:331-369 | the backwards loop with its memory of channels done is the specified list of steps |
| NumberingCompensation.StepsAre | backend/channel_number_apply.py:331-369 | which are, of what landed alone: none unless something failed as well; else one for each channel whose last write left it off the slot that its first found it on, from there back to here, the latest of those last writes first |
| NumberingCompensation.CompensationRestores | backend/channel_number_apply.py:331-369 | replaying the steps puts every channel back on its slot before the run, however often each was written |
| NumberingCompensation.OneWriteEachReversed | backend/channel_number_apply.py:352-369 | with one write to a channel the steps are the moving writes' inverses, newest first |
| NumberingCompensation.CompensationDuality | backend/channel_number_apply.py:331-350 | two steps conflict if and only if the writes they undo did, the other way round |
| NumberingCompensation.LandedConflictIsBreak | backend/channel_number_apply.py:150-181 | of any part of an order that landed, only a break conflicts |
| NumberingCompensation.UndoIsSafe | backend/channel_number_apply.py:331-350 | with no break landed no two steps conflict |
| NumberingCompensation.SwapUndoneUnsafely | backend/channel_number_apply.py:331-350 | a swap that landed is undone by steps of which the first lands on a number still held |
| NumberingPlan.BuildFinalNumberingState | backend/channel_number_plan.py:228-313 | the loops over lineup and operations compute the specified final placements, which are these: |
| FinalLineup.FinalLineupIs | backend/channel_number_plan.py:228-313 | of the channels that exist and those created, in that order, just those that no later operation deletes; each touched by exactly the operations since it began that gave it a number, as often as they did, on the number and with the consent of the last of them, or on its own if there was none; a created channel is new and has no number to start with |
| FinalLineup.InFinalLineupIff | backend/channel_number_plan.py:256-303 | so a channel is in the final lineup if and only if it existed and is never deleted, or was created and is not deleted after |
| NumberingPlan.EvaluateFinalNumbering | backend/channel_number_plan.py:320-411 | raises if and only if some placement makes it; else nothing is reported if and only if each placed number is in contract and each newcomer to a slot agreed to all who stood there; one issue a slot |
| FinalLineup.OutOfRangeReported | backend/channel_number_plan.py:340-362 | the invalid numbers reported are, in lineup order, those of just the channels that the request put on a number out of contract, with the operations that touched them |
| FinalLineup.NegativeReported | backend/channel_number_plan.py:340-362 | so a channel put on a negative number is reported |
| FinalLineup.AcceptedIff | backend/channel_number_plan.py:320-411 | nothing is reported if and only if the request put no channel on a number out of contract, and whoever it put on a slot agreed, for that slot, to each channel that was there before, by its last operation or, within one, by lineup order |
| FinalLineup.RaisesIff | backend/channel_number_plan.py:94-161 | looking at a channel raises if and only if it is on an untouched number too large for a double, or existed and one of its two numbers is so where they are compared |
| NumberingPlan.TooLargeRaises | backend/channel_number_plan.py:94-161 | of a number placed that no double can hold: it raises if and only if the channel existed and had a finite number, or one too large as well; else it is reported |
| NumberingPlan.WalkSlot | backend/channel_number_plan.py:385-405 | the walk that grows who is standing finds exactly the newcomers whose acknowledgement misses an earlier occupant |
| NumberingConsent.AcceptableMeans | backend/channel_number_plan.py:364-411 | slot by slot acceptance is agreement of every pair: the later of any two on a slot, one of them placed here, named the slot and the other |
| NumberingConsent.ConsentIsMonotone | backend/channel_number_plan.py:364-400 | an accepted request stays accepted with a channel fewer in the lineup or with larger acknowledgements |
| NumberingConsent.NoOperationsAccepted | backend/channel_number_plan.py:364-384 | with no operations nothing is reported, whatever duplicates there are, and only a number too large for a double raises |
| NumberingConsent.TooLargeRaisesUntouched | backend/channel_number_plan.py:94-161 | a lineup that holds 2^1024 raises with no operations at all |
| RangeSlots.WholesMeetIff | backend/channel_number_apply.py:81-103 | two whole numbers below 2^53 share a tick if and only if they are neighbours from 2^56 / 10 up on one of six residues by sixteen |
| RangeSlots.RangeSlotsMeetIff | backend/channel_number_plan.py:303-311 | two numbers of a range with a whole, fractional or missing start, rounded below 2^53, share a slot if and only if they are neighbours and the lower is from 2^52 up and drops a half from an odd number, or lies on such a residue |
| RangeSlots.RangeSlotsDiffer | backend/channel_number_plan.py:303-311 | so a range that stays below 2^52 gives each channel its own slot |
| RangeSlots.RangeSlotsCanMeet | backend/channel_number_plan.py:303-311 | the first fractional and the first whole range that do not |
| RangeSlots.WholesFrom53 | backend/channel_number_apply.py:81-103 | from 2^53 to 2^54 a whole number has the slot of the next if and only if its residue by four is zero or three |
| RangeSlots.NumberMeetsIff | backend/channel_number_plan.py:303-311 | at any size a number of a range has the slot of the next if and only if it meets it: by residue below 2^53, by being the same double above |
| NumberingConsent.ArrivalIsStrict | backend/channel_number_plan.py:389-404 | no two channels placed on a slot were put there by the same operation, if in no range, wherever it starts and ends, a number meets the next |
| NumberingConsent.MeetingArrivesTogether | backend/channel_number_plan.py:389-404 | and where one does, one operation puts two channels on one slot |
| BandwidthTracker.Bandwidth.Scan | backend/bandwidth_tracker.py:2395-2470 | the loop's totals, maps and rows to watch are those of the rows it has seen |
| BandwidthTracker.Bandwidth.UpdateWatchCounts | backend/bandwidth_tracker.py:2892-2962 | every client of a newly active row is connected, as far as the pass came |
| BandwidthTracker.Bandwidth.UpdateWatchTime | backend/bandwidth_tracker.py:2964-3052 | of a still active row new clients are connected, and those of the channel's last row that it lacks closed, as far as the pass came |
| BandwidthTracker.TwoPasses | backend/bandwidth_tracker.py:2892-3052 | the two passes, over newly and over still active rows, do to each connection what one pass over the snapshot would |
| BandwidthTracker.Bandwidth.ProcessChannelSnapshot | backend/bandwidth_tracker.py:2306-2722 | whichever writes fail, an observation takes the tracker to the specified state: counters, sets, connections, last write |
| ObservationMeaning.WrittenIff | backend/bandwidth_tracker.py:2579-2718 | at every place of a run a batch is written if and only if telemetry is on and none was before, or a full interval has passed, or a channel came or went, or one that is there has other clients; it stands for the time since the last, never less than none, or for one interval |
| ObservationMeaning.GrewIff | backend/bandwidth_tracker.py:2416-2427 | a row's growth is what its counter is above that of the channel's last row before, and none after a reset or for a channel that was not there |
| ObservationMeaning.EntryIff | backend/bandwidth_tracker.py:2446-2467 | a channel has an entry of its own once a row of it had clients or grew |
| ObservationMeaning.OpensIff | backend/bandwidth_tracker.py:2892-3052 | a row opens a connection for each client of it that the channel's last row before did not have, and for all if the channel was not there, as far as the pass that it falls to came |
| ObservationMeaning.ClosesIff | backend/bandwidth_tracker.py:3034-3046 | a row of a channel that was there closes each client that it lacks and the channel's last row has, as far as the pass came |
| BandwidthTracker.CoveredAfter | backend/bandwidth_tracker.py:2892-3052 | clients that all have their connections keep them, and new ones get theirs, if and only if no row closed a client that the last row still has and no write failed that would have connected one |
| BandwidthTracker.HeldAfter | backend/bandwidth_tracker.py:2892-3052 | a connection is held after an observation if and only if a row opened it for good, or it was held and neither a stop nor a row closed it |
| TelemetryRuns.StampsTelescope | backend/bandwidth_tracker.py:2690-2718 | the stamps of the batches add up to the first nominal interval and the time from first to last, however edges, throttling and opt-out space them; those of the batches that landed do if and only if each that failed stood for no time |
| TelemetryRuns.LostStamp | backend/bandwidth_tracker.py:2690-2784 | of two batches the second of which fails, the rows stand for the first interval only |
| TelemetryRuns.WritesSpaced | backend/bandwidth_tracker.py:2579-2584 | a write is at an edge or a full interval after its predecessor |
| TelemetryRuns.EdgesWrittenAtOnce | backend/bandwidth_tracker.py:2533-2538 | wherever in a run an edge comes, the next write in its log is at that edge, unless telemetry is opted out of, when nothing is written; no write is taken back |
| ConnectionRuns.ConnectionsHeld | backend/bandwidth_tracker.py:2892-3052 | over any run, whichever writes fail and however often a channel is listed, the connections held are exactly those that an observation opened for good and no later one shut |
| ConnectionRuns.SeenAreHeld | backend/bandwidth_tracker.py:2416-2445 | when no write of a connection fails and no channel is listed twice, they are exactly the clients seen since their channel last became active, and so every live one |
| ConnectionRuns.AlwaysCovered | backend/bandwidth_tracker.py:3034-3046 | when the writes land, every remembered client has its connection at each moment of a run if and only if no row of a still active channel ever lacked a known client that the channel's last row had |
| ConnectionRuns.DepartedStaysConnected | backend/bandwidth_tracker.py:2429-2445 | a client that leaves a channel which stays active keeps its connection |
| ConnectionRuns.RepeatedRow | backend/bandwidth_tracker.py:3034-3046 | a client on the second of its channel's two rows only is closed, and is given no connection however long it stays |
| ConnectionRuns.FailedCount | backend/bandwidth_tracker.py:2892-2962 | nor is one given to a client whose first write failed |
| TelemetryRuns.BytesConserved | backend/bandwidth_tracker.py:2416-2890 | daily bytes and the channels' bytes differ by what only one of them was credited with; where nothing was credited to one side alone they agree if and only if nothing was to the other: no row without an id grew, nor any whose other write failed |
| TelemetryRuns.NamelessBytes | backend/bandwidth_tracker.py:2416-2467 | two observations of a row with no id credit the day and no channel |
| TelemetryRuns.LostDay | backend/bandwidth_tracker.py:2786-2833 | when the day's write fails once, the channel is credited and the day never is |
| TelemetryRuns.ContinuousChannel | backend/bandwidth_tracker.py:2416-2427 | a channel always present with a counter that never falls is credited last less first, less what failed writes lost: with all of it if and only if the counter had not risen before any that failed |
| TelemetryRuns.MissedObservations | backend/bandwidth_tracker.py:2416-2427 | whichever observations between those two are missed, and whichever writes fail, credit and loss are together the same |
| EventIngest.EventWindow.CollectChannelEvents | backend/bandwidth_tracker.py:3378-3455 | a poll leaves the ids seen in order of use, cut to the cap, and counts each attributed event; an empty snapshot or a failed request changes nothing |
| EventIngest.BoundedRefinesUnbounded | backend/bandwidth_tracker.py:3378-3455 | with a cap of 2w - 1 for feeds of w ids the cut-down memory counts what one that never forgets would, poll by poll |
| EventIngest.ExactlyOnce | backend/bandwidth_tracker.py:3378-3455 | then no event is counted twice over a whole run |
| EventIngest.CountedIff | backend/bandwidth_tracker.py:3378-3455 | and an event is counted, with its own id, kind and channel, if and only if it is the first of its id that any poll read, and its channel was then in the snapshot |
| EventIngest.CountedIsRead | backend/bandwidth_tracker.py:3378-3455 | whatever the cap and the feeds, all that a poll counts are events of its feed, as they are |
| EventIngest.CapTooSmall | backend/bandwidth_tracker.py:3445-3455 | any smaller cap is too small, for feeds of any size w: there is a run of two contiguous polls over which an event is counted twice |
| TelemetryRows.WriteSessionTelemetry | backend/bandwidth_tracker.py:4310-4450 | the rows are one for each surviving client in address order, and a channel's counts are on its first |
| TelemetryRows.RowsOfEntry | backend/bandwidth_tracker.py:4322-4400 | a channel's rows are by ascending address, one for each time it lists a client that was recorded and is not excluded, with that client's connection and an equal share of the bytes, rounded down |
| TelemetryRows.RowIff | backend/bandwidth_tracker.py:4310-4400 | a row is written if and only if it is one of those of a channel of the snapshot |
| TelemetryRows.TotalsMatch | backend/bandwidth_tracker.py:4310-4320 | summed over its rows, a channel's counts are the poll's, once, if it has a row |
| TelemetryRows.PollTotals | backend/bandwidth_tracker.py:4310-4320 | which is how often the poll counted an event of that kind towards it |
| TelemetryRows.RunTotals | backend/bandwidth_tracker.py:4310-4320 | summed over every row of a run, a channel's events of a kind are at most those counted, and all of them if and only if it had a row in each poll that counted one |
| TelemetryRows.EachEventInOneRow | backend/bandwidth_tracker.py:3378-3455 | over a run of polls that read windows of one feed, with a cap of 2w - 1, the rows together carry each event counted at most once, and every one if and only if none was dropped |
| TelemetryRows.BytesShared | backend/bandwidth_tracker.py:4347 | a channel's rows never carry more than it moved, and fall short by less than a byte a client when each has a row |
| StreamProviders.StreamProviderCache.GetBatch | backend/bandwidth_tracker.py:666-692 | hits are just the ids asked for whose record is no older than the time to live, the others are misses, without repeats; of those the records are dropped, and the asking is logged |
| StreamProviders.StreamProviderCache.Put | backend/bandwidth_tracker.py:694-699 | the record is kept with its time, and logged with the asking it answers |
| StreamProviders.StreamProviderCache.Clear | backend/bandwidth_tracker.py:701-703 | nothing from before is kept, and the clear is logged |
| StreamProviders.CachedWasPut | backend/bandwidth_tracker.py:666-703 | over any log, what is cached is the last record put since the last clear |
| StreamProviders.CachedIff | backend/bandwidth_tracker.py:666-703 | and a record is cached if and only if it was put, with no clear and no other record of its id since, and no batch that asked for it since found it too old |
| StreamProviders.AskedSinceClear | backend/bandwidth_tracker.py:694-703 | it was also asked for since the last clear if and only if no clear came between its asking and its answer |
| StreamProviders.ClearedTooSoon | backend/channel_stats_subscriber.py:212-219 | an answer asked for before a clear, and in after it, is cached |
| StreamProviders.Learn | backend/bandwidth_tracker.py:995-1028 | the log grows by exactly the records that the answer holds, each at the time of its put |
| StreamProviders.ResolveActiveChannelStreams | backend/bandwidth_tracker.py:758-1118 | whatever others do to the cache while the answer is awaited, its log grows by the asking, their steps and the records of the answer, and nothing else; the result is the cache-free one over a catalogue where each record is one upstream just gave, or one put within the time limit and since the last clear |
| StreamProviders.CachedWasGiven | backend/bandwidth_tracker.py:666-703 | over any run of resolves and clears, however they interleave, each record cached is that of the last stream of its id in an upstream answer that no clear has followed, put when the record says |
| StreamProviders.OneResultEach | backend/bandwidth_tracker.py:1036-1118 | which has one result for each channel of the snapshot and no other, its own entry's |
| StreamProviders.ResolvedTo | backend/bandwidth_tracker.py:1036-1118 | an entry is resolved by its stream id, or else its URL's: to the provider that the catalogue gives the stream, under the name that goes by or else the host name; to the local tuner if it gives none, unless the id came from the URL and that is matched to a provider; and for a stream not in the catalogue, or none, to what the URL is matched to, if to anything |
| StreamProviders.FoundIs | backend/bandwidth_tracker.py:995-1028 | what an answer adds to the catalogue is the last record of each id in it |
| BulkCommitLedger.OperationLedger.constructor | backend/bulk_commit_accounting.py:254-296 | nothing is counted, queued or open |
| BulkCommitLedger.OperationLedger.Begin | backend/bulk_commit_accounting.py:323-334 | an operation opens clean, unless one is open |
| BulkCommitLedger.OperationLedger.QueueJournal | backend/bulk_commit_accounting.py:425-442 | all of a write's rows are queued, or none if one is malformed |
| BulkCommitLedger.OperationLedger.RecordWrite | backend/bulk_commit_accounting.py:336-364 | the rows are queued, and a side effect is noted of an open operation even when they are refused |
| BulkCommitLedger.OperationLedger.RecordPersisted | backend/bulk_commit_accounting.py:366-387 | the operation is marked persisted only once its rows are queued |
| BulkCommitLedger.OperationLedger.AppliedWithoutWriting | backend/bulk_commit_accounting.py:389-416 | takes a reason, and an open operation |
| BulkCommitLedger.OperationLedger.RecordApplied | backend/bulk_commit_accounting.py:444-472 | an operation that said what it did is closed and counted once |
| BulkCommitLedger.OperationLedger.RecordFailed | backend/bulk_commit_accounting.py:474-487 | a failed one likewise, partial if it had side effects |
| BulkCommitLedger.OperationLedger.DrainJournalRows | backend/bulk_commit_accounting.py:418-423 | what was queued is handed over, after which all that landed has been, once, in order |
| BulkCommitLedger.Violations | backend/bulk_commit_accounting.py:525-642 | the audit finds nothing if and only if the envelope keeps the rules |
| BulkCommitLedger.Finalize | backend/bulk_commit_accounting.py:645-697 | raises exactly when the error entries do not account for the counters |
| BulkCommitLedger.RunOperation | backend/routers/channels.py:3614-4262 | an operation is opened, run, and closed once as applied, incomplete or failed, with its entry |
| BulkCommitLedger.BooksOperation | backend/bulk_commit_accounting.py:525-642 | closing an operation keeps the entries in account with the counters |
| BulkCommitLedger.BooksPass | backend/bulk_commit_accounting.py:645-697 | entries that are kept in account pass the audit; success is a clean run, partial one that left something and was not clean |
| BulkCommitLedger.NormalizedIsPending | backend/bulk_commit_accounting.py:366-387 | a normalization failure is always of the channel that the operation itself created |
| BulkCommitLedger.RunBulkCommit | backend/routers/channels.py:2527-4395 | no run raises in its audit; each count is of the outcomes; the entries are those of the operations in order, then of setup failures; the rows handed over are those of every write that landed, in order; success means that every operation was attempted and applied |
| BulkCommitMeaning.OutcomeIs | backend/routers/channels.py:3614-4262 | an operation applies if and only if its branch did something, all of it taken, and did not raise; else it is incomplete if and only if a write of its own was kept, and else failed, with side effects just when it wrote anything |
| BulkCommitMeaning.AttemptedIs | backend/routers/channels.py:4255-4271 | the number of operations attempted is the one number such that each before the last applied, or the run goes on past failures, and no crash came before it; and if there are more, a crash comes there, or the last failed and ends the run; it is none when the groups were not made |
| BulkCommitMeaning.SuccessIs | backend/bulk_commit_accounting.py:645-697 | success is that all groups were made, each operation was attempted and applied, the numbering was repaired, no crash came and the rows were written |
| BulkCommitMeaning.RowsAre | backend/bulk_commit_accounting.py:418-442 | the rows handed over are those of the groups' writes, of what each attempted operation wrote, and of the repairs if the run came to them, each series up to the first that was refused |
| BulkCommitMeaning.EntriesAre | backend/routers/channels.py:4226-4262 | there is an entry for each operation attempted that did not apply, in order, as applied if it is incomplete, and else marked exactly when it left work behind |
| BulkCommitMeaning.NormalizedAre | backend/routers/channels.py:3614-4262 | the normalization failures reported are those of the channels that attempted operations created and could not normalize |
| BulkCommitMeaning.AuditDetermines | backend/bulk_commit_accounting.py:525-642 | of the envelopes with the same entries at most one passes the audit, but for how many operations an aborted run says it applied |
| GroupReparent.Dispatcharr.GetChannels | backend/channel_group_reparent.py:189-201 | a page of the channels as they are after whatever others did first |
| GroupReparent.Dispatcharr.GetChannel | backend/channel_group_reparent.py:98-123 | what a re-read answers is what the fault at that moment makes of the channel as it then is, so that it tells the truth when it tells a group |
| GroupReparent.Dispatcharr.UpdateChannel | backend/channel_group_reparent.py:237 | whether a PATCH lands and whether it returns are what the fault at that moment says, and all that it changes |
| GroupReparent.ScanMembers | backend/channel_group_reparent.py:183-202 | ends over any interference, each channel listed having been in the group at some moment of the scan; undisturbed, it finds exactly the members, with their names |
| GroupReparent.ResolveTarget | backend/channel_group_reparent.py:69-83 | the target is an id if and only if some group has it, is a baseline one, and no baseline one before it has any; there is none if and only if no baseline group has an id |
| GroupReparent.MoveMember | backend/channel_group_reparent.py:233-238 | a member is re-read and, unless that shows it elsewhere, patched; it breaks off only if the call failed or the channel is gone |
| GroupReparent.ReparentGroupChannels | backend/channel_group_reparent.py:126-244 | on every exit the callbacks are the landed PATCHes in order if and only if every PATCH returned, and else all but the one whose reply was lost; every PATCH has its re-read, and goes to the first baseline group, another than this; no target or the group itself raises and writes nothing, and otherwise it raises only when a call failed or a member is gone; no members returns before the target is looked up; undisturbed and with nobody joining, the group is left empty |
| GroupReparent.UntoldMove | backend/channel_group_reparent.py:233-244 | a run that loses one reply moves a channel and tells nobody |
| GroupReparent.OverwritesOnlyInWindow | backend/channel_group_reparent.py:86-123 | a PATCH overwrites someone's move only between re-read and PATCH, or when the re-read gave no evidence |
| GroupReparent.MoveSurvives | backend/channel_group_reparent.py:167-181 | a move made outside those windows is never overwritten, however long the run |
| GroupReparent.WindowLoses | backend/channel_group_reparent.py:159-181 | one made inside is lost |
| GroupReparent.NobodyWithin | backend/channel_group_reparent.py:189-206 | the group is empty exactly when a scan would find no members |
| RunHistory.MergeDoes | backend/channel_pipeline_executor.py:1604-1721 | merging a new stream puts it at the end, notes the list as it was, and journals it; one that is there changes nothing |
| RunHistory.RemoveDoes | backend/channel_pipeline_executor.py:3615-3678 | removing takes out just that stream, and notes the list as a change to the stream |
| RunHistory.PriorityDoes | backend/channel_pipeline_executor.py:3688-3772 | setting a priority puts the stream first, or last, leaves the others in order, and notes the list, if it changes |
| RunHistory.PruneDoes | backend/channel_pipeline_executor.py:3774-3830 | pruning leaves just the wanted streams, and notes nothing |
| RunHistory.ReorderDoes | backend/channel_pipeline_engine.py:1635-1819 | nor does sorting, which writes another order of two streams or more |
| RunHistory.FieldsDo | backend/channel_pipeline_executor.py:1802-1861 | setting fields writes them and notes what they and the other fields it notes were; a write that is not noted is followed by the executor's copy or not |
| ReverseReplay.RestoreModified | backend/channel_pipeline_engine.py:930-941 | the loop writes back each record's previous values, newest first |
| ReverseReplay.EarliestWins | backend/channel_pipeline_engine.py:930-941 | of many records of a field the earliest that is written decides |
| ReverseReplay.ReplayReturnsTo | backend/channel_pipeline_engine.py:5748-5764 | whichever writes fail and whatever others did, each field goes back to what the executor took it for at its first note that was written, and one with none stays as it is |
| ReverseReplay.RestoredIff | backend/channel_pipeline_engine.py:930-941 | when no write fails or lands unheard and nobody else edits, a field is restored if and only if no unrecorded write to it came before its first note, or the last that did wrote what was there at the start |
| ReverseReplay.ReplayIsInverse | backend/channel_pipeline_engine.py:930-941 | so a run that records all it does is undone, however often it changed a channel |
| ReverseReplay.TakenOutForGood | backend/channel_pipeline_executor.py:3774-3830 | a stream list that a removal or a pruning shortened before it was first noted stays shorter than it was |
| ReverseReplay.RemovalStays | backend/channel_pipeline_executor.py:3664-3678 | a run that only removes a stream is not undone |
| ReverseReplay.RenameStays | backend/channel_pipeline_executor.py:1304-1316 | a run that renames a channel and sets another field leaves it renamed, with the other field put back |
| SurgicalUnmerge.AddedStreamIds | backend/channel_pipeline_engine.py:5766-5781 | the ids in after and not in before, and none when either is malformed |
| SurgicalUnmerge.CollectAdded | backend/channel_pipeline_engine.py:5876-5892 | what is gathered for a channel is what its entries added |
| SurgicalUnmerge.JournalDrivenUnmerge | backend/channel_pipeline_engine.py:5847-5923 | each channel loses exactly what its entries added, keeps its order and its other fields; a channel whose calls fail is left; the count is of lists that changed |
| SurgicalUnmerge.UnmergedIff | backend/channel_pipeline_engine.py:5766-5904 | a stream stays if and only if no readable entry of that channel has it after and not before, or the channel's calls fail; and those that stay keep their order |
| SurgicalUnmerge.UnmergeTwice | backend/channel_pipeline_engine.py:5894-5904 | doing it again changes nothing |
| UnmergeMeaning.JournalSays | backend/channel_pipeline_executor.py:1604-1721 | of a channel to whose streams the run only merged, the journal says just what was merged, none of which was there |
| UnmergeMeaning.OthersAreLateEdits | backend/channel_pipeline_engine.py:5894-5904 | what others put in the live list is their edits since the run's last write, replayed at the same places on the list the run started from |
| UnmergeMeaning.UnmergeLeavesEdits | backend/channel_pipeline_engine.py:5847-5862 | the un-merge leaves just that list, order kept, if and only if nobody brought in a stream that the run had merged |
| RollbackRuns.LateEditsAreAll | backend/channel_pipeline_engine.py:5847-5862 | which is all of the edits when the run's merges come first |
| RollbackRuns.MergeDiscardsEdits | backend/channel_pipeline_executor.py:1695-1700 | just after a merge the un-merge gives back the starting list whatever others had done; so edits made since the earlier merges survive only if they came to nothing |
| RollbackRuns.UndoneIffOnePage | backend/channel_pipeline_engine.py:5863-5868 | a quiet run of merges is undone on every channel if and only if it fits in a page of 1000 entries |
| JournalCoverage.EventSyncJournalCoversRun | backend/channel_pipeline_engine.py:5783-5845 | the check says yes if and only if nothing was created, something was recorded, all of it of channels and of their streams alone, and the page is all of the journal, as many entries, all of event sync, of the same channels as often |
| JournalCoverage.JournaledAtMost | backend/channel_pipeline_engine.py:5806-5812 | a run journals no more than it records, and as much only when it recorded nothing but merges |
| JournalCoverage.CoverageIsSound | backend/channel_pipeline_engine.py:5783-5814 | when the check says so, all that the run recorded was merges for event sync, and all of it was read; that they are all that it did to a channel's streams holds if and only if it neither pruned nor sorted them nor wrote them unheard |
| JournalCoverage.CoveredIsUndone | backend/channel_pipeline_engine.py:831-865 | a covered run that did none of these is undone there, and of edits made since its last merge just those are left, if and only if none brought in a stream that it had merged |
| JournalCoverage.CoveredUndoneIff | backend/channel_pipeline_engine.py:1635-1819 | undisturbed and heard, a covered run is undone on a channel if and only if no pruning took out a stream it had at the start and those still stand in their order |
| JournalCoverage.CoveredFieldsStay | backend/channel_pipeline_engine.py:831-865 | another field of a covered run's channel is as it was if and only if the run did not write it, or last wrote what was there |
| JournalCoverage.CoveredThoughSorted | backend/channel_pipeline_engine.py:1635-1819 | a run that merges and then sorts is taken for covered and left out of order |
| JournalCoverage.CoveredThoughRenamed | backend/channel_pipeline_executor.py:1304-1316 | one that merges and renames is taken for covered and left renamed |
| JournalCoverage.CoveredThoughUnheard | backend/channel_pipeline_executor.py:1695-1721 | one that merges a second stream and does not hear of it is taken for covered and keeps that stream |
| RollbackRuns.LegacyRollback | backend/channel_pipeline_engine.py:885-941 | refused when nothing was recorded; the restore runs exactly when the un-merge finds no entries |
| RollbackRuns.MergesLeaveFields | backend/channel_pipeline_engine.py:919-941 | a field set by a run that also merged is left as set, though the restore would have put it back |
| OrphanReconciliation.CleanUp | backend/channel_pipeline_engine.py:5346-5380 | one attempt on each orphan, of the rule's kind, with the successes counted |
| OrphanReconciliation.ReconcileRule | backend/channel_pipeline_engine.py:5196-5380 | a rule attempts exactly its orphans, or in a dry run lists them; bypassed, inactive and first-time rules have none |
| OrphanReconciliation.AttemptedIff | backend/channel_pipeline_engine.py:5195-5380 | of a rule that a pass gets to: it attempts a channel if and only if it is not an event-sync rule that promotes nothing or nowhere, cleans up, is recorded to manage the channel and does not yield it now, the executor knows of it, and, for an event-sync rule only, it lies in the target group and the pass has not moved it from there; once, in the rule's own way |
| OrphanReconciliation.ListedIff | backend/channel_pipeline_engine.py:5195-5370 | a dry run lists for each rule just the channels that it would attempt so if nothing had been moved |
| OrphanReconciliation.SuccessesAre | backend/channel_pipeline_engine.py:5346-5380 | removals and moves are counted by the attempts of the kind that were not refused |
| OrphanReconciliation.ReconcileOrphans | backend/channel_pipeline_engine.py:5172-5520 | the pass gets to each rule up to the one that raises; the ledger moves on only with a pass that is persisted and commits; a dry run attempts nothing, and lists what it would |
| OrphanReconciliation.LedgerMoves | backend/channel_pipeline_engine.py:5484-5516 | a pass leaves for a rule just what it yielded if and only if it is no dry run, may write, raises nowhere, the rule is not bypassed, and it yields something or has ids recorded and cleans up; else what was there |
| OrphanReconciliation.LastWriter | backend/channel_pipeline_engine.py:5484-5513 | what is recorded for a rule is what it yielded in the last pass that wrote it, else what was there at the start |
| OrphanReconciliation.Provenance | backend/channel_pipeline_engine.py:5195-5334 | whatever came before, a channel that a rule touches was in its ledger at the start or yielded by it in its last recorded pass, is not yielded now, was known to the executor when this pass began, and lay then in the target group of a promoting rule |
| OrphanReconciliation.AttemptedTwice | backend/channel_pipeline_engine.py:5195-5380 | a pass attempts a channel twice if and only if two of its rules had it for an orphan, each at its turn |
| OrphanReconciliation.TouchedAgain | backend/channel_pipeline_engine.py:5484-5516 | after a pass that commits, a rule touches a channel again only if it has yielded it in between |

## Left out

- NumberingApply.SlotOf: an integer too large for a double has no slot here, where `_slot_key` raises OverflowError.
- NumberingApply.OrderNumberingWrites: names are carried and not used; log messages are not part of the model.
- RangeSlots.NumberMeetsIff: from 2^53 up, where slots are doubles, says that neighbours meet when they are one double; which whole numbers those are is spelt out to 2^54 only.
- NumberingPlan.BuildFinalNumberingState: an acknowledged number too large for a double would raise; the request model lets none through.
- NumberingPlan.Plus: a start that is neither a finite number nor missing, which the request model does not let through, gives no number.
- NumberingPlan.EvaluateFinalNumbering: the order of an issue's operation indexes and its texts are not modelled, and which operations it names is a set.
- BandwidthTracker.Bandwidth.ProcessChannelSnapshot: the clock is in whole milliseconds, so the rounding of a float difference to a millisecond is not modelled.
- BandwidthTracker.Bandwidth.ProcessChannelSnapshot: each write that the source guards may fail; an exception that it does not guard, such as one from a malformed row, is not modelled. What fails in closing the connections of stopped channels leaves any of them, where the source leaves a tail.
- Watch seconds, which are rounded at every observation; bitrates, peaks and the roll over to a new day.
- TelemetryRows.WriteSessionTelemetry: attributions to media servers and to users are not modelled; addresses are integers, with their order in place of that of strings.
- StreamProviders.ResolveActiveChannelStreams: what parsing a URL yields is an attribute of it, and metrics and logs are not modelled.
- BulkCommitLedger.RunBulkCommit: a crash comes between operations or within the first or last writes; one between closing an operation and adding its error entry is not modelled. A branch creates at most one channel.
- BulkCommitLedger.OperationLedger.RecordFailed: does not itself refuse an operation that has persisted; `BulkCommitLedger.RunOperation` never fails one.
- GroupReparent.ResolveTarget: whether a group's trimmed, case-folded name is the baseline one is an attribute of its row.
- GroupReparent.ScanMembers: the edits others make are finitely many, however many; a listing that grew for ever would not end.
- SurgicalUnmerge.AddedStreamIds: an entry comes parsed; the raw JSON strings that are tolerated are not modelled.
- RunHistory.Do: channels are neither created nor deleted in the middle of a run, so the deletion of created channels in a rollback is not modelled; a write to anything that is not a field of a channel, such as its membership of a profile, records nothing and is not modelled either.
- RunHistory.Updates: an ownership marker and a deferred guide assignment are writes of given values; that the marker is merged with a fresh copy is not modelled.
- JournalCoverage.CoveredUndoneIff: for a channel whose streams were also pruned or sorted, stated of runs that nobody else interferes with and whose writes are all heard.
- ReverseReplay.RestoredIff: likewise; with other people's edits or writes that land unheard, `ReverseReplay.ReplayReturnsTo` says what is restored.
- The snapshot restore: the full overwrite of every channel from a snapshot.
- OrphanReconciliation.ReconcileOrphans: the removal of emptied groups, the renumbering that closes gaps and the run's log; an exception comes between rules or in the commit.
- That every orphan is removed in the end: the ledger moves on even when a removal fails.
- `recovery_steps` in channel_number_apply.py, whose result is text.
- Condition evaluation, name templates, regular expressions, configuration, the caches and pages of the front end.
