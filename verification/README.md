# Tributary, modelled and proved

Tributary ships log lines to a database and claims that the lines written to a file are the
rows stored, exactly, through crashes, outages, full disks and rotation. This project states
the parts of the agent that carry the claim in Dafny and proves what they keep.

| module | what it is |
|---|---|
| `Delivery` | the pipeline as a state machine: reads, flushes, tasks finishing in any order, ambiguous and late deliveries, refusals, spools, held batches, drains, saves, crashes |
| `Exactness`, `DeliveryBounds` | checkpoint safety and exactly once over its runs; bounded memory and queue |
| `DeliveryLimits`, `Resumption`, `Recovery` | where the code falls short: the rows an unguarded save loses, a queue that outgrows every bound, exactly when reading resumes, with and without a server that answers, and exactly which crashes are fatal |
| `Runs`, `Agent` | the imperative pipeline (`flush`, `reap_one`, `drain_queue`, `checkpoint_now`, the tail loop), each method proved to be a run of that machine |
| `Queue`, `Progress` | the disk queue and the checkpoint file over a directory, with a crash at every point |
| `Stamp` | the stamper with its 64-tick window, against a windowless definition |
| `Ship` | the bisection of a rejected batch against an arbitrary server |
| `Tail`, `TailRuns` | the tailer over an abstract file system that moves between its steps |
| `EndToEnd` | tailer and pipeline together, from the bytes of the files to the rows in the store |
| `LineProtocol`, `LineParser`, `Exec`, `Wire`, `Lines` | encoder, parser, tag injection, and the encoder under the delivery theorems |
| `Multiline`, `Reassembly` | the framers |
| `Framed`, `Framers` | the pipeline behind a framer, and behind these |
| `Watermark`, `Glob`, `Calendar`, `Decimal` | observed lateness, the wildcard, civil dates, decimal text |

Strings stand for byte strings. The server, the disk's free space and the order in which
tasks finish are arbitrary functions or steps, so a theorem holds for all of them. Theorems
about replay assume timestamps read from the line, in ticks that never step back, and a fixed
configuration. `Exact` allows for rows the server itself turned down, each in the dead-letter
file, and for no others.

Where the code is narrower than its comments, the code is what is modelled:

- the save at the end of `drain_queue` (main.rs:2096-2100) does not look at batch or in-flight
  rows, although `save_checkpoint` promises never to record progress past bytes that are not
  durable. `CheckpointSafetyIff` says exactly when the checkpoint it leaves is safe,
  `DrainSaveLosesARow` gives a run in which it and a crash lose a row for good,
  `RecoverableIff` says exactly which crashes do, and without a crash nothing is lost
  (`OutageWithoutCrash`);
- the same save does not look at the framer, as the timer's does (main.rs:848-850), so it can
  cut a record (`FramedSafetyIff`, `SaveInsideRecord`, `HalfMessageIsLost`);
- the drain of the shutdown (main.rs:991-1015) drops a record that does not map or encode
  without a word, unlike every other path, and the save after it goes past its lines
  (`ShutdownDrainIff`, `FramedSaveIff`, `ShutdownDropsRecord`);
- flush and timer wait for an empty framer (main.rs:817, 850), and a multiline source with a
  start pattern empties it only by a timeout or a bound: while its records follow one another
  within the timeout nothing ships and the batch grows past `batch_lines`
  (`BusySourceShipsNothing`);
- `push_forced` (queue.rs:183-184) is said to overshoot the cap by the in-flight set only; each
  process starts not full on whatever it adopted (queue.rs:132), so over restarts the queue
  has no bound (`QueueOutgrows`; `QueueBound` has the bound per restart);
- `full` is cleared only by `pop` (queue.rs:283-290), so held batches shipped from memory with
  no segment queued pause reading until a restart (`StuckIsReachable`, `StuckForever`;
  `ResumesIff` has the exact condition); with rows still in flight only a request that fails
  can end the pause, so while the server answers every one it lasts too
  (`ParkedIsReachable`, `ResumesAnsweredIff`);
- `out_of_window` (stamp.rs:133-140) compares a tick with the oldest insertion only, so it can
  stay zero over a collision (`SilentCollision`; `SilentIff` says exactly when);
- `wildcard` (glob.rs:82-85) tries literal equality first, so a `*` byte in a name is spent on
  the pattern's star (`RightForNameIff`);
- `restore` (watermark.rs:60-62) is said to let a restart resume its estimate; the first
  advance replaces it (`RestoreIsInert`);
- `resume` (tail.rs:158-166) treats a marked file away from the path as rotated even when it
  is still the live one (`StrandedFileIsLost`).

`dafny verify dfyconfig.toml` checks the whole project.

## Model

| member | source | states |
|---|---|---|
| Exactness.ExactlyOnce | crates/tributary/src/main.rs:765-989 | For any interleaving of reads, flushes, acks, ambiguous failures, late deliveries, spools, drains, saves and crashes whose crashes found a safe checkpoint: once drained, each line that maps is in the last-write-wins store as its text under the stamp a fresh stamper issues it, save rows the server itself turned down, each in the dead-letter file; each line that does not map, or has no stamp or no text, is dead-lettered; and neither place holds anything else. With none turned down the store is the crash-free one, key for key |
| Exactness.FateIff | crates/tributary/src/main.rs:776-814 | What becomes of a line: a row just if it maps, its tick is not exhausted and it has a text under the stamp issued, and then that text; dead-lettered under its own text if it does not map or one of these fails; nothing for a blank or dropped line |
| Exactness.AlwaysDeadSound | crates/tributary/src/main.rs:2117-2131 | In every reachable state, whatever source text the dead-letter file holds is that of a line that is refused |
| Exactness.UninterruptedExactlyOnce | crates/tributary/src/main.rs:765-1018 | So a run without a crash ends exact, line by line, once drained, whatever its drains saved over |
| Exactness.DisciplinedExactlyOnce | crates/tributary/src/main.rs:765-1018 | And so does a run with any crashes in which every save at the end of a drain found the batch and in-flight rows durable |
| Exactness.CoveredAlong | crates/tributary/src/main.rs:773-820 | Along any such run, from any sane state, every line read stays durable or in memory |
| Recovery.RecoverableIff | crates/tributary/src/main.rs:2133-2186 | Whether a crash is fatal, after any run of the code: some run from there still ends exact, drained and without another crash even, if and only if every row below the checkpoint was durable or had been sent when it came |
| Recovery.FinishesIff | crates/tributary/src/main.rs:765-1018 | From every reachable state, some run short of a restart reads and ships everything if and only if the pipeline is not stuck with lines unread |
| Exactness.StoreIsSound | crates/tributary/src/main.rs:1939-2101 | In every reachable state, disciplined or not, whatever the store holds is a row the crash-free run writes, under its own key |
| Exactness.CheckpointSafetyIff | crates/tributary/src/main.rs:2040-2100 | Over whole runs of the pipeline of a single-line source, as it is coded: every row below the saved checkpoint is stored, queued or dead-lettered in every state of the run if and only if each save at the end of a drain found every batch and in-flight row durable; `Framed.FramedSafetyIff` has the framer |
| Exactness.DisciplinedIsSafe | crates/tributary/src/main.rs:2040-2100 | Such a run keeps the checkpoint safe and every line already read durable or in memory |
| Exactness.StepIsSafe | crates/tributary/src/main.rs:1971-2036 | Each step on its own preserves checkpoint safety and coverage; the unguarded save needs its pending rows durable |
| Exactness.SaveIsSafe | crates/tributary/src/main.rs:1971-1978 | The guarded save, with batch, in-flight and held all empty, leaves a safe checkpoint |
| Exactness.DrainSaveIff | crates/tributary/src/main.rs:2096-2098 | For a single-line source the save at the end of a drain is safe exactly when every row in the batch or in flight is durable anyway; `Framed.FramedDrainSaveIff` has the framer |
| Exactness.CoveredAfterCrash | crates/tributary/src/main.rs:2133-2186 | After a crash and restart every line the source is re-read past is durable |
| Exactness.CoveredKept | crates/tributary/src/main.rs:773-820 | Between crashes no line already read leaves both memory and disk |
| Exactness.DurableStays | crates/tributary/src/main.rs:1981-2029 | A stored, queued or dead-lettered row stays so under every step, crash included |
| Exactness.ReadIsIdeal | crates/tributary/src/main.rs:1694-1737 | Whatever crashed before, reading a line gives it the stamp, row or dead-letter entry of the crash-free run, which `FateIff` describes |
| Exactness.CrashFreeRun | crates/tributary/src/stamp.rs:112-152 | The stamp used as the yardstick is what one uninterrupted process with a fresh stamper gives the line: its outcome in the run over the whole file, and the windowless one |
| Exactness.StampsMakeKeysDistinct | DESIGN.md:125-143 | At any resolution coarser than a nanosecond, two rows of one stream never share a primary key, whatever their tags |
| Exactness.AlwaysSane | crates/tributary/src/main.rs:765-989 | Positions, stampers, provenance of every row in memory, on disk and in the store: invariant over every run |
| Exactness.DrainedIsExact | crates/tributary/src/main.rs:1016-1018 | A sane and covered state with nothing left in memory or queued is exact |
| DeliveryBounds.MemoryWindow | DESIGN.md:195-205 | For a single-line source, in every reachable state: the lines in batch, in flight and held number at most batch_lines * (1 + max_inflight), and a non-empty held set means the queue is full; `Framers.BusySourceShipsNothing` has the multiline one |
| DeliveryBounds.QueueBound | crates/tributary/src/queue.rs:143-201 | In every reachable state: not full implies within the cap, or what this process adopted if more; never more above that than one memory window, 1 + max_inflight of the largest batches the source yields; and what was adopted is above the cap by at most one such window for every restart |
| DeliveryBounds.QueueBoundFor | crates/tributary/src/queue.rs:143-201 | The same in terms of any limit on the rows that occur |
| DeliveryLimits.QueueOutgrows | crates/tributary/src/queue.rs:123-134 | No bound survives restarts: for every n a run of the code, on the first line alone, ends with n copies of it queued, because each process starts not full whatever it adopted |
| Wire.WiredQueueBound | crates/tributary/src/queue.rs:143-201 | The bound for encoded records with 64-bit stamps, restarts included, in terms of the records themselves: their text with room for any stamp |
| DeliveryBounds.AlwaysBudgeted | crates/tributary/src/main.rs:1981-2029 | The invariant behind it: queued bytes plus room for each batch in memory never exceed the budget |
| DeliveryLimits.FirstLifeDrainSave | crates/tributary/src/main.rs:2096-2098 | In a process that has not crashed, the unguarded save is safe with nothing in flight if and only if the batch is empty |
| DeliveryLimits.UnguardedSaveLosesIff | crates/tributary/src/main.rs:2096-2098 | In any life of the agent, a row in the batch at an unguarded save that a crash follows is never stored again, whatever happens after, if and only if it had never been sent |
| DeliveryLimits.DrainSaveLosesARow | crates/tributary/src/main.rs:2040-2100 | A concrete reachable run of the code, for any two first rows, in which this happens |
| DeliveryLimits.OutageWithoutCrash | crates/tributary/src/main.rs:2096-2098 | The same outage without the crash: the drain saves over the waiting row, and whatever follows without a crash ends exact once drained |
| DeliveryLimits.StuckIsReachable | crates/tributary/src/main.rs:2054-2078 | A reachable state with the queue full, nothing held, queued or in flight, and lines unread |
| DeliveryLimits.StuckForever | crates/tributary/src/queue.rs:283-290 | From such a state no step short of a restart ever reads again |
| Resumption.ResumesIff | crates/tributary/src/main.rs:773-774 | From every reachable state with lines unread, in any life: some run short of a restart reads on if and only if the pipeline is not full with nothing left in batch, in flight, held or queued; and then one on which the server turns nothing down |
| Resumption.ResumesAnsweredIff | crates/tributary/src/main.rs:2054-2095 | And while the server answers every request: some such run reads on if and only if the pipeline is not full with nothing held or queued, whatever waits in batch or in flight |
| Resumption.ParkedForever | crates/tributary/src/queue.rs:283-290 | From such a state no run on which the server answers every request ever reads again |
| Resumption.ParkedIsReachable | crates/tributary/src/main.rs:2054-2078 | A run of the code, for any two first rows, that ends there with the second in flight |
| Resumption.PauseEndsAtHalf | crates/tributary/src/queue.rs:283-290 | Within a life a pause ends only by shipping a segment that leaves at most half the cap queued |
| Runs.KeepsSafe | crates/tributary/src/main.rs:765-989 | A run whose unguarded saves were harmless carries checkpoint safety from any reachable state to the next |
| Runs.LeadsTrans | crates/tributary/src/main.rs:765-989 | Runs of the delivery machine compose, disciplined with disciplined |
| Runs.ReapAckedLeads | crates/tributary/src/main.rs:1986-1987 | Reaping an acknowledged task is a run of the delivery machine: its rows reach the store or the dead-letter file before it goes |
| Runs.ReapSpooledLeads | crates/tributary/src/main.rs:1988-2007 | So is reaping a failed one into the queue, under the cap or past it |
| Runs.ReapHeldLeads | crates/tributary/src/main.rs:2008-2023 | And into memory when the disk is full |
| Runs.HeldAckedLeads | crates/tributary/src/main.rs:2063-2072 | And shipping a held batch straight from memory |
| Runs.SegmentAckedLeads | crates/tributary/src/main.rs:2080-2088 | And shipping and retiring the oldest segment |
| Agent.Agent.Run | crates/tributary/src/main.rs:765-1018 | A process from start to stop, as it is coded, is a run of the delivery machine without a crash. Once everything is read it ends drained, or its last request, for some of the batch first in line, failed. Nothing read is lost and a drained end state is exact, line by line. Unless some drain saved while rows waited in the batch or in flight, the checkpoint it leaves is safe; no drain does if every pass but the last ended with flush and save |
| Agent.Agent.Pass | crates/tributary/src/main.rs:765-857 | One loop turn: drain, read while not full, on the timer flush and save; safe unless its drain saved over rows in the batch or in flight; the timer's save records the position reached unless something is held or the disk refuses |
| Agent.Agent.ReadLine | crates/tributary/src/main.rs:776-814 | A line that does not map goes to the dead-letter file and nowhere else; a mapped one is batched as its text under the stamp the stamper issues, or dead-lettered if there is no such stamp or text; a blank or dropped one changes neither: the Read step exactly |
| Agent.Agent.ReadAvailable | crates/tributary/src/main.rs:773-821 | Reads nothing while the queue is full; otherwise stops only at the end of what is there; hands nothing over while the batch stays below batch_lines, and always leaves it below |
| Agent.Agent.Flush | crates/tributary/src/main.rs:1939-1966 | Blocks until fewer than max_inflight are outstanding, then hands over the whole batch |
| Agent.Agent.Submit | crates/tributary/src/main.rs:1950-1959 | The batch becomes a task: the Flush step exactly |
| Agent.Agent.ReapOne | crates/tributary/src/main.rs:1981-2029 | One task collected: acknowledged with every row answered and queue untouched, or failed and its rows kept as cap and disk allow |
| Agent.Agent.Land | crates/tributary/src/main.rs:1983-2029 | The same for the batch at any place in flight |
| Agent.Agent.Keep | crates/tributary/src/main.rs:1989-2024 | Queued exactly when it fits the cap and the disk takes it, forced when only the second write succeeds, held in memory otherwise |
| Agent.Agent.Spool | crates/tributary/src/main.rs:1987-2025 | The same seen as lines: at the end of the queue or of the held batches, and full in all but the first case |
| Agent.Agent.ShipBatch | crates/tributary/src/ship.rs:341-375 | What reached the store is applied last write wins; success splits the batch between store and poison; every row counted as refused the server turned down on its own in a request that was made; failure only when the last request, for some of this batch, failed |
| Agent.Agent.Quarantine | crates/tributary/src/main.rs:2117-2131 | Refused rows appended to the dead-letter file in order |
| Agent.Agent.DrainInflight | crates/tributary/src/main.rs:2031-2036 | Reaps until nothing is in flight |
| Agent.Agent.SaveCheckpoint | crates/tributary/src/main.rs:2133-2186 | Nothing is recorded while a batch is held or the disk refuses; otherwise position and stamper state as they stand |
| Agent.Agent.CheckpointNow | crates/tributary/src/main.rs:1971-1978 | Drains in-flight tasks, then saves; keeps a safe checkpoint safe |
| Agent.Agent.ShipHeld | crates/tributary/src/main.rs:2063-2077 | The oldest held batch shipped, or left first in line after a request for some of it failed |
| Agent.Agent.SpoolHeld | crates/tributary/src/main.rs:2054-2062 | The oldest held batch put on disk, or left as it was |
| Agent.Agent.DrainHeld | crates/tributary/src/main.rs:2054-2078 | Until nothing is held, or the last write found no room and the last request, for some of the oldest held batch, failed |
| Agent.Agent.ShipFront | crates/tributary/src/main.rs:2080-2094 | The front segment shipped, then retired; otherwise a request for some of it failed and the queue is untouched |
| Agent.Agent.Retire | crates/tributary/src/queue.rs:275-293 | The SegmentAcked step on the queue: oldest gone, full cleared at half the cap |
| Agent.Agent.DrainSegments | crates/tributary/src/main.rs:2080-2095 | Segments oldest first until none is left or a request for some of the front one failed |
| Agent.Agent.DrainQueue | crates/tributary/src/main.rs:2040-2100 | Ends with nothing held or queued, or after a request for some of the batch first in line failed; saves only after emptying what was there, without looking at batch or in-flight; safe unless that save found rows in them, which is counted |
| Agent.Agent.DrainedSave | crates/tributary/src/main.rs:2096-2098 | That save, as the DrainSave step |
| Agent.Agent.Shutdown | crates/tributary/src/main.rs:1016-1018 | Flush, guarded save, one more drain: nothing left in batch or in flight, and nothing held or queued unless a request for some of the batch first in line failed |
| Agent.Agent.CrashAndRestart | crates/tributary/src/main.rs:595-738 | Whatever was in memory is gone, and the next process adopts the queue, the checkpoint and the stamper state: the Crash step exactly; nothing is lost if the checkpoint was safe |
| Agent.Agent.CrashKeeping | crates/tributary/src/main.rs:1987-2007 | The process gone inside the spool of a failed batch, killed at any point of the first write or, over the cap or after a first write that found no room, of the forced one, or ended by an I/O error of either, and restarted: the Crash step, after the spool step if the rename had happened and without it if not |
| Agent.Agent.CrashRetiring | crates/tributary/src/queue.rs:275-278 | Killed inside the removal of a segment that has shipped: the Crash step after or before that removal |
| Agent.Agent.constructor | crates/tributary/src/main.rs:595-738 | A fresh installation is the initial state |
| Queue.CrashRefinement | crates/tributary/src/queue.rs:72-136 | After any history of pushes, full disks, pops and deaths anywhere inside a push or a pop, the next process lists exactly the bodies pushed and renamed and not yet popped, each whole, first in first out, and sweeps every temporary file |
| Queue.AlwaysSound | crates/tributary/src/queue.rs:203-230 | Over every such history the segments are the accepted bodies under increasing numbers; while the process lives its next number is new and there is no temporary file |
| Queue.ListingIsFifo | crates/tributary/src/queue.rs:74-79 | Below 10^12 the sorted listing is the order of acceptance |
| Queue.NamesSort | crates/tributary/src/queue.rs:205 | Twelve-digit names sort as their numbers |
| Queue.WideNameSorts | crates/tributary/src/queue.rs:205 | Past 10^12 the exact condition under which an older name still sorts first |
| Queue.Queue.Open | crates/tributary/src/queue.rs:72-136 | Adoption: segments, their bytes and the next number recovered, temporary files gone, not full; the reopening step of the histories |
| Queue.Queue.Scan | crates/tributary/src/queue.rs:72-94 | Listing, total size and next number of a directory |
| Queue.Queue.List | crates/tributary/src/queue.rs:74-79 | The segments, sorted by name |
| Queue.Queue.Measure | crates/tributary/src/queue.rs:81-85 | The total of their lengths |
| Queue.Queue.Push | crates/tributary/src/queue.rs:143-176 | Refused exactly when over the cap or out of space in the write or the rename, and then full and unchanged; an error for any other I/O failure; accepted at the end, still within the cap; dying anywhere inside, the step of the histories with that reach |
| Queue.Queue.PushForced | crates/tributary/src/queue.rs:191-197 | Accepted past the cap exactly when the write succeeds, refused when the disk is full, an error for any other failure; full unless that |
| Queue.Queue.SpoolBody | crates/tributary/src/queue.rs:203-237 | Temporary file, write, then rename: the step of the histories for success, for a failed write or rename, which leaves nothing behind, and for a death at each point in between |
| Queue.Queue.Front | crates/tributary/src/queue.rs:266-268 | The oldest segment, holding the oldest body |
| Queue.Queue.Pop | crates/tributary/src/queue.rs:275-293 | The front gone from disk and deque; full survives only above half the cap, and never an empty queue; dying before or after the removal, the step of the histories |
| Progress.DurableOrAbsent | crates/tributary/src/checkpoint.rs:92-128 | Through any saves cut short anywhere, what loads is the last checkpoint published in full, never a torn one, and is refused exactly when its format is newer |
| Progress.OwnFormatIsRead | crates/tributary/src/checkpoint.rs:99-110 | An agent always reads back its own checkpoints |
| Progress.State.Save | crates/tributary/src/checkpoint.rs:116-128 | What a save leaves on disk wherever it is cut: the old checkpoint until the rename, the new one after |
| Stamp.StreamRun | crates/tributary/src/stamp.rs:112-152 | Every stream, however disordered: each outcome is the slot of the line's tick since that tick last opened, and what is left is the 64 last opened ticks with their counts |
| Stamp.UniqueIff | crates/tributary/src/stamp.rs:112-152 | A stream from a fresh stamper gets pairwise distinct stamps if and only if no tick comes back after 64 others have opened |
| Stamp.CollisionIsLate | crates/tributary/src/stamp.rs:132-149 | On every stream, two lines with one stamp have one tick, and it came back late between them or with the second |
| Stamp.LateTickCollides | crates/tributary/src/stamp.rs:132-149 | On every stream, a tick that comes back late repeats, stamp for stamp, the first one it was given |
| Stamp.InsideTick | crates/tributary/src/stamp.rs:120-151 | On every stream, each stamp lies in its own tick, the one whose quotient by the tick length the source time has, and an error comes exactly when the tick has no slot left |
| Stamp.StrictlyIncreasing | DESIGN.md:141-145 | For source ticks that never step back, stamps follow file order strictly |
| Stamp.WindowRun | crates/tributary/src/stamp.rs:112-152 | Within the window the stamper is the windowless definition: tick plus the number of earlier lines sharing it |
| Stamp.CountedIff | crates/tributary/src/stamp.rs:133-140 | After any stream, the next line moves out_of_window if and only if it opens a tick older than the oldest one remembered; a late return exactly if it is older than that |
| Stamp.CounterIs | crates/tributary/src/stamp.rs:133-140 | At the end of any stream out_of_window is the number of such lines |
| Stamp.SilentIff | crates/tributary/src/stamp.rs:133-140 | On every stream: it ends at zero over a repeated stamp if and only if some tick came back late and no line opened a tick older than the oldest one remembered |
| Stamp.CounterExact | crates/tributary/src/stamp.rs:133-140 | So when ticks open in increasing order, out_of_window is zero exactly when every stamp is unique |
| Stamp.SilentCollision | crates/tributary/src/stamp.rs:133-140 | Without that order the counter can stay zero over a real collision: a concrete 67-line stream |
| Stamp.CounterSeesOnlyTheFront | crates/tributary/src/stamp.rs:133-140 | A stream of distinct ticks each no older than the 64th before it never moves the counter, in order or not |
| Stamp.ReplayIff | crates/tributary/src/stamp.rs:154-175 | For every stream and every split, checkpoint, restore and replay gives the stamps of the unsplit run if and only if no line of the suffix falls in a tick still remembered from before the last one opened, the only one saved |
| Stamp.ReplayWithinWindow | crates/tributary/src/stamp.rs:154-175 | Within the window: if and only if the suffix revisits no earlier tick but the last one opened |
| Stamp.OrderedReplay | crates/tributary/src/stamp.rs:154-175 | So for ordered sources replay is identical at every split point |
| Stamp.AgreesStep | crates/tributary/src/stamp.rs:112-152 | One ordered step from any state fit for the history issues the reference stamp and stays fit |
| Stamp.SlotsDisjoint | crates/tributary/src/stamp.rs:118 | Slots of different ticks never meet |
| Stamp.Stamper.Stamp | crates/tributary/src/stamp.rs:112-152 | The stamp or the error, and the whole new state: the step the run theorems are about |
| Stamp.Stamper.Evict | crates/tributary/src/stamp.rs:143-147 | Oldest insertions dropped until 64 are left, from order and map alike |
| Stamp.Stamper.Restore | crates/tributary/src/stamp.rs:162-168 | The saved tick and count entered; nothing at nanosecond resolution |
| Stamp.Stamper.Checkpoint | crates/tributary/src/stamp.rs:172-175 | The last opened tick and its next number |
| Ship.SendLines | crates/tributary/src/ship.rs:341-375 | Against any server whose backpressure is finite: success puts every line in exactly one acknowledged chunk or once among the poison, each on an answer to that very chunk; failure names the failing request. Against a server rejecting exactly the chunks with a poison line: the poison lines in order, 2 * bisects + 1 requests, at most p * ceil(log2 n) bisects |
| Ship.TilesPartition | crates/tributary/src/ship.rs:341-375 | Verdicts that tile the batch lose no line, repeat none and put none on both sides |
| Ship.PoisonIsRefused | crates/tributary/src/ship.rs:341-357 | What is called poison the server turned down when asked for that line alone |
| Ship.HalvingsBound | crates/tributary/src/ship.rs:358-363 | p poison lines among n cost at most p * ceil(log2 n) halvings |
| Ship.HalvedTop | crates/tributary/src/ship.rs:358-363 | Halving keeps the accounts and shrinks the work left on the stack |
| Lines.SplitConcat | crates/tributary/src/main.rs:2082 | A spooled body splits into the lines that were joined |
| TailRuns.AlwaysPrefix | crates/tributary/src/tail.rs:204-284 | For any interleaving of appends, renames, re-creations, poll steps, checkpoints and restarts within the rotation discipline, emitted lines are a prefix of the complete lines of every file in rotation order |
| TailRuns.CompleteOncePollIsQuiet | crates/tributary/src/tail.rs:204-229 | And equal to them once a poll finds nothing |
| TailRuns.RestartEmitsTheSame | crates/tributary/src/tail.rs:146-199 | A tailer restarted from its marks, after growth or one rotation, ends with exactly the lines of one never stopped |
| TailRuns.StepIsGood | crates/tributary/src/tail.rs:204-284 | The position invariant survives every writer, logrotate and tailer step, broken at every point where the file system can move |
| TailRuns.StrandedFileIsLost | crates/tributary/src/tail.rs:158-199 | Restarted between rename and re-creation, from any state: polls read every line there is so far and drop the live file at its end, and every line written to it after that is lost, for any text |
| TailRuns.UnmarkedIsSkipped | crates/tributary/src/tail.rs:179-197 | A file created after the marks were saved and already rotated away at the restart is never opened, whatever happens from then on |
| TailRuns.SkippedForever | crates/tributary/src/tail.rs:241-284 | Nor is any file that neither the tailer nor the saved marks have and that has left the path |
| TailRuns.DroppedIsSkipped | crates/tributary/src/tail.rs:231-239 | A rotated file with no complete line left is dropped, and once the marks are saved neither its unfinished line nor anything a late writer adds to it is ever read |
| TailRuns.OverwrittenFile | crates/tributary/src/tail.rs:245-258 | Copy-and-truncate of the followed file: polling emits the new content from its start if it is shorter than what was read, and otherwise only what lies past the old offset |
| Tail.ResumeKeepsIff | crates/tributary/src/tail.rs:146-199 | With every marked file found and at most one created since, the resumed tailer stands where the marked one stood if and only if the followed file is not away from the path without a successor |
| Tail.ResumeAtMarks | crates/tributary/src/tail.rs:158-199 | Each file that resuming opens stands at its mark, or at its end if it is shorter by now, and one without a mark at its start |
| Tail.ResumeOpens | crates/tributary/src/tail.rs:158-197 | Resuming reopens each marked file at its offset, in order, and after them the new one at zero |
| Tail.DrainKeeps | crates/tributary/src/tail.rs:231-239 | A rotated file is left only when every line of it has been emitted |
| Tail.CheckKeeps | crates/tributary/src/tail.rs:241-284 | A rotation check, even one that loses the race to open the path, leaves no byte behind |
| Tail.LiveKeeps | crates/tributary/src/tail.rs:223-228 | A line of the live file is emitted only after every older file |
| Tail.NextLineKeeps | crates/tributary/src/tail.rs:204-229 | next_line keeps the position and returns nothing only when there is nothing |
| Tail.EmittedIsPrefix | crates/tributary/src/tail.rs:100-121 | What the invariant says of the lines emitted |
| Tail.QuietIsComplete | crates/tributary/src/tail.rs:204-229 | And when nothing is left to read |
| Tail.ReadAdvances | crates/tributary/src/tail.rs:100-121 | A line read is the next complete line, and the offset moves past its newline |
| Tail.LineText | crates/tributary/src/tail.rs:108-121 | Text up to a newline is a line, less one carriage return at its end, and what follows is the rest of the lines |
| Tail.NextTook | crates/tributary/src/tail.rs:100-121 | What next_line returns is what its file holds between the two offsets, less the line ending |
| Tail.ReadNothing | crates/tributary/src/tail.rs:108-114 | No line read: only an unfinished one is left, and in a newline-terminated file nothing |
| Tail.LinesSplit | crates/tributary/src/tail.rs:100-121 | The complete lines of newline-terminated text followed by more are the lines of both |
| Tail.AppendKeeps | crates/tributary/src/tail.rs:100-121 | Growth of the newest file does not disturb the position |
| Tail.CreateKeeps | crates/tributary/src/tail.rs:259-284 | Nor does a new file at the path |
| Tail.Tailer.Resume | crates/tributary/src/tail.rs:146-199 | Draining files and live file from the marks, and as files lost the number of marks that lead nowhere |
| Tail.Tailer.Next | crates/tributary/src/tail.rs:204-229 | One line or none, and the whole new state: the step the run theorems are about. A line returned, with a newline after it or a carriage return and a newline, is the content between the old and the new offset of a file that was open, or just opened |
| Tail.Tailer.Drained | crates/tributary/src/tail.rs:231-239 | drain_pending: a line, or no rotated file left |
| Tail.Tailer.CheckRotation | crates/tributary/src/tail.rs:241-284 | Truncated, renamed away, unchanged or rotated: each the step the run theorems are about; counted as a rotation just when the followed file is shorter than what was read or another is at the path |
| Tail.Tailer.Marks | crates/tributary/src/tail.rs:287-305 | Every open file and offset, oldest first |
| EndToEnd.FilesToStore | crates/tributary/src/main.rs:765-1018 | Tailer and pipeline in one run, through writes, rotation within the discipline, outages, deaths that find a safe checkpoint and restarts from it: once a poll finds nothing and nothing is left to ship, the store holds the text of every complete line of every file that maps, under the stamp a fresh stamper issues it, save those the server turned down; the dead-letter file holds every line that gives none; and neither holds anything else |
| EndToEnd.FilesToStoreCarefully | crates/tributary/src/main.rs:765-1018 | In particular if every save at the end of a drain found its pending rows durable |
| EndToEnd.FilesToRecords | crates/tributary/src/main.rs:765-1018 | And where the lines map to records, each that can be written is there under the stamp issued to its line, reading back as it was exactly when its names are clean, and the lines of the others are dead-lettered |
| EndToEnd.InStep | crates/tributary/src/main.rs:773-820 | At every moment the lines the pipeline has taken are the lines the tailer returned, mapped one by one; the saved marks and the saved position stand for the same lines; and the pipeline took a run of its own machine |
| EndToEnd.AlwaysLinked | crates/tributary/src/main.rs:2133-2186 | The invariant of both machines together, checkpoint and restart included |
| LineParser.RecordRoundTripIff | crates/tributary/src/lp.rs:96-141 | A line-protocol parser recovers an encoded record, string fields normalised, if and only if every name and tag value has no control byte and does not end in a backslash |
| LineParser.NameRoundTripIff | crates/tributary/src/lp.rs:61-75 | The same for one name before its separator |
| LineParser.StringRoundTrip | crates/tributary/src/lp.rs:78-93 | Every string field comes back: newline as backslash n, carriage return gone, other control bytes spaces |
| LineParser.StringAt | crates/tributary/src/lp.rs:78-93 | Byte by byte: backslash and n for a newline, nothing for a carriage return, a space for any other control byte, every other byte as it was |
| LineParser.StringUnchangedIff | crates/tributary/src/lp.rs:78-93 | And comes back as it was exactly when it holds no control byte |
| LineParser.TagsRoundTripIff | crates/tributary/src/lp.rs:114-119 | The whole tag set comes back exactly when all its names are clean, and otherwise not |
| LineParser.FieldsRoundTripIff | crates/tributary/src/lp.rs:121-137 | The same for the fields and what follows them |
| LineParser.NumberRoundTrip | crates/tributary/src/lp.rs:129-138 | A printed integer reads back |
| LineProtocol.EncodesOneLine | crates/tributary/src/lp.rs:96-141 | Whatever a record holds, if it is written its text has one newline, at the end |
| LineProtocol.SegmentRoundTrip | crates/tributary/src/main.rs:2082 | So a spooled segment splits into the batch that went in |
| LineProtocol.EncodeInto | crates/tributary/src/lp.rs:96-141 | Written exactly if the table is not empty, the fields are not empty and every float is finite, and then appended whole; otherwise nothing is, and the error is the empty table, else no fields, else the first non-finite field |
| LineProtocol.DocumentedShape | crates/tributary/src/lp.rs:110-141 | A record with nothing to escape, one tag and a field of each kind, letter by letter |
| LineProtocol.EscKeyAt | crates/tributary/src/lp.rs:61-75 | Names byte by byte: a backslash before a comma, equals sign or space, a space for a control byte, every other byte as it is |
| LineProtocol.EscKeyPlainIff | crates/tributary/src/lp.rs:61-75 | A name is written as it is exactly when it holds no comma, equals sign, space or control byte |
| LineProtocol.AppendKey | crates/tributary/src/lp.rs:61-75 | The escape loop appends the escaped name |
| LineProtocol.AppendStr | crates/tributary/src/lp.rs:78-93 | The quoting loop appends the quoted string |
| LineProtocol.AppendTags | crates/tributary/src/lp.rs:114-119 | The tag loop |
| LineProtocol.AppendFields | crates/tributary/src/lp.rs:121-137 | The field loop, commas between |
| Exec.InjectIff | crates/tributary/src/metrics/exec.rs:48-77 | Injecting tags into an encoded record equals encoding it with them appended if and only if its measurement and tag set leave no escape open and no space bare, and the injected tags hold no control byte |
| Exec.InjectPlain | crates/tributary/src/metrics/exec.rs:42-47 | So it always does for names free of backslash and control bytes |
| Exec.InjectedParses | crates/tributary/src/metrics/exec.rs:48-77 | And the parser then reads the record with those tags |
| Exec.TableEndingInBackslash | crates/tributary/src/metrics/exec.rs:52-63 | For an otherwise plain table name ending in backslashes, without tags of its own: exactly when their number is even |
| Exec.InjectTags | crates/tributary/src/metrics/exec.rs:48-77 | Spliced before the first unescaped space; verbatim without one or without tags |
| Exec.EscapeTag | crates/tributary/src/metrics/exec.rs:31-40 | escape_tag as a loop |
| Wire.RecordsExactlyOnce | crates/tributary/src/main.rs:765-989 | From records to records: after any run whose crashes found a safe checkpoint, once drained, each record with a table, fields and finite floats whose tick is not exhausted is in the store under the stamp issued to its line, or was turned down and dead-lettered; it reads back as it was if and only if its names are clean; nothing else is there; and the lines of all other records, and those that do not map, are dead-lettered |
| Wire.RecordFates | crates/tributary/src/main.rs:1726-1731 | Each mapped line has a row exactly if its record can be written and its tick is not exhausted, the text under the stamp issued; otherwise it is dead-lettered |
| Wire.WiredIsSupported | crates/tributary/src/lp.rs:96-141 | The encoder and the stamper discharge what the delivery theorems assume: one line per row, distinct keys |
| Wire.StampComesBack | crates/tributary/src/lp.rs:138-139 | Whatever the names hold, the stamp is read back from the end of the line |
| Wire.SeriesComesBack | crates/tributary/src/lp.rs:113-119 | For clean names the rest of the key is the measurement with its tags |
| Multiline.Conserved | crates/tributary/src/multiline.rs:66-127 | For any pushes, expiries and drains, the records emitted and the buffer are the input lines in order |
| Multiline.TextsConserved | crates/tributary/src/multiline.rs:121-127 | The texts emitted, split at their newlines, are those lines |
| Multiline.NothingPendingIff | crates/tributary/src/multiline.rs:61-63 | has_pending is false exactly when every line so far is in an emitted record |
| Multiline.Bounded | crates/tributary/src/multiline.rs:87-101 | Fewer than max_lines are ever buffered, and fewer than max_bytes unless it is one start line |
| Multiline.CutOnlyWhenFull | crates/tributary/src/multiline.rs:87-102 | A record cut by a bound has max_lines lines, or a text of max_bytes with its newline; and without its last line it was below both, unless that was a single line |
| Multiline.OfferIs | crates/tributary/src/multiline.rs:66-104 | push in numbers: what a line closes, when what is pending is forced out, and what is left |
| Multiline.NoStartInside | crates/tributary/src/multiline.rs:71-76 | No record contains a start line but its first |
| Multiline.EveryCutJustified | crates/tributary/src/multiline.rs:66-118 | The event that emitted a record is the reason it ends where it does: the push of a start line just after it, the push of its last line at a bound, or a timeout or drain just there; no other cut |
| Multiline.UntruncatedIff | crates/tributary/src/multiline.rs:66-104 | Pushes alone: truncated stays zero exactly when no record cut at starts alone meets a bound, and then that is the cut |
| Multiline.LongStartIsHeld | crates/tributary/src/multiline.rs:88-102 | A start line over the byte bound that closes a record is kept back and joined to its continuation all the same |
| Multiline.Joiner.Offered | crates/tributary/src/multiline.rs:66-104 | push: the pending record closed by a start line; or what is then pending forced out when it has max_lines lines or its joined text and a newline max_bytes; otherwise kept; each time over a bound counted; without a pattern the line itself |
| Multiline.Joiner.Expiring | crates/tributary/src/multiline.rs:108-114 | A pending record past its timeout is emitted whole, otherwise nothing moves |
| Multiline.Joiner.Draining | crates/tributary/src/multiline.rs:117-119 | A pending record is emitted whole whatever its age |
| Multiline.Joiner.Take | crates/tributary/src/multiline.rs:121-127 | The buffered lines joined, the buffer empty |
| Reassembly.Projection | crates/tributary/src/cri.rs:73-127 | Streams do not see each other: in any interleaving, what one emits and keeps is what it would alone |
| Reassembly.Conserved | crates/tributary/src/docker.rs:75-114 | A stream's messages and what is pending are its fragments in order |
| Reassembly.TextConserved | crates/tributary/src/docker.rs:90-112 | Its text survives whole, docker's end newlines restored |
| Reassembly.AlwaysOpen | crates/tributary/src/cri.rs:114-125 | Every pending message is under the cap at all times; each is emitted by its last fragment, which closed or filled it, or by its own stream being let go at that moment, and is all that stream had pending |
| Reassembly.SplitLineComesBack | crates/tributary/src/cri.rs:10-30 | A line split into fragments comes back as one envelope with the first fragment's time, whatever interleaves |
| Reassembly.ParseCriIff | crates/tributary/src/cri.rs:76-104 | The decoder accepts exactly the lines a runtime writes and reads back the fragment |
| Reassembly.Reassembler.Push | crates/tributary/src/docker.rs:90-113 | The common step of both reassemblers: pending text, time and count as the fragments say |
| Reassembly.Reassembler.PushCri | crates/tributary/src/cri.rs:73-127 | A refused line changes nothing; an accepted one is its fragment's step |
| Reassembly.Reassembler.Expire | crates/tributary/src/cri.rs:131-140 | Some stream past its time is let go, or none was |
| Reassembly.Reassembler.Drain | crates/tributary/src/cri.rs:143-147 | Some stream is let go, or none is left |
| Framed.FramedSafetyIff | crates/tributary/src/main.rs:773-1017 | Over whole runs of the pipeline behind any deterministic framer, lines, timeouts and shutdown drains among the steps: in every state each row below the checkpoint is durable and the checkpoint cuts no record, if and only if no save followed a record that a shutdown dropped, and each save at the end of a drain found the framer empty and every batch and in-flight row durable |
| Framed.FramedDrainSaveIff | crates/tributary/src/main.rs:2096-2098 | The same for one save at the end of a drain |
| Framed.FramedSaveIff | crates/tributary/src/main.rs:850-856 | The guarded save, the timer's or the shutdown's, is safe exactly when no shutdown has dropped a record |
| Framed.ShutdownDrainIff | crates/tributary/src/main.rs:991-1015 | The drain of the shutdown leaves everything read covered exactly when the record it lets go maps and encodes or is filtered, or the dead-letter file has its text already |
| Framed.Follows | crates/tributary/src/main.rs:773-848 | While crashes find safe checkpoints the framer is where an uninterrupted one would be; and unless a timeout fell into a pause or a shutdown dropped a record, the framed pipeline takes the run of the plain one reading completed records |
| Framed.FramedExactlyOnce | crates/tributary/src/main.rs:765-1018 | Exactly once behind a framer: after any run of lines, timeouts and drains whose crashes found a safe checkpoint, once drained, each record completed that maps is stored as its text under its own stamp, or was turned down and dead-lettered; nothing else is stored; each line that cannot be framed, and each record without stamp or text, is dead-lettered unless a shutdown dropped that text; and every one is if and only if no shutdown dropped one |
| Framed.FirstRecordShips | crates/tributary/src/main.rs:815-856 | A run of the code: the first record, whole after any number of items, is flushed, stored and checkpointed |
| Framed.SaveInsideRecord | crates/tributary/src/main.rs:2040-2100 | A run of the code, for any framer, any first record and any next line that leaves something in it, whose drain saves inside a record with batch and in-flight empty |
| Framers.JoiningSafetyIff | crates/tributary/src/main.rs:42-84 | The safety theorem with the multiline joiner over its pushes, timeouts and drains; its empty buffer means that every line read is in an emitted record |
| Framers.JoiningBoundary | crates/tributary/src/multiline.rs:61-63 | For the joiner a position cuts no record exactly if every line before it is in an emitted record, timeouts and drains included |
| Framers.JoiningCompletes | crates/tributary/src/main.rs:48-60 | What an item completes is the record the joiner emits there, as its joined text, and otherwise nothing |
| Framers.TimeoutShips | crates/tributary/src/main.rs:823-856 | A multiline record with no successor waits in the joiner, is let go by its timeout, and is then flushed, stored and checkpointed |
| Framers.BusySourceShipsNothing | crates/tributary/src/main.rs:815-850 | A joiner with a start pattern whose records follow one another with no timeout, none meeting a bound: in every state nothing has been sent or stored, neither flush nor the timer's save is possible past the first line, and every row read is in the batch, however large |
| Framers.SaveInsideMultiline | crates/tributary/src/main.rs:2040-2100 | The joiner's own run whose drain saves inside the record its last line begins |
| Framers.ShutdownDropsRecord | crates/tributary/src/main.rs:991-1017 | A run of the code: the shutdown drains a record that does not map, saves past it, and neither store nor dead-letter file has it |
| Framers.ReassemblingSafetyIff | crates/tributary/src/main.rs:42-84 | The safety theorem with either container reassembler over its lines, timeouts and drains; its empty state means that every fragment read, of every stream, is in an emitted message |
| Framers.ReassemblingBoundary | crates/tributary/src/cri.rs:66-68 | For a reassembler a position cuts no message exactly if every fragment before it is in an emitted message, whatever streams were let go |
| Framers.ReassemblingCompletes | crates/tributary/src/main.rs:776-788 | A line that does not decode is refused as it is; any other item completes the message the reassembler emits there, written out, and otherwise nothing |
| Framers.HalfMessageIsLost | crates/tributary/src/main.rs:2096-2098 | After a save with fragments pending and a death, the message's last line is sent as a message without them |
| Framers.TimeoutHarmlessIff | crates/tributary/src/multiline.rs:108-114 | A timeout that emits a pending multiline record gives the records of a run without it, as a replay is, if and only if the next line starts a record |
| Framers.TimeoutSplitsMessage | crates/tributary/src/cri.rs:131-140 | A timeout between two fragments always splits the message a replay sends whole |
| Watermark.QuantileRank | crates/tributary/src/watermark.rs:90-98 | With 256 to 4096 samples the selected one is the order statistic of its index: at most four exceed it |
| Watermark.WindowExact | crates/tributary/src/watermark.rs:74-81 | The window is the lateness of the last 4096 lines, against the highest timestamp before each |
| Watermark.LatenessWithinBounds | crates/tributary/src/watermark.rs:47-62 | The lateness stays between floor and ceiling over every run |
| Watermark.LatenessExact | crates/tributary/src/watermark.rs:90-98 | After every advance of every run the estimate is that of the lateness of the last 4096 lines |
| Watermark.OneEstimate | crates/tributary/src/watermark.rs:90-98 | There is only one such value |
| Watermark.PublishedExact | crates/tributary/src/watermark.rs:107-115 | What is published is the highest, over the advances so far, of the acknowledged timestamp less the estimate of that moment, and nothing before the first |
| Watermark.NeverRegresses | crates/tributary/src/watermark.rs:107-115 | A published value never decreases |
| Watermark.NeverOverclaims | crates/tributary/src/watermark.rs:107-115 | Nor exceeds the highest acknowledged timestamp less the floor |
| Watermark.ViolationsExact | crates/tributary/src/watermark.rs:83-87 | violations is the number of lines below the value published when they were read |
| Watermark.RestoreIsInert | crates/tributary/src/watermark.rs:60-62 | A restored estimate changes nothing ever published; its only trace is the reading before the first advance |
| Watermark.Watermark.Observed | crates/tributary/src/watermark.rs:73-88 | Sample, highest timestamp and violation count: the observe step the run theorems are about |
| Watermark.Watermark.Advanced | crates/tributary/src/watermark.rs:90-115 | The new estimate is the ceiling below 256 samples, and otherwise the sample at the quantile's place kept between floor and ceiling; what is published is raised to the acknowledged timestamp less it, or kept |
| Glob.Wildcard | crates/tributary/src/glob.rs:78-101 | Terminates for all inputs; a match is always a match of the recursive definition, and the converse holds when name or pattern has no star byte |
| Glob.MatchesIff | crates/tributary/src/glob.rs:75-101 | The meaning without recursion: a name matches exactly if it can be cut into one piece a pattern byte, any run for a star, any one byte for a question mark, that byte itself for every other |
| Glob.RightForNameIff | crates/tributary/src/glob.rs:78-101 | The names judged rightly against every pattern are exactly those without a star byte |
| Glob.RightForPatternIff | crates/tributary/src/glob.rs:78-101 | The patterns judged rightly on every name are exactly those without one |
| Glob.Right | crates/tributary/src/glob.rs:78-101 | Iterative backtracking equals recursive matching when either side is free of stars |
| Glob.Sound | crates/tributary/src/glob.rs:78-101 | Whatever it accepts matches |
| Calendar.CivilIsDate | crates/tributary/src/logfile.rs:245-256 | Every day number gives a date of the proleptic Gregorian calendar |
| Calendar.CivilFollows | crates/tributary/src/logfile.rs:245-256 | Consecutive day numbers give consecutive dates |
| Calendar.Epoch | crates/tributary/src/logfile.rs:245-256 | Day zero is the first of January 1970 |
| Calendar.CivilMonotone | crates/tributary/src/logfile.rs:245-256 | Strictly monotone |
| Calendar.DaysOfCivil | crates/tributary/src/logfile.rs:245-256 | The days-from-civil formula inverts it |
| Calendar.CivilOfDays | crates/tributary/src/logfile.rs:245-256 | And every date is reached |
| Calendar.StampTellsTime | crates/tributary/src/logfile.rs:229-243 | From the epoch to the end of 9999 the string is fifteen characters, digits but for a dash in the ninth place, and its date and its time of day, read back, are those of the seconds it was made from |
| Calendar.StampsSort | crates/tributary/src/logfile.rs:229-243 | From the epoch to the end of 9999 the strings sort as the seconds |
| Calendar.StampsSortIff | crates/tributary/src/logfile.rs:229-243 | Strings below a bound sort as seconds exactly for bounds up to the year 10000 |

## Left out

- HTTP, TLS, gzip, authentication, credential reload, signals and task scheduling: a server is a function from request number and chunk to an answer, and tasks interleave as events.
- Wall-clock time: timers and timeouts are choices of the caller; timestamps taken at read time are outside the replay theorems.
- Regexes, JSON, TOML, RFC 3339 and protobuf parsing, mapping, filters, sampling and redaction: one deterministic function from a line to what becomes of it.
- Printing of floats: text of digits, sign and point, or not finite.
- I/O errors other than a full disk: they end the process, which is a crash.
- Integer width: counters, offsets and timestamps are unbounded, except `saturating_sub` in the watermark; a lateness beyond the range of an i64 is not modelled.
- `Framed.FramedExactlyOnce`: timeouts and drains stand at fixed places among the lines, and a replay meets them there. One that times out elsewhere may cut differently (`TimeoutHarmlessIff`, `TimeoutSplitsMessage`).
- Framing inside `Agent`, which is single-line; behind a framer the in-loop flush waits for it and the memory bound does not hold (`BusySourceShipsNothing`).
- Overlap of tasks inside `Agent`: a task's requests happen when it is collected. `Delivery` has rows arriving at any time after they were sent, one by one, and its theorems cover every interleaving.
- Configurations with `batch_lines` or `max_inflight` zero: `flush` would not return.
- The watermark's own rows, telemetry counters, configuration reload, the source-set supervisor.
- `EndToEnd.FilesToStore`: rotation keeps to the discipline of `TailRuns.Enabled`; outside it `StrandedFileIsLost` and `UnmarkedIsSkipped` say what is lost.
- Copy-and-truncate under the run theorems: a file that shrinks is outside the rotation discipline, and only `OverwrittenFile` covers it.
- Reuse of an inode number by a later file, and a file system where the identity is a creation time.
- `Agent.Agent.CrashAndRestart`: asks that segment numbers still have twelve digits, because past 10^12 adoption is no longer first in first out (`WideNameSorts`).
- `Queue.Queue.Pop`: the segment popped is the front, as `drain_queue` does; its removal, unless the process dies, is taken to succeed.
- `Stamp.Stamper.Restore`: the meaning of the restored state is stated for a fresh stamper, the only one it is called on.
- `Reassembly.Reassembler.Push`: the docker line is decoded before the call; a line that is not such an object changes nothing, as in `PushCri`.
- journald and Windows event log sources, OTLP, metrics collectors other than tag injection, server endpoints.
- Syncing of the dead-letter file: an appended entry is taken to be durable.
