# VelaOps in Dafny

A model of the parts of VelaOps that keep state and have to be right over whole runs,
with proofs about them.  VelaOps is an operations agent on an ESP32 board: it watches a
server, raises alarms, suggests repairs and, after a long press on a key, carries them
out; an earlier version talked to a proxy that executes approved changes.

Check everything with `dafny verify dfyconfig.toml`.

## What is modelled

* **The first-fit arena** (`Pool*.dfy`).  The class `Arena` works on one byte array with
  the block headers inside; `PoolBlocks` says what a call does to the chain of blocks and
  `PoolRuns` what every run keeps, when a request must succeed and what is left when all
  has been given back.  `Arena` proves that the byte-level code does exactly what the
  chain functions say and leaves every other live payload alone.
* **At-most-once execution of changes** (`Results`, `Idempotency`, `Dispatch`).  The
  classes follow the Python code; beside them a machine of any number of request threads
  over one durable table takes the three atomic steps (lookup, begin, final record) in any
  interleaving, with exceptions, crashes and retransmissions.
* **Replay protection** (`Replay`, `ReplayThreads`).  The nonce store with purge, 40 s
  tolerance and capacity, behind the freshness window, over every run of claims; and the
  server's threads, which read the clock and claim in two steps, in any interleaving.
* **Checksums** (`Crc`).  CRC-32 and CRC-16 as bit loops.  Burst detection is proved once,
  for every register whose bit step obeys a few laws, and the laws for both widths.
* **The A/B configuration store** (`ConfSlots`, `ConfText`, `ConfStore`, `Splitting`).
  Slot format, choice of the newest slot, save and clear with a block write that may fail
  or be torn, and the key=value text on top.
* **Incidents and their delivery** (`Incident`).  The debouncing state machine with its
  saturating counters against a definition on the observation history alone, and the
  one-place pending slot in front of a sink that may refuse.
* **Ports** (`Csv`, `Ports`).  The comma lists, the port table, the learned baseline and
  the drift against it.
* **The alarm loop** (`Actions`, `Alarm`, `AlarmRuns`, `AlarmHistory`, `AlarmLaws`,
  `OutputTail`).  The class `AlarmLoop` follows the
  `run` command step by step; what is collected, what an action returns and what the AI
  replies are arguments.  `AlarmRuns` lets rounds, ticks and the key thread follow each
  other in any way and proves what holds of the log of edges, presses, prompts and
  executions; `AlarmHistory` tells the alert from what the rounds saw, and `AlarmLaws` what a
  round selects and a press does.  `OutputTail` is the buffer that keeps the end of a command's output.
* **The serial tunnel** (`Base64`, `Tunnel`, `Relay`, `RelayRuns`, `RelayHeals`).  Both base64
  directions, chunking, checksums, NACK lists, the relay's pending entries and what it
  forwards.
* **The canonical request** (`Canonical`, `Patterns`, `Decimal`).  The C builder with its two
  passes, the Python builder with its regular expressions, and the headers.

`Common` holds what several of them share.

## Where the code and its purpose differ

Each of these is a lemma, with the exact condition where there is one.

* A save in a store whose newest slot has number 1 goes over that slot, so losing power
  there may lose the text: `SafeIffNotFirst`.  The comment in the code promises that the
  newest slot is never written.
* A clear that erases the newer slot and then fails or is cut short brings the older text
  back: `ClearFindsOlder`.
* At sequence number 2^32-1 a save reports success and is not what is loaded:
  `WrapHidesSave`.
* A confirm box raised in a round that saw the server offline can be confirmed into an
  action it does not show: `BoxFaithfulIff`, `OfflineBoxRunsAnother`.
* A repair entry of 48 bytes or more is cut, possibly to a name the list does not hold, and
  executed so: `PickedIsListed`, `UnitsListedIff`, `CutEntryRuns`.
* Only the first use of a blocked pattern is looked at, so a removal of the root directory
  behind an earlier removal passes: `CleanIff`, `MaskedIsAccepted`.
* A removal of the root directory is recognised only before the end, a blank or a star.  The
  command goes to `sh -c`, for which `;`, `&`, `|`, `<`, `>`, a parenthesis or a closing quote
  ends the word as well, and further slashes change nothing: `CleanIff`, `AcceptedIsClean`,
  `OverlookedIsAccepted`.
* Foreign bytes are deleted before a chunk's checksum is checked, so a letter damaged into
  one can be lost unnoticed: `DamageShownIff`, `ForeignByteShownIff`, `LostLetter`.
* Nothing checks the count in a header line: `CountForwards`, `CountIff`.
* The relay guesses the length of a request for which there is no entry, so it forwards a
  part of one whose header was lost, and again of one already forwarded when the board, its
  acknowledgement lost, sends all chunks without a header: `GuessForwardsPrefix`,
  `LateChunk`, `ResendForwardsPart`.
* The checksum of a chunk does not cover its number: `IntactIsAccepted`.
* A purged nonce is accepted again if claims are not made in the order of their times.  That
  takes no more than a clock that steps back (`StepBackBreaks`, `ClockIff`, `ClockStepBack`),
  and no more than two threads if the clock goes forward: the clock is read before the store
  is locked (`auth.py:88`, `memory.py:67`), so a claim can be overtaken by a later one
  (`OneSecondBreaks`, `LagIff`, `ThreadsIff`).
* Leading zeros in a timestamp header are accepted and not signed: `TimestampText`.
* A port of the snapshot that does not read as a positive number is never learned and
  counts as new: `OwnBaseline`.

## Conventions

Code that changes state is a class or a method over an array, proved equal to a function
of the old state; the theorems are about these functions.  Arguments named `w`, `out`,
`obs`, `reply`, `ending` and the like stand for what flash, network, server, AI and
handlers do; nothing is assumed about them unless a `requires` says so.  C integers are
natural numbers with the wrap written out where a sum can reach it.

## Model

| member | source | states |
|---|---|---|
| Pool.Arena.constructor | app/velaops/velaops_pool.c:157-178 | a fresh arena is one free block of its length less 8 |
| Pool.Arena.Alloc | app/velaops/velaops_pool.c:39-89 | the bytes afterwards spell the first-fit chain, headers included; no live block, header or payload, changes; NULL changes no byte |
| Pool.Arena.Free | app/velaops/velaops_pool.c:91-155 | the block is released and the chain coalesced in one pass; every other live block is untouched; NULL, foreign and no longer live pointers change nothing |
| Pool.Arena.CoalesceAll | app/velaops/velaops_pool.c:116-154 | the in-place walk joins exactly the neighbouring free blocks and ends, on the number of blocks at or behind the cursor |
| Pool.Arena.Realloc | app/velaops/velaops_pool.c:192-234 | the chain and the answer of the chain function, which ReallocAnswers describes; the result holds the old payload as its prefix; other live blocks are untouched; NULL leaves every byte as it was |
| Pool.Arena.Calloc | app/velaops/velaops_pool.c:236-255 | an overflowing product gives NULL; otherwise the bytes asked for are zero and no live block changes |
| Pool.Arena.ClientWrite | app/velaops/velaops_pool.c:81-82 | a client writing inside its payload breaks no header and no other block |
| PoolRuns.RoundedUp | app/velaops/velaops_pool.c:41-46 | a request rounds up to the next multiple of 8; only one within 7 of 2^32 wraps to nothing |
| PoolRuns.AllocKeeps | app/velaops/velaops_pool.c:39-89 | NULL exactly when nothing was asked for or every free block is smaller; otherwise one new live block of the rounded size or 8 more, the others staying |
| PoolRuns.FreeKeeps | app/velaops/velaops_pool.c:91-155 | exactly the blocks behind other pointers stay live, and the arena stays tiled and coalesced |
| PoolRuns.ReallocKeeps | app/velaops/velaops_pool.c:192-234 | NULL or the same pointer keeps the chain; otherwise one new block of the size asked for and at most 8 more than rounded replaces the old one, and every other live block stays |
| PoolRuns.AllocAnswers | app/velaops/velaops_pool.c:39-89 | a request is answered with the lowest free block that is large enough, and with NULL exactly when nothing was asked for or there is none |
| PoolRuns.ReallocAnswers | app/velaops/velaops_pool.c:192-234 | a live block of at least the size is answered with its own pointer; a smaller one, and NULL, exactly as a request of that size; any other pointer with NULL |
| PoolRuns.CallocAnswers | app/velaops/velaops_pool.c:236-255 | NULL for a product of 2^32 or more; any other product is answered as a request of that size, and then exactly one new live block appears |
| PoolRuns.RunKeeps | app/velaops/velaops_pool.c:39-255 | after any run of alloc, calloc, realloc and free the arena is tiled exactly, with no two adjacent free blocks |
| PoolRuns.EnoughRoom | app/velaops/velaops_pool.c:53-88 | with k live blocks a request of rounded size need succeeds whenever (k + 1) * need is less than the bytes live blocks leave |
| PoolRuns.EnoughToMove | app/velaops/velaops_pool.c:192-255 | under the same bound enlarging any live block, and a cleared block of that size, succeeds |
| PoolRuns.Recovery | app/velaops/velaops_pool.c:116-178 | giving back every live pointer in any order after any run restores the one initial block |
| PoolBlocks.Disjoint | app/velaops/velaops_pool.c:53-88 | blocks of a tiled arena do not overlap |
| PoolBlocks.CoalesceKeeps | app/velaops/velaops_pool.c:116-154 | one pass over any tiled chain leaves no two free neighbours and every live block in place |
| Idempotency.ValidateIsWindow | archive/2026-09-20/proxy/src/velaops_proxy/approval.py:16-29 | an approval passes exactly inside its window, from 5 s before approval to expiry and at most 120 s long; it is malformed when no time lies inside and expired when only others do |
| Idempotency.SqliteExecutionStore.Lookup | archive/2026-09-20/proxy/src/velaops_proxy/idempotency.py:125-143 | what is stored decides the answer, and looking changes nothing |
| Idempotency.SqliteExecutionStore.Begin | archive/2026-09-20/proxy/src/velaops_proxy/idempotency.py:79-123 | a new row, the cached result, or the refusal the key or the approval calls for |
| Idempotency.SqliteExecutionStore.Finish | archive/2026-09-20/proxy/src/velaops_proxy/idempotency.py:170-189 | only a running row is ended, and only once |
| Idempotency.BeginKeeps | archive/2026-09-20/proxy/src/velaops_proxy/idempotency.py:79-123 | the unique approval index stays unique, rows are only added, and a new one exactly when the key is new and the approval free |
| Idempotency.AnswersMean | archive/2026-09-20/proxy/src/velaops_proxy/idempotency.py:192-207 | new, conflict, reuse, uncertain and cached result each exactly for the table contents that call for it, and lookup answers alike |
| Idempotency.FinishMeans | archive/2026-09-20/proxy/src/velaops_proxy/idempotency.py:170-189 | exactly a running row is ended, with the same data as its result or with its error code; everything else stays |
| Idempotency.FinishKeeps | archive/2026-09-20/proxy/src/velaops_proxy/idempotency.py:170-189 | terminal rows never change; no row disappears |
| Results.NormalizeSound | archive/2026-09-20/proxy/src/velaops_proxy/idempotency.py:238-243 | what is stored is JSON and the same data, tuples read as lists |
| Results.NormalizeIsExact | archive/2026-09-20/proxy/src/velaops_proxy/idempotency.py:238-243 | the stored form is the only JSON value with the same data |
| Dispatch.ActionDispatcher.Execute | archive/2026-09-20/proxy/src/velaops_proxy/dispatch.py:60-112 | one call, uninterrupted: the handler runs exactly when nothing speaks against it, every refusal and every replay comes exactly for the table and approval that call for it, and the table gains exactly the row of what ran |
| Dispatch.AloneAnswers | archive/2026-09-20/proxy/src/velaops_proxy/dispatch.py:60-112 | conflict, uncertain, approval missing, malformed, expired or reused, each exactly when the table before the call and the approval say so; otherwise the handler runs and its ending is recorded and answered |
| Dispatch.WhileHandling | archive/2026-09-20/proxy/src/velaops_proxy/idempotency.py:192-207 | in every run a request sent again while its handler runs is answered as uncertain, or as a conflict for another body, and changes nothing |
| Dispatch.ArrivalIsServed | archive/2026-09-20/proxy/src/velaops_proxy/dispatch.py:60-112 | in the machine of threads, too, a request that arrives can be answered as the uninterrupted call answers it |
| Dispatch.Retransmission | archive/2026-09-20/proxy/src/velaops_proxy/dispatch.py:72-112 | sending a finished change again, at any later time, returns the same data and runs nothing |
| Dispatch.NextKeeps | archive/2026-09-20/proxy/src/velaops_proxy/dispatch.py:60-112 | every step of every thread, arrival, death and crash keeps the invariant of table, threads and log |
| Dispatch.RunKeeps | archive/2026-09-20/proxy/src/velaops_proxy/dispatch.py:60-112 | the invariant holds over every interleaving; the table and the log only grow |
| Dispatch.StartsAtMostOnce | archive/2026-09-20/proxy/src/velaops_proxy/idempotency.py:79-123 | over all interleavings, crashes and retransmissions two handler starts differ both in (device, request) and in (device, approval) |
| Dispatch.StartsInWindow | archive/2026-09-20/proxy/src/velaops_proxy/approval.py:16-29 | every claim's time is at or after approval less 5 s and before expiry, which is within 120 s of approval |
| Dispatch.AnswersReplayTheRun | archive/2026-09-20/proxy/src/velaops_proxy/dispatch.py:72-112 | an answer without a run is the stored form of the result of that request's only run, for the same body hash |
| Dispatch.StuckForever | archive/2026-09-20/proxy/src/velaops_proxy/idempotency.py:145-207 | a failed row, or a running one whose thread is gone, never yields a result or another run and never changes |
| Dispatch.FailureSticks | archive/2026-09-20/proxy/src/velaops_proxy/idempotency.py:192-207 | a failed row is stuck from the moment it is recorded |
| Dispatch.CrashSticks | archive/2026-09-20/proxy/src/velaops_proxy/idempotency.py:192-207 | a crash leaves every running row stuck |
| Dispatch.RecordingNeverFails | archive/2026-09-20/proxy/src/velaops_proxy/idempotency.py:170-189 | the thread that ran the handler always finds its row still running |
| Replay.InMemoryReplayStore.Claim | archive/2026-09-20/proxy/src/velaops_proxy/adapters/memory.py:58-87 | purge, tolerated repeat, capacity and insertion as one function of the entries |
| Replay.RequestAuthenticator.Check | archive/2026-09-20/proxy/src/velaops_proxy/auth.py:76-90 | nothing reaches the store but a signed request whose timestamp is within the window of the clock as read |
| Replay.RequestAuthenticator.Authenticate | archive/2026-09-20/proxy/src/velaops_proxy/auth.py:76-107 | a call during which no other thread claims: refused without touching the store, or claimed until one second past the last fresh moment; ReplayThreads.LagIff has the interleavings |
| Replay.AcceptedIff | archive/2026-09-20/proxy/src/velaops_proxy/auth.py:88-107 | with claims made in the order of their times, a delivery is accepted exactly when it is signed, fresh, and either new with room or within 40 s of its first acceptance, told from the history of acceptances alone |
| Replay.VerdictIs | archive/2026-09-20/proxy/src/velaops_proxy/auth.py:88-107 | with claims made in the order of their times, which of unsigned, stale, replayed, full and accepted a delivery gets, told from the history of acceptances alone |
| Replay.DeliverKeeps | archive/2026-09-20/proxy/src/velaops_proxy/adapters/memory.py:58-87 | a nonce is forgotten only once its timestamp is stale; the capacity is never exceeded |
| Replay.AcceptedOnlyBriefly | archive/2026-09-20/proxy/src/velaops_proxy/adapters/memory.py:58-87 | over every run of claims made in the order of their times, two acceptances of one request lie within 40 s |
| Replay.ClockStepBack | archive/2026-09-20/proxy/src/velaops_proxy/adapters/memory.py:58-87 | with the default window and a claim timed one second before the one ahead of it, a request is accepted again ten minutes after its first acceptance |
| Replay.StepBackBreaks | archive/2026-09-20/proxy/src/velaops_proxy/adapters/memory.py:58-87 | whenever a claim's time lies before that of the claim ahead of it, by any amount, a purged request can come in again, two windows after its first acceptance |
| Replay.ClockIff | archive/2026-09-20/proxy/src/velaops_proxy/adapters/memory.py:58-87 | over all runs whose claims are made in the order of their times but for steps from t1 to t2, every acceptance lies within 40 s of the first exactly when t1 <= t2, or the store holds nothing, or the window is no wider than the tolerance, or it has one place and the step is at most 40 s |
| Replay.AnyClockIff | archive/2026-09-20/proxy/src/velaops_proxy/auth.py:88-107 | the times of the claims do not matter at all exactly when the store holds nothing or the window is no wider than the tolerance |
| ReplayThreads.ServedAsDelivered | archive/2026-09-20/proxy/src/velaops_proxy/auth.py:88-99 | however threads that read the clock and claim later interleave, the store and the acceptances are those of the deliveries one by one in the order of their claims |
| ReplayThreads.ClaimsInTime | archive/2026-09-20/proxy/src/velaops_proxy/auth.py:88-99 | under a clock that never goes back, claims that come within lag seconds of their reading are overtaken by at most lag |
| ReplayThreads.OneSecondBreaks | archive/2026-09-20/proxy/src/velaops_proxy/http_server.py:19-23 | with a clock that never goes back, two places and a window wider than the tolerance, a thread that claims one second after its reading has a request accepted again after two windows |
| ReplayThreads.LagIff | archive/2026-09-20/proxy/src/velaops_proxy/auth.py:88-107 | over all interleavings of any number of threads under a clock that never goes back and claims lagging by at most lag: every acceptance lies within 40 s of the first exactly when lag is 0, or the store holds nothing, or the window is no wider than the tolerance, or it has one place and lag is at most 40 |
| ReplayThreads.ThreadsIff | archive/2026-09-20/proxy/src/velaops_proxy/auth.py:88-107 | over all interleavings with no bound on the lag, exactly when the store holds nothing or the window is no wider than the tolerance |
| Crc.ConfCrc32 | app/velaops/velaops_conf.c:52-76 | the bit loop computes the register fold |
| Crc.TunnelCrc16 | archive/2026-09-20/app/hello_app/src/velaops_serial_tunnel.c:46-62 | the bit loop in 16-bit arithmetic computes the register fold |
| Crc.RelayCrc16 | archive/2026-09-20/docs/tools/serial_llm_relay.py:57-63 | the Python loop on unbounded integers computes the same function as the board's |
| Crc.Register.Window | app/velaops/velaops_conf.c:52-76 | for every lawful register, data that differs only within its width gives different checksums |
| Crc.Burst32 | app/velaops/velaops_conf.c:52-76 | payloads of equal length that differ only within 4 consecutive bytes never share a CRC-32 |
| Crc.CheckValue32 | app/velaops/velaops_conf.c:52-76 | the checksum of the digits 1 to 9 is the known check value of CRC-32 |
| Crc.Burst16 | archive/2026-09-20/app/hello_app/src/velaops_serial_tunnel.c:46-62 | chunks of equal length that differ only within 2 consecutive bytes never share a CRC-16 |
| ConfSlots.ParseImage | app/velaops/velaops_conf.c:169-204 | the slot that save builds parses back to its sequence number and text |
| ConfSlots.ParseOnlyImages | app/velaops/velaops_conf.c:169-204 | nothing parses but what a save could have built, the two reserved bytes and the tail aside |
| ConfSlots.NewestIs | app/velaops/velaops_conf.c:226-287 | the slot loaded has the larger number, and is the first on a tie |
| ConfSlots.BurstRejected | app/velaops/velaops_conf.c:190-193 | a slot whose payload is damaged within 4 consecutive bytes does not parse |
| ConfSlots.SaveKeepsParity | app/velaops/velaops_conf.c:315-335 | however a save ends, torn or not, every slot still carries a number of its parity (or 1 in slot 0) |
| ConfSlots.ClearKeepsParity | app/velaops/velaops_conf.c:504-535 | so after a clear, torn or not; a clear that returns 0 leaves nothing to load |
| ConfSlots.SaveIsLoaded | app/velaops/velaops_conf.c:294-363 | a save that returns 0 is what the next load finds, while the number can be counted up |
| ConfSlots.WrapHidesSave | app/velaops/velaops_conf.c:335-335 | at the last sequence number a save reports success and the load still returns the old text |
| ConfSlots.ClearFindsOlder | app/velaops/velaops_conf.c:504-535 | however a clear ends: the next load finds an older text exactly when there were two slots, the newer is gone and the older was left; cut short between the blocks, exactly when slot 0 held the newer of two |
| ConfSlots.SafeIffNotFirst | app/velaops/velaops_conf.c:294-363 | losing power at any point of a save of any text it accepts leaves the old or the new text exactly when the newest slot does not carry number 1 |
| ConfSlots.BlankRuns | app/velaops/velaops_conf.c:294-363 | so after every run of saves and clears, torn or not, on a store that was once blank |
| ConfStore.ConfStore.LoadInternal | app/velaops/velaops_conf.c:226-287 | of the slots that parse the one with the larger number, the first on a tie |
| ConfStore.ConfStore.Save | app/velaops/velaops_conf.c:294-363 | the target block holds what the write left and the other is unchanged; 0 is returned exactly when the write was reported done and the block parses to the next number and the text; a text that is empty or too long changes nothing |
| ConfStore.ConfStore.Clear | app/velaops/velaops_conf.c:504-535 | both slots are erased, or left as the failed writes leave them |
| ConfStore.ConfStore.Get | app/velaops/velaops_conf.c:365-412 | the value of the first line with the key, cut to the caller's buffer, or nothing |
| ConfStore.ConfStore.Rewrite | app/velaops/velaops_conf.c:414-475 | a text that does not fit changes nothing; any other is saved, or clears the store if it is empty: 0 exactly when that ended well, the blocks hold what the writes left, and on success the rewritten text is loaded |
| ConfStore.ConfStore.Set | app/velaops/velaops_conf.c:477-485 | a set of a text that fits succeeds exactly when the write ended well, and always if it left the whole block; then the key reads as the value and every other key as before |
| ConfStore.ConfStore.Del | app/velaops/velaops_conf.c:487-495 | a delete succeeds exactly when its save or, for the last line, both erasures ended well; then the key is absent and every other key reads as before |
| ConfText.RewriteIsMapUpdate | app/velaops/velaops_conf.c:414-475 | from any starting text, rewriting is an update of a finite map |
| ConfText.OtherLinesStay | app/velaops/velaops_conf.c:429-472 | every line of another key or of none stays as often as it was, and the key is left with one line or none |
| ConfText.KeyIsUnique | app/velaops/velaops_conf.c:380-410 | a line answers to one key only |
| Incident.IncidentTracker.Apply | archive/2026-09-20/app/hello_app/src/velaops_incident.c:59-150 | negative and out-of-order times change nothing; every other observation takes one step of the state machine |
| Incident.EdgesAreCalledFor | archive/2026-09-20/app/hello_app/src/velaops_incident.c:59-150 | OPENED exactly when none is open and the last F observations since the last edge are unhealthy, RECOVERED exactly when one is open and the last R since the opening are healthy; generation is min(openings, 2^32-1), despite saturating counters |
| Incident.AgentMonitor.Dispatch | archive/2026-09-20/app/hello_app/src/velaops_agent_monitor.c:73-91 | a refused prompt stays pending, a delivered one leaves |
| Incident.AgentMonitor.Take | archive/2026-09-20/app/hello_app/src/velaops_agent_monitor.c:111-154 | an older prompt is retried before new evidence is looked at |
| Incident.NothingLost | archive/2026-09-20/app/hello_app/src/velaops_agent_monitor.c:73-154 | for every pattern of sink failures the delivered prompts and the at most one pending are the edges of the consumed evidence, in order, each with its generation |
| Incident.SampleStatus | archive/2026-09-20/app/hello_app/src/velaops_agent_monitor.c:93-154 | in every run the status of a sample: refused prompt, evidence that does not parse or is too old, and otherwise what becomes of the edge its history calls for |
| Splitting.PartsOfTerminated | app/velaops/velaops_conf.c:380-410 | splitting undoes joining |
| Csv.CsvSafe | app/velaops/velaops_ssh.c:207-224 | true exactly when every character is a letter, a digit or one of six marks |
| Csv.SafePattern | app/velaops/velaops_ssh.c:207-224 | the accepted lists as a pattern: any number of letters, digits and the six marks |
| Csv.CsvHas | app/velaops/velaops_health.c:17-40 | true exactly for a non-empty item among the entries |
| Csv.CsvFindIndex | app/velaops/velaops_main.c:1057-1077 | the position of the first entry equal to the item, or -1 |
| Ports.ParsePortList | app/velaops/velaops_ssh.c:342-378 | short new entries are taken in order while there is room; the table stays free of duplicates |
| Ports.TableTakes | app/velaops/velaops_ssh.c:342-378 | the table takes exactly the short entries, each once, in the order of their first occurrence, until it is full |
| Ports.BaselineLearn | app/velaops/velaops_main.c:907-939 | the baseline lists every port below 32768 and drops none for lack of room |
| Ports.DriftPorts | app/velaops/velaops_health.c:117-162 | both counts, entry by entry |
| Ports.NewPortsCount | app/velaops/velaops_health.c:117-138 | the first count is that of the ports neither ephemeral nor ignored nor in the baseline |
| Ports.LostPortsCount | app/velaops/velaops_health.c:140-161 | the second is that of the baseline entries a port can match that are neither ignored nor open |
| Ports.EntriesOfJoined | app/velaops/velaops_main.c:907-939 | reading the learned list gives back the ports |
| Ports.OwnBaseline | app/velaops/velaops_main.c:907-939 | against its own baseline a snapshot has lost nothing, and nothing is new exactly when every port that does not read as a positive number is ignored |
| Actions.NameCharsOk | app/velaops/velaops_main.c:729-751 | the name is not empty, shorter than 48 and of allowed characters |
| Actions.GoodNameIs | app/velaops/velaops_main.c:729-751 | the accepted names as a pattern: 1 to 47 letters, digits and three or four marks |
| Actions.CommandOk | app/velaops/velaops_main.c:753-778 | the command is printable, of allowed length and matches no blocked pattern |
| Actions.WellFormedIs | app/velaops/velaops_main.c:753-771 | the form of a command as a pattern: 1 to 199 printable characters |
| Actions.CommandBlocked | app/velaops/velaops_ssh.c:961-1014 | blocked exactly when the first occurrence of some pattern, case aside, counts; for the two removals only before an end, a blank or a star |
| Actions.AcceptedHolds | app/velaops/velaops_ssh.c:961-1014 | what an accepted command may hold of any pattern, at any place: only the two removals, and one the check recognises only behind a first use it does not |
| Actions.AcceptedIsClean | app/velaops/velaops_ssh.c:961-1062 | an accepted command holds a removal of the root directory, as the shell ends the word, exactly when a recognised one is masked by an earlier use or one is overlooked |
| Actions.CleanIff | app/velaops/velaops_ssh.c:961-1014 | for every command: well formed, without the other patterns and without any removal of the root directory exactly when it is accepted and no removal is masked or overlooked |
| Actions.OnceIsClean | app/velaops/velaops_ssh.c:986-1010 | an accepted command that uses each removal at most once is clean exactly when none is overlooked |
| Actions.MaskedIsAccepted | app/velaops/velaops_ssh.c:988-1002 | a command with a masked removal that passes the check |
| Actions.OverlookedIsAccepted | app/velaops/velaops_ssh.c:996-1002 | a single removal that the shell ends with a semicolon passes the check |
| Actions.PickRepairTarget | app/velaops/velaops_main.c:1081-1116 | the first repair entry whose position among the services was reported down, cut to 47 bytes |
| Actions.PickedIsListed | app/velaops/velaops_main.c:1100-1110 | for every repair list: the unit picked is always a listed one, whatever list the collector takes and whatever is down, exactly when the cut of every entry that can be watched is listed |
| OutputTail.Collect | app/velaops/velaops_ssh.c:863-902 | after any chunks the buffer holds exactly the end of the output and a terminator |
| OutputTail.LastAppend | app/velaops/velaops_ssh.c:867-891 | the end of a text can be kept chunk by chunk |
| Alarm.AlarmLoop.CollectRefused | app/velaops/velaops_ssh.c:655-660 | collecting is refused exactly when the service or the port list holds another character |
| Alarm.AlarmLoop.RoundStart | app/velaops/velaops_main.c:2216-2478 | evaluation, edge, recovery, AI selection, latch and offer as one function of the state and what was collected, which is nothing for lists the collector refuses |
| Alarm.AlarmLoop.Tick | app/velaops/velaops_main.c:2521-2776 | presses are taken and answered as one function of the state |
| Alarm.AlarmLoop.Execute | app/velaops/velaops_main.c:2645-2769 | the state after an action, by its exit code and the snapshot behind it |
| Alarm.AlarmLoop.TakeAiChoice | app/velaops/velaops_main.c:2347-2393 | exactly the allowed AI choice replaces the local one |
| Alarm.AlarmLoop.RoundEnd | app/velaops/velaops_main.c:2815-2825 | the AI is asked again only while no box is up |
| Alarm.AlarmLoop.KeyShort | app/velaops/velaops_main.c:232-279 | a short press cancels the box, turns a page or mutes |
| Alarm.AlarmLoop.KeyLong | app/velaops/velaops_main.c:284-299 | a long press records page and screen and is counted |
| AlarmRuns.NextKeeps | app/velaops/velaops_main.c:2216-2825 | every step keeps the invariant of offer, log and box |
| AlarmHistory.AlertIff | app/velaops/velaops_main.c:2244-2325 | in every run a round that finds the alert off raises it exactly when it is bad and offline or critical, or bad right after another bad one, where bad is offline for the third time or more, critical, or scoring below the threshold; the alert is on after the round exactly if it was on or raised and the round does not show recovery |
| AlarmHistory.AlertFalls | app/velaops/velaops_main.c:2535-2769 | apart from rounds the alert only goes down, exactly when an executed action was shown to help; that also forgets the bad round before |
| AlarmHistory.ActionEnds | app/velaops/velaops_main.c:2683-2769 | an executed action ends Done exactly when exit code and snapshot show for its kind that it helped, and takes the alert down unless it is a command; otherwise it ends Failed |
| AlarmRuns.EdgeIsFresh | app/velaops/velaops_main.c:2280-2295 | a round logs an edge exactly when it finds the alert off and its streaks call for one, which AlertIff tells from the history |
| AlarmLaws.RoundSelects | app/velaops/velaops_main.c:2252-2416 | a fresh alert offers the first listed unit that is down, or else the suggested process if it is listed; a waiting offer is replaced only by what the AI wants, in an online round |
| AlarmLaws.ChoiceIsWanted | app/velaops/velaops_main.c:2347-2393 | the AI's choice is accepted exactly for a known kind of action whose target or command passes its check and list |
| AlarmLaws.TickAnswers | app/velaops/velaops_main.c:2535-2769 | a press runs the offer exactly if the box, the action page or the alert has shown it, puts the box up if not, and mutes an alert without an offer |
| AlarmLaws.HeldCountsOnce | app/velaops/velaops_main.c:2555-2600 | however long BOOT is held it counts once, after 2 s |
| AlarmLaws.BootTap | app/velaops/velaops_main.c:2566-2596 | letting BOOT go within a second turns the page, or hides and mutes an alert that shows, and otherwise leaves the screen alone |
| AlarmLaws.KeysLeave | app/velaops/velaops_main.c:232-279 | short presses touch only the screen and the box; on the box KEY1 and KEY2 do nothing and the others take it down |
| AlarmLaws.KeysGoDown | app/velaops/velaops_main.c:181-304 | KEY3 and KEY4 mute an alert when they go down; a long press is counted once with the page and screen it was made on |
| AlarmLaws.KeysAreInverse | app/velaops/velaops_main.c:232-279 | KEY1 and KEY2 turn the six pages in opposite directions |
| AlarmLaws.RoundEndAsks | app/velaops/velaops_main.c:2815-2825 | the AI is asked exactly after an online round without a box, when the alert has just come up or six rounds have passed; without a reply nothing is wanted any more |
| AlarmLaws.AskedRarely | app/velaops/velaops_main.c:2815-2825 | in every run without a new alert the AI is left alone for five rounds |
| AlarmRuns.OnlyRoundsRaise | app/velaops/velaops_main.c:2521-2776 | no other step logs an edge or turns the alert on |
| AlarmRuns.EdgeBetweenExecutions | app/velaops/velaops_main.c:2535-2769 | in every run two executed actions have a fresh alert edge between them |
| AlarmRuns.EveryActionWasPressed | app/velaops/velaops_main.c:2535-2769 | in every run executions and prompts together never outnumber the long presses |
| AlarmRuns.EveryActionIsAllowed | app/velaops/velaops_main.c:2269-2416 | in every run each executed action is on its list, whether chosen locally, by the AI or restored from the latch |
| AlarmRuns.UnitsListedIff | app/velaops/velaops_main.c:1081-1116 | for every configuration: each unit executed in any run is a listed one exactly when the cut of every entry the loop can pick is listed |
| AlarmRuns.NothingRuns | app/velaops/velaops_ssh.c:655-660 | with lists the collector refuses no run ever offers or executes anything |
| AlarmRuns.CutEntryRuns | app/velaops/velaops_main.c:1100-1110 | for every entry the loop can pick, a run that executes its cut |
| AlarmRuns.BoxIsExecuted | app/velaops/velaops_main.c:2600-2681 | a box raised in a round that saw the server online, and never taken down, is confirmed into exactly the action it shows, over any later rounds |
| AlarmRuns.BoxCanBeConfirmed | app/velaops/velaops_main.c:2600-2681 | such runs exist for every configuration whose lists the collector takes and that has a process to kill |
| AlarmRuns.BoxKeepsAction | app/velaops/velaops_main.c:2395-2416 | while the box is up a settled selection stays what it is |
| AlarmRuns.BoxComesWithPrompt | app/velaops/velaops_main.c:2600-2638 | the box never goes up but for the selected action |
| AlarmRuns.BoxFaithfulIff | app/velaops/velaops_main.c:2347-2416 | the box stays true to its action exactly when the AI's pending choice is none or that action, or no round can be online |
| AlarmRuns.OfflineBoxRunsAnother | app/velaops/velaops_main.c:2347-2416 | for every configuration whose lists the collector takes, with two processes on the kill list, a run in which a box raised offline is confirmed into another action |
| Base64.B64Encode | archive/2026-09-20/app/hello_app/src/velaops_serial_tunnel.c:65-96 | the buffer is filled exactly with the base64 text and its terminator |
| Base64.LetterIsAt | archive/2026-09-20/app/hello_app/src/velaops_serial_tunnel.c:42-44 | the letters are those of the alphabet in its order |
| Base64.Vectors | archive/2026-09-20/app/hello_app/src/velaops_serial_tunnel.c:65-96 | two test vectors of section 10 of RFC 4648 |
| Base64.LoadResponse | archive/2026-09-20/app/hello_app/src/velaops_serial_tunnel.c:194-283 | an empty or oversized file is refused; any other is decoded, skipping blanks and padding between groups |
| Base64.Oddities | archive/2026-09-20/app/hello_app/src/velaops_serial_tunnel.c:194-283 | two inputs no encoder makes and what the board reads in them |
| Base64.PushB64 | archive/2026-09-20/docs/tools/serial_llm_relay.py:273-288 | the remote file holds the text in lines of 48 |
| Base64.BoardRoundTrip | archive/2026-09-20/app/hello_app/src/velaops_serial_tunnel.c:194-283 | the board's decoder inverts its encoder |
| Base64.DecodeWrapped | archive/2026-09-20/app/hello_app/src/velaops_serial_tunnel.c:244-279 | the board's decoder reads the wrapped lines back to the original bytes |
| Base64.Respond | archive/2026-09-20/docs/tools/serial_llm_relay.py:273-288 | a response arrives unchanged exactly when it is not empty and its wrapped text fits 256 KiB |
| Base64.WrappedLength | archive/2026-09-20/docs/tools/serial_llm_relay.py:273-288 | the wrapped text has one more character for every 48 begun |
| Base64.RelayRoundTrip | archive/2026-09-20/docs/tools/serial_llm_relay.py:427-427 | the relay's decoder inverts the board's encoder |
| Base64.LettersDecode | archive/2026-09-20/docs/tools/serial_llm_relay.py:424-430 | text of letters alone decodes exactly when its length is a multiple of four |
| Base64.PaddingCounts | archive/2026-09-20/docs/tools/serial_llm_relay.py:424-430 | a padding sign in front counts for nothing, one behind two letters is not enough, and what follows enough of them is not looked at |
| Tunnel.ChunksPartition | archive/2026-09-20/app/hello_app/src/velaops_serial_tunnel.c:118-145 | the 120-character chunks put together are the text |
| Tunnel.ChunkCount | archive/2026-09-20/app/hello_app/src/velaops_serial_tunnel.c:482-487 | there are as many as the board announces, at least one |
| Tunnel.Send | archive/2026-09-20/app/hello_app/src/velaops_serial_tunnel.c:99-148 | the header if asked for, then exactly the chunks wanted, in order, each with its checksum |
| Tunnel.ReadNack | archive/2026-09-20/app/hello_app/src/velaops_serial_tunnel.c:151-192 | exactly the chunks whose numbers the file lists are marked |
| Tunnel.InRangeCount | archive/2026-09-20/app/hello_app/src/velaops_serial_tunnel.c:151-192 | the count is that of the listed numbers that name a chunk |
| Tunnel.NackRoundTrip | archive/2026-09-20/docs/tools/serial_llm_relay.py:446-446 | the board reads back the numbers the relay lists |
| Tunnel.CutNack | archive/2026-09-20/app/hello_app/src/velaops_serial_tunnel.c:162-187 | of a list that is cut off the board reads the first numbers and perhaps the front of the next |
| Tunnel.IntactIsAccepted | archive/2026-09-20/docs/tools/serial_llm_relay.py:192-207 | a chunk with intact text is accepted under whatever number its line carries |
| Tunnel.NoiseIsDropped | archive/2026-09-20/docs/tools/serial_llm_relay.py:202-204 | foreign characters that got into a chunk at any number of places are dropped before the check |
| Tunnel.DamageIsRejected | archive/2026-09-20/docs/tools/serial_llm_relay.py:202-207 | a chunk changed into other letters within 2 consecutive bytes is rejected |
| Tunnel.DamageShownIff | archive/2026-09-20/docs/tools/serial_llm_relay.py:202-207 | for any damage to one stretch: the chunk is accepted exactly when the letters left of it lead the checksum register where the sent ones did, and then with those letters |
| Tunnel.ForeignByteShownIff | archive/2026-09-20/docs/tools/serial_llm_relay.py:202-207 | a letter turned into a foreign byte is lost unnoticed exactly when it left the register as it was, and is rejected otherwise |
| Tunnel.LostLetter | archive/2026-09-20/docs/tools/serial_llm_relay.py:202-207 | for every text behind Jlq, a chunk that is accepted with a letter missing |
| Tunnel.HarmlessIff | archive/2026-09-20/docs/tools/serial_llm_relay.py:202-207 | a damaged chunk is read as it was sent or not at all exactly when the damage is harmless |
| Tunnel.FaultIsCaught | archive/2026-09-20/docs/tools/serial_llm_relay.py:202-207 | foreign characters anywhere under any checksum field, and under an intact field besides up to two neighbouring letters changed or a letter lost that had moved the register: the check fails or the text is as sent |
| Relay.RelayLoop.Handle | archive/2026-09-20/docs/tools/serial_llm_relay.py:392-407 | a header drops every other entry and starts its own; a chunk is stored or starts an entry without a length |
| Relay.RelayLoop.Sweep | archive/2026-09-20/docs/tools/serial_llm_relay.py:409-449 | complete entries are acknowledged and forwarded, late ones answered with their missing chunks or, after six rounds, given up |
| RelayRuns.MissingIs | archive/2026-09-20/docs/tools/serial_llm_relay.py:415-415 | the missing list names exactly the chunks that are not there |
| RelayRuns.ForwardedIsSent | archive/2026-09-20/docs/tools/serial_llm_relay.py:385-449 | while an entry made by its header lives, whatever accepted events are lost, repeated or reordered, nothing but the board's request is forwarded for it |
| RelayRuns.HeaderStarts | archive/2026-09-20/docs/tools/serial_llm_relay.py:393-401 | so from any state of the relay on, once the header has arrived |
| RelayRuns.CheckedLinesForward | archive/2026-09-20/docs/tools/serial_llm_relay.py:176-207 | the same over the lines received, for any loss, repetition, reordering and damage, as long as each line of this request fails the check or shows a chunk under its number |
| RelayRuns.LinesForward | archive/2026-09-20/docs/tools/serial_llm_relay.py:176-207 | so for every run whose lines suffer noise anywhere, any damage to checksum fields, letters changed within two neighbours and lost letters that had moved the register |
| RelayRuns.DeliveredIsOk | archive/2026-09-20/docs/tools/serial_llm_relay.py:176-207 | a line with such a fault fails the check or shows the chunk that was sent under its number |
| RelayRuns.CountForwards | archive/2026-09-20/docs/tools/serial_llm_relay.py:411-420 | an entry whose header told another count forwards 90 bytes for each chunk counted, or nothing if too many |
| RelayRuns.CountIff | archive/2026-09-20/docs/tools/serial_llm_relay.py:411-420 | with all chunks there the request is forwarded exactly when the count is right |
| RelayRuns.CompleteIsForwarded | archive/2026-09-20/docs/tools/serial_llm_relay.py:411-439 | the sweep that finds all chunks forwards the request |
| RelayHeals.ChunkLaw | archive/2026-09-20/docs/tools/serial_llm_relay.py:402-407 | a chunk goes into the entry of its request, over one of the same number, or makes an entry without a length; the other entries stay |
| RelayHeals.SweepAsks | archive/2026-09-20/docs/tools/serial_llm_relay.py:411-449 | an entry with a chunk missing is left alone before its deadline; then exactly the absent numbers are sent in one NACK, in increasing order, six times at most and 3 s apart; then it is given up, whatever else is pending |
| RelayHeals.SweepEnds | archive/2026-09-20/docs/tools/serial_llm_relay.py:411-439 | an entry with nothing missing ends with an ACK and what its chunks in order decode to is forwarded |
| RelayHeals.SentAnswers | archive/2026-09-20/app/hello_app/src/velaops_serial_tunnel.c:151-192 | what the board sends in answer to a NACK holds every chunk that is marked |
| RelayHeals.RoundRun | archive/2026-09-20/docs/tools/serial_llm_relay.py:409-449 | one round over a run of the relay: the sweep sends the NACK, and when the answers arrive in time, in any order and among other lines, the request is forwarded, or the board could not read the whole list and at least 255 fewer chunks are missing |
| RelayHeals.ThreeRoundsForward | archive/2026-09-20/docs/tools/serial_llm_relay.py:409-449 | every request the board takes, whatever had arrived of it, is forwarded within three such rounds |
| RelayRuns.GuessForwardsPrefix | archive/2026-09-20/docs/tools/serial_llm_relay.py:404-413 | an entry without a header that holds the first g chunks forwards 90 bytes of each, which is the request exactly when these were all |
| RelayRuns.LateChunk | archive/2026-09-20/docs/tools/serial_llm_relay.py:402-439 | a chunk of a longer request for which there is no entry forwards something on the spot exactly when it is the first, and then 90 bytes |
| RelayRuns.ResendForwardsPart | archive/2026-09-20/docs/tools/serial_llm_relay.py:385-439 | in every run: once a request of several chunks has been forwarded, its first chunk sent again forwards 90 bytes of it as a request of their own, whatever other requests do in between |
| Canonical.TextInjective | archive/2026-09-20/proxy/src/velaops_proxy/protocol.py:139-169 | over all accepted inputs the text determines device, request id, timestamp, nonce, method, target and body hash |
| Canonical.TextLines | archive/2026-09-20/proxy/src/velaops_proxy/protocol.py:139-169 | the text is nine lines: algorithm, version, device, request, timestamp, nonce, method, target and body hash |
| Canonical.RequestInjective | archive/2026-09-20/proxy/src/velaops_proxy/protocol.py:139-169 | two requests the Python builder gives one text for are the same |
| Canonical.BuildersAgree | archive/2026-09-20/app/hello_app/src/velaops_protocol.c:201-265 | the C and the Python builder accept the same requests and agree on the text and its length |
| Canonical.PythonAccepts | archive/2026-09-20/proxy/src/velaops_proxy/protocol.py:139-169 | the Python checks accept exactly the valid metadata, methods and targets |
| Canonical.PatternsAgree | archive/2026-09-20/proxy/src/velaops_proxy/protocol.py:25-28 | the regular expressions of the Python code match exactly what the loops of the C code accept |
| Canonical.BuildCanonical | archive/2026-09-20/app/hello_app/src/velaops_protocol.c:201-265 | the status by the first failing check, the length in either pass, the text and its terminator when there is room, and otherwise no byte written |
| Canonical.BuiltIs | archive/2026-09-20/app/hello_app/src/velaops_protocol.c:162-225 | each status exactly for the first check that fails, and the length of the text whenever all pass |
| Canonical.CalculateSignature | archive/2026-09-20/app/hello_app/src/velaops_protocol.c:267-318 | the second pass always finds room: the signature is of the whole text |
| Canonical.SignedIs | archive/2026-09-20/app/hello_app/src/velaops_protocol.c:227-265 | each status exactly for the first complaint, and without one the hexadecimal code of the whole text |
| Canonical.HexEncode | archive/2026-09-20/app/hello_app/src/velaops_protocol.c:147-159 | two digits for each byte and a terminator |
| Canonical.HexAt | archive/2026-09-20/app/hello_app/src/velaops_protocol.c:147-159 | digits are lower-case, the high one first |
| Canonical.ValidDeviceId | archive/2026-09-20/app/hello_app/src/velaops_protocol.c:51-79 | the device id pattern |
| Canonical.ValidTarget | archive/2026-09-20/app/hello_app/src/velaops_protocol.c:119-145 | an absolute target of at most 2048 ASCII characters without line breaks or fragment |
| Canonical.HeadersRoundTrip | archive/2026-09-20/proxy/src/velaops_proxy/protocol.py:87-125 | from_headers inverts to_headers |
| Canonical.AcceptedCanBeSent | archive/2026-09-20/proxy/src/velaops_proxy/protocol.py:100-125 | whatever headers are accepted, their metadata can be sent on unchanged |
| Canonical.CaseIsIgnored | archive/2026-09-20/proxy/src/velaops_proxy/protocol.py:103-103 | the case of header names does not matter |
| Canonical.LastHeaderCounts | archive/2026-09-20/proxy/src/velaops_proxy/protocol.py:103-103 | of headers with the same name the last counts |
| Canonical.TimestampText | archive/2026-09-20/proxy/src/velaops_proxy/protocol.py:111-119 | the timestamp text survives exactly when it has no leading zero |
| Decimal.ShownReads | archive/2026-09-20/proxy/src/velaops_proxy/protocol.py:96-119 | a number written in decimal is read back up to where its digits end |
| Decimal.AtoiSigned | app/velaops/velaops_health.c:90-104 | blanks in front of a number do not count and a sign does |

## Left out

* Pool: the failing `malloc` of `velaops_pool_init`, a second init and calls before the
  first; arena lengths are multiples of 8 from 16 to below 2^32 - 8; the diagnostic dump of
  a corrupt header, which is proved not to be reached; the `abstract` arguments.
- Pool.Arena.Free: a pointer into the middle of a payload whose bytes look like a used header is
  excluded, as the source asks of its callers; any other pointer is covered.
- Pool.Arena.Realloc: the same pointers are excluded.
* Configuration: the MTD calls and their failures other than a failed or torn block write;
  erase sizes above 4096 or below 1016; the flags block; `velaops_conf_present`.  A slot
  torn by power loss is taken to parse as nothing or as one of its two complete contents.
* Proxy: SQLite's own atomicity, file permissions and schema; SHA-256 and HMAC, which are
  a digest argument and a function argument; JSON text; action schemas; read-only actions;
  the two secrets a device may have during rotation.  A handler that fails with any
  exception is recorded as failed, with INTERNAL_ERROR unless it is an action error; only
  what is not an `Exception`, or a failure to record, is a thread that dies with its row
  running.
* Replay: the lock around the store, which makes a claim one step; the device lookup and the
  signature, whose outcome is an argument; a restart, which forgets all nonces.
* Incident: the text of prompts; the worker thread.  An edge whose diagnosis does not encode
  is dropped by the code and by the model, and `NothingLost` counts only edges that encode.
* Alarm loop: drawing, the LED and the buzzer, `elapsed` and `g_stop`; the health score, which
  is an observation; the SSH commands themselves and what they refuse by
  themselves, which are exit codes; JSON parsing of the AI reply, whose fields are taken as they stand in their buffers.  The key thread acts between steps: within a step the
  code reads `g_confirm` once before writing it, so a press inside a step is one before it.
  The page and screen a long press records are arbitrary in `AlarmRuns`.  Streaks and press
  counts are unbounded numbers.  What was collected is told by position: with empty entries
  in the service list the collector and `csv_find_index` count differently
  (velaops_ssh.c:275-280, velaops_main.c:1057-1077), and the service at a position is then not
  the one whose state is there.
- Actions.CleanIff: other ways to write a removal than the two patterns, quoting inside the word and expansions of the
  shell are not interpreted; a quote behind the slash counts as the end of a command handed on to another shell.
- AlarmRuns.EveryActionIsAllowed: a unit the loop picked is only known to be the cut of a listed entry, which is
  what the code does; `UnitsListedIff` says when that is a listed name.
* Tunnel: reading the HTTP request, the ACK and READY files and their timing, the choice of
  the forwarding target and the forwarding itself, echo flow control, parsing a line into its
  numbers.  `Head` leaves out the length field, which the relay ignores.
- RelayRuns.LinesForward: the faults are those of `Fault`; `CheckedLinesForward` is for any. Damage to a line's request
  number, chunk number or count under a passing check is excluded, since no check covers them (`IntactIsAccepted`,
  `CountIff`), and so are headers of other requests before the forward, since they drop the entry.
- RelayHeals.RoundRun: for requests of at most 1000 chunks, or lists the board reads whole; the board takes none of more
  than 729.
- Base64.RelayRoundTrip: CPython's decoder is modelled from its documented lenient mode; text
  that is not the encoder's is not claimed about.
* Canonical: NULL arguments and a failing `malloc` of the C functions; methods longer than an
  `int` can count; header names outside ASCII; timestamps of more digits than Python converts;
  comparing signatures.
* `velaops_approval.c`, configuration files, the web setup page, drivers, WiFi and time.
* The other parsers of `velaops_ssh.c`, and the connection behind its read loop.
