# A verified model of iso4

iso4 runs untrusted JavaScript in V8 isolates. A Node client talks to a Rust runtime over
one framed socket per connection; the runtime keeps a pool of warm isolates per prepared
prefix, reads its requests from a binary wire format, checks which host bindings a run may
replace, and turns host-type descriptors in a received value into real objects. This
project models the parts of that where many things happen at once or where two programs
must agree, and proves what they promise.

Everything is Dafny 4.11. `dafny verify dfyconfig.toml` checks the whole project.

## How the model is built

Code that changes state is modelled as classes whose methods are proved equal to functions
on the state (or, where the result has a direct description, against that description).
Protocols are step systems: a state, a list of actions in any order, and a function that
performs the list; an action that is not possible in a state changes nothing. A theorem
about every list of actions is a theorem about every interleaving.

- **Framing and the outbox** (`Bytes`, `Framing`, `FrameProgress`, `Outbox*`). Any number of
  producer threads, the writer thread, a socket that takes any number of bytes per attempt,
  and a reader that gets its bytes in any pieces. The outbox's mutex-guarded state is a
  class; the protocol steps through the same functions. Acceptance order is the order in
  which frames take the socket token or are pushed to the back of the queue. What a producer
  and the writer are told is stated over the queued frames and 16 MiB (`OutboxVerdicts`).
- **The warm registry, its policies and the prefix store** (`Policy*`, `Registry*`,
  `WarmRegistry`, `DecayingMin`, `Engine`). The registry's state is a class; the theorems are
  about functions it is proved equal to. The books are counted against a multiset of
  outstanding attachments. The engine adds the store and its second lock (`Engine`, and what
  becomes of one prefix in `EngineFates`). The eviction score h * t^1.2 is compared through
  h^5 * t^6 over the naturals. `RegistryRank` tells who is evicted, and `RegistryDemand` what a
  prefix's history of arrivals and finishes asks for.
- **Rehydration** (`Graph`, `Rehydrate`, `RehydrateTheorems`). The heap is a map from ids to
  nodes; the walk rewrites it in place with the worklist and the `seen` map of the source.
- **UTF-8 and the tee** (`Utf8`, `TextCodec`, `Tee*`). The encoder and decoder loops over their
  buffers, and the closure behind two branches of one body stream.
- **Request payloads** (`Payload`, `Requests`, `PayloadReader`, `PayloadWriter`, `HeapLines`).
  Every parser with the wire form it reads; the runtime's cursor is proved against the
  parsers, the client's writer against the forms, and limits are followed by name from one
  to the other.
- **Bindings on both sides** (`Names`, `Rebind`, `RebindAgreement`, `ImportLowering`,
  `HandlerMaps`, `Globals`, `GlobalForms`, `EndToEnd`). The client's processing and merging of
  imports and globals, the runtime's checks, and the path between them through names in UTF-8
  and printed payloads. `HandlerMaps` and `GlobalForms` tell the outcome from the option
  objects alone: what is accepted, what is sent, and which function answers.

## Where the code and its documentation differ

The model follows the code. In each case a lemma gives an input, and another says exactly
when the documented statement holds.

- A refused acquire is said to take no registry state. It takes no counter and no instance,
  but creates the prefix's entry and notes the arrival (`RegistryAcquire.RefusalTakes`). An
  entry created this way for a prefix already disposed of stays (`EngineRuns.EntryLeftBehind`,
  with `ReleaseTakesEntry` and `DisposalTakesEntry` for when entries do go).
- A refusal is said to mean that nothing idle exists and nothing is joinable. The acquire's own
  pressure pass may have evicted the idle instance a moment before
  (`RegistryAcquire.RefusedThoughIdle`). Exactly when, by the rank of the idle instances
  before the call: `RefusedExactly`. Busy instances are safe (`BusyMeansServed`).
- The core count is called the per-prefix ceiling. It is checked only when something can be
  joined, so it holds for each prefix and pair of caps (`RegistryRuns.EveryRunCores`), not for
  a prefix (`RegistryAcquire.TwoCapsOneCore`; exactly when it breaks: `CeilingBrokenExactly`).
- Admission is described as usage plus the run's own cap. A further instance of a recurring
  prefix is admitted on its measured average heap (`RegistryAcquire.SpawnedOverTheLine`;
  exactly when: `SpawnedOverTheLineExactly`).
- The client's global check is said to be the runtime's. They agree except that the runtime
  also admits the private names of shim handlers (`Globals.PrivateNameAdmitted`; that these
  are exactly the names on which they differ: `RefusalsAgree`).
- A stub's dispatch entry is said to be the global's own handler. A plain global that carries a
  shim's private name takes the shim's calls (`Globals.PlainTakesTheShim`). Exactly when a
  global keeps its stub, and what the stub reaches otherwise: `DispatchedExactly`, with
  `ShadowedByName` for the condition on the names.

## Model

| member | source | states |
|---|---|---|
| Framing.DecodeEncode | crates/server/src/ipc.rs:208-253 | a frame within the cap followed by anything is read back, and exactly its bytes are consumed |
| Framing.DecodeIsEncoding | crates/server/src/ipc.rs:208-253 | a byte string the reader takes as one whole frame is that frame's encoding and no other |
| Framing.DecodeCut | crates/server/src/ipc.rs:208-253 | a proper non-empty prefix of one frame is malformed, never a frame and never a clean close |
| Framing.DecodePrefix | crates/server/src/ipc.rs:204-268 | of any received prefix of a stream of frames, exactly the frames wholly inside are decoded, in order, and the clean close is reported exactly on a frame boundary |
| Framing.DecodeEncodeAll | crates/server/src/ipc.rs:204-268 | a stream received whole decodes whole, cleanly |
| Framing.ReadUntilEof | crates/server/src/ipc.rs:257-268 | for every chunking and interruption the buffer is filled with the next bytes, short only at the end of the stream |
| Framing.ReadFrameWithLimit | crates/server/src/ipc.rs:208-253 | for every chunking and interruption the verdict is the decoder's on the bytes, and only the frame's bytes are consumed |
| Framing.ReadFrames | crates/server/src/session.rs:387-401 | the read loop, for every chunking and interruption: exactly the frames the bytes hold, and the orderly close exactly when they end on a frame boundary |
| Framing.WriteFrameWithLimit | crates/server/src/ipc.rs:311-333 | writes exactly the encoding, or refuses over the cap with nothing written |
| Framing.FrameLayout | crates/server/src/ipc.rs:311-333 | the bytes of a frame, one by one: a big-endian length that counts the type byte, the type, the payload |
| FrameProgress.Socket.WriteVectored | crates/server/src/ipc.rs:705-715 | one attempt takes a prefix of the slices offered, or nothing |
| FrameProgress.Progress.constructor | crates/server/src/ipc.rs:660-666 | the three parts in order are the unit to write |
| FrameProgress.Progress.Total | crates/server/src/ipc.rs:668-670 | the length of the three parts together |
| FrameProgress.Progress.Unwritten | crates/server/src/ipc.rs:695-704 | the slices past the cursor hold exactly the unwritten bytes |
| FrameProgress.Progress.WriteOnce | crates/server/src/ipc.rs:705-715 | the cursor moves by what the socket took, and the wire grows by exactly those bytes |
| FrameProgress.Progress.WriteSome | crates/server/src/ipc.rs:680-718 | for every sequence of partial writes, interruptions, stalls and errors: the wire grows by exactly the bytes between the old and the new cursor, done means all of them, and the deadline is looked at only after an attempt |
| FrameProgress.Progress.Remainder | crates/server/src/ipc.rs:721-733 | the unwritten bytes as one buffer |
| FrameProgress.PassEnds | crates/server/src/ipc.rs:705-715 | a pass without a deadline stops only where the socket blocks, and fails only at a broken or zero-byte attempt |
| FrameProgress.DeadlineEnds | crates/server/src/ipc.rs:680-718 | a pass under a deadline makes one attempt at least, never another after one that came back past the deadline, and stops only there, where the socket blocks or breaks, or with everything taken |
| OutboxState.Outbox.Kill | crates/server/src/ipc.rs:442-449 | the first reason wins |
| OutboxState.Outbox.SendFrame | crates/server/src/ipc.rs:546-559 | over the ceiling: refused before the state is read; otherwise one turn of the send loop |
| OutboxState.Outbox.Attempt | crates/server/src/ipc.rs:563-630 | dead fails; empty and free takes the token; room or an empty queue enqueues; otherwise waits |
| OutboxState.Outbox.WaitTimedOut | crates/server/src/ipc.rs:636-647 | gives up, killing the connection, only if it is alive and there is still no room |
| OutboxVerdicts.CountIsBacklog | crates/server/src/ipc.rs:394-413 | after any run the byte count the verdicts look at is the summed length of the queued frames |
| OutboxVerdicts.SendExactly | crates/server/src/ipc.rs:563-630 | after any run, a producer that cannot take the token is queued exactly if the queue is empty or backlog and frame together are at most 16 MiB; otherwise it waits |
| OutboxVerdicts.GiveUpExactly | crates/server/src/ipc.rs:636-647 | after any run, a producer whose wait timed out kills the connection exactly if it is alive, something is queued, and backlog and frame together are over 16 MiB |
| OutboxVerdicts.DeadForGood | crates/server/src/ipc.rs:442-449 | the reason a connection died of never changes again, over any further run, and nothing is accepted any more |
| OutboxVerdicts.WriterExits | crates/server/src/ipc.rs:744-768 | the writer ends exactly when the connection is dead, or the queue empty, the token free and no producer left |
| OutboxState.Outbox.FinishInline | crates/server/src/ipc.rs:586-613 | returns the token; a jam puts the rest in front of the queue; the writer is signalled when there is something to drain |
| OutboxState.Outbox.Scan | crates/server/src/ipc.rs:744-768 | the writer exits, pops under the token, or parks |
| OutboxState.Outbox.FinishWriter | crates/server/src/ipc.rs:807-819 | returns the token; a failed write kills the connection |
| OutboxState.Outbox.CloneHandle | crates/server/src/ipc.rs:481-490 | one more producer |
| OutboxState.Outbox.DropHandle | crates/server/src/ipc.rs:492-501 | one producer fewer; the writer is signalled at the last |
| OutboxWriters.WriteInline | crates/server/src/ipc.rs:573-585 | a producer's bounded pass puts a prefix of its frame on the wire and reports sent, jammed with exactly the rest, or failed |
| OutboxWriters.WriteQueued | crates/server/src/ipc.rs:770-805 | the writer puts a prefix of its unit on the wire; how many bytes and with which outcome is the patient loop's over the socket's answers and the stall bound |
| OutboxWriters.WritePatiently | crates/server/src/ipc.rs:786-805 | exactly as many bytes, and exactly the outcome, of passes repeated until the unit is out, the socket breaks, or a pass gains nothing with the stall bound reached |
| OutboxWriters.GivesUpOnlyFor | crates/server/src/ipc.rs:786-805 | stalled only at a pass without any progress with the bound reached; failed only at a broken or zero-byte attempt |
| OutboxWriters.NeverSatOut | crates/server/src/ipc.rs:786-805 | without progress and with the bound reached the writer gives up at once, and on a broken socket; in every other case it makes another pass over what is left, and progress starts the bound anew |
| OutboxWriters.InlineIsTwoSteps | crates/server/src/ipc.rs:573-613 | what the producer does with the lock let go is a write step and a finish step of the protocol |
| OutboxWriters.QueuedIsTwoSteps | crates/server/src/ipc.rs:770-819 | what the writer thread does with the lock let go is a write step and a finish step of the protocol |
| OutboxSafety.EveryRun | crates/server/src/ipc.rs:537-821 | every interleaving of producers, partial writes, jams, pops, kills, clones and drops keeps the whole invariant |
| OutboxTheorems.WireIsPrefix | crates/server/src/ipc.rs:537-650 | dead or alive, the bytes on the socket are a prefix of the accepted frames' encodings: none torn, reordered or interleaved |
| OutboxTheorems.NothingMissing | crates/server/src/ipc.rs:537-650 | until a write fails, wire, rest in hand and queue make up the accepted frames exactly; an alive connection has had no failure |
| OutboxTheorems.PeerDecodes | crates/server/src/ipc.rs:208-268 | what the peer's reader decodes from any reachable wire is the first accepted frames, and the clean close appears exactly on a frame boundary |
| OutboxTheorems.PeerReads | crates/server/src/ipc.rs:208-268 | the peer's read loop on any reachable wire, in any chunking, gets exactly those frames and that end |
| OutboxTheorems.ThreadOrder | crates/server/src/ipc.rs:537-650 | each producer's frames are accepted in call order: those that returned Ok, then at most one in progress or torn |
| OutboxTheorems.NoLostWakeup | crates/server/src/ipc.rs:587-628 | a parked writer with no producer mid-write means an empty queue, a live handle, and a peer that has decoded everything |
| OutboxWaiters.NoProducerSleepsOnRoom | crates/server/src/ipc.rs:630-635 | a producer waiting with no signal pending would still find no room, on a live connection, while somebody who makes room is up |
| OutboxTheorems.QueueBounded | crates/server/src/ipc.rs:394-413 | the byte count is the queue's, never negative and bounded; one remainder at most, in front, while the token is free |
| OutboxTheorems.RunGrows | crates/server/src/ipc.rs:537-821 | no step takes back a byte from the wire or an accepted frame |
| OutboxTheorems.CanDrain | crates/server/src/ipc.rs:741-821 | from every reachable live state the token holder and the writer alone can put every accepted frame on the wire |
| OutboxTheorems.EveryRunCanDrain | crates/server/src/ipc.rs:741-821 | the same after any run |
| Rehydrate.Walk.Visit | crates/core/src/webcodec.rs:636-665 | a container met first is queued, a descriptor met first is built, anything met again answers its one stand-in; an error only for a reachable descriptor that cannot be built |
| Rehydrate.Walk.VisitSlot | crates/core/src/webcodec.rs:573-574 | the same for a slot of the object being walked, which stays part way through |
| Rehydrate.Walk.WalkArray | crates/core/src/webcodec.rs:603-613 | the array's indexed elements are rewritten in place by the stand-ins |
| Rehydrate.Walk.WalkObject | crates/core/src/webcodec.rs:614-629 | an object's own properties are rewritten in place, its keys untouched |
| Rehydrate.Walk.WalkSet | crates/core/src/webcodec.rs:585-602 | a set ends with its items' stand-ins, size and order kept |
| Rehydrate.Walk.RewriteSet | crates/core/src/webcodec.rs:595-600 | clearing and refilling merges and moves nothing |
| Rehydrate.Walk.WalkMap | crates/core/src/webcodec.rs:564-584 | a map ends with its keys' and values' stand-ins, size and order kept |
| Rehydrate.Walk.RewriteMap | crates/core/src/webcodec.rs:577-582 | clearing and refilling merges and moves nothing |
| Rehydrate.Walk.Run | crates/core/src/webcodec.rs:544-632 | on Ok: every container reachable through containers is its original with every slot mapped by one stand-in function, each walked once; uninterrupted, it ends in an error exactly if a reachable descriptor cannot be built; terminates on every finite graph |
| Rehydrate.StandInInjective | crates/core/src/webcodec.rs:649-665 | distinct values never share a stand-in |
| Rehydrate.RootReplaced | crates/core/src/webcodec.rs:556-558 | a descriptor at the root is the whole result |
| Rehydrate.WalkComplete | crates/core/src/webcodec.rs:559-632 | an empty worklist means everything reachable has been dealt with |
| RehydrateTheorems.NothingLeft | crates/core/src/webcodec.rs:537-548 | no stamped descriptor is left that a reader of the result can reach |
| RehydrateTheorems.NoDescriptorNoChange | crates/core/src/webcodec.rs:537-548 | a graph with no reachable descriptor comes back untouched, identities included |
| RehydrateTheorems.SlotsRewrite | crates/core/src/webcodec.rs:577-600 | slot for slot, in order |
| RehydrateTheorems.BrandRewrite | crates/core/src/webcodec.rs:667-680 | rewriting an object never makes or unmakes a descriptor |
| RehydrateTheorems.StaysWellFormed | crates/core/src/webcodec.rs:577-600 | the result is closed, with map keys and set items distinct |
| RehydrateTheorems.Idempotent | crates/core/src/webcodec.rs:544-632 | a second walk finds nothing to do |
| RehydrateTheorems.StampedExactly | crates/core/src/webcodec.rs:667-680 | an object is a descriptor exactly if its brand property is a number in the range of a u32, and that number is its tag |
| RehydrateTheorems.SlotsExact | crates/core/src/webcodec.rs:564-629 | the values walked are an array's elements, a set's items, a map's keys and values, an object's property values, and no others |
| RehydrateTheorems.ReaderFinds | crates/core/src/webcodec.rs:544-680 | told from the graph alone: every reachable object that is no descriptor keeps kind, size, order and keys, and wherever it held a descriptor tagged t there is a fresh instance of type t; every other value stays; the root too |
| RehydrateTheorems.MightContainWebTypes | crates/core/src/webcodec.rs:514-536 | true exactly if the key's bytes occur in the blob |
| Policy.PickVictim | crates/core/src/policy.rs:51-62 | no candidate beats the chosen one, and it beats every later one |
| Policy.PickJoinTarget | crates/core/src/policy.rs:336-343 | the fullest instance under the utilization target, the latest of equals; none exactly if all are saturated |
| Policy.JoinFallback | crates/core/src/policy.rs:347-353 | the least utilized, then emptiest, the earliest of equals |
| PolicyTheorems.ScoreOrder | crates/core/src/policy.rs:82-85 | comparing the real scores h * t^1.2 is comparing the integers h^5 * t^6 |
| PolicyTheorems.PicksGreatestScore | crates/core/src/policy.rs:51-85 | the victim's score h * t^1.2, t its age in seconds and h its heap, is the greatest of the slice |
| PolicyTheorems.EqualHeapsLeastRecentlyUsed | crates/core/src/policy.rs:46-50 | with equal heaps, zero included, the victim is a least recently used one, the latest in the slice of those |
| PolicyTheorems.BeatsIsOrder | crates/core/src/policy.rs:54-61 | better-victim is a strict weak order |
| PolicyTheorems.LatchHistory | crates/core/src/policy.rs:148-160 | the latch holds exactly if some sample reached the budget and all since were readable and above 4/5 of it |
| PolicyTheorems.LatchIgnoresPool | crates/core/src/policy.rs:148-160 | the latch does not depend on the pool or on earlier passes |
| PolicyTheorems.EvictWithinIdle | crates/core/src/policy.rs:160-194 | a verdict never asks for more than is idle, and evicts only under the latch |
| PolicyTheorems.VerdictExactly | crates/core/src/policy.rs:148-194 | a verdict of n: none without the latch, without an idle instance or within 5% of the remembered pass; else the n >= 1 with 10n <= max(idle, 10) and 10(n + 1) > idle |
| PolicyTheorems.AdmitsExactly | crates/core/src/policy.rs:367-377 | a capped isolate fits while usage plus cap is at most the line, an uncapped one while usage is below the budget; a line or budget of 0 refuses nothing |
| PolicyTheorems.TwoInARowRetire | crates/core/src/policy.rs:174-187 | an instance is retired exactly at the second finish over its soft line in a row |
| Registry.WarmestIdle | crates/core/src/warm.rs:773-786 | the reusable instance that finished last, the latest of equals; none exactly if there is none |
| Registry.Joinable | crates/core/src/warm.rs:788-794 | exactly the positions of the live instances with these caps, each once, in order |
| Registry.PositionOf | crates/core/src/warm.rs:952 | the first instance with the id; none exactly if there is none |
| WarmRegistryObject.WarmRegistry.EvictScored | crates/core/src/warm.rs:1100-1126 | drops the best idle instance across all prefixes, or says nothing is idle |
| WarmRegistryObject.WarmRegistry.PressurePass | crates/core/src/warm.rs:599-629 | latch, shed pass and pass memory as the pressure function says; answers whether pooling is allowed |
| WarmRegistryObject.WarmRegistry.Acquire | crates/core/src/warm.rs:753-882 | the new registry and the answer are those of the acquire function |
| WarmRegistryObject.WarmRegistry.ReserveOneoff | crates/core/src/warm.rs:890-899 | pass, admission, then both counters |
| WarmRegistryObject.WarmRegistry.ReleaseOneoff | crates/core/src/warm.rs:910-918 | both counters, then the pass |
| WarmRegistryObject.WarmRegistry.Release | crates/core/src/warm.rs:929-988 | the new registry is that of the release function |
| WarmRegistryObject.WarmRegistry.SettleRun | crates/core/src/warm.rs:945-985 | statistics, the instance's state, and the entry of a dead prefix, before the pass |
| WarmRegistryObject.WarmRegistry.LeaveInstance | crates/core/src/warm.rs:954-980 | one run fewer; strikes, death, drop or idleness |
| WarmRegistryObject.WarmRegistry.DisposePrefix | crates/core/src/warm.rs:994-1015 | idle instances go, busy ones stay dead, the entry goes when it is empty |
| RegistryKeeps.VictimBest | crates/core/src/warm.rs:1100-1115 | the victim is an idle live instance that no other idle instance beats |
| RegistryKeeps.AcquireKeeps | crates/core/src/warm.rs:753-882 | an acquire keeps the books: the new attachment, cold run or nothing is what the counters gained |
| RegistryKeeps.ReserveKeeps | crates/core/src/warm.rs:890-899 | a reservation keeps the books |
| RegistryKeeps.ReleaseOneoffKeeps | crates/core/src/warm.rs:910-918 | a one-off's release keeps the books |
| RegistryKeeps.ReleaseKeeps | crates/core/src/warm.rs:929-988 | releasing an outstanding attachment keeps the books |
| RegistryKeeps.DisposeKeeps | crates/core/src/warm.rs:994-1015 | a disposal keeps the books, whatever is attached |
| RegistryKeeps.BusyDeadFrom | crates/core/src/warm.rs:1001-1009 | a disposal keeps exactly the busy instances, in order, marked dead |
| RegistryKeeps.PressureKeeps | crates/core/src/warm.rs:599-629 | a pressure pass keeps the books and every entry |
| RegistryRuns.EveryRunBalanced | crates/core/src/warm.rs:523-551 | after any sequence of operations: total, idle and run counts are what is pooled, idle, attached and running; no dead instance is idle; ids are unique; each attachment's instance is present |
| RegistryRuns.NothingSaturates | crates/core/src/warm.rs:910-981 | every release that is due finds its instance with a run to give back and nonzero counters |
| RegistryRuns.EveryRunCores | crates/core/src/warm.rs:795-834 | at most `cores` live instances for each prefix and pair of caps |
| RegistryTheorems.ShedCount | crates/core/src/warm.rs:616-621 | a pass asked for n, with that many idle, drops exactly n |
| RegistryTheorems.ShedDrops | crates/core/src/warm.rs:1115-1126 | every entry keeps its statistics and, in order, the instances that were not dropped |
| RegistryTheorems.ShedBest | crates/core/src/warm.rs:1100-1126 | distinct victims, idle and live, and no idle survivor is a better victim than any of them |
| RegistryTheorems.PassExact | crates/core/src/warm.rs:599-629 | one pressure pass drops the best victims across all prefixes and touches nothing else: none without the latch, an idle instance or a usage moved by over 5%, and otherwise a tenth of the idle ones, at least one |
| RegistryTheorems.PassLatch | crates/core/src/warm.rs:600-629 | what a pass does to the latch and to the memory of the last evicting pass |
| RegistryTheorems.StepLatch | crates/core/src/warm.rs:599-629 | each operation folds exactly its own sample into the latch; without any line there is no sample |
| RegistryTheorems.LatchOverRuns | crates/core/src/warm.rs:599-629 | after any run the latch is what the sample history alone says, and a pass is remembered only under it |
| RegistryTheorems.SteadyUsageEvictsOnce | crates/core/src/policy.rs:163-168 | over any stretch of operations reading one same usage at most one pass evicts |
| RegistryTheorems.NoSubtractionSaturates | crates/core/src/warm.rs:784-1126 | after any run, what the next operation subtracts elsewhere is covered too: every eviction of its pass, the reuse of an idle instance, and what a disposal drops |
| RegistryRank.ShedByRank | crates/core/src/warm.rs:1100-1126 | a candidate is dropped by a pass of n exactly if fewer than n precede it: better victims, and of equals the later in the slice |
| RegistryRank.EvictedByRank | crates/core/src/warm.rs:599-629 | a pressure pass evicts exactly the idle instances of rank below its size, both told in numbers from the state before it |
| RegistryRank.BeatsByFields | crates/core/src/policy.rs:51-85 | one idle instance ranks before another by heap^5 * age^6, and of equals by the older last use |
| RegistryRank.SliceExactly | crates/core/src/warm.rs:1100-1115 | the candidates are exactly the idle live instances of all prefixes |
| RegistryTheorems.JoinOrSpawn | crates/core/src/warm.rs:825-863 | a further instance is opened exactly if allowed and wanted by demand or by saturation; otherwise the run joins the fullest unsaturated instance, or all saturated the least utilized |
| RegistryTheorems.ReleaseFate | crates/core/src/warm.rs:952-981 | what a release does to its instance: still busy, removed, or idle with this finish's heap and time, and when it dies |
| RegistryAcquire.AcquireAnswers | crates/core/src/warm.rs:773-882 | refused, cold, thread not spawned, a new instance, or an existing one: each exactly when; a pooled spawn never under the latch, every isolate admitted |
| RegistryAcquire.AttachedFits | crates/core/src/warm.rs:773-882 | the instance of an attached run, by its fields: a new one with the run's caps and this run alone, or a live one of exactly these caps that gains this run and nothing else, an idle one used last if any is idle; no other instance changes |
| RegistryAcquire.FitsExactly | crates/core/src/warm.rs:804-834 | room for another isolate, by the numbers; a sample that cannot be read refuses nothing |
| RegistryAcquire.ReservedExactly | crates/core/src/warm.rs:890-899 | a one-off is let in exactly if its cap fits, and then counts as an isolate |
| RegistryAcquire.ReusesWarmest | crates/core/src/warm.rs:773-786 | an idle instance with the caps is reused, the one that finished last |
| RegistryAcquire.RefusedExactly | crates/core/src/warm.rs:788-811 | refused (or cold) exactly if every live instance of these caps is idle and ranks within the pass's count, and the line refuses (or admits, under the latch): all of it read off the state before the call |
| RegistryAcquire.BusyMeansServed | crates/core/src/warm.rs:744-752 | while a live instance with the same caps runs anything, never refused and never cold |
| RegistryAcquire.RefusedThoughIdle | crates/core/src/warm.rs:308-312 | a run on which an idle live instance is there and the acquire is refused: its own pass evicts it |
| RegistryAcquire.RefusalTakes | crates/core/src/warm.rs:766-771 | a refusal leaves counters and instances alone, but notes the arrival in the prefix's entry, which it creates exactly if there was none |
| RegistryAcquire.CeilingBrokenExactly | crates/core/src/warm.rs:795-834 | an acquire takes a prefix over `cores` exactly if it is full and has no live instance with these caps |
| RegistryAcquire.TwoCapsOneCore | crates/core/src/warm.rs:795-834 | a run with two live instances of one prefix on one core |
| RegistryAcquire.SpawnedOverTheLineExactly | crates/core/src/warm.rs:825-857 | an instance is created over the line of its own cap exactly if it is a further one: none idle, one to join, latch off, below the ceiling, the measured average within the line, wanted by demand or saturation, and the thread starts |
| RegistryAcquire.SpawnedOverTheLine | crates/core/src/warm.rs:825-834 | a run that creates an instance although usage plus the run's own cap is over the line |
| RegistryTheorems.AverageWithin | crates/core/src/warm.rs:366-387 | an average lies between the least and the greatest of its samples |
| RegistryTheorems.OldDataFades | crates/core/src/warm.rs:366-382 | n equal samples leave 0.8^n of the distance to what was held |
| RegistryDemand.DemandIsHistory | crates/core/src/warm.rs:420-460 | after any run a prefix's statistics are the averages of its own history since its entry was made: gaps between arrivals, CPU time and heap of untainted finishes, the first cap standing in for a heap |
| RegistryDemand.DemandDecides | crates/core/src/policy.rs:240-252 | what the averages decide: another instance is wanted exactly without any CPU time, or with mean CPU over mean gap above 0.8 of the live instances; it is admitted at the mean heap |
| RegistryDemand.DemandOpensAnother | crates/core/src/warm.rs:825-863 | after any run, with an instance to join, none idle, latch off, below the ceiling and the mean heap admitted: an acquire opens another exactly if the history wants one |
| RegistryDemand.LiveCounted | crates/core/src/warm.rs:795-834 | the live count is the number of instances not dead |
| DecayingMinimum.DecayingMin.Update | crates/core/src/warm.rs:404-411 | the value stays exactly the least of all samples aged by 0.5% each |
| DecayingMinimum.DecayingMin.Get | crates/core/src/warm.rs:413-415 | answers that value once a sample was seen |
| DecayingMinimum.BetweenSmallestAndLatest | crates/core/src/warm.rs:389-416 | never above the latest sample nor below the smallest seen, and determined by the samples |
| DecayingMinimum.DriftGrows | crates/core/src/warm.rs:389-411 | each later sample makes an older one count for 0.5% more |
| EngineState.Engine.Prepare | crates/core/src/engine.rs:170-205 | a fresh id, stored as ready |
| EngineState.Engine.DisposePrefix | crates/core/src/engine.rs:211-221 | store and registry change together |
| EngineState.Engine.MarkBroken | crates/core/src/engine.rs:451-480 | a ready prefix breaks and its instances die; a gone or broken one stays as it is |
| EngineState.Engine.ReleasePooled | crates/core/src/engine.rs:485-499 | the release reads the store under the same locks |
| EngineState.Engine.Lookup | crates/core/src/engine.rs:338-368 | serve, broken or gone, by the store |
| EngineRuns.EveryRunFrom | crates/core/src/engine.rs:338-508 | every interleaving keeps the books and the store invariant |
| EngineRuns.EveryInterleaving | crates/core/src/engine.rs:338-508 | an idle instance exists only while its prefix is ready; once it is gone or broken and its attachments are released, no instance of it remains |
| EngineRuns.OverForGood | crates/core/src/engine.rs:170-221 | ids are never used again, a broken prefix never recovers, and once nothing can reach the pool no instance of it ever exists again |
| EngineRuns.ReleaseTakesEntry | crates/core/src/warm.rs:981-983 | a release for a dead prefix leaves its entry exactly if instances are left in it |
| EngineRuns.DisposalTakesEntry | crates/core/src/warm.rs:1012-1014 | a disposal leaves the entry exactly if something in it is running |
| EngineRuns.EntryLeftBehind | crates/core/src/warm.rs:766-802 | lookup, disposal, then the refused acquire: an empty entry of a gone prefix stays |
| EngineFates.OneStep | crates/core/src/engine.rs:170-480 | what a run is told of a prefix changes only at its preparation, its disposal, or the failure of a run of it while it is served |
| EngineFates.BrokenForGood | crates/core/src/engine.rs:338-480 | after a run's failure every later lookup of its prefix, in any interleaving, is refused: as broken, or as gone exactly if it was disposed of since |
| EngineFates.PreparedFresh | crates/core/src/engine.rs:170-205 | prefixes are numbered in order; a new one is served, and no lookup, run, cold run or instance ever bore its id; no other prefix changes |
| EngineFates.FinishPools | crates/core/src/engine.rs:485-499 | the last run on a healthy instance leaves it idle, with this finish's time and heap, exactly if its prefix is served; otherwise it is gone |
| Utf8.FirstIsChar | crates/core/src/webtypes.js:98-135 | the decoder takes exactly a character of section 4 of RFC 3629, and the scalar value it encodes |
| Utf8.ScalarRoundTrip | crates/core/src/webtypes.js:38-65 | a scalar value's bytes are one character, read back whatever follows |
| Utf8.ScalarsUnits | crates/core/src/webtypes.js:86-92 | scalar values written as code units are read back, whatever their neighbours |
| Utf8.UnitsScalars | crates/core/src/webtypes.js:45-59 | reading a string as characters replaces its lone surrogates and only them |
| Utf8.DecodeEncoded | crates/core/src/webtypes.js:32-138 | decoding an encoded string gives it back with every lone surrogate replaced by U+FFFD |
| Utf8.EncodeDecoded | crates/core/src/webtypes.js:32-138 | encoding decoded bytes gives them back exactly if they match section 4 of RFC 3629 |
| Utf8.EncodedIsFaithful | crates/core/src/webtypes.js:32-67 | every encoding is well formed, and two strings share one exactly if they agree up to lone surrogates |
| Utf8.ValidIsWellFormed | crates/server/src/ipc.rs:1015-1020 | string validation accepts exactly the RFC's syntax |
| Utf8.Octets | crates/core/src/webtypes.js:38-65 | a scalar value's octets, in the ranges and with the bits of section 3 of RFC 3629 |
| Utf8.CharacterAt | crates/core/src/webtypes.js:41-59 | a surrogate pair is one scalar value, twenty bits above 0x10000; a lone surrogate is U+FFFD |
| Utf8.DecodedStep | crates/core/src/webtypes.js:98-135 | decoding goes on from a character with its scalar value, and from any other byte with U+FFFD, one byte on |
| TextCodec.Put | crates/core/src/webtypes.js:38-65 | stores the bytes at the cursor and nothing elsewhere |
| TextCodec.EncodeCharacter | crates/core/src/webtypes.js:38-65 | one turn of the loop writes exactly the character's bytes, within three bytes for each code unit |
| TextCodec.Encode | crates/core/src/webtypes.js:32-67 | the encoding, never past the 3*len buffer |
| TextCodec.Output.Flush | crates/core/src/webtypes.js:80-85 | nothing lost, nothing waiting |
| TextCodec.Output.Emit | crates/core/src/webtypes.js:86-97 | appends the code point's units; never more than a chunk waits |
| TextCodec.Continue | crates/core/src/webtypes.js:121-128 | folds continuation bytes, failing at the first that is none |
| TextCodec.Decode | crates/core/src/webtypes.js:74-138 | the decoded text: one U+FFFD for an error, and one byte skipped |
| TextCodec.EncodedCut | crates/core/src/webtypes.js:155-167 | cutting a string between characters cuts its encoding |
| TextCodec.EncodeInto | crates/core/src/webtypes.js:151-169 | writes exactly the encoding of the units read, up to a character boundary, and stops only when the next character does not fit |
| TextCodec.EncodeIntoResumes | crates/core/src/webtypes.js:151-169 | what was written and what is left encode the whole source |
| Tee.Closure.PullShared | crates/core/src/webtypes.js:823-844 | a source pull is started only if none is outstanding |
| Tee.Closure.PullTurn | crates/core/src/webtypes.js:847-857 | one turn: a queued chunk, else the failure, else the end, else wait on the shared pull |
| Tee.Closure.SourceSettled | crates/core/src/webtypes.js:825-841 | a chunk lands in every branch not cancelled; an end or a failure is noted; the pull is over |
| Tee.Closure.CancelBranch | crates/core/src/webtypes.js:858-863 | the branch drops its queue; the source is cancelled if both are and no end was seen |
| TeeRuns.EveryRun | crates/core/src/webtypes.js:816-867 | every interleaving of pulls, wakes, cancellations and settlements keeps the invariant |
| TeeTheorems.NothingLost | crates/core/src/webtypes.js:816-867 | a branch never cancelled: delivered then queued is everything the source gave, in order; cancelled: the beginning of it |
| TeeTheorems.EndComesLast | crates/core/src/webtypes.js:847-857 | an end or failure comes after every chunk, is what the source ended with, error included, and no chunk follows |
| TeeTheorems.PullExactly | crates/core/src/webtypes.js:847-857 | what a pull does: the source's next chunk that the branch has not given; else what the source ended with; else, cancelled, the end; and only else it waits, on the one source pull then under way |
| TeeTheorems.OnePullAtATime | crates/core/src/webtypes.js:823-844 | at most one source pull is outstanding, and no pull waits without one |
| TeeTheorems.SourceCancelled | crates/core/src/webtypes.js:858-863 | the source is cancelled only once both branches are, and by exactly the cancellations that find the other cancelled and no end seen |
| TeeTheorems.OverForGood | crates/core/src/webtypes.js:847-857 | after the end or failure the source is never pulled again and nothing arrives |
| TeeTheorems.Drains | crates/core/src/webtypes.js:847-857 | after the end each branch gives its queue, one chunk a pull, then what the source ended with |
| Names.SameOnTheWire | packages/iso4-sandbox/src/imports.ts:252-255 | well-formed names are equal exactly if their UTF-8 is |
| Names.IllFormedCollide | packages/iso4-sandbox/src/imports.ts:252-255 | two names the wire could not tell apart, one of them not well formed |
| RuntimeCheck.FindHostNode | crates/core/src/prefix.rs:100-122 | moves its cursors to the node at the path, or to the length where it fails |
| RuntimeCheck.FindResolves | crates/core/src/prefix.rs:100-122 | succeeds exactly on the non-empty paths that resolve segment by segment, with the last node |
| RuntimeCheck.FindFails | crates/core/src/prefix.rs:100-122 | an empty path fails with 0, a leaf in the way with the whole length, and otherwise the first missing segment with its own, all before it leading to objects |
| RuntimeCheck.LookupFirst | crates/core/src/prefix.rs:100-122 | the first entry of a key counts; none is found exactly if there is none |
| RuntimeCheck.BindingFirst | crates/core/src/prefix.rs:55-62 | the first binding of a specifier counts; none is found exactly if there is none |
| RuntimeCheck.VerdictExactly | crates/core/src/prefix.rs:50-98 | a location passes exactly if it leads to a function; source text and data are frozen; an object and whatever does not resolve is undeclared, at the first segment missing |
| RuntimeCheck.ValidateImportRebinds | crates/core/src/prefix.rs:50-98 | the first refused location, in order |
| RuntimeCheck.AllAccepted | crates/core/src/prefix.rs:50-98 | a list passes exactly if each of its locations does |
| ClientRebind.Merged.WalkRebind | packages/iso4-sandbox/src/imports.ts:276-317 | fills handlers and rebinds with exactly the overrides accepted, or stops at the first refusal |
| ClientRebind.Merged.MergeRebindImports | packages/iso4-sandbox/src/imports.ts:241-274 | the same over all specifiers |
| RebindAgreement.VerdictWire | crates/core/src/prefix.rs:50-98 | on well-formed names the runtime's verdict on the wire is its verdict on the client's own shape |
| RebindAgreement.AcceptsExactly | packages/iso4-sandbox/src/imports.ts:276-317 | the client accepts exactly the overrides that fit the declared shape, and sends every function leaf of them, in order |
| RebindAgreement.ClientOkRuntimeOk | packages/iso4-sandbox/src/imports.ts:227-274 | every rebind list the client produces passes the runtime's check against the same shape |
| RebindAgreement.RefusalsAgree | packages/iso4-sandbox/src/imports.ts:231-235 | what the client refuses as undeclared or frozen the runtime refuses at the same place with the same code |
| RebindAgreement.ShapeIsEnough | packages/iso4-sandbox/src/imports.ts:213-225 | dropping data values and source text from the kept shape changes no merge |
| ImportLowering.LowersExactly | packages/iso4-sandbox/src/imports.ts:163-207 | lowering succeeds exactly on trees with well-formed keys within the depth limit, and keeps their depth |
| ImportLowering.FunctionsKept | packages/iso4-sandbox/src/imports.ts:176-197 | the declared shape has a function exactly where the option object has one |
| ImportLowering.PreparedOk | packages/iso4-sandbox/src/imports.ts:114-153 | what prepare sends has well-formed names and no node deeper than 64 |
| ImportLowering.Lowering.LowerNode | packages/iso4-sandbox/src/imports.ts:163-207 | the node's wire shape, and a handler for every function leaf in it |
| ImportLowering.Lowering.LowerEntries | packages/iso4-sandbox/src/imports.ts:188-197 | the same for an object's properties, undefined ones skipped |
| ImportLowering.Lowering.LowerModule | packages/iso4-sandbox/src/imports.ts:137-149 | the same for top-level exports, whose names must be valid |
| ImportLowering.Lowering.ProcessImports | packages/iso4-sandbox/src/imports.ts:114-153 | bindings in order and the default handlers of every function leaf, or the first error |
| HandlerMaps.LastWins | packages/iso4-sandbox/src/imports.ts:249-314 | a location is in the map exactly if a default or an override names it, and answers by its last override, else its default |
| HandlerMaps.RunHandlers | packages/iso4-sandbox/src/imports.ts:241-317 | after an accepted merge a location answers by the run's function there, and where the run gives none by the prefix's handler |
| HandlerMaps.PreparedHandlers | packages/iso4-sandbox/src/imports.ts:114-207 | after prepare a location has a handler exactly if the option has a function there: that function |
| HandlerMaps.MergeExactly | packages/iso4-sandbox/src/imports.ts:241-317 | a run's option is accepted exactly if every module is declared and every value in it has the declared kind, at well-formed paths; sent is exactly each function's location |
| HandlerMaps.MergeRefuses | packages/iso4-sandbox/src/imports.ts:241-317 | a run's option is refused for its first module that does not fit, with the code that what is declared at the refused place calls for |
| HandlerMaps.PrepareAccepts | packages/iso4-sandbox/src/imports.ts:114-207 | prepare accepts exactly options of well-formed specifiers with source text, or objects with valid exports and no value more than 64 keys deep |
| HandlerMaps.PrepareSends | packages/iso4-sandbox/src/imports.ts:114-207 | what is sent, in order: source text as it is, and a node exactly where the option has a value, of its kind, plain values as serialized |
| HandlerMaps.PrepareRefusesModule | packages/iso4-sandbox/src/imports.ts:114-207 | prepare refuses for the first module that does not fit, with an error true of it: its specifier, its kind, an export name, a key, or a value over 64 keys deep |
| Globals.Process | packages/iso4-sandbox/src/globals.ts:115-152 | definitions in order and the default dispatch, or the first refused name |
| Globals.Declare | packages/iso4-sandbox/src/globals.ts:168-181 | the kept shape, in order |
| Globals.ExtractBridgeGlobals | packages/iso4-sandbox/src/globals.ts:194-226 | the first refused override, or the stubs and dispatch of every declared function |
| Globals.Install | packages/iso4-sandbox/src/globals.ts:213-225 | a bridge stub and its handler for every declared function |
| Globals.ValidateGlobalRebinds | crates/core/src/prefix.rs:13-43 | the first refused definition, in order |
| Globals.RunStubs | packages/iso4-sandbox/src/globals.ts:213-225 | a run re-installs exactly the stubs the prefix declared, in the same order |
| Globals.RunPassesTheCheck | packages/iso4-sandbox/src/globals.ts:183-226 | whatever a run overrides, what the client sends passes the runtime's check |
| Globals.RefusalsAgree | packages/iso4-sandbox/src/globals.ts:198-211 | client and runtime refuse the same names with the same code, except exactly a shim's private name, which the runtime admits |
| Globals.StubClash | packages/iso4-sandbox/src/globals.ts:85-87 | two function globals share a stub exactly if one is plain and carries the other's private name |
| Globals.DispatchedExactly | packages/iso4-sandbox/src/globals.ts:213-225 | a declared function's stub reaches the last global that takes it, by that one's override if it has one: the function itself exactly if nothing shadows it |
| GlobalForms.RunAnswers | packages/iso4-sandbox/src/globals.ts:213-225 | the stub of a declared function answers as the last that takes it: by the run's function of that name if given, else by the prepared one |
| GlobalForms.PrepareSendsGlobals | packages/iso4-sandbox/src/globals.ts:115-152 | prepare takes exactly globals with well-formed names that are not the runtime's; each of a known form is sent with its name, text or blob, and hidden only if hidden outright |
| GlobalForms.PrepareRefuses | packages/iso4-sandbox/src/globals.ts:119-125 | refused is the first global that must be, for what is wrong with it |
| GlobalForms.RunSendsGlobals | packages/iso4-sandbox/src/globals.ts:213-225 | a run sends a stub for each function, in order: under its name with its flag, a shim's under the private name, enumerable |
| GlobalForms.OverrideJudged | packages/iso4-sandbox/src/globals.ts:194-211 | an override is accepted, frozen, not a function, ill formed or undeclared, exactly by what is declared under its name |
| GlobalForms.FirstRefused | packages/iso4-sandbox/src/globals.ts:194-211 | the first override that must be refused is; without one all are accepted |
| Globals.ShadowedByName | packages/iso4-sandbox/src/globals.ts:213-225 | a function global is shadowed exactly by a later one that shares a private name with it |
| Globals.NothingOverridden | packages/iso4-sandbox/src/globals.ts:213-225 | a run that overrides nothing dispatches as prepared |
| Globals.PlainTakesTheShim | packages/iso4-sandbox/src/globals.ts:115-225 | prepared together, a plain global named like a shim's private handler takes its calls, in the prefix's dispatch and in a run's |
| Globals.PrivateNameAdmitted | crates/core/src/prefix.rs:25-27 | with one shim prepared, its private name is undeclared to the client and accepted by the runtime |
| PayloadFormat.StrExact | crates/server/src/ipc.rs:1007-1024 | a string is read exactly from its length and its valid UTF-8 |
| PayloadFormat.BoolExact | crates/server/src/ipc.rs:951-960 | a boolean is the byte 0 or 1 |
| PayloadFormat.Failures | crates/server/src/ipc.rs:925-1036 | how basic reads fail: bytes missing is an early end, whatever comes first; a boolean above 1 and a string that is not UTF-8 are invalid |
| PayloadFormat.ListReads | crates/server/src/ipc.rs:986-1005 | a printed list is read back, count check included |
| PayloadFormat.ListWrites | crates/server/src/ipc.rs:986-1005 | what parses as a list is the printing of that list |
| PayloadFormat.CountCheckHarmless | crates/server/src/ipc.rs:986-997 | the count check refuses no list that would parse |
| PayloadFormat.DefExact | crates/server/src/ipc.rs:1115-1150 | global definitions are read exactly from their wire forms |
| PayloadFormat.NodeReads | crates/server/src/ipc.rs:1157-1181 | a printed tree is read back exactly if its longest path is within the limit, and refused otherwise |
| PayloadFormat.NodeWrites | crates/server/src/ipc.rs:1157-1181 | what parses as a tree is the printing of that tree, within the limit |
| RequestFormat.ModuleAccepted | crates/server/src/ipc.rs:1184-1208 | a well-formed host module is accepted exactly when no node's path is longer than 64 |
| RequestFormat.FoundWithin | crates/core/src/prefix.rs:100-122 | a path that resolves is never longer than the tree is deep |
| RequestFormat.BindingExact | crates/server/src/ipc.rs:1184-1208 | import bindings are read exactly from their wire forms |
| RequestFormat.RebindExact | crates/server/src/ipc.rs:1212-1223 | import rebinds are read exactly from their wire forms |
| RequestFormat.CallExact | crates/server/src/ipc.rs:1227-1232 | calls are read exactly from their wire forms |
| RequestFormat.OptU32Exact | crates/server/src/ipc.rs:1049-1058 | optional words are read exactly from their wire forms |
| RequestFormat.CodeFieldsReads | crates/server/src/ipc.rs:1264-1273 | the fields Run and Precompile share are read back |
| RequestFormat.CodeFieldsWrites | crates/server/src/ipc.rs:1264-1273 | what parses as those fields is their printing |
| RequestFormat.RunExact | crates/server/src/ipc.rs:1276-1293 | a payload is accepted as a Run exactly if it is the printing of that one request |
| RequestFormat.PrecompileExact | crates/server/src/ipc.rs:1309-1324 | a payload is accepted as a Precompile exactly if it is the printing of that one request |
| RequestFormat.PrefixRunExact | crates/server/src/ipc.rs:1327-1344 | a payload is accepted as a PrefixRun exactly if it is the printing of that one request |
| PayloadReading.PayloadReader.ReadU8 | crates/server/src/ipc.rs:925-935 | one byte; the cursor moves exactly as the parser says, and fails where and how it does |
| PayloadReading.PayloadReader.ReadU32 | crates/server/src/ipc.rs:937-947 | a big-endian word; the cursor moves exactly as the parser says, and fails where and how it does |
| PayloadReading.PayloadReader.ReadBool | crates/server/src/ipc.rs:951-960 | a strict boolean; the cursor moves exactly as the parser says, and fails where and how it does |
| PayloadReading.PayloadReader.ReadCount | crates/server/src/ipc.rs:986-1005 | a list's count, refused past the remaining bytes; the cursor moves exactly as the parser says, and fails where and how it does |
| PayloadReading.PayloadReader.ReadString | crates/server/src/ipc.rs:1007-1024 | a string, its length checked before its bytes; the cursor moves exactly as the parser says, and fails where and how it does |
| PayloadReading.PayloadReader.ReadBytes | crates/server/src/ipc.rs:1026-1036 | a byte slice; the cursor moves exactly as the parser says, and fails where and how it does |
| PayloadReading.PayloadReader.ReadOptionalString | crates/server/src/ipc.rs:1038-1047 | an optional string; the cursor moves exactly as the parser says, and fails where and how it does |
| PayloadReading.PayloadReader.ReadOptionalU32 | crates/server/src/ipc.rs:1049-1058 | an optional word; the cursor moves exactly as the parser says, and fails where and how it does |
| PayloadReading.PayloadReader.ReadLimit | crates/server/src/ipc.rs:1067-1088 | one limit field and its default |
| PayloadReading.PayloadReader.ReadResourceLimits | crates/server/src/ipc.rs:1066-1102 | ten fields, resolved, the hard override last; the cursor moves exactly as the parser says, and fails where and how it does |
| PayloadReading.PayloadReader.ReadValueBlob | crates/server/src/ipc.rs:1107-1110 | a value slot; the cursor moves exactly as the parser says, and fails where and how it does |
| PayloadReading.PayloadReader.ReadGlobalDef | crates/server/src/ipc.rs:1117-1149 | one tagged definition; the cursor moves exactly as the parser says, and fails where and how it does |
| PayloadReading.PayloadReader.ReadGlobalDefs | crates/server/src/ipc.rs:1115-1150 | the list of definitions; the cursor moves exactly as the parser says, and fails where and how it does |
| PayloadReading.PayloadReader.ReadHostModuleNode | crates/server/src/ipc.rs:1157-1181 | one node at its depth; the cursor moves exactly as the parser says, and fails where and how it does |
| PayloadReading.PayloadReader.ReadEntries | crates/server/src/ipc.rs:1168-1175 | a counted list of keyed nodes; the cursor moves exactly as the parser says, and fails where and how it does |
| PayloadReading.PayloadReader.ReadImportBinding | crates/server/src/ipc.rs:1187-1206 | one binding; the cursor moves exactly as the parser says, and fails where and how it does |
| PayloadReading.PayloadReader.ReadImportBindings | crates/server/src/ipc.rs:1184-1208 | the list of bindings; the cursor moves exactly as the parser says, and fails where and how it does |
| PayloadReading.PayloadReader.ReadImportRebind | crates/server/src/ipc.rs:1215-1220 | one rebind; the cursor moves exactly as the parser says, and fails where and how it does |
| PayloadReading.PayloadReader.ReadImportRebinds | crates/server/src/ipc.rs:1212-1223 | the list of rebinds; the cursor moves exactly as the parser says, and fails where and how it does |
| PayloadReading.PayloadReader.ReadCall | crates/server/src/ipc.rs:1227-1232 | a call; the cursor moves exactly as the parser says, and fails where and how it does |
| PayloadReading.PayloadReader.ReadOptionalCall | crates/server/src/ipc.rs:1235-1244 | an optional call; the cursor moves exactly as the parser says, and fails where and how it does |
| PayloadReading.PayloadReader.AssertDone | crates/server/src/ipc.rs:1246-1254 | nothing may trail |
| PayloadReading.PayloadReader.ReadCodeFields | crates/server/src/ipc.rs:1264-1273 | code, filename, limits, globals; the cursor moves exactly as the parser says, and fails where and how it does |
| PayloadReading.ParseRunPayload | crates/server/src/ipc.rs:1276-1293 | the one Run the payload prints, limits resolved for a one-off |
| PayloadReading.ParsePrecompilePayload | crates/server/src/ipc.rs:1309-1324 | the one Precompile the payload prints, limits read and dropped |
| PayloadReading.ParsePrefixRunPayload | crates/server/src/ipc.rs:1327-1344 | the one PrefixRun the payload prints, limits resolved for a managed instance |
| PayloadWriting.PayloadWriter.WriteU8 | packages/iso4-sandbox/src/ipc.ts:633-638 | one byte; appends exactly that |
| PayloadWriting.PayloadWriter.WriteU32 | packages/iso4-sandbox/src/ipc.ts:640-645 | a big-endian word, or a throw exactly past 32 bits; appends exactly that |
| PayloadWriting.PayloadWriter.WriteString | packages/iso4-sandbox/src/ipc.ts:647-652 | a string's length and UTF-8; appends exactly the wire form, and throws only for a value without one |
| PayloadWriting.PayloadWriter.WriteBytes | packages/iso4-sandbox/src/ipc.ts:654-657 | the bytes; appends exactly that |
| PayloadWriting.PayloadWriter.WriteLengthPrefixedBytes | packages/iso4-sandbox/src/ipc.ts:673-676 | a length and the bytes; appends exactly the wire form, and throws only for a value without one |
| PayloadWriting.PayloadWriter.WriteOptionalString | packages/iso4-sandbox/src/ipc.ts:678-686 | a presence byte, and the string if there is one; appends exactly the wire form, and throws only for a value without one |
| PayloadWriting.PayloadWriter.WriteOptionalU32 | packages/iso4-sandbox/src/ipc.ts:688-696 | a presence byte, and the word if there is one; appends exactly that |
| PayloadWriting.PayloadWriter.WriteGlobalDef | packages/iso4-sandbox/src/ipc.ts:705-721 | one tagged definition; appends exactly the wire form, and throws only for a value without one |
| PayloadWriting.PayloadWriter.WriteGlobalDefs | packages/iso4-sandbox/src/ipc.ts:698-724 | the counted list of definitions; appends exactly the wire form, and throws only for a value without one |
| PayloadWriting.PayloadWriter.WriteImport | packages/iso4-sandbox/src/ipc.ts:734-747 | one binding; appends exactly the wire form, and throws only for a value without one |
| PayloadWriting.PayloadWriter.WriteImports | packages/iso4-sandbox/src/ipc.ts:726-749 | the counted list of bindings; appends exactly the wire form, and throws only for a value without one |
| PayloadWriting.PayloadWriter.WriteHostModuleNode | packages/iso4-sandbox/src/ipc.ts:751-771 | one node and all below it; appends exactly the wire form, and throws only for a value without one |
| PayloadWriting.PayloadWriter.WriteEntries | packages/iso4-sandbox/src/ipc.ts:739-744 | a counted list of keyed nodes; appends exactly the wire form, and throws only for a value without one |
| PayloadWriting.PayloadWriter.WriteImportRebind | packages/iso4-sandbox/src/ipc.ts:779-783 | one rebind; appends exactly the wire form, and throws only for a value without one |
| PayloadWriting.PayloadWriter.WriteImportRebinds | packages/iso4-sandbox/src/ipc.ts:773-785 | the counted list of rebinds; appends exactly the wire form, and throws only for a value without one |
| PayloadWriting.PayloadWriter.WriteCall | packages/iso4-sandbox/src/ipc.ts:787-793 | a call; appends exactly the wire form, and throws only for a value without one |
| PayloadWriting.PayloadWriter.WriteOptionalCall | packages/iso4-sandbox/src/ipc.ts:795-804 | a presence byte, and the call if there is one; appends exactly the wire form, and throws only for a value without one |
| PayloadWriting.PayloadWriter.WriteResourceLimits | packages/iso4-sandbox/src/ipc.ts:806-822 | ten optional words, from the fields by name; appends exactly that |
| PayloadWriting.PayloadWriter.ToBuffer | packages/iso4-sandbox/src/ipc.ts:824-826 | the parts joined |
| PayloadWriting.EncodeRunPayload | packages/iso4-sandbox/src/ipc.ts:1086-1096 | the printing of the request the options name; throws only for a request without one |
| PayloadWriting.EncodePrecompilePayload | packages/iso4-sandbox/src/ipc.ts:1120-1129 | the printing of the request the options name; throws only for a request without one |
| PayloadWriting.EncodePrefixRunPayload | packages/iso4-sandbox/src/ipc.ts:1155-1166 | the printing of the request the options name; throws only for a request without one |
| PayloadWriting.LimitsOrder | packages/iso4-sandbox/src/ipc.ts:806-822 | the order of the limits on the wire, by name |
| PayloadWriting.LimitsByName | crates/server/src/ipc.rs:1066-1102 | each limit the client named is the field of that name the runtime runs under, and each absent one its default in numbers |
| PayloadWriting.HeapLinesByName | crates/types/src/lib.rs:82-98 | both heap lines from the client's cap and override: an override terminates; without one a one-off terminates at the cap, a managed run a band above it; retired at the cap is only a managed run whose cap lies below its hard line |
| PayloadWriting.PrefixRunLimitsArrive | crates/server/src/ipc.rs:1327-1344 | a prefix run sent is read back with the limits its client named |
| PayloadWriting.RunLimitsArrive | crates/server/src/ipc.rs:1276-1293 | a one-off run sent is read back with the limits its client named |
| HeapLines.HeapBandMb | crates/types/src/lib.rs:61-70 | the integer nearest to the geometric mean of the cap and 8 MB; no tie arises |
| HeapLines.BandUnique | crates/types/src/lib.rs:61-70 | no other integer is |
| HeapLines.BandGrows | crates/types/src/lib.rs:63-70 | a bigger cap never has a smaller band |
| HeapLines.LinesOrdered | crates/types/src/lib.rs:82-98 | a soft line never exceeds the hard one and equals it only where the sum saturates; strict runs have none; an override is the hard line |
| HeapLines.CeilingMonotone | crates/types/src/lib.rs:61-98 | without an override a bigger cap never lowers the terminating line |
| EndToEnd.PrepareArrives | crates/server/src/ipc.rs:1309-1324 | a prepare whose payload fits a frame's length is read back by the runtime as sent |
| EndToEnd.RunArrivesAndPasses | crates/core/src/engine.rs:370-388 | a run the client lets through is read back as sent, and passes both of the runtime's rebind checks |
| EndToEnd.HandlerKeysDiffer | packages/iso4-sandbox/src/ipc.ts:1216-1228 | the key a handler is filed under tells all well-formed locations apart |

## Left out

- Sockets, threads, clocks and timeouts as such: partial writes, wake-ups, stalls and timed-out waits are nondeterministic actions; a clock reading is an input, read once per registry operation.
- V8: serialization, isolates, snapshots, guards, the turn loop and stream credit; the instance built from a descriptor is an abstract fresh object of its type, and its construction may fail.
- `target_slots` and the wall and CPU minima behind it, beyond the drifting minimum itself; its comment that a mix of prefixes lands between its halves is not claimed.
- Float rounding: averages, rates and the drifting minimum are over the reals, the score is compared exactly, and the rounded root of the headroom band is the exact nearest integer.
- The `u64` saturation of a measured heap average converted from a float: averages are far below it.
- Thread utilization, the usage meter and whether a thread can be spawned are inputs of each acquire; the order in which the hash map yields its prefixes, each once, is an input of each pass.
- The content of prefixes (code, filename, declared bindings) in the engine's store: only ready, broken or gone; a looked-up run that fails its rebind check is the step `Reject`.
- Updates in place inside an entry: statistics and instances are values in their entry, which the registry's methods replace whole; nothing else refers to them in the source.
- Instance handles, their channels and the load cells they share; `stats()`.
- Prefix ids are numbers; the source prints them.
- Rehydration of named properties of arrays: the walk does not visit them. An interruption is checked when an object is taken from the worklist; interruptions inside V8 accessors are not separate.
- Bit operations of the UTF-8 code are written as division and remainder; `String.fromCharCode.apply` is appending; consecutive byte stores and `dest.set` are one method.
- The number of U+FFFD on malformed bytes is the code's own rule (one, then one byte on), which differs from the WHATWG Encoding standard on truncated sequences.
- The tee's underlying stream beyond its pull and cancel: reader locks and the disturbed flag are left out, and a rejection carries a non-null value. A repeated cancellation of a branch cancels the source again, as in the code.
- Authenticate, Hello, stream, terminate and dispose payloads, and the response encoders in `wire.rs`: shorter layouts of the same kinds, or not strict.
- The reservation of list memory that may fail in `read_list`.
- Limits and ids that are no 32-bit words: the client's writer throws on them as on a length past 32 bits.
- Option objects are finite trees with distinct keys: a cyclic host module, which the client refuses, cannot be written down; a subtree shared between keys is two equal subtrees. Value serialization is an arbitrary function to bytes.
- `undefined` for a whole `imports` option, which changes nothing, and the text of error messages.
- URL parsing, DNS and HTTP in `packages/iso4-fetch`, name tables, benches and packaging.
