# Pocket VM: a verified model

This project models the parts of Pocket VM whose correctness rests on more than one function, and
proves what they are for. Pocket VM runs container images in a user-mode Linux guest: it verifies an
OCI image layout, builds a root filesystem in a builder guest and checks the manifest the builder
streams back, runs the workload under a guest process 1, and supervises everything from a small
process guard on the host.

| area | modules |
|---|---|
| builder manifest: walk, packing, framing | `ManifestTree`, `ManifestWalk`, `ManifestWalker`, `ManifestPacking`, `ManifestEntries`, `ManifestStream` |
| builder session: validator, runs, completed builds | `BuilderSession`, `BuilderRuns`, `BuilderStory` |
| namespace teardown handshake of guest process 1 | `Teardown` |
| host process guard | `GuardTrace`, `Guard` |
| stream pumps and incremental decoders | `Pump`, `Incremental`, `ControlFrames`, `InternalEvents` |
| target resolution inside the image root | `Resolver`, `ResolverReference` |
| OCI layout verification | `OciImage`, `OciVisits`, `OciGenuine`, `OciVerifier`, `OciDrift` |
| JSON shape, canonical base64, tar scan | `JsonShape`, `Base64`, `TarHeader`, `TarScan` |
| shared | `Bytes`, `Sums`, `Loops` |

Code that updates state in place is a class or a method with loops, proved against a specification
function; the laws are lemmas about that function. Foreign code is a function-valued parameter:
SHA-256, CBOR, JSON parsing, decompression. Nothing is known about it except where a lemma says so,
as `ManifestEntries.CborInverts` does. The kernel is a parameter too: it may answer anything, in any
order, with any short transfer, and directories are listed in any order.

Several modules judge single items (visits, chunks, pieces, steps) through a function-valued
parameter together with a law that ties it to the real definition. This keeps the large definitions
out of proofs that do not need them; the theorems at the end of each chain use the real definitions.

Results that are not what one might expect:

- `GuardTrace.PollCoverage`: children of the latest listing are covered by the phase's signal exactly
  when that listing was taken in the phase or was empty. `Guard.StaleSnapshot` drives the engine into
  the other case.
- `ResolverReference.InnerDotsResolveElsewhere`: a link text with an inner ".." over another link is
  resolved differently from POSIX lookup. `ResolvedTargetIsTheReferenceTarget` gives the condition:
  up to its last ".." each followed text must really lead where the lexical reading puts it.
- `OciDrift.VariantsDrift`: platform variants are compared between neighbouring levels only, so a
  layout is verified although its outermost and innermost variants differ. `OciDrift.StatingLevelsLink`
  says exactly when a level links its neighbours, `OciVerifier.AcceptedVariantsAgree` when two levels
  of a path agree, and `OciVisits.PathsKeepTheirPlatform` what agrees along every path.
- `Pump.EioEndsAnAnnouncedStream`: exact-length delivery needs EIO not to mean end of file, which is
  how announced pumps are built (crates/pocket-init/src/linux.rs:973-974, 1011-1012).
- `InternalEvents.RefusalDependsOnTheCut`: whether a feed is refused for its size depends on how the
  stream is cut, so `EventFragmentation` speaks of feeds that are not refused. Two errors with the
  longest diagnostics that are written are refused in one read (`TwoErrorsCanBeRefused`).

Assumptions about the outside: a four-byte pipe write is atomic; waiting for one's own child and
killing it do not fail for other reasons; a published process ID may be stale. The source comment that
a console-shell failure is harmless (crates/pocket-init/src/linux.rs:1482) disagrees with the event
loop, which turns every error event into a run failure (crates/pocket-init/src/linux.rs:3452); the
model claims neither. Integers are unbounded in Dafny: the widths that matter (64-bit counters and
sequences, 32-bit entry counts and lengths, 31-bit poll timeouts) are written out.

## Model

| member | source | states |
|---|---|---|
| `Teardown.PublishedPidReadsBack` | crates/pocket-init/src/linux.rs:1561-1623 | a channel reads as a process ID exactly when it holds the four bytes that publish it |
| `Teardown.InvInitial` | crates/pocket-init/src/linux.rs:1331-1386 | every starting state of the three processes satisfies the protocol invariant |
| `Teardown.InvSupervisorStep` | crates/pocket-init/src/linux.rs:1388-1466 | every supervisor step keeps the invariant, the supervisor being killed at any point included |
| `Teardown.InvWorkloadStep` | crates/pocket-init/src/linux.rs:1580-1594 | every workload step keeps the invariant |
| `Teardown.InvInitStep` | crates/pocket-init/src/linux.rs:3200-3262 | every step of process 1 keeps the invariant |
| `Teardown.InvStep` | crates/pocket-init/src/linux.rs:1331-1466 | every step of any process keeps the invariant |
| `Teardown.InvRun` | crates/pocket-init/src/linux.rs:1331-1466 | the invariant holds after every possible interleaving |
| `Teardown.PublishedBeforePassed` | crates/pocket-init/src/linux.rs:1388-1466 | in every run a workload that is past the release gate has its ID in the teardown channel already |
| `Teardown.ChannelIsNeverMalformed` | crates/pocket-init/src/linux.rs:1596-1623 | in every run the channel holds nothing or one whole ID, so reading it never reports a malformed one |
| `Teardown.NothingEscapes` | crates/pocket-init/src/linux.rs:3216-3247 | once the failure path has reaped the supervisor, read the channel and sent its kill, no unkilled workload has executed or can still execute, whatever happens afterwards |
| `Teardown.TornDownStays` | crates/pocket-init/src/linux.rs:3216-3247 | being torn down is never undone by later steps |
| `Teardown.TeardownTerminates` | crates/pocket-init/src/linux.rs:3200-3262 | after teardown a workload that is not yet collected always has a step that leads on without its consent, and every possible step brings it closer to being collected |
| `Teardown.WorkloadCanRun` | crates/pocket-init/src/linux.rs:1331-1466 | the protocol is not vacuous: there is a run in which the workload executes |
| `BuilderSession.BuilderSession.constructor` | crates/pocket-protocol/src/builder_state.rs:71-92 | a new session is the initial state |
| `BuilderSession.BuilderSession.CheckChunk` | crates/pocket-protocol/src/builder_state.rs:277-311 | a chunk passes exactly when its stream, size, framing, entry count and every canonical entry are within the negotiated limits |
| `BuilderSession.BuilderSession.CheckChunkShape` | crates/pocket-protocol/src/builder.rs:526-543 | a chunk message is valid exactly when it is not empty, not above the hard caps and framed with the announced number of entries |
| `BuilderSession.BuilderSession.TakeChunkMessage` | crates/pocket-protocol/src/builder_state.rs:277-334 | a chunk is taken exactly when it continues the stream within all totals; counters and hash advance by it |
| `BuilderSession.BuilderSession.TakeMessage` | crates/pocket-protocol/src/builder_state.rs:137-275 | the object follows the lifecycle; which digests an END may carry is what EndSpellsTheDigest says |
| `BuilderSession.BuilderSession.AcceptMessage` | crates/pocket-protocol/src/builder_state.rs:107-135 | acceptance is transactional: the whole session becomes the specified next state, or is unchanged when the message is refused |
| `BuilderRuns.AcceptEach` | crates/pocket-protocol/src/builder_state.rs:107-135 | over any list of messages the session object ends in the state of the run, which is the state reached by its accepted messages alone |
| `BuilderRuns.PlacedAt` | crates/pocket-protocol/src/builder_state.rs:277-334 | each chunk of a placed list carries its own index and the number of entries before it |
| `BuilderRuns.TakeAllExact` | crates/pocket-protocol/src/builder_state.rs:277-334 | taking chunk after chunk succeeds exactly on chunks that are fine, contiguous and within the totals; sequence numbers never run out |
| `BuilderRuns.AtStart` | crates/pocket-protocol/src/builder_state.rs:149-179 | what AwaitStart accepts: START from the host, or an error from the guest that ends in Failed |
| `BuilderRuns.AtChunk` | crates/pocket-protocol/src/builder_state.rs:200-204 | what StreamingManifest does with a chunk |
| `BuilderRuns.FineChunkMeans` | crates/pocket-protocol/src/builder_state.rs:277-372 | a chunk is accepted for its own sake exactly when it is the framing of as many canonically encoded entries as it says, all within the negotiated limits |
| `BuilderRuns.AtRest` | crates/pocket-protocol/src/builder_state.rs:264-273 | Completed and Failed accept nothing |
| `BuilderRuns.AtError` | crates/pocket-protocol/src/builder_state.rs:253-265 | an ERROR of the guest is taken in every phase between the first and the last and ends the session as Failed; nothing else does |
| `BuilderRuns.EndSpellsTheDigest` | crates/pocket-protocol/src/builder_state.rs:205-225 | an END is accepted only if its text spells, digit by digit, the SHA-256 of the bytes received |
| `BuilderRuns.OneEndOneDigest` | crates/pocket-protocol/src/builder_state.rs:205-225 | if one END is accepted after two streams, their bytes have the same SHA-256 |
| `BuilderStory.GoodChunksAreAccepted` | crates/pocket-protocol/src/builder_state.rs:277-334 | good chunks numbered on from the session are all accepted |
| `BuilderStory.GoodStoriesComplete` | crates/pocket-protocol/src/builder_state.rs:107-275 | HELLO, START, BEGIN, CHUNK*, END, ACCOUNT_DB, DONE with agreeing contents is accepted message by message and ends in Completed |
| `BuilderStory.CompletedRunsAreStories` | crates/pocket-protocol/src/builder_state.rs:107-275 | every run of accepted messages that ends in Completed is such a sequence, with contiguous sequences per direction and all limits, digests, totals and tools agreeing |
| `BuilderStory.CompletedExactly` | crates/pocket-protocol/src/builder_state.rs:107-275 | the runs that complete are exactly the good stories |
| `BuilderStory.CompletedObjectsToldAStory` | crates/pocket-protocol/src/builder_state.rs:107-275 | the same for a new session object sent any messages whatever |
| `BuilderStory.CompletedSessionsToldAStory` | crates/pocket-protocol/src/builder_state.rs:107-275 | whatever messages arrive, a session that reached Completed accepted exactly one good story |
| `BuilderStory.GoodStoriesSpellTheDigest` | crates/pocket-protocol/src/builder_state.rs:205-252 | END and DONE of a completed build spell the SHA-256 of its chunks |
| `BuilderStory.OneDigestReported` | crates/pocket-protocol/src/builder_state.rs:235-252 | two completed builds that report one digest have streamed bytes with one SHA-256 |
| `ManifestEntries.EntryCodec` | crates/pocket-protocol/src/message.rs:642-681 | decoding accepts exactly the encodings of valid entries and returns the entry, given that CBOR parsing inverts CBOR writing |
| `ManifestEntries.SplitExact` | crates/pocket-protocol/src/builder.rs:1305-1344 | a chunk splits into pieces exactly when it is their length-prefixed framing with every length in range |
| `ManifestEntries.CountEntries` | crates/pocket-protocol/src/builder.rs:1305-1344 | counts the entries of a framing, and fails exactly on bytes that are none |
| `ManifestEntries.ValidateEntry` | crates/pocket-protocol/src/builder_state.rs:347-369 | an entry passes exactly when it is canonical and its path, attribute count and attribute bytes are within the limits |
| `ManifestEntries.ValidateCanonicalEntries` | crates/pocket-protocol/src/builder_state.rs:337-372 | a counted chunk passes exactly when every entry in it does |
| `ManifestEntries.HexLowerIsHex` | crates/pocket-protocol/src/builder_state.rs:378-386 | a digest text has two characters for each byte, all lower-case hexadecimal digits |
| `ManifestEntries.HexLowerExact` | crates/pocket-protocol/src/builder_state.rs:378-386 | the text of a byte string is the only hexadecimal text whose digits have the values of its high and low nibbles, in order |
| `ManifestEntries.HexLowerInjective` | crates/pocket-protocol/src/builder_state.rs:378-386 | different byte strings have different texts |
| `ManifestEntries.FrameMeans` | crates/pocket-builder-init/src/manifest.rs:310-317 | a frame is the length of the entry in four big-endian bytes, then the entry |
| `ManifestEntries.LessMeans` | crates/pocket-builder-init/src/manifest.rs:171-171 | the order of names is byte order: the smaller byte at the first difference, a prefix before what it begins |
| `ManifestEntries.PartsMean` | crates/pocket-protocol/src/builder.rs:995-1055 | a path text is accepted exactly when no part between its slashes is empty, "." or ".." |
| `ManifestTree.SortNames` | crates/pocket-builder-init/src/manifest.rs:171-171 | sorting gives the ascending listing of the same names, whatever order they came in |
| `ManifestTree.AscendingUnique` | crates/pocket-builder-init/src/manifest.rs:171-171 | a directory has only one ascending listing |
| `ManifestTree.PreorderIncreases` | crates/pocket-builder-init/src/manifest.rs:111-182 | visited paths strictly increase in component-wise byte order |
| `ManifestTree.VisitsAreTheTree` | crates/pocket-builder-init/src/manifest.rs:111-182 | the visits are exactly the entries of the tree, in strictly increasing order, each path once, and every entry after the directory it lies in |
| `ManifestTree.ChildrenFollow` | crates/pocket-builder-init/src/manifest.rs:164-169 | after a directory come at least as many entries as it has children |
| `ManifestPacking.FlushPacked` | crates/pocket-builder-init/src/manifest.rs:329-360 | a flush succeeds exactly when the bytes so far are within the total, and emits the open entries as one fine chunk |
| `ManifestPacking.PushPacked` | crates/pocket-builder-init/src/manifest.rs:281-327 | a pushed entry goes whole into the open chunk or starts the next one |
| `ManifestPacking.PackingIsExact` | crates/pocket-builder-init/src/manifest.rs:281-360 | packing succeeds exactly when entries and bytes are within their totals; the chunks are contiguous and their bytes are the framed entries in order |
| `ManifestPacking.PackingIsGreedy` | crates/pocket-builder-init/src/manifest.rs:298-303 | a chunk is closed only where the next entry no longer fits |
| `ManifestWalk.WalkIsExact` | crates/pocket-builder-init/src/manifest.rs:111-360 | a walk goes through exactly on lists whose entries are admissible and whose tables and counts fit, and its state is determined by the list |
| `ManifestWalk.LinksNameTheFirstPath` | crates/pocket-builder-init/src/manifest.rs:218-246 | the hardlink table names the path of the first visit of each inode with several links |
| `ManifestWalk.GroupsAreTheInodes` | crates/pocket-builder-init/src/manifest.rs:223-229 | there is one hardlink group for each distinct inode with several links, and none else |
| `ManifestWalk.LinkBytesAreThePaths` | crates/pocket-builder-init/src/manifest.rs:230-243 | the summed hardlink path bytes are those of the paths in the table |
| `ManifestWalk.SortedXattrs` | crates/pocket-builder-init/src/manifest.rs:495-496 | the attributes of an entry are those listed, ordered by name |
| `ManifestWalk.RelativeIsJoined` | crates/pocket-builder-init/src/manifest.rs:172-178 | the path text of an entry is its names joined by slashes |
| `ManifestWalker.Walker.ListXattrs` | crates/pocket-builder-init/src/manifest.rs:391-497 | attributes are returned sorted, exactly when the list and its sizes are within the limits |
| `ManifestWalker.Walker.NoteLink` | crates/pocket-builder-init/src/manifest.rs:218-251 | a known inode yields its first path; a new one is entered if groups and path bytes allow |
| `ManifestWalker.Walker.BuildEntry` | crates/pocket-builder-init/src/manifest.rs:184-278 | the validated entry of a node |
| `ManifestWalker.Walker.MakeEntry` | crates/pocket-builder-init/src/manifest.rs:184-296 | the encoded entry of a node with the hardlink table brought up to date |
| `ManifestWalker.Walker.ScanListing` | crates/pocket-builder-init/src/manifest.rs:136-170 | a listing passes exactly when all names are valid and its sizes and counts are within the limits |
| `ManifestWalker.Walker.ReadNames` | crates/pocket-builder-init/src/manifest.rs:133-170 | a directory is listed exactly when it is admissible and its children fit the total |
| `ManifestWalker.Walker.VisitNode` | crates/pocket-builder-init/src/manifest.rs:111-182 | visiting a node has the effect of the walk over its subtree in sorted order, whatever order directories are listed in; the chunks emitted are determined too when the walk fails |
| `ManifestWalker.Walker.VisitChildren` | crates/pocket-builder-init/src/manifest.rs:172-181 | the children are visited in the order given, up to the first that fails |
| `ManifestStream.EmitManifest` | crates/pocket-builder-init/src/manifest.rs:36-92 | what is sent for a tree, also by a walk that fails, and the summary are functions of the tree and the limits; the listing order does not occur in them |
| `ManifestStream.EarlyCheckIsHarmless` | crates/pocket-builder-init/src/manifest.rs:164-169 | the early per-directory check refuses only trees whose total exceeds the limit |
| `ManifestStream.EmissionIsExact` | crates/pocket-builder-init/src/manifest.rs:36-360 | a manifest is emitted exactly for admissible trees; its chunks are good and their bytes are the framed entries in walk order |
| `ManifestStream.EmittedChunksAreGreedy` | crates/pocket-builder-init/src/manifest.rs:298-303 | the same for the chunks of an emitted manifest |
| `ManifestStream.SentChunksAreGood` | crates/pocket-builder-init/src/manifest.rs:281-360 | whether or not a walk succeeds, the chunks it has sent are good and hold the entries of some first visits, whole and in walk order |
| `ManifestStream.GoodManifestIsAccepted` | crates/pocket-protocol/src/builder_state.rs:180-225 | BEGIN, good chunks and the matching END take a session from AwaitManifestBegin to AwaitAccountDb |
| `ManifestStream.StartedManifestIsAccepted` | crates/pocket-protocol/src/builder_state.rs:180-225 | BEGIN and good chunks without an END are all accepted and leave the session in StreamingManifest with their counts and bytes |
| `ManifestStream.EmittedManifestIsAccepted` | crates/pocket-builder-init/src/manifest.rs:36-92 | end to end: the session accepts every emitted message and ends with the counts and digest of the returned summary |
| `ManifestStream.WaitingSessionsAcceptTheManifest` | crates/pocket-builder-init/src/manifest.rs:36-92 | the same for every session that, after any messages whatever, waits for a manifest |
| `ManifestStream.WaitingSessionsAwait` | crates/pocket-builder-init/src/manifest.rs:36-92 | every session that waits for a manifest accepts every message sent for a tree, the messages before a failure included |
| `BuilderStory.EarlyRun` | crates/pocket-protocol/src/builder_state.rs:137-199 | in every run a session that waits for a manifest holds valid limits and schema and has seen one guest message |
| `ManifestStream.StreamManifest` | crates/pocket-builder-init/src/manifest.rs:36-92 | walker and session objects together: a waiting session accepts every message that is sent; it holds the counts and digest of the summary, which spells the SHA-256 of the chunks, exactly for admissible trees, and otherwise nothing was sent or it streams on with the chunks of some first entries |
| `ManifestStream.ChunkLimitDoesNotMatter` | crates/pocket-builder-init/src/manifest.rs:281-360 | the chunk limit changes neither whether a manifest can be emitted nor its entries, bytes and digest |
| `ManifestStream.EntryAt` | crates/pocket-builder-init/src/manifest.rs:184-278 | the entry at each place of the manifest is the one of that visit |
| `ManifestStream.EntriesDescribeTheTree` | crates/pocket-builder-init/src/manifest.rs:184-278 | each decoded entry states the type, permission bits, owner, group, size, times, device number, link target and sorted attributes of its node, under its path |
| `ManifestStream.HardlinksNameTheFirstEntry` | crates/pocket-builder-init/src/manifest.rs:218-251 | the first path of a multi-link inode carries the content hash; every later one names exactly that path |
| `ManifestStream.SingleLinksCarryContent` | crates/pocket-builder-init/src/manifest.rs:247-249 | a single-link file carries its own content hash |
| `ManifestStream.PathTextsAreDistinct` | crates/pocket-builder-init/src/manifest.rs:172-178 | no two entries of a manifest have the same path text |
| `GuardTrace.StatusMeans` | crates/pocket-guard/src/lib.rs:60-70 | every status word decodes to the exit code in bits 8 to 15, to the signal in the low seven bits with or without the core bit, or to nothing for a child that only stopped |
| `GuardTrace.DecodedStatusTells` | crates/pocket-guard/src/lib.rs:60-70 | decoding inverts the encoding of endings: exit codes 0 to 255 and signals 1 to 126 come back |
| `GuardTrace.ShutdownOnce` | crates/pocket-guard/src/lib.rs:565-649 | shutdown and escalation each happen at most once, in that order |
| `GuardTrace.PhasesAdvance` | crates/pocket-guard/src/lib.rs:565-649 | phases and time only move forward; within a phase no signal is forgotten |
| `GuardTrace.SignalledOncePerPhase` | crates/pocket-guard/src/lib.rs:596-619 | a process ID is individually sent at most one graceful signal and at most one SIGKILL |
| `GuardTrace.GroupSignalledOncePerPhase` | crates/pocket-guard/src/lib.rs:565-649 | the group is signalled once per phase |
| `GuardTrace.DeadlineForcesEscalation` | crates/pocket-guard/src/lib.rs:621-629 | a poll at or after the deadline is the last one before the kill |
| `GuardTrace.PollsFollowListings` | crates/pocket-guard/src/lib.rs:447-450 | before every poll of a shutdown the children were listed again in the same phase |
| `GuardTrace.PollCoverage` | crates/pocket-guard/src/lib.rs:596-619 | at a poll of a shutdown every child of the latest successful listing has been sent the phase's signal if and only if that listing belongs to the phase or was empty |
| `GuardTrace.SentMeans` | crates/pocket-guard/src/lib.rs:596-619 | a child recorded as signalled was sent the phase's signal in that phase |
| `Guard.Engine.SignalImmediateChildren` | crates/pocket-guard/src/lib.rs:596-619 | what the guard has listed and signalled afterwards is determined by the answer to its listing; a failed listing is a recorded failure |
| `Guard.Engine.BeginShutdown` | crates/pocket-guard/src/lib.rs:565-586 | the first call enters the shutdown with its signal, its deadline one grace period from now, or the kill without grace; later calls change nothing |
| `Guard.Engine.SignalNewlyAdoptedChildren` | crates/pocket-guard/src/lib.rs:588-594 | only the signalled set changes |
| `Guard.Engine.Escalate` | crates/pocket-guard/src/lib.rs:631-649 | escalation clears the signalled set, kills group and children, and happens once |
| `Guard.Engine.MaybeEscalate` | crates/pocket-guard/src/lib.rs:621-629 | after the check the shutdown is escalated or the deadline lies ahead |
| `Guard.Engine.PollTimeout` | crates/pocket-guard/src/lib.rs:651-663 | the poll waits for ever outside the grace period and inside it as many whole milliseconds as are left |
| `Guard.Engine.TakeStatus` | crates/pocket-guard/src/lib.rs:527-531 | a collected child is recorded, and the status that the kernel gave for the direct one decides the outcome |
| `Guard.Engine.ReapAll` | crates/pocket-guard/src/lib.rs:524-537 | ends on the kernel's word that no child is left, or none has exited; the direct outcome is the decoded status of the child |
| `Guard.Engine.HandleSignal` | crates/pocket-guard/src/lib.rs:544-561 | the first request to stop begins the shutdown, a further one escalates, an unexpected signal is a failure |
| `Guard.Engine.HandleSignals` | crates/pocket-guard/src/lib.rs:539-563 | two requests, or one during a shutdown, escalate; without any nothing happens |
| `Guard.Engine.HandleLiveness` | crates/pocket-guard/src/lib.rs:484-511 | a peer that has gone away stops the run with SIGTERM; a broken descriptor is a failure as well |
| `Guard.Engine.Wait` | crates/pocket-guard/src/lib.rs:447-477 | one pass from listing and signalling to poll keeps the trace lawful; after escalation the standing at the poll is determined by the answer to the listing |
| `Guard.Engine.PollRound` | crates/pocket-guard/src/lib.rs:448-518 | the signals delivered in a round are heeded: a request stops the run, a second one kills it, an unexpected signal is a failure; nothing of this is ever taken back |
| `Guard.Engine.Collect` | crates/pocket-guard/src/lib.rs:423-446 | the run is over only with no child left, and once the direct child is gone the others are stopped with SIGTERM |
| `Guard.StaleSnapshot` | crates/pocket-guard/src/lib.rs:565-649 | the exception in PollCoverage occurs: with a zero timeout and listings that fail after the first, the engine polls without limit over a listed child that was sent no SIGKILL |
| `Guard.Engine.Run` | crates/pocket-guard/src/lib.rs:423-522 | a finished run ends with no child left and no failure; its outcome tells the exit code or signal of a status the kernel gave for the direct child; in every run the signals delivered have been heeded |
| `Guard.Engine.KillAndReapAfterFailure` | crates/pocket-guard/src/lib.rs:710-752 | the emergency sweep succeeds only if no call failed and the last wait found no child |
| `Pump.PumpBuffer.constructor` | crates/pocket-init/src/pump.rs:18-28 | an empty queue of the given capacity |
| `Pump.PumpBuffer.Push` | crates/pocket-init/src/pump.rs:56-65 | appends as much as fits and returns how much, keeping order and the backing bound |
| `Pump.PumpBuffer.Consume` | crates/pocket-init/src/pump.rs:67-79 | removes from the front |
| `Pump.PumpBuffer.CompactFor` | crates/pocket-init/src/pump.rs:81-87 | compaction changes no content |
| `Pump.StreamPump.ReadAvailable` | crates/pocket-init/src/linux.rs:1134-1210 | one pass over the source: what was taken, and what the last answer means; an end of file before the announced length is the error that says how much is missing, would-block and interruption are none; the sink ends only with source and buffer, never on an error |
| `Pump.StreamPump.WriteAvailable` | crates/pocket-init/src/linux.rs:1212-1240 | one pass over the sink: what was written, and what the last answer means; a zero-length write and a broken pipe of an output are errors, a broken pipe of an input ends it |
| `Pump.StreamPump.CloseSinkAfterEof` | crates/pocket-init/src/linux.rs:1242-1246 | the sink ends only when source and buffer are exhausted |
| `Pump.StreamPump.CloseInput` | crates/pocket-init/src/linux.rs:1252-1258 | an input pump closes source and sink and drops its queue, an output pump is untouched |
| `Pump.StreamPump.TakeChunk` | crates/pocket-init/src/linux.rs:1173-1193 | bytes within the asked size are always queued whole, so the accounting error of reading cannot occur |
| `Pump.StreamPump.WriteLoop` | crates/pocket-init/src/linux.rs:1212-1240 | writing is the specified outlet, whose verdicts do not include the closed-sink accounting error |
| `Pump.RunPump` | crates/pocket-init/src/linux.rs:1069-1258 | over every sequence of reads, writes and closes, errors included: bytes written are a prefix of bytes read; at most the announced number is read; the sink ends only after exactly that many unless the reader closed or the input was closed; the result is the missing count exactly when an announced stream met end of file early |
| `Pump.ReadingTold` | crates/pocket-init/src/linux.rs:1134-1210 | every answer but the last keeps the read loop going, the last decides how it ends, and answers are left only when the buffer is full or the announced bytes are there |
| `Pump.FittingReadsAreTaken` | crates/pocket-init/src/linux.rs:1134-1210 | offered bytes that fit are all taken, in order |
| `Pump.WritingTold` | crates/pocket-init/src/linux.rs:1212-1240 | the same for the write loop, which leaves answers only when nothing is queued |
| `Pump.AcceptedIsWritten` | crates/pocket-init/src/linux.rs:1212-1240 | as many queued bytes are written as the answers accept, from the front |
| `Pump.EioEndsAnAnnouncedStream` | crates/pocket-init/src/linux.rs:1134-1210 | for every announced length and direction, a pump that takes EIO for end of file ends the stream early without an error |
| `Incremental.Fragmentation` | crates/pocket-init/src/control.rs:25-59 | feeding any pieces of a stream yields the records and leftover of parsing it whole |
| `Incremental.BoundedFragmentation` | crates/pocket-init/src/internal.rs:96-130 | the same for feeds that no size bound refuses |
| `Incremental.EncodedSurvivesFragmentation` | crates/pocket-init/src/control.rs:25-59 | encoded records come back from any cutting |
| `ControlFrames.HeaderRoundTrip` | crates/pocket-protocol/src/frame.rs:104-163 | header bytes decode to a header exactly when they are its encoding |
| `ControlFrames.HeaderLayout` | crates/pocket-protocol/src/frame.rs:103-115 | the fields of a header stand at their offsets in big-endian bytes behind the magic |
| `Bytes.FieldsAreBigEndian` | crates/pocket-protocol/src/frame.rs:103-115 | 16-bit and 32-bit fields hold the number their bytes stand for, the most significant byte first |
| `Bytes.LongFieldsAreBigEndian` | crates/pocket-protocol/src/frame.rs:103-115 | the same for 64-bit fields |
| `ControlFrames.DecodeInvertsEncode` | crates/pocket-protocol/src/frame.rs:171-224 | a whole frame decodes exactly from its encoding under the expected sequence |
| `ControlFrames.NextFrameIsLawful` | crates/pocket-init/src/control.rs:25-59 | taking one frame never depends on bytes behind it |
| `ControlFrames.ParsedFramesAreNumbered` | crates/pocket-init/src/control.rs:25-59 | decoded frames have consecutive sequences |
| `ControlFrames.DecodedStreamIsItsFrames` | crates/pocket-init/src/control.rs:25-59 | a decoded stream is the encodings of its frames followed by the leftover |
| `ControlFrames.NumberedFramesDecode` | crates/pocket-init/src/control.rs:25-59 | consecutively numbered frames decode to themselves |
| `ControlFrames.FramesSurviveFragmentation` | crates/pocket-init/src/control.rs:25-59 | frames cut anywhere are decoded unchanged |
| `ControlFrames.ControlFragmentation` | crates/pocket-init/src/control.rs:25-59 | for all feeds that succeed, outputs and leftover equal those of the whole stream |
| `ControlFrames.WaitingIsShort` | crates/pocket-init/src/linux.rs:3563-3590 | what waits for more is shorter than a largest frame, so a chunk of at most 8192 bytes is never refused for size |
| `ControlFrames.ControlFrameDecoder.Feed` | crates/pocket-init/src/control.rs:25-59 | one feed yields exactly the frames completed by it and keeps the rest |
| `ControlFrames.ControlFrameDecoder.FeedEach` | crates/pocket-init/src/linux.rs:3563-3590 | a series of feeds yields the specified outputs |
| `InternalEvents.EventCodec` | crates/pocket-init/src/internal.rs:23-80 | a payload decodes to an event exactly when it is the encoding of that valid event |
| `InternalEvents.EncodeSucceeds` | crates/pocket-init/src/internal.rs:23-80 | encoding fails exactly on an exit without one single status and on an oversized diagnostic; other invalid events encode, and the decoder refuses them |
| `InternalEvents.DecodePayload` | crates/pocket-init/src/internal.rs:138-178 | decoding of one event by tag |
| `InternalEvents.PayloadLayout` | crates/pocket-init/src/internal.rs:23-80 | the tag and the big-endian fields of each kind of event |
| `InternalEvents.RecordLayout` | crates/pocket-init/src/internal.rs:23-80 | a record is the tag, the big-endian payload length and the payload |
| `InternalEvents.ValidUtf8Means` | crates/pocket-init/src/internal.rs:138-178 | the texts accepted are exactly the UTF-8 encodings of Unicode scalar values (section 3 of RFC 3629) |
| `InternalEvents.NextEventIsLawful` | crates/pocket-init/src/internal.rs:96-130 | taking one event never depends on bytes behind it |
| `InternalEvents.InternalEventDecoder.Feed` | crates/pocket-init/src/internal.rs:96-130 | one feed yields the events completed by it, or refuses more than 4101 pending bytes |
| `InternalEvents.InternalEventDecoder.FeedEach` | crates/pocket-init/src/internal.rs:96-130 | a series of feeds to the object is the bounded feed that EventFragmentation is about |
| `InternalEvents.EventFragmentation` | crates/pocket-init/src/internal.rs:96-130 | for all feeds that are not refused, outputs and leftover equal those of the whole stream |
| `InternalEvents.RefusalDependsOnTheCut` | crates/pocket-init/src/internal.rs:96-130 | any two events pass in reads of their own, and in one read exactly when together they are no longer than the longest record |
| `InternalEvents.TwoErrorsCanBeRefused` | crates/pocket-init/src/linux.rs:3188-3198 | two errors with the longest diagnostics that are written fit one read and are refused in it |
| `Resolver.Components` | crates/pocket-init/src/linux.rs:2113-2130 | the components of a path text are names or "..", without slashes |
| `Resolver.NormalizeNames` | crates/pocket-init/src/linux.rs:2042-2053 | applying link components lexically leaves entry names only |
| `Resolver.ImageRoot.Apply` | crates/pocket-init/src/linux.rs:2042-2053 | link components applied one by one, failing when they leave the root |
| `Resolver.ImageRoot.CreateParent` | crates/pocket-init/src/linux.rs:2070-2087 | a missing parent becomes a directory unless the kernel refuses |
| `Resolver.ImageRoot.Resolve` | crates/pocket-init/src/linux.rs:2012-2094 | result and tree are those of the specified walk, which ends because every turn spends a link or a component; where its links lead is stated by the laws below without that walk |
| `Resolver.WalkIsSound` | crates/pocket-init/src/linux.rs:2020-2094 | on success the target has entry names only, every proper prefix is a real directory, the end is no link, and the tree only gained directories |
| `Resolver.ResolvedTargetIsContained` | crates/pocket-init/src/linux.rs:2012-2094 | the same for whole resolutions from the root |
| `Resolver.MissingTail` | crates/pocket-init/src/linux.rs:2064-2090 | from the first missing component on, the walk succeeds exactly if the parents can be made, makes them and ends at the path itself |
| `Resolver.ResolutionMakesParents` | crates/pocket-init/src/linux.rs:2012-2094 | on a well-formed tree a resolution adds exactly the missing parents of its target, each made with its mode |
| `ResolverReference.TextAgrees` | crates/pocket-init/src/linux.rs:2035-2058 | a link text applied lexically and really leads on to the same place if it does so up to its last ".."; if that leads nowhere, neither does the whole |
| `ResolverReference.WalkMeetsReference` | crates/pocket-init/src/linux.rs:2012-2094 | the walk against POSIX lookup on the final tree, turn by turn |
| `ResolverReference.ResolvedTargetIsTheReferenceTarget` | crates/pocket-init/src/linux.rs:2012-2094 | a successful resolution finds what POSIX lookup, with its own rule for relative and absolute texts, finds if every followed text really leads, up to its last "..", where the lexical reading puts it; if one of them leads nowhere, POSIX lookup finds nothing |
| `ResolverReference.SolidLinksResolveAlike` | crates/pocket-init/src/linux.rs:2012-2094 | the two agree if, and without links before a ".." only if, the components before a ".." are real directories |
| `ResolverReference.LeadingDotsResolveAlike` | crates/pocket-init/src/linux.rs:2012-2094 | with only leading ".." in followed links the two agree |
| `ResolverReference.LeadingTextsResolveAlike` | crates/pocket-init/src/linux.rs:2012-2094 | the same if every link of the tree, before anything is resolved, has only leading ".." |
| `ResolverReference.FoundTargetsResolve` | crates/pocket-init/src/linux.rs:2012-2094 | conversely, where links lead up only at their front and not above the root, every target that POSIX lookup finds is resolved to the same path and nothing is created |
| `ResolverReference.RelativeLinkResolves` | crates/pocket-init/src/linux.rs:2035-2058 | in any directory, a link to a name resolves beside the link, in the walk and in POSIX lookup |
| `ResolverReference.AbsoluteLinkResolves` | crates/pocket-init/src/linux.rs:2035-2058 | in any directory, a link to a name behind a slash resolves in the root, in both |
| `ResolverReference.MissingTargetsResolve` | crates/pocket-init/src/linux.rs:2064-2090 | a missing target below real directories resolves to itself exactly if its parents can be made |
| `ResolverReference.TextReadsBack` | crates/pocket-init/src/linux.rs:2113-2130 | names written as a path text are read back as its components |
| `ResolverReference.LeadingSlash` | crates/pocket-init/src/linux.rs:2113-2130 | a leading slash makes a text absolute and adds no component |
| `ResolverReference.LeadingDot` | crates/pocket-init/src/linux.rs:2113-2130 | a leading "." component adds none either |
| `ResolverReference.InnerDotsResolveElsewhere` | crates/pocket-init/src/linux.rs:2042-2058 | for any names, an inner ".." over a link resolves beside the link, and POSIX lookup beside what it points to |
| `OciVerifier.Verifier.ValidateEmbedded` | crates/pocket-oci/src/layout.rs:1665-1693 | inline data passes exactly when it is the canonical base64 of bytes with the declared size and digest |
| `OciVerifier.Verifier.ValidateDescriptor` | crates/pocket-oci/src/layout.rs:632-664 | a descriptor passes exactly when all its fields are admissible |
| `OciVerifier.Verifier.ConsumeDescriptor` | crates/pocket-oci/src/layout.rs:666-681 | counts the descriptor against the cap |
| `OciVerifier.Verifier.AuthenticateBlob` | crates/pocket-oci/src/layout.rs:890-972 | a blob is returned exactly when it has the declared size and digest within the cap |
| `OciVerifier.Verifier.HashUncompressedStream` | crates/pocket-oci/src/layout.rs:783-837 | the piecewise caps hold exactly when the whole size is within them; the digest is that of the whole stream |
| `OciVerifier.Verifier.VerifyLayerDiffId` | crates/pocket-oci/src/layout.rs:702-781 | the decoded layer has the DiffID and its size is added to the total |
| `OciVerifier.Verifier.CheckLayer` | crates/pocket-oci/src/layout.rs:482-503 | one layer is counted, authenticated and decoded to its DiffID within all caps; what the recorded layer says is true of the files by LayerIsGenuine |
| `OciVerifier.Verifier.VerifyLayers` | crates/pocket-oci/src/layout.rs:470-503 | all layers in order |
| `OciVerifier.Verifier.VerifyConfig` | crates/pocket-oci/src/layout.rs:444-468 | the config is counted, authenticated and well-formed |
| `OciVerifier.Verifier.PlatformChecks` | crates/pocket-oci/src/layout.rs:505-524 | passes exactly when the platform of the config is well-formed, agrees with the descriptor and, for linux/amd64, is a supported one on both sides |
| `OciVerifier.Verifier.VerifyManifest` | crates/pocket-oci/src/layout.rs:431-546 | a manifest with its config and layers, its image recorded if it is linux/amd64 |
| `OciVerifier.Verifier.ReadIndex` | crates/pocket-oci/src/layout.rs:394-415 | an index is opened exactly when it is authentic, not open already and not too deep |
| `OciVerifier.Verifier.WalkDescriptor` | crates/pocket-oci/src/layout.rs:374-429 | the walk has the effect of charging all visits below the descriptor, and restores the open indexes |
| `OciVerifier.Verifier.WalkIndex` | crates/pocket-oci/src/layout.rs:394-421 | an index and everything it lists |
| `OciVerifier.Verifier.WalkAll` | crates/pocket-oci/src/layout.rs:349-351 | the descriptors of an index in order |
| `OciVerifier.VerifyLayout` | crates/pocket-oci/src/layout.rs:318-358 | succeeds exactly when every reachable descriptor is good, counts and decoded bytes are within their caps and exactly one manifest is linux/amd64; the image returned states digests, sizes and DiffIDs that are true of the blobs, lies at the end of a path from the index, and every path to a linux/amd64 manifest ends there |
| `OciGenuine.LayerIsGenuine` | crates/pocket-oci/src/layout.rs:482-503 | the blob a layer names has its digest and size and decodes to its DiffID and uncompressed size |
| `OciGenuine.ImageIsGenuine` | crates/pocket-oci/src/layout.rs:431-546 | manifest, config and layers of an image are the blobs it names, in the order of the manifest |
| `OciGenuine.TargetRunsHere` | crates/pocket-oci/src/layout.rs:505-546 | the effective platform of a returned image is linux/amd64 with at most the variant v1, stated exactly when descriptor or config state it |
| `OciGenuine.HandedDownIsInnermost` | crates/pocket-oci/src/layout.rs:1375-1392 | the platform handed down along a path is the innermost one it states |
| `OciGenuine.VisitHasPath` | crates/pocket-oci/src/layout.rs:374-429 | every manifest visited lies at the end of a path of nested indexes |
| `OciGenuine.PathIsVisited` | crates/pocket-oci/src/layout.rs:374-429 | every manifest at the end of a good path is visited |
| `OciVerifier.OnlyOneTarget` | crates/pocket-oci/src/layout.rs:318-358 | in a verified layout every path to a linux/amd64 manifest leads to the image returned |
| `OciVerifier.AcceptedLayoutsAreAuthentic` | crates/pocket-oci/src/layout.rs:374-546 | on every path of an accepted layout all blobs are authentic, no index digest repeats, nesting is within its limit, platforms agree on system, architecture and features, and the manifests have a good config and layers that decode to their DiffIDs |
| `OciVisits.ChargeExact` | crates/pocket-oci/src/layout.rs:666-681 | the counters are the exact sums and within their caps |
| `OciVisits.PathsAreAuthentic` | crates/pocket-oci/src/layout.rs:394-421 | paths are authentic, acyclic and bounded |
| `OciVisits.PathsKeepTheirPlatform` | crates/pocket-oci/src/layout.rs:1375-1421 | operating system, architecture and OS features are the same wherever a path states them |
| `OciVisits.StatedValuesAgree` | crates/pocket-oci/src/layout.rs:1375-1421 | between two levels of a path, variant and OS version agree if every platform stated between them states them |
| `OciVerifier.AcceptedVariantsAgree` | crates/pocket-oci/src/layout.rs:1375-1421 | the same for every path of an accepted layout |
| `OciDrift.StatingLevelsLink` | crates/pocket-oci/src/layout.rs:1394-1421 | a level makes its outer and inner neighbours agree exactly when it states both a variant and an OS version |
| `OciDrift.VariantsDrift` | crates/pocket-oci/src/layout.rs:1375-1392 | a concrete layout is verified although its outermost index states variant v2 and its manifest variant v1 |
| `JsonShape.AddKeys` | crates/pocket-oci/src/layout.rs:1604-1630 | the keys of an object, one by one |
| `JsonShape.CheckNode` | crates/pocket-oci/src/layout.rs:1582-1632 | one node against the limits |
| `JsonShape.PendingStep` | crates/pocket-oci/src/layout.rs:1582-1632 | replacing a node on the stack by its children, in any order, keeps what is left to check |
| `JsonShape.ValidateShape` | crates/pocket-oci/src/layout.rs:1582-1632 | the explicit-stack loop accepts exactly what the recursive definition accepts, whatever order children are pushed |
| `JsonShape.TotalsMean` | crates/pocket-oci/src/layout.rs:1582-1632 | nodes and string bytes of an array are those of its items, of an object those of its values and its keys |
| `JsonShape.LimitsMean` | crates/pocket-oci/src/layout.rs:1582-1632 | depth and size limits hold exactly when every value in the document, at its level of nesting, meets them |
| `Base64.LettersAreTheAlphabet` | crates/pocket-oci/src/layout.rs:1699-1708 | the letters of 0 to 63 are A to Z, a to z, 0 to 9, + and /, in that order |
| `Base64.JoinExact` | crates/pocket-oci/src/layout.rs:1725-1748 | sextets join to bytes exactly when the bytes split into them |
| `Base64.SplitKeepsTheBits` | crates/pocket-oci/src/layout.rs:1712-1748 | the sextets of a group stand for the same number as its octets, shifted by the filling bits |
| `Base64.GroupExact` | crates/pocket-oci/src/layout.rs:1712-1748 | a group of four decodes to bytes exactly when it is their encoding |
| `Base64.ReadGroup` | crates/pocket-oci/src/layout.rs:1712-1748 | one group read as the code does |
| `Base64.DecodeCanonical` | crates/pocket-oci/src/layout.rs:1698-1750 | text decodes to bytes exactly when it is their standard padded encoding |
| `TarHeader.Base256Exact` | crates/pocket-oci/src/skopeo.rs:1543-1570 | a base-256 size is read exactly when its true value is below 2^64, and is that value |
| `TarHeader.OctalExact` | crates/pocket-oci/src/skopeo.rs:1572-1600 | a field of at most 21 characters, as the 8 and 12 byte fields of a header are, is refused only for its spelling and otherwise reads as its octal value |
| `TarHeader.OctalRoundTrip` | crates/pocket-oci/src/skopeo.rs:1572-1600 | a number written in octal between blanks is read back |
| `TarHeader.ChecksumIs` | crates/pocket-oci/src/skopeo.rs:1602-1625 | the checksum is the sum of all header bytes but its own eight, which count as blanks |
| `TarHeader.HeaderMeans` | crates/pocket-oci/src/skopeo.rs:1442-1500 | a header with given fields is refused unless checksum and size are right, and otherwise names the member below its prefix |
| `TarHeader.MemberName` | crates/pocket-oci/src/skopeo.rs:1510-1541 | the member name is prefix and name joined, with leading "./" stripped |
| `TarHeader.StripDotsExact` | crates/pocket-oci/src/skopeo.rs:1531-1541 | stripping removes exactly the leading "./" parts |
| `TarHeader.SameMember` | crates/pocket-oci/src/skopeo.rs:1531-1541 | two spellings name the same member exactly when they differ in leading "./" only |
| `TarScan.ParseSound` | crates/pocket-oci/src/skopeo.rs:1428-1508 | parsed members concatenate back to the archive up to its end |
| `TarScan.ParseComplete` | crates/pocket-oci/src/skopeo.rs:1428-1508 | every archive that splits into members parses into them |
| `TarScan.ReadEntry` | crates/pocket-oci/src/skopeo.rs:1442-1500 | one header and its padded data |
| `TarScan.ReadUniqueMember` | crates/pocket-oci/src/skopeo.rs:1428-1508 | returns bytes exactly when the archive splits into checksummed members and the wanted name occurs once with these bytes within the maximum |

## Left out

- Error kinds: operations that fail report failure; which of several errors is reported first is modelled only for the stream decoders, the resolver and the guard.
- Time-outs and liveness of the host kernel: runs are finite sequences of steps, rounds and answers; a run that has not ended is cut.
- Guard.Engine.Run: is cut after a given number of rounds and waits, so it does not state that the loop ends.
- GuardTrace.SignalledOncePerPhase: speaks of process IDs; that an ID is not reused while the guard runs is not modelled.
- Network helper of the guard (crates/pocket-guard/src/lib.rs:672-708): best-effort termination that never changes the outcome.
- OciVerifier.VerifyLayout: takes index.json parsed; reading oci-layout and index.json and comparing the layout version are flat checks. Blobs do not change while they are verified, so the second hash of a layer repeats the first.
- OciVerifier.Verifier.VerifyManifest: the process defaults of an image are one predicate, `runnable`.
- OciVerifier.AcceptedVariantsAgree: states when variants are sure to agree; two levels may also agree by coincidence.
- Media types are a datatype with the ten known ones and any other text.
- BuilderSession.BuilderSession.CheckMessage: the flat field checks of HELLO, ACCOUNT_DB, DONE, ERROR and most of START are predicates of the protocol.
- ManifestStream.EmitManifest: the sink accepts every message; a sink error would end the walk. The derivation key and schema of the stream ID arrive as the bytes that are hashed.
- ManifestWalker.Walker.ListXattrs: the kernel's name list arrives split into names; a list that changes between two calls is a failing call.
- Resolver.ImageRoot.CreateParent: no other process changes the tree meanwhile, so the check that a created parent is a real directory cannot fail.
- BuilderRuns.AcceptEach: frame sequences are below 2^64, as a 64-bit header field makes them.
- ResolverReference.ResolvedTargetIsTheReferenceTarget: "." and empty components, a trailing slash included, are dropped before either resolution; when a followed text leads elsewhere before its last "..", the two may still agree by coincidence, of which nothing is said.
- TarHeader.OctalExact: holds for fields of at most 21 characters; longer fields do not occur in a header.
- Teardown.NothingEscapes: mounts, capabilities, the console shells and the exec itself are not modelled.
- Mounts, chroot, capability syscalls, ioctls, terminals and reboot of the init crates: plumbing without laws of its own.
- Command-line parsing, start and marker comparison, CPU and error tables, memory and path helpers: flat checks that would only add easy members.
- Acquisition of images through Skopeo, resolver snapshots and the release scripts: process control and foreign formats.
