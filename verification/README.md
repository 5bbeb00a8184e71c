# Tickline in Dafny

A model of Tickline's trust chain, with proofs. It covers the deterministic world, the admission
pipeline with its hash-linked evidence, the replay verifier, the byte codecs and stream parser,
SHA-256, and the task planner and runner of the developer tool.

## How it is organised

Each part has a value layer and, where the source updates things in place, an imperative layer.
The value layer is made of datatypes and functions, and the theorems are about it. The imperative
layer has classes and methods with the source's fields, loops and order of tests. Every method is
proved equal to the value-level operation, so the theorems hold of the methods too. What a value-level
function computes is in turn stated apart from its body: formats by offset, checks by the exact
condition of each answer, bit functions by their bits.

| files | content |
|---|---|
| `Integers`, `Bits`, `Bytes` | fixed-width integers, truncating division, xor, big-endian fields, concatenation and cutting of byte records |
| `WorldModel`, `WorldInvariant`, `WorldSafety`, `WorldRuns`, `Integration`, `WorldMotion`, `WorldOrder`, `World` | the simulation: operations, invariant, whole runs, exact integration, when a tick succeeds, order independence, the classes |
| `WorldEncoding`, `Fingerprint` | canonical state bytes and FNV-1a |
| `Sha256`, `Sha256Laws` | the functions of FIPS 180-4 and the block-and-tail implementation; bit laws and the origin of the constants |
| `Commands`, `Evidence`, `EvidenceCodec`, `Chain`, `Archive` | envelopes and sessions, record codec, hash chain, archive |
| `Pipeline`, `Sessions`, `Replay` | submissions, runs with many sessions, the replay verifier |
| `Frames`, `StreamParser`, `WireCodec`, `Gateway` | the wire, from bytes to the pipeline |
| `Layouts` | the offset of every field in the world encoding, the record, the archive and the frame |
| `TaskGraph`, `Planner`, `Manifest`, `Runner`, `Shutdown` | the Go tool: planning, validation, running, supervising one stage |

## Modelling decisions

- Exceptions are results. An operation that throws returns an error and leaves its state alone.
- `/` and `%` of C++ are `TruncDiv` and `TruncMod`; int64 and uint64 are subset types, so what is
  stored in a field or passed to a function carries a range proof. `IntegrateAxis` forms its scaled
  displacement as an unbounded integer; `WorldRuns.IntegrationNeverOverflows` shows that it fits.
- `WorldState.ids` is the iteration order of the `std::map` of entities. `Lookup` stands for `.at`
  on the two other maps; the invariant shows that the key is always there.
- `std::sort` is known to its callers only as returning a permutation without inversions.
- Enumerations with a 16-bit underlying type are plain 16-bit numbers, since the wire and the
  evidence bytes can carry any of them.
- Tamper evidence is a reduction. Nothing is assumed about SHA-256: two lists under one head are
  equal, or `Compare` returns the collision or the zero digest.
- Record and pending counts are below 2^64, as a 64-bit `size_t` guarantees. `CountsFit` is that
  condition; beyond it the pipeline throws before it changes anything, and so does the model.
- One loop of the source is sometimes two methods here (`TakeHeader` and `TakeBody` of the stream
  parser, `VisitDependencies` of the searches), so that each carries a short proof.
- File-system checks on task scripts are the parameter `scriptOk`; the repository root, stage output,
  stage outcomes and cancellation are the parameter `Conditions`; reads, process exit, cancellation and the timer are moves of the
  shutdown state machine.

## Where a law needs a condition

The archive encoder verifies the chain but not the individual records, while the decoder checks
both. So an archive that the encoder writes can be refused by the decoder.
`Archive.UncheckedRecordIsLost` shows one, `Archive.RoundTripNeedsCheckedRecords` gives the exact
condition, and `Sessions.EveryLogArchives` shows that every log of the pipeline meets it.

Frames completed inside a push that fails are lost to the caller, so two cuttings of the same bytes
can deliver different frames. `StreamParser.CuttingsCanDiffer` shows two that do,
`StreamParser.FailingPushLosesItsFrames` says exactly which frames are lost and when none is, and
`StreamParser.SinglePushesLoseNothing` shows that pushing byte by byte never loses one.

## Model

| member | source | states |
|---|---|---|
| `Replay.ReplayIsComplete` | cpp/src/command/command_evidence_replay.cpp:42-222 | For every interleaving of submissions and ticks, failed ones included, on one session and one world, replaying the log from the initial state reports `Verified` if and only if the ticks up to the last submission fit the budget, and `TickAdvanceLimitExceeded` otherwise; each field of the verified report is that of the real run right after its last submission. |
| `Replay.ReplayIsSound` | cpp/src/command/command_evidence_replay.cpp:69-222 | For arbitrary untrusted records and head, `Verified` means the records and head are exactly the log of submitting those envelopes at those observed ticks, observed ticks never decrease, and each field of the report is that of the state this run ends in. |
| `Replay.ReplayAcceptsExactlyRuns` | cpp/src/command/command_evidence_replay.cpp:42-222 | A record list verifies under a head if and only if some run of submissions and ticks produces exactly that log within the budget. |
| `Replay.FailureIsExplained` | cpp/src/command/command_evidence_replay.cpp:55-212 | A failing replay names the first record at fault: those before it are the log of the run they claim, it is reported by its position as ordinal, and the code is that of its first claim which this run does not bear out. |
| `Replay.BudgetIsRespected` | cpp/src/command/command_evidence_replay.cpp:95-145 | Whatever the records and whatever the result, neither the reported nor the actual number of ticks exceeds `maximum_tick_advances`. |
| `Replay.ReplayStep` | cpp/src/command/command_evidence_replay.cpp:79-211 | Every record that passes keeps the ticks performed at or below the maximum, so the unsigned subtraction that gives the remaining budget never underflows. |
| `Replay.ReplayEvidence` | cpp/src/command/command_evidence_replay.cpp:42-222 | The imperative replayer, working on copies of session and world and a fresh pipeline, returns exactly the reference replay and leaves the initial objects alone. |
| `Replay.ReplayRecord` | cpp/src/command/command_evidence_replay.cpp:72-211 | The body of the outer loop takes the reference step: same state, same budget, same report in the same order of tests. |
| `Replay.AdvanceWorld` | cpp/src/command/command_evidence_replay.cpp:115-142 | The inner loop performs up to the required number of ticks and stops at the first that throws. |
| `Replay.Report` | cpp/src/command/command_evidence_replay.cpp:14-38 | Each field of a report: tick, session sequence, pending count, fingerprint and regenerated head of the current state. |
| `WorldRuns.RunKeepsValid` | cpp/src/simulation/world.cpp:143-294 | Safety over every run of `add_entity`, `queue_velocity` and `advance`: maps share one domain, the queue is strictly sorted with future targets, residuals stay within ±999,999, elapsed is index times duration. |
| `WorldRuns.DeadBranches` | cpp/src/simulation/world.cpp:224-242 | From a new world no run can trip the tick-index overflow, the stale-command error or a missing `.at` key. |
| `WorldInvariant.AdvanceShape` | cpp/src/simulation/world.cpp:224-294 | A tick of a valid world succeeds if and only if elapsed time fits and every steered entity can be moved; its whole new state is described entity by entity, and only three of the six errors are possible. |
| `WorldMotion.AxisLaw` | cpp/src/simulation/world.cpp:44-74 | One axis is moved if and only if position plus truncated displacement lies in int64 and in the symmetric limit; which error, and the new position and residual. |
| `WorldMotion.TickSucceedsExactly` | cpp/src/simulation/world.cpp:224-294 | A tick of a valid world succeeds if and only if elapsed time fits and the velocity in force (of the top due command, or the own one) keeps every entity within the symmetric limit on both axes. |
| `WorldMotion.TickFailsByFirstEntity` | cpp/src/simulation/world.cpp:252-276 | A failing tick fails by the clock, or by the first entity in id order that would go too far, with the error of its first axis at fault. |
| `WorldMotion.SteeredIsInForce` | cpp/src/simulation/world.cpp:231-246 | Every entity has exactly one velocity in force, and the due commands give it that one and change nothing about its place. |
| `WorldSafety.NewWorldValid` | cpp/src/simulation/world.cpp:93-126 | The constructor's checks establish the invariant. |
| `WorldSafety.AddKeepsValid` | cpp/src/simulation/world.cpp:143-175 | Adding an entity, or refusing to, keeps the invariant. |
| `WorldSafety.QueueKeepsValid` | cpp/src/simulation/world.cpp:177-222 | Queueing a command, or refusing to, keeps the invariant, including strict order and per-entity sequence order of the queue. |
| `WorldSafety.AddAnswerIsExact` | cpp/src/simulation/world.cpp:143-175 | The exact condition of each answer of `add_entity`. |
| `WorldSafety.QueueAnswerIsExact` | cpp/src/simulation/world.cpp:177-222 | The exact condition of each answer of `queue_velocity`. |
| `WorldSafety.AdvanceKeepsValid` | cpp/src/simulation/world.cpp:224-294 | A successful tick keeps the invariant. |
| `WorldRuns.IntegrationNeverOverflows` | cpp/src/simulation/world.cpp:44-58 | From a new world no run reaches signed overflow: for every entity as the next tick integrates it, on both axes, velocity times duration, and that plus the residual, fit int64. |
| `WorldRuns.CommandsAreConserved` | cpp/src/simulation/world.cpp:177-294 | Over every run, commands pending at the start plus those accepted are, as multisets, those applied plus those pending at the end. |
| `WorldRuns.AppliedOnTime` | cpp/src/simulation/world.cpp:231-246 | Every applied command is applied at its own target tick. |
| `WorldRuns.AppliedExactlyOnce` | cpp/src/simulation/world.cpp:177-294 | An accepted command is applied exactly once if its target tick has been reached, and is pending exactly once otherwise. |
| `WorldRuns.AcceptedSequencesIncrease` | cpp/src/simulation/world.cpp:190-195 | Accepted sequences increase strictly within each entity over the whole run. |
| `WorldRuns.NoCommandTwice` | cpp/src/simulation/world.cpp:190-219 | No command occurs twice among those pending and accepted. |
| `WorldRuns.VelocityAfterTick` | cpp/src/simulation/world.cpp:231-246 | After a tick an entity has the velocity and sequence of its due command with the highest sequence, or keeps what it had when none is due. |
| `WorldRuns.LastSequenceNeverDecreases` | cpp/src/simulation/world.cpp:244-246 | `last_sequence` never decreases over a run. |
| `Integration.TickIsExact` | cpp/src/simulation/world.cpp:44-74 | One tick adds exactly velocity times duration to position·10^6 + residual, on either axis. |
| `Integration.RunIsExact` | cpp/src/simulation/world.cpp:252-276 | Over every run, position·10^6 + residual equals its starting value plus the tick duration times the sum of the velocities in force. |
| `Integration.PositionWithinOneMillimetre` | cpp/src/simulation/world.cpp:252-276 | The stored position is always less than one millimetre from the exact one. |
| `Integration.ConstantVelocityMovesExactly` | cpp/src/simulation/world.cpp:44-74 | From zero residual and at constant velocity v, n ticks of duration d move the entity by exactly trunc(n·v·d / 10^6). |
| `WorldInvariant.SortedUnique` | cpp/src/simulation/world.cpp:76-89 | Two strictly sorted queues with the same contents are equal. |
| `WorldInvariant.SortHasOneResult` | cpp/src/simulation/world.cpp:214-219 | Whatever permutation an unstable sort returns, it is the strictly sorted insertion, because the new key is distinct. |
| `WorldOrder.QueueOrderIsIrrelevant` | cpp/src/simulation/world.cpp:177-222 | Any two orderings of the same `queue_velocity` calls that keep each entity's own order give every command the same answer and identical worlds. |
| `WorldOrder.EntityRunIsLocal` | cpp/src/simulation/world.cpp:177-222 | Answers, accepted commands and map entries of one entity depend only on that entity's own calls. |
| `WorldOrder.AddOrderIsIrrelevant` | cpp/src/simulation/world.cpp:143-175 | Any two orderings of `add_entity` calls on distinct ids give every call the same answer and identical worlds. |
| `World.FixedStepClock.Advance` | cpp/include/tickline/simulation/tick_clock.hpp:44-62 | The clock ticks or reports which overflow would occur, and then stays as it was. |
| `World.MakeWorld` | cpp/src/simulation/world.cpp:93-126 | A world comes into being if and only if duration and limits are accepted, and it is then empty and valid. |
| `World.World.constructor` | cpp/src/simulation/world.cpp:93-126 | A new world is empty, at tick zero and valid. |
| `World.World.Copy` | cpp/src/command/command_evidence_replay.cpp:48-49 | A copy has the same value and its own clock. |
| `World.World.AddEntity` | cpp/src/simulation/world.cpp:143-175 | Answer and new state of `add_entity`; the invariant is kept. |
| `World.World.QueueVelocity` | cpp/src/simulation/world.cpp:177-222 | Answer and new state of `queue_velocity`, although the sort is known only to return some sorted permutation. |
| `World.World.Advance` | cpp/src/simulation/world.cpp:224-294 | `advance` moves to the next world, or returns the first error and changes nothing at all. |
| `World.StdSort` | cpp/src/simulation/world.cpp:216-219 | All that callers may use of `std::sort`: a permutation with no inversion. |
| `World.ApplyDueCommands` | cpp/src/simulation/world.cpp:231-246 | The command loop equals the recursive reference, including its early stop and both errors. |
| `World.IntegrateEntities` | cpp/src/simulation/world.cpp:252-276 | The entity loop equals the reference; the first failing entity in id order decides the error. |
| `World.RemoveDueCommands` | cpp/src/simulation/world.cpp:281-291 | Erasing the due commands equals the reference filter. |
| `WorldEncoding.EncodingIdentifiesWorld` | cpp/src/simulation/canonical_state.cpp:64-119 | Valid worlds with equal canonical encodings are equal: clock, limits, entities, residuals, both maps and the queue. |
| `WorldEncoding.Encode` | cpp/src/simulation/canonical_state.cpp:64-119 | The encoder's loops produce the canonical sections. |
| `Layouts.WorldHeaderLayout` | cpp/src/simulation/canonical_state.cpp:66-87 | The nine header fields of the canonical encoding, each at its offset. |
| `Layouts.WorldEntityLayout` | cpp/src/simulation/canonical_state.cpp:89-104 | Entity i in id order occupies the 80 bytes from 56 + 80i, with each of its ten fields at its offset. |
| `Layouts.WorldPendingLayout` | cpp/src/simulation/canonical_state.cpp:106-108 | The pending count follows the entities, and the length of the encoding. |
| `Layouts.WorldCommandLayout` | cpp/src/simulation/canonical_state.cpp:110-116 | Each pending command occupies 40 bytes, with each of its five fields at its offset. |
| `Bytes.TwosComplement` | cpp/src/simulation/canonical_state.cpp:44-49 | Signed fields are written in two's complement. |
| `Bytes.BigEndianAt` | cpp/src/simulation/canonical_state.cpp:23-42 | Each byte of an integer field is the value shifted right by the bytes that follow, truncated. |
| `Fingerprint.FingerprintBytes` | cpp/src/simulation/state_fingerprint.cpp:32-49 | The loop computes 64-bit FNV-1a. |
| `Fingerprint.KnownFingerprints` | cpp/src/simulation/state_fingerprint.cpp:32-49 | The published FNV-1a values of the empty string and of "a". |
| `Fingerprint.MixInjective` | cpp/src/simulation/state_fingerprint.cpp:43-46 | Each step is injective in the state and in the byte. |
| `Fingerprint.OneByteChangesFingerprint` | cpp/src/simulation/state_fingerprint.cpp:32-49 | Two equal-length byte strings that differ in exactly one byte have different fingerprints. |
| `Sha256.Compute` | cpp/src/security/sha256.cpp:284-397 | For every message under 2^61 bytes the block loop and the one- or two-block tail compute SHA-256 as FIPS 180-4 defines it. |
| `Sha256Laws.ChooseLaw` | cpp/src/security/sha256.cpp:85-91 | Each bit of `choose` is that of y where x has a one, and that of z where it has a zero. |
| `Sha256Laws.MajorityLaw` | cpp/src/security/sha256.cpp:93-99 | Each bit of `majority` is one exactly where at least two arguments have one. |
| `Sha256Laws.RotateLaw` | cpp/src/security/sha256.cpp:101-115 | Rotation moves bit i + n to position i, modulo 32. |
| `Sha256Laws.LargeSigmaLaws` | cpp/src/security/sha256.cpp:101-115 | Each bit of the large sigmas is the parity of three rotated bits. |
| `Sha256Laws.SmallSigmaLaws` | cpp/src/security/sha256.cpp:117-131 | Each bit of the small sigmas is the parity of two rotated bits and one shifted bit. |
| `Sha256Laws.RoundConstantLaw` | cpp/src/security/sha256.cpp:18-83 | The 64 round constants are the fractional parts of the cube roots of the first 64 primes. |
| `Sha256Laws.InitialHashLaw` | cpp/src/security/sha256.cpp:291-300 | The initial hash is the fractional parts of the square roots of the first eight primes. |
| `Sha256Laws.PrimesAreConsecutive` | cpp/src/security/sha256.cpp:18-83 | The primes of the two laws are the primes from 2 on, none left out. |
| `Sha256.ProcessBlock` | cpp/src/security/sha256.cpp:148-214 | One block updates the state by the compression function of section 6.2.2 of FIPS 180-4. |
| `Sha256.FillSchedule` | cpp/src/security/sha256.cpp:152-171 | The schedule array holds the message schedule, with chained 32-bit additions equal to the sum modulo 2^32. |
| `Sha256.RunRounds` | cpp/src/security/sha256.cpp:173-204 | The 64 rounds on eight rotating variables equal the recursive rounds. |
| `Sha256.FillTail` | cpp/src/security/sha256.cpp:321-367 | The tail is the rest of the message, 0x80, zeros and the length field, which never overlap. |
| `Sha256.HashCompleteBlocks` | cpp/src/security/sha256.cpp:302-319 | The loop over complete blocks folds the compression function over them. |
| `Sha256.HashTail` | cpp/src/security/sha256.cpp:321-383 | Processing the tail folds the compression function over its one or two blocks. |
| `Sha256.PadIsPadding` | cpp/src/security/sha256.cpp:323-342 | Padding by section 5.1.1 of FIPS 180-4 is the complete blocks followed by the tail. |
| `Sha256.HashBlocksSplit` | cpp/src/security/sha256.cpp:302-319 | Folding over a concatenation is folding over its parts, at block boundaries. |
| `Sha256.WriteDigest` | cpp/src/security/sha256.cpp:385-397 | The digest is the eight state words in big-endian order. |
| `Commands.AdmissionIsExact` | cpp/src/command/command_session.cpp:103-132 | A session admits a command if and only if it is a current-schema velocity command of this client and session with a new sequence, a target inside the window and an admissible velocity; rejections carry one of the admission codes. |
| `Commands.RejectionIsFirstViolation` | cpp/src/command/command_validator.cpp:46-114 | A command is rejected with the lowest code whose reason applies, and with no other; an admitted one is translated field by field. |
| `Commands.CommandSession.CommitAcceptedSequence` | cpp/src/command/command_session.cpp:145-149 | Only the highest accepted sequence changes. |
| `Pipeline.DecideIsTransactional` | cpp/src/command/authoritative_command_pipeline.cpp:94-184 | Acceptance means a new session sequence, a new entity sequence and one more pending command; rejection changes nothing; queue outcomes `stale_tick` and `unknown` never occur. |
| `Pipeline.DecisionIsExact` | cpp/src/command/authoritative_command_pipeline.cpp:110-180 | The code and the queue outcome of every submission, by admission, entity, sequences, target tick and velocity. |
| `Pipeline.AnswerIsTheDecision` | cpp/src/command/authoritative_command_pipeline.cpp:66-92 | What the caller is told is the decision: its code, and the queue's answer exactly if the queue was asked. |
| `Pipeline.SubmitIsTransactional` | cpp/src/command/authoritative_command_pipeline.cpp:94-184 | Every submission appends exactly one record that describes it, passes the decoder's checks and stores the code the caller is told; the log keeps verifying; session and world change if and only if that code is none, and then exactly the command is queued. |
| `Pipeline.EntryIsOk` | cpp/src/command/command_evidence.cpp:263-331 | What the pipeline records satisfies the record checks. |
| `Pipeline.AuthoritativeCommandPipeline.Submit` | cpp/src/command/authoritative_command_pipeline.cpp:94-184 | The imperative submission produces exactly the decided state, log and answer. |
| `Sessions.RunKeepsSound` | cpp/src/command/authoritative_command_pipeline.cpp:94-184 | Over every run of submissions through any number of sessions, direct `add_entity` and `queue_velocity` calls and ticks, the world stays valid and the log stays a verifying list of checked records. |
| `Sessions.AdmittedSequencesIncrease` | cpp/src/command/command_session.cpp:120-132 | Over every such run, accepted sequences increase strictly within each session and within each entity, whichever sessions they came through. |
| `Sessions.EveryLogArchives` | cpp/src/command/command_evidence_archive.cpp:233-441 | The log of every such run can be archived and is read back unchanged. |
| `Evidence.RecordCodecIsExact` | cpp/src/command/command_evidence.cpp:349-648 | A 160-byte string decodes to a record if and only if the record passes the checks and the string is its encoding. |
| `Evidence.EncodingIsInjective` | cpp/src/command/command_evidence.cpp:349-450 | Different records, checked or not, have different encodings. |
| `Evidence.RecordOkIsExact` | cpp/src/command/command_evidence.cpp:181-331 | A record passes the checks if and only if its outcome and code are one of the coherent pairs and its transition is the one that goes with them. |
| `EvidenceCodec.RecordErrorIsFirstDefect` | cpp/src/command/command_evidence.cpp:452-648 | A record is refused with the error of its first defect, by offset, and accepted if it has none. |
| `Layouts.RecordLayoutIs` | cpp/src/command/command_evidence.cpp:349-450 | The 22 fields of the record, each at its offset. |
| `EvidenceCodec.EncodeCommandEvidence` | cpp/src/command/command_evidence.cpp:349-450 | The writer fills the buffer with the record's fields. |
| `EvidenceCodec.DecodeCommandEvidence` | cpp/src/command/command_evidence.cpp:452-648 | The reader decodes, or reports the first failing test in the source's order. |
| `EvidenceCodec.EvidenceWriter.AppendU64` | cpp/src/command/command_evidence.cpp:47-67 | Appends eight big-endian bytes and moves the cursor. |
| `EvidenceCodec.EvidenceReader.ReadU64` | cpp/src/command/command_evidence.cpp:128-140 | Reads the eight bytes at the cursor and moves it. |
| `Chain.VerifyCommandEvidenceChain` | cpp/src/command/command_evidence.cpp:663-697 | The loop accepts exactly the lists with consecutive ordinals, linked digests and the given head. |
| `Chain.TamperingBreaksTheHash` | cpp/src/command/command_evidence.cpp:663-697 | Two lists that verify under one head are equal, or comparing them yields two different 160-byte encodings with one digest or an encoding with an all-zero digest; the latter only if one list is empty. |
| `Chain.AppendKeepsChain` | cpp/src/command/command_evidence.cpp:750-781 | Appending keeps the chain verifying. |
| `Chain.CommandEvidenceLog.Append` | cpp/src/command/command_evidence.cpp:750-781 | Appends the record with the next ordinal and the old head, and moves the head to its digest. |
| `Chain.DigestCommandEvidence` | cpp/src/command/command_evidence.cpp:650-661 | The digest is SHA-256 of the encoding. |
| `Archive.ArchiveCodecIsExact` | cpp/src/command/command_evidence_archive.cpp:306-441 | A byte string is accepted under a trusted head if and only if it is the encoding of a chain-valid list of checked records with that head, and then decodes to that list. |
| `Archive.ArchiveErrorIsFirstDefect` | cpp/src/command/command_evidence_archive.cpp:306-441 | An archive is refused with the error of its first defect, then by its first bad record, its chain, or the trusted head. |
| `Layouts.ArchiveLayoutIs` | cpp/src/command/command_evidence_archive.cpp:261-304 | The seven header fields at their offsets, and record i in the 160 bytes from 56 + 160i. |
| `Archive.RoundTripNeedsCheckedRecords` | cpp/src/command/command_evidence_archive.cpp:233-304 | The decoder accepts what the encoder writes if and only if every record passes the record checks, which the encoder does not run; it then returns exactly those records. |
| `Archive.UncheckedRecordIsLost` | cpp/src/command/command_evidence_archive.cpp:233-304 | A concrete record that is archived and whose archive the decoder refuses. |
| `Archive.AcceptedArchiveIsTheLog` | cpp/src/command/command_evidence_archive.cpp:306-441 | End to end: under the head of a verifying log the decoder accepts only the archive of that log, or the accepted archive hands over a break of SHA-256. |
| `Archive.CheckedArchiveSize` | cpp/src/command/command_evidence_archive.cpp:183-214 | The size is computed if and only if it fits 64 bits. |
| `Archive.EncodeCommandEvidenceArchive` | cpp/src/command/command_evidence_archive.cpp:233-304 | The writer produces the archive bytes or the source's error; the size test at its end cannot fail. |
| `Archive.DecodeCommandEvidenceArchive` | cpp/src/command/command_evidence_archive.cpp:306-441 | The reader decodes, or reports the first failing test in the source's order. |
| `Frames.HeaderIsExact` | cpp/src/protocol/frame_parser.cpp:52-109 | A header is accepted if and only if it is the encoding of a frame size within the limit. |
| `Frames.FrameIsExact` | cpp/src/protocol/frame_parser.cpp:111-137 | A frame is accepted if and only if it is the encoding of its payload and fits the limit. |
| `Frames.HeaderErrorIsFirstDefect` | cpp/src/protocol/frame_parser.cpp:52-109 | A header is refused with the error of its first defect, in the source's order of tests. |
| `Frames.FrameErrorIsExact` | cpp/src/protocol/frame_parser.cpp:111-137 | Beyond its header a frame is refused only for being shorter or longer than declared. |
| `StreamParser.ChunkingIsIrrelevant` | cpp/src/protocol/stream_parser.cpp:23-101 | Two ways of cutting the same bytes into pushes leave the same buffer, header and failure; without a failure the same frames, with one a prefix of the byte-at-a-time frames. |
| `StreamParser.DeliveringPushes` | cpp/src/protocol/stream_parser.cpp:23-101 | The frames delivered are exactly those of the pushes before the first failing one; before it the parser has not failed, after it it has. |
| `StreamParser.FailingPushLosesItsFrames` | cpp/src/protocol/stream_parser.cpp:23-101 | The byte-at-a-time frames are those delivered followed by those completed inside the failing push, so a cutting delivers them all if and only if no frame ends inside the push that fails. |
| `StreamParser.CuttingsCanDiffer` | cpp/src/protocol/stream_parser.cpp:53-58 | Two cuttings of the same bytes that deliver different frames: any frame followed by any undecodable header, in one push or in two. |
| `StreamParser.SinglePushesLoseNothing` | cpp/src/protocol/stream_parser.cpp:23-101 | Pushing one byte at a time delivers every frame of the reference, failure or not. |
| `StreamParser.FeedAllKeepsGood` | cpp/src/protocol/stream_parser.cpp:23-101 | Whatever arrives, the buffer never exceeds the frame limit. |
| `StreamParser.CompletedFrameParses` | cpp/src/protocol/stream_parser.cpp:81-85 | Parsing a completed frame cannot fail. |
| `StreamParser.BytesAreConserved` | cpp/src/protocol/stream_parser.cpp:23-101 | Until a failure, the bytes fed are exactly those of the delivered frames followed by the buffered ones. |
| `StreamParser.FrameGoesThrough` | cpp/src/protocol/stream_parser.cpp:23-101 | A complete frame passes through an idle parser as itself and leaves it idle. |
| `StreamParser.FrameStreamParser.Push` | cpp/src/protocol/stream_parser.cpp:23-101 | The bulk-copying loop terminates and equals feeding byte by byte, in state, frames and failure. |
| `StreamParser.FrameStreamParser.Finish` | cpp/src/protocol/stream_parser.cpp:103-118 | A non-empty buffer turns into the matching truncation failure; an earlier failure stays. |
| `StreamParser.FrameStreamParser.Reset` | cpp/src/protocol/stream_parser.cpp:120-125 | The parser is as new. |
| `WireCodec.EnvelopeIsExact` | cpp/src/protocol/command_envelope_codec.cpp:152-186 | A payload decodes to an envelope if and only if it is that envelope's encoding. |
| `WireCodec.EnvelopeErrorIsExact` | cpp/src/protocol/command_envelope_codec.cpp:152-186 | A payload is refused for its size, then for a zero entity identifier, and for nothing else. |
| `Layouts.CommandFrameLayout` | cpp/src/protocol/command_envelope_codec.cpp:78-150 | The header and envelope fields of the 76-byte frame, each at its offset. |
| `WireCodec.CommandFrameIsExact` | cpp/src/protocol/command_envelope_codec.cpp:188-200 | A frame decodes to an envelope if and only if it is its canonical 76-byte frame and the limit admits it. |
| `WireCodec.WireRoundTrip` | cpp/src/protocol/command_envelope_codec.cpp:78-200 | For every list of envelopes and every cutting of their frames into chunks, parser and decoder return exactly that list and the parser is idle again. |
| `WireCodec.EncodeCommandFrame` | cpp/src/protocol/command_envelope_codec.cpp:118-150 | Filling the 76-byte buffer in place gives the canonical frame. |
| `WireCodec.DecodeCommandEnvelope` | cpp/src/protocol/command_envelope_codec.cpp:152-186 | Decodes at fixed offsets, or reports the first failing test. |
| `Gateway.OnlyCanonicalFramesMatter` | cpp/src/protocol/authoritative_command_gateway.cpp:81-99 | Session, world and log change only on the canonical frame of an envelope, which submits exactly that envelope. |
| `Gateway.GatewaySubmitsAll` | cpp/src/protocol/authoritative_command_gateway.cpp:81-99 | One canonical frame per envelope submits exactly those envelopes, in order. |
| `Gateway.AuthoritativeCommandGateway.Submit` | cpp/src/protocol/authoritative_command_gateway.cpp:81-99 | The imperative gateway takes the decoded step and returns its answer. |
| `Planner.BuildPlan` | tools/tickline-dev/internal/task/plan.go:8-127 | Succeeds if and only if the selection is valid and its dependency closure is non-empty and reaches no cycle, unknown or skipped stage; the plan is that closure without duplicates, dependencies first, in depth-first post-order of the manifest; every error names a genuine defect. |
| `Planner.PlanBuilder.Visit` | tools/tickline-dev/internal/task/plan.go:65-108 | The three-colour search terminates, keeps the order of the plan, and reports only stages that really block it. |
| `Planner.PlanBuilder.VisitDependencies` | tools/tickline-dev/internal/task/plan.go:92-102 | After the loop all dependencies are planned, in depth-first post-order. |
| `Planner.ResolveSelection` | tools/tickline-dev/internal/task/plan.go:17-58 | The selection checks accept exactly the valid selections and return the skipped and the selected stages. |
| `Planner.ValidateSelectionIDs` | tools/tickline-dev/internal/task/plan.go:129-166 | Accepts exactly the lists of known, distinct, non-empty identifiers after trimming, and otherwise names a genuine defect. |
| `Planner.TrimSpaceIsExact` | tools/tickline-dev/internal/task/plan.go:137-137 | Trimming an identifier cuts exactly the spaces at both ends. |
| `TaskGraph.OrderedMeansClosedAndAcyclic` | tools/tickline-dev/internal/task/plan.go:92-105 | A list with dependencies first contains everything its members need and no stage on a cycle. |
| `Manifest.ValidateAcyclic` | tools/tickline-dev/internal/task/manifest.go:360-421 | Accepts if and only if the graph has no cycle, and otherwise reports a genuine one. |
| `Manifest.CycleFinder.Visit` | tools/tickline-dev/internal/task/manifest.go:375-412 | The search terminates; finished stages stay a dependency order; a reported cycle is a closed walk. |
| `Manifest.CycleFinder.ReportCycle` | tools/tickline-dev/internal/task/manifest.go:377-393 | The part of the stack from the stage on, closed by it, is a cycle. |
| `Manifest.Validate` | tools/tickline-dev/internal/task/manifest.go:144-227 | Accepts exactly the well-formed manifests, and otherwise names a genuine defect. |
| `Manifest.TaskIdsAreJoinedWords` | tools/tickline-dev/internal/task/manifest.go:14-14 | The accepted identifiers are exactly the words of lower-case letters and digits joined by single dashes. |
| `Manifest.ValidatedManifestsPlan` | tools/tickline-dev/internal/task/manifest.go:144-227 | For a validated manifest, planning fails only because nothing is selected or a needed stage is skipped. |
| `Runner.Run` | tools/tickline-dev/internal/runner/runner.go:27-155 | Results and events of every run, for every pattern of output, stage outcomes and cancellation: entries with status, exit code and error text, and the events of each stage in order; no result and no event without a root directory or with an empty plan. |
| `Runner.AppendSkipped` | tools/tickline-dev/internal/runner/runner.go:505-533 | The remaining stages are reported as skipped, in order. |
| `Runner.ResultsHaveOneStop` | tools/tickline-dev/internal/runner/runner.go:89-144 | Passed stages, then at most one failed, cancelled or internal-error stage, then only skipped ones; every field of each entry. |
| `Runner.OutputIsReported` | tools/tickline-dev/internal/runner/runner.go:158-180 | While a stage runs, each chunk of its output is reported in order under its id and stream, between start and finish. |
| `Runner.NoStageStartsEarly` | tools/tickline-dev/internal/runner/runner.go:89-144 | For every plan of the planner, before a stage starts each of its transitive dependencies has finished and passed. |
| `Shutdown.ProtocolIsSafe` | tools/tickline-dev/internal/runner/runner.go:230-306 | In every interleaving the error channel is closed and the buffers are read only after both captures ended, no capture blocks on sending its error, and each captured stream is the concatenation of its emitted chunks. |
| `Shutdown.RunKeepsInv` | tools/tickline-dev/internal/runner/runner.go:348-503 | Every step of the goroutines, the cancellation and the timer keeps the protocol invariant. |
| `Shutdown.OutcomeIsExact` | tools/tickline-dev/internal/runner/runner.go:285-341 | The result of every finished run from its history alone: cancelled iff a cancellation was noticed, else internal error iff a read or the wait failed, else passed or failed by how the process exited; the reported streams are all the bytes read, to their end unless a read failed. |
| `Shutdown.NeverStuck` | tools/tickline-dev/internal/runner/runner.go:348-436 | No interleaving deadlocks: until the stage has its result some step other than a cancellation or the timer is enabled. |
| `Shutdown.RunsAreBounded` | tools/tickline-dev/internal/runner/runner.go:362-436 | Every run takes at most 26 steps plus three per read, so with `NeverStuck` a stage whose streams end gets its result. |

## Left out

- Replay of logs with several sessions, and of runs that call `add_entity` or `queue_velocity` directly between submissions: the replayer takes one session and only advances to observed ticks, so it cannot rebuild them. Everything else about such runs is covered (`Sessions`).
- WorldEncoding.EncodingIdentifiesWorld: assumes that fewer than 2^64 commands are pending, since the count is written in eight bytes.
- Sha256.Compute: says nothing about messages of 2^61 bytes or more, for which FIPS 180-4 defines no digest.
- Sessions.EveryLogArchives: assumes that the record count fits the archive size limit, beyond which the encoder refuses.
- Runner.Run: leaves out timestamps, durations, event sequence numbers, termination signals and the captured streams, which the model of one stage (`Shutdown`) covers.
- Shutdown.ProtocolIsSafe: starts once the process runs; failures to create a pipe or to start the command, and errors of the termination signals, are not modelled.
- Delivery order of runner event sequence numbers, which are taken before the observer lock.
- Error texts of the planner and its copying of dependency slices.
- Parsing of the manifest file, and script-path and symlink checks.
- SQLite storage, the bundle exporter, and the Python and Unity validators.
- Reading and writing archive files around the codec.
- Python analytics, Unity viewer, Go TUI, CLI, diagnostics, run logs and JSON reports.
- Name tables, version strings and hex printing, which would only add easy members.
- Allocation failure and `max_size` limits.
