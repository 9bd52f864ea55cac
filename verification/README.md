# Verified model of the orchestrator's checking kernels

The orchestrator runs video and audio tools over a run directory and trusts very little of
what they hand back. Its trust rests on a number of small, closed checks: a one-pass PNG
reader, two independent MIDI readers and the writer they read back, the rounding and
ordering of transcribed notes, an exact rational audio clock, frame-range selection, the
target-resolution decision, path separation of provider invocations, placeholder
expansion, stage naming, the accounts of delivered metadata, and above all the chain of run
manifests through which a run is executed, cancelled, interrupted, resumed and rerun. This
project models those checks in Dafny, in the form the code gives them (loops over buffers,
cursors, growing sets and counters stay loops; expressions stay functions), and proves for
every input what each check decides and what its acceptance guarantees.

`dafny verify dfyconfig.toml` checks the whole project.

## How the model is laid out

| file | what it models |
|---|---|
| `RunManifests.dfy`, `RunDirectory.dfy` | the append-only, hash-linked chain of run manifests, its lifecycle rules and its files |
| `PipelineGraph.dfy` | the dependency graph of an authored pipeline, with every stage's ancestors |
| `RunExecution.dfy`, `RunTrace.dfy`, `RunSession.dfy` | the executor of a plan: the records it proposes, what a session does as data, and the executor itself, one revision and one checkpoint after another |
| `RunSafety.dfy`, `RunJudgement.dfy` | what every run keeps on disk, and which revisions the lifecycle rules refuse |
| `RunFates.dfy`, `RunRebuilds.dfy`, `RunOutcomes.dfy`, `RunRecords.dfy`, `RunRefusals.dfy` | what becomes of each stage, told from where a session starts; that nothing stale is left; exactly how sessions end; what they leave on record; runs that reach every refusal |
| `Bits.dfy`, `Crc32.dfy` | words and bytes as bounded integers; the table-driven CRC-32 and the division it stands for |
| `PngFormat.dfy` | the strict PNG profile as a grammar and its printer (RFC 2083, sections 3.2, 3.4 and 4.3) |
| `PngInspection.dfy`, `PngReader.dfy` | the reader as a function of the bytes, and the reader itself over an open file |
| `Registers.dfy`, `KnownFiles.dfy` | the division carried out on numbers; known checksums, chunks and whole files |
| `Vlq.dfy`, `NotePairing.dfy`, `MidiMessages.dfy`, `MidiFile.dfy` | Standard MIDI Files 1.0: quantities, note pairing, messages, the written file |
| `MidiReader.dfy`, `SmokeMidiReader.dfy` | the strict Rust reader, and the read-back of the smoke script |
| `NoteSweep.dfy`, `NoteNormaliser.dfy`, `NativeNotes.dfy`, `MidiWriter.dfy`, `PlayingTime.dfy` | from transcribed notes to microseconds, to ticks, to the file, and back to the time they are heard |
| `AudioClock.dfy`, `AudioTimeline.dfy`, `AudioExtensions.dfy` | frames and exact seconds, timelines, the bounded walk of extension values |
| `FrameSelection.dfy`, `RangeText.dfy` | selection of inclusive frame ranges, and their notation |
| `UpscaleTarget.dfy` | the target-resolution decision and its resources |
| `InvocationRequest.dfy` | provider invocations and the separation of their paths |
| `Placeholders.dfy`, `PlaceholderSafety.dfy`, `StageNames.dfy` | argument templates, identifiers, stage names and derived paths |
| `DeliveryMetadata.dfy`, `Framehash.dfy`, `FramehashText.dfy`, `BoundedCapture.dfy` | metadata accounts, the decoder's framehash and its print, bounded capture |
| `Sorting.dfy`, `Distinctness.dfy`, `Decimals.dfy`, `Text.dfy`, `Widths.dfy`, `Wrappers.dfy` | the library operations these rest on |

Conventions:

- Machine integers are integers with their bounds written out; every checked or narrowing
  operation of the code appears as a comparison with 2^32, 2^63 or 2^64. Exclusive or and
  conjunction are defined digit by digit in `Bits.dfy`.
- A file is an immutable byte sequence. Python floats that enter the note normaliser are
  exact rationals, as `as_integer_ratio` makes them.
- An error is an enumerated value where the code distinguishes reasons a caller can tell
  apart; where the code's refusals are one category, acceptance alone is modelled.
- What the code obtains from tables or tools outside these kernels (case folding, white
  space, the order of a map's iteration or of a stack's extension) is a parameter or an
  arbitrary choice, so results hold for all of them.

## Where the code is not what one might expect

- The executor can propose a revision that its own lifecycle rules refuse. While revision
  numbers last, and as long as nothing outside removes checkpoint files, it does so in exactly
  three situations, each told from the records and files that the session starts from
  (`RunFates.Refuses`, `RunOutcomes.SessionOutcome`): a forced stage is cancelled after its
  checkpoint was published and before its completion was recorded, when its rerun flag is
  already cleared in memory; a stage without a fitting checkpoint is invalidated, and it or a
  dependent of it already waits, invalidated for another reason, with no rerun due; a stage
  recorded as complete is to be reused with another checkpoint than the accepted one. Runs of
  one stage reach each of them (`RunRefusals`). In each the chain on disk stays valid and keeps
  every obligation, and the session stops with a state error. An excluded checkpoint is never
  proposed, because its file exists and is not replaced (`RunJudgement.JudgePublished`), a
  pending stage is never reused, and a first session without reruns is never refused
  (`RunOutcomes.FreshIsNeverRefused`).
- No run ever skips a stage: the skipped state is unreachable.
- `frame_for_time` can refuse with an overflow on a valid source and a valid time: 2^53 - 1
  seconds at 768 kHz exceed 64 bits of frames. `AudioClock.FrameOverflowExactly` says when,
  and that the other overflow branch is dead.
- The note normaliser refuses some notes that end exactly where their source ends, because
  the source's duration is rounded down while note ends are rounded to nearest.
  `NoteNormaliser.RoundingStaysInside` gives the exact condition on the frame count, and
  `NoteNormaliser.NoteAtSourceEndRefused` an input of two frames.
- The smoke script reads back every writable note list whose file is at most 1 MiB; larger
  ones it refuses by size alone.
- In `encode_midi` neither the byte bound nor the read-back comparison can ever refuse, and
  in the native validation the second overlap check, on ticks, is implied by the first.
- A target decision that forces reprocessing is not repeated as a bypass: deciding again on
  the outcome under the same policy bypasses if and only if the policy does not force it
  (`UpscaleTarget.SecondDecisionBypasses`); a forced exact target, once met, is refused
  (`UpscaleTarget.ForcedExactIsRefused`).
- `expand_argument` is not always one simultaneous substitution. For a template it is, with
  all input, output and frame values free of opening braces, if and only if no stray brace
  and the plain text after it are the beginning of a placeholder that is cut off by the hole
  of a slot replaced earlier (`PlaceholderSafety.TemplateIsSafe`). For a value it is, in all
  templates whose every brace starts a placeholder, if and only if no part of the value from a
  brace on begins a later placeholder or is begun by one (`PlaceholderSafety.ValueIsSafe`).
- Stage names are distinct for every pipeline, including those whose identifiers were never
  validated: the number alone keeps them apart.

## Model

| member | source | states |
|---|---|---|
| RunManifests.CheckSuccessor | src/state_v3.rs:896-966 | the loop over stage pairs, with its saturating count of changes, accepts exactly the revisions that follow: same authority and stage order, an allowed run transition, one changed stage or a marked rerun frontier |
| RunManifests.AuthorityIsImmutable | src/state_v3.rs:917-927 | over a whole chain, run, plan, creation time and stage order never change, and time never runs backwards |
| RunManifests.HeadDeterminesHistory | src/state_v3.rs:903-916 | two chains with the same last digest are the same chain, or they exhibit a collision of the digest |
| RunManifests.ChainLives | src/state_v3.rs:948-954 | every stage of a valid chain lives by the stage rules from pending on |
| RunManifests.ExclusionsGrow | src/state_v3.rs:989-992 | an exclusion is never taken back |
| RunManifests.ExcludedNeverAccepted | src/state_v3.rs:266-274 | a checkpoint once excluded is not accepted again for the rest of the run |
| RunManifests.ObligationsAreMet | src/state_v3.rs:989-992 | a requested rerun stays due until the stage completes with a checkpoint not excluded at the request |
| RunManifests.PendingOnlyAtFirst | src/state_v3.rs:1008-1047 | no stage is ever skipped, and none returns to pending |
| RunManifests.EntryRules | src/state_v3.rs:1008-1047 | for each state, exactly the states from which a stage may enter it |
| RunManifests.RunsEndFromRunning | src/state_v3.rs:968-985 | a run is interrupted, fails or completes only from running |
| RunManifests.AcceptanceIsStable | src/state_v3.rs:993-1006 | an accepted checkpoint is replaced only by way of an explained invalidation |
| RunManifests.CompleteRunIsAccepted | src/state_v3.rs:707-723 | a complete run has an accepted, never excluded checkpoint for every stage, and outputs |
| RunDirectory.RunDirectory.Load | src/state_v3.rs:829-879 | whatever order the directory lists, the one chain it holds is found, and its absence is noticed |
| RunDirectory.HeldOnce | src/state_v3.rs:829-879 | a directory holds at most one chain |
| RunDirectory.ReadOneMore | src/state_v3.rs:850-877 | a file continues what was read exactly when it passes the loader's checks |
| RunDirectory.RunDirectory.Append | src/state_v3.rs:551-573 | a revision is published exactly when it continues the chain held; otherwise nothing changes |
| RunExecution.Frontier | src/run_v3/cache_gate.rs:26-41 | the repeated passes find the least set that holds the roots and everything depending on them |
| RunExecution.NextAccepted | src/run_v3.rs:1266-1278 | exactly when a proposed revision is accepted |
| RunExecution.OneChange | src/state_v3.rs:948-962 | when one record changes, only that change is judged |
| RunExecution.ReuseAccepted | src/run_v3.rs:782-817 | reuse is accepted exactly from a state that was worked on, a complete stage keeping its checkpoint |
| RunExecution.InvalidationAccepted | src/run_v3.rs:1322-1341 | invalidation is refused exactly where an invalidated stage without a due rerun would change its explanation |
| RunExecution.CompletionAccepted | src/run_v3.rs:1127-1155 | completion is accepted exactly with a checkpoint that is not excluded |
| RunExecution.CancelledCompletionAccepted | src/run_v3.rs:1127-1145 | a cancellation after the rerun flag was cleared is accepted exactly when no rerun was due |
| RunExecution.MarkAccepted | src/run_v3.rs:742-759 | marking a rerun is always accepted, and excludes every checkpoint on disk |
| RunTrace.FreshIsValid | src/run_v3.rs:451-470 | revision 1 is a valid chain with every stage of the plan pending |
| RunTrace.FirstKept | src/run_v3.rs:2557-2608 | the result is a checkpoint if and only if it stands somewhere in the list, newest first, on disk and not excluded, and every newer one is excluded or gone |
| RunSession.Session.constructor | src/run_v3.rs:451-470 | a fresh run is revision 1 and no checkpoint |
| RunSession.Session.Append | src/run_v3.rs:1266-1278 | a revision is appended exactly when it validates and follows the last one, and revision numbers remain |
| RunSession.Session.ChangeStage | src/run_v3.rs:1266-1278 | one stage record changes, and exactly one revision says so if the rules take it |
| RunSession.Session.FailStage | src/run_v3.rs:1344-1370 | the stage and the run are recorded as failed or cancelled, and the session ends |
| RunSession.Session.PublishStage | src/state_v3.rs:597-607 | a checkpoint file is published before the completion that names it is recorded; where the file exists the stage fails instead |
| RunSession.Session.BuildStage | src/run_v3.rs:840-1180 | the revisions of starting, validating and completing a stage, in that order, or of its failure or cancellation at the point where the attempt stops |
| RunSession.Session.InvalidateFrontier | src/run_v3.rs:1280-1342 | exactly the stage and every stage that reaches it become invalidated, the stage with the given reason and the others with the dependency reason, one revision each in plan order; all other records and the checkpoints stay |
| RunSession.Session.VisitStage | src/run_v3.rs:762-1180 | a visit is cancelled if cancellation came first, else reuses the newest fitting checkpoint, else invalidates the frontier and builds, else builds; the set of invalidated stages grows by exactly that frontier |
| RunSession.Session.VisitStages | src/run_v3.rs:762-1180 | the stages are visited in plan order until one ends the session |
| RunSession.Session.MarkReruns | src/run_v3.rs:740-760 | one revision marks every forced stage and excludes each checkpoint that can be read, before anything runs |
| RunSession.Session.FinishRun | src/run_v3.rs:1183-1226 | the end of a session makes the one revision its ending asks for, and the session ends as it says; what that revision records is stated in `RunRecords.SessionIsRecorded` |
| RunSession.Session.Execute | src/run_v3.rs:717-1237 | a session does on disk exactly what its script says, up to the first revision that is refused, and its outcome says which |
| RunSession.Session.Resume | src/run_v3.rs:492-562 | the same from the last accepted revision, after an interrupted revision if the run was left running |
| RunSafety.EveryRunIsSafe | src/run_v3.rs:391-562 | every run there can be, a first session and any number of resumptions, each refused or cut short between any two effects, keeps one valid chain in which no stage started before its dependencies were complete, every accepted or excluded checkpoint on disk, and with a due rerun those of all dependents |
| RunSafety.EarlierSuffice | src/run_v3.rs:762-900 | the stages before one include everything it depends on |
| RunSafety.FrontierIsFromRoot | src/run_v3.rs:1280-1300 | invalidating a stage never reaches one planned before it |
| RunSafety.ForcedIsClosed | src/run_v3.rs:738-740 | with a stage that is forced, everything that depends on it is forced |
| RunJudgement.OutcomeIsJudged | src/run_v3.rs:1266-1278 | the disk refuses exactly the first revision that breaks the stage rules |
| RunJudgement.InvalidationResult | src/run_v3.rs:1322-1341 | after an invalidation exactly the records of the frontier are invalidated, each with its reason |
| RunJudgement.JudgeInvalidation | src/run_v3.rs:1322-1341 | an invalidation is refused exactly at the first stage of the frontier that waits for another reason with no rerun due |
| RunJudgement.JudgePublished | src/run_v3.rs:1075-1155 | after validation only the late cancellation of a due rerun is refused; a completion never is, since an excluded checkpoint exists and is not published again |
| RunJudgement.JudgeBuild | src/run_v3.rs:840-1180 | a build is refused exactly in the late cancellation of a due rerun, and goes on exactly if the attempt completes |
| RunFates.VisitEnters | src/run_v3.rs:762-1180 | a later stage is untouched when its turn comes unless it was marked or invalidated with one it depends on, and a stage left behind has exactly its reused or completed record and files |
| RunFates.SessionSettles | src/run_v3.rs:717-1237 | a session that is not refused ends at the first visit that ends it or as its ending says, with a complete run exactly if every visit goes on and the ending completes, and then every stage is settled |
| RunFates.SessionIsJudged | src/run_v3.rs:717-1237 | a session is refused exactly at a visit that it meets and that is refused by a condition on the records it starts from |
| RunRebuilds.KeptIsCurrent | src/run_v3.rs:781-830 | a checkpoint is kept only if those of all ancestors are kept |
| RunRebuilds.SessionRenews | src/run_v3.rs:717-1237 | in a session that runs through every stage is kept or built, and whatever is invalidated is built afterwards with all that depends on it |
| RunOutcomes.SessionOutcome | src/run_v3.rs:717-1237 | from any disk a run can leave, a session is refused with a given kind of revision if and only if it meets a visit with exactly that condition, ends otherwise as the records, files and script it starts from tell, and completes the run if and only if no visit is refused, every visit goes on and the ending completes |
| RunOutcomes.FinishedLeaves | src/run_v3.rs:782-817 | a session that completes the run leaves every stage with its reused or newly completed record, and every new checkpoint on disk |
| RunOutcomes.NoStaleDependents | src/run_v3.rs:1280-1342 | in a session that completes the run, whenever a revision invalidates a stage, that stage and every stage that reaches it newly runs, is validated and completes in later revisions |
| RunOutcomes.FreshIsNeverRefused | src/run_v3.rs:391-490 | a first session without requested reruns is refused nowhere |
| RunOutcomes.DirectoryAgrees | src/state_v3.rs:551-573 | a directory that holds the session's chain publishes exactly the revisions that the session appends, and then holds the longer chain |
| RunOutcomes.DirectoryFollows | src/state_v3.rs:551-573 | through a whole session the directory holds the session's chain and loses no file |
| RunRecords.FatesExactly | src/run_v3.rs:738-830 | whether a stage is rerun, built afresh, invalidated as a root or as a dependent, or kept with which checkpoint, told from the request, the plan's dependencies and the newest fitting checkpoints alone |
| RunRecords.KeptOrBuilt | src/run_v3.rs:717-1237 | in a finished session a stage keeps the newest fitting checkpoint if and only if no rerun is asked for and it and all it depends on have one; any other stage newly runs, is validated and completes with a checkpoint that was not there, and a rerun excludes every readable checkpoint |
| RunRecords.SessionIsRecorded | src/run_v3.rs:1183-1226 | the last revision is complete if and only if the session completes the run, with the script's outputs and delivery and no diagnostic; a cancelled or failed session records that state, with the diagnostic of the visit or ending that stopped it, and neither outputs nor delivery |
| RunRecords.StoppedLeaves | src/run_v3.rs:1344-1370 | a session that a stage stops leaves the stages before it kept or built, the stage failed or cancelled with its message unless its completion was recorded already, and later stages waiting as their invalidation or rerun left them |
| RunRecords.InterruptionIsRecorded | src/run_v3.rs:536-546 | a run that was left running is first recorded as interrupted, with all its stages |
| RunRecords.RevisionTimes | src/state_v3.rs:385-413 | a revision has the clock's time wherever the clock has not gone back, and the last revision's time elsewhere |
| RunRefusals.LateCancellationIsReached | src/run_v3.rs:1127-1145 | a fresh run of one stage with a requested rerun that is cancelled in that moment is refused there |
| RunRefusals.SecondReasonIsReached | src/run_v3.rs:1322-1341 | a run that dies after an invalidation and is resumed with another reason is refused there |
| RunRefusals.OtherCheckpointIsReached | src/run_v3.rs:782-817 | a complete run, rebuilt once, whose first checkpoint fits again in place of the accepted one is refused there |
| PipelineGraph.GatherAncestors | src/pipeline_v3.rs:1097-1137 | the union over dependencies gives exactly the stages reached by any chain of dependencies, or notices a repeated or later one |
| PipelineGraph.LookupDecides | src/pipeline_v3.rs:1188-1217 | the lookup of an artifact and its producer decides whether it is an input or the product of an ancestor |
| PipelineGraph.AddProduced | src/pipeline_v3.rs:1251-1307 | outputs are refused exactly where an artifact identity is declared again |
| PipelineGraph.ProducedOnce | src/pipeline_v3.rs:1251-1307 | distinct identities mean: no input twice, no product twice in a stage or in two stages, and no product that is an input |
| PipelineGraph.ValidateGraph | src/pipeline_v3.rs:1043-1362 | one pass accepts exactly the lists with distinct identities, dependencies on earlier stages, and every consumed artifact an input or the product of an ancestor |
| PipelineGraph.GraphIsPlan | src/pipeline_v3.rs:1071-1137 | an accepted list is the plan that the executor takes for granted |
| PipelineGraph.ListOrderSuffices | src/pipeline_v3.rs:1089-1217 | no stage is its own ancestor, and list order makes everything a stage consumes available |
| PipelineGraph.FrontierIsDescendants | src/run_v3.rs:1280-1300 | the least set closed under dependents is exactly the roots and the stages that have one among their ancestors |
| Crc32.BuildTable | src/frame_io.rs:140-154 | the nested loops fill all 256 entries with eight shifts of the index, in place |
| Crc32.Crc32Update | src/frame_io.rs:156-161 | the table-driven loop computes the bit-serial reflected division by 0xEDB88320, from any start value |
| Crc32.TableDividesLikeBits | src/frame_io.rs:140-161 | table form and bit-serial form agree for every start value and byte string |
| Crc32.UpdateComposes | src/frame_io.rs:209-219 | feeding a string in pieces is feeding it whole, which the chunk loop relies on |
| Crc32.UpdateIsInjective | src/frame_io.rs:156-161 | different registers stay different under the same bytes |
| Crc32.UpdateIsBijective | src/frame_io.rs:156-161 | bytes act on the register as a bijection: every register is reached from exactly one |
| Crc32.WindowSeparates | src/frame_io.rs:156-161 | equal registers after up to four bytes from equal registers mean equal bytes |
| Crc32.BurstIsDetected | src/frame_io.rs:156-161 | strings that differ only inside four consecutive bytes never share a CRC |
| KnownFiles.CheckValue | src/frame_io.rs:140-161 | the CRC of the nine digits is CBF43926, the check value of CRC-32 |
| PngFormat.ChunkIsPrefixCode | src/frame_io.rs:294-300 | a printed chunk is read back from in front of anything, and nothing else is |
| PngFormat.BodyPrefix | src/frame_io.rs:294-316 | a printed chunk list that starts another one is its prefix |
| PngFormat.DecompositionIsUnique | src/frame_io.rs:294-316 | a file is the print of at most one chunk list |
| PngInspection.ScanFindsChunks | src/frame_io.rs:179-287 | from any chunk boundary, acceptance reads off a chunk list whose print is exactly the remaining bytes |
| PngInspection.AfterSummarises | src/frame_io.rs:175-208 | the reader's few variables mean: chunk count, data seen, data closed by another chunk, the kinds seen, the gamma declared |
| PngInspection.ColoursRemembered | src/frame_io.rs:266-274 | the decision at the last chunk is the clash of cICP, sRGB and gAMA anywhere in the file |
| PngInspection.ConformingSteps | src/frame_io.rs:179-287 | every conforming chunk list passes every step of the automaton |
| PngInspection.StepsConform | src/frame_io.rs:179-287 | a list that passes every step is conforming |
| PngInspection.AcceptsExactlyConformingFiles | src/frame_io.rs:165-288 | a file within its bound is accepted if and only if it is the print of a conforming chunk list: signature, one IHDR of the declared geometry, distinct admitted ancillary chunks, consecutive IDATs, IEND, at most 65536 chunks, right CRCs, nothing behind |
| PngInspection.AcceptedOnce | src/frame_io.rs:165-288 | an accepted file has one chunk list and one geometry |
| PngInspection.DamagedChunkIsRefused | src/frame_io.rs:209-229 | changing up to four consecutive bytes of a chunk's type or payload makes the file refused, whatever surrounds it |
| PngInspection.HeaderFixesLength | src/frame_io.rs:192-223 | an admitted non-data chunk fits the 32-byte buffer, so the copy never overruns it |
| KnownFiles.KindNames | src/frame_io.rs:190-208 | the admitted types are the letters IHDR, IDAT, IEND, sRGB, gAMA, cHRM, cICP and pHYs |
| KnownFiles.EndChunk | src/frame_io.rs:209-229 | the twelve bytes of an IEND chunk, checksum AE426082 |
| KnownFiles.KnownFilesAreAccepted | src/frame_io.rs:165-288 | two whole files of one pixel, byte for byte, are accepted for their geometry and no other |
| PngReader.FileReader.ReadExact | src/frame_io.rs:168-170 | reads the next bytes into the buffer's front, or reports the end of the file |
| PngReader.ReadPayload | src/frame_io.rs:209-223 | the buffered loop consumes exactly the payload, folds type and payload into the CRC, and keeps short payloads |
| PngReader.CheckHeader | src/frame_io.rs:189-208 | order, size and repetition rules, and the phase variables they update |
| PngReader.CheckPayload | src/frame_io.rs:230-265 | the payload rules, read from the small buffer |
| PngReader.AtEnd | src/frame_io.rs:266-283 | colour clash, trailing bytes, or acceptance at the exact end of the file |
| PngReader.InspectPng | src/frame_io.rs:165-288 | one pass accepts exactly the conforming files within the bound, having consumed every byte; otherwise the first refusal in reading order |
| Vlq.WriteVlq | src/audio_midi/midi.rs:73-85 | the backward-filled buffer is the shortest quantity of the number |
| Vlq.ReadVlq | scripts/smoke-audio-midi.py:127-141 | the cursor loop decodes the quantity at the cursor and always moves forward on success |
| Vlq.DecodeOfQuantity | src/audio_midi/midi.rs:194-210 | every number below 2^28 is read back from its quantity, which has one to four bytes |
| Vlq.QuantityOfDecode | scripts/smoke-audio-midi.py:127-141 | whatever decodes is the quantity of its value, so only shortest forms decode |
| Vlq.DecodeIsBijective | scripts/smoke-audio-midi.py:127-141 | decoding succeeds with a value and size if and only if the bytes start with that value's quantity |
| Vlq.QuantityIsInjective | src/audio_midi/midi.rs:73-85 | two values never share a quantity |
| Vlq.QuantityShape | src/audio_midi/midi.rs:73-85 | the one to four bytes of a quantity, seven bits each, all but the last with the high bit |
| NotePairing.ScheduleIsStrict | src/audio_midi/midi.rs:34-39 | sorted by tick, offs before ons, valid notes give strictly ordered events |
| NotePairing.SchedulePlays | src/audio_midi/midi.rs:138-182 | playing the schedule of valid notes recovers exactly those notes and leaves none sounding |
| NotePairing.PlayedNotesAreValid | scripts/smoke-audio-midi.py:111-175 | at every point notes pair off: two events a finished note, one a sounding note, same-pitch notes apart |
| NotePairing.PlayedEventsAreSchedule | src/audio_midi/midi.rs:138-182 | strictly ordered events that play to silence are the schedule of the notes they yield |
| MidiMessages.TimedCode | src/audio_midi/midi.rs:114-142 | reading a delta and a message succeeds if and only if the bytes start with its one encoding |
| MidiFile.TrackIsMessages | src/audio_midi/midi.rs:40-51 | the written track is the print of preamble, deltas and end-of-track |
| MidiFile.BoundedNotesAreWritable | src/audio_midi/midi.rs:42-46 | notes that end below 2^28 ticks have deltas that four bytes hold |
| MidiReader.ReadsWhatIsWritten | src/audio_midi/midi.rs:32-71 | the strict reader reads back, sorted, every note list in the profile |
| MidiReader.ReaderInvertsWriter | src/audio_midi/midi.rs:89-193 | a file is read as given notes if and only if they are sorted, in the profile, and the file is the one the writer emits |
| MidiReader.FilesSeparateNotes | src/audio_midi/midi.rs:32-71 | two note lists in the profile share a file exactly when they hold the same notes |
| MidiReader.ReadMidi | src/audio_midi/midi.rs:89-193 | the reader with its index, table of sounding notes and event counter is that function of the bytes |
| SmokeMidiReader.ReadMidi | scripts/smoke-audio-midi.py:110-178 | the script's loop over cursor, active notes, tempos and programs, as a function of the content |
| SmokeMidiReader.SmokeReaderGrammar | scripts/smoke-audio-midi.py:110-178 | content is accepted with given notes if and only if it is a bounded type-0 file of a track with one tempo and one program at tick 0, playable notes and a final end-of-track |
| SmokeMidiReader.SmokeTrackIsBalanced | scripts/smoke-audio-midi.py:162-178 | an accepted track has as many ons as offs, and same-pitch notes pairwise disjoint |
| SmokeMidiReader.SmokeReadsWhatIsWritten | scripts/smoke-audio-midi.py:110-178 | the script inverts the writer on every writable note list within 1 MiB |
| SmokeMidiReader.ReadersAgree | scripts/smoke-audio-midi.py:110-178 | whatever the strict reader accepts, the script accepts with the same notes |
| NoteSweep.LastEndDecides | scripts/audio-midi-adapter.py:306-312 | over notes in start order, comparing with the last end of a pitch decides disjointness from all earlier notes |
| NoteNormaliser.MicrosecondsIsNearest | scripts/audio-midi-adapter.py:272-274 | rounding is to nearest, halves upward |
| NoteNormaliser.MicrosecondsIsMonotone | scripts/audio-midi-adapter.py:272-274 | rounding never reverses two times |
| NoteNormaliser.NormalizeEvents | scripts/audio-midi-adapter.py:277-313 | succeeds if and only if every event can be told as a note and no two notes of a pitch overlap; then the result is in order and is, as a multiset, exactly the notes that tell the events |
| NoteNormaliser.ConvertTells | scripts/audio-midi-adapter.py:283-305 | an event's note has its pitch, the velocity nearest to 127 times the amplitude and even on a tie, and the nearest microseconds for both times; without such a note in range the event is refused |
| NoteNormaliser.NormalisedIsSortedPermutation | scripts/audio-midi-adapter.py:305-313 | the result is a strictly ordered permutation of the converted notes, inside the source, pairwise apart |
| NoteNormaliser.RefusedOverlapIsExact | scripts/audio-midi-adapter.py:306-312 | an overlap refusal always reflects two same-pitch events that overlap in exact seconds |
| NoteNormaliser.RoundingStaysInside | scripts/audio-midi-adapter.py:281-303 | ends inside the source stay inside after rounding if and only if the source's end itself rounds down |
| NoteNormaliser.NoteAtSourceEndRefused | scripts/audio-midi-adapter.py:281-303 | a two-frame source refuses a note that lasts exactly the source |
| NoteNormaliser.ValidatorAfterAdapter | src/audio_midi/normalize.rs:20-72 | what the adapter returns the native validator accepts if and only if no note collapses on the tick grid |
| NativeNotes.TickIsNearest | src/audio_midi/normalize.rs:106-114 | ticks are nearest, halves upward |
| NativeNotes.ProfileTicks | src/audio_midi/normalize.rs:108-114 | inside the profile the conversion never overflows and stays below the reader's tick bound |
| NativeNotes.Validate | src/audio_midi/normalize.rs:20-72 | one pass with 128 last ends accepts exactly the bounded, strictly ordered, pairwise disjoint notes that keep a tick of length |
| NativeNotes.ValidNativeSays | src/audio_midi/normalize.rs:20-72 | the accepted observations in plain arithmetic: bounds, order, the source's duration, disjointness, and some half-way instant between two ticks inside every note |
| NativeNotes.QuantisedApart | src/audio_midi/normalize.rs:62-69 | notes apart in microseconds are apart in ticks, so the second overlap check never fires |
| NativeNotes.QuantisedInProfile | src/audio_midi/normalize.rs:74-105 | a valid observation quantises into the profile that the reader inverts |
| MidiWriter.PushEvents | src/audio_midi/midi.rs:34-38 | two events a note, in order |
| MidiWriter.WriteEvents | src/audio_midi/midi.rs:41-46 | the loop over events appends the print of their deltas |
| MidiWriter.EncodeMidi | src/audio_midi/midi.rs:32-72 | encoding succeeds on exactly the valid observations, with the one file of their notes; size bound and read-back never refuse |
| PlayingTime.WrittenNotesPlayInTime | src/audio_midi/midi.rs:32-72 | by the division and the tempo read from the written bytes, every note is heard with its pitch and velocity, and begins and ends within half a tick of its microseconds |
| PlayingTime.QuarterFile | src/audio_midi/midi.rs:32-72 | the file of one quarter note, byte for byte |
| AudioClock.ComputeGcd | src/audio_analysis.rs:1049-1054 | Euclid's loop finds the greatest common divisor |
| AudioClock.GcdIsGreatest | src/audio_analysis.rs:1049-1054 | every common divisor divides it |
| AudioClock.EveryFrameHasTime | src/audio_analysis.rs:380-392 | every boundary up to the frame count has a reduced, bounded time; neither conversion overflows |
| AudioClock.TimeThenFrame | src/audio_analysis.rs:380-413 | converting a frame to seconds and back returns it |
| AudioClock.FrameThenTime | src/audio_analysis.rs:380-413 | converting seconds to a frame and back returns the same reduced time |
| AudioClock.ConversionsAreInverse | src/audio_analysis.rs:380-413 | one conversion succeeds with a result if and only if the other undoes it |
| AudioClock.TimesAreMonotone | src/audio_analysis.rs:380-392 | later frames have later times, and conversely |
| AudioClock.FrameOverflowExactly | src/audio_analysis.rs:400-408 | the 128-bit product never overflows; the 64-bit narrowing fails exactly on exact frames of 2^64 or more |
| AudioClock.FrameOverflowIsReachable | src/audio_analysis.rs:407-408 | a valid source and time on which it fails |
| AudioTimeline.PrecedesIsTransitive | src/audio_analysis.rs:547-549 | the comparison of start, end and id is transitive, so neighbours order everything |
| AudioTimeline.ValidateTimeline | src/audio_analysis.rs:526-565 | checks against the previous event and the known ids accept exactly timelines whose events are all in bounds, all strictly ordered, distinct and, unless overlap is declared, all disjoint |
| AudioTimeline.TimelineSays | src/audio_analysis.rs:526-565 | the accepted timelines in plain comparisons and characters |
| AudioTimeline.TextLessMeans | src/audio_analysis.rs:547-549 | identities are ordered by their first difference |
| AudioTimeline.DisjointTimelineFits | src/audio_analysis.rs:416-425 | in marker and disjoint timelines no frame is covered twice, and lengths sum to at most the frame count |
| AudioExtensions.WalkDecides | src/audio_analysis.rs:1032-1046 | whatever is popped next, the stack walk accepts exactly by total node count and by depth |
| AudioExtensions.ValidateExtensions | src/audio_analysis.rs:1010-1047 | accepts if and only if keys are namespaces, all trees together have at most 10000 nodes, and none is deeper than 32 |
| FrameSelection.SweepDecides | src/frame_selection.rs:132-139 | the sweep finds nothing exactly when the ordered ranges fit and each ends before every later one begins |
| FrameSelection.SortedSelectable | src/frame_selection.rs:127-139 | sorting loses nothing: the sweep over sorted ranges decides pairwise disjointness of the given ones |
| FrameSelection.SelectRange | src/frame_selection.rs:140-171 | on an admitted index no lookup, count or time interval of a swept range can fail |
| FrameSelection.PlanSelection | src/frame_selection.rs:115-184 | succeeds if and only if there are 1 to 1024 ranges inside the source, pairwise disjoint; then the plan answers them, and otherwise the first refusal of the sweep is given |
| FrameSelection.PlanAnswers | src/frame_selection.rs:140-184 | the plan holds the given ranges in order, each with the names of its first and last frame, its number of frames and its times, and the totals are numbers of covered frames |
| FrameSelection.CountIsExact | src/frame_selection.rs:156-158 | the running count is the number of distinct frames selected |
| FrameSelection.PlanAddsUp | src/frame_selection.rs:159-184 | selected and unselected frames add up to the source, each interval lasts its frame count in periods, and intervals follow each other |
| FrameSelection.PlanIgnoresOrder | src/frame_selection.rs:108-128 | acceptance and plan do not depend on the order of the ranges |
| RangeText.ParsedIsSpelled | src/frame_selection.rs:41-60 | a text is accepted as a range if and only if it is two numerals of at most twenty digits around a colon that spell it |
| RangeText.PrintedIsParsed | src/frame_selection.rs:41-60 | every 64-bit range is read back from its decimal print |
| Decimals.KnownNumerals | src/frame_selection.rs:41-60 | known numerals and their values |
| UpscaleTarget.DimensionsAgree | src/upscale_target.rs:137-141 | once aspects are equal, widths compare as heights do |
| UpscaleTarget.Decide | src/upscale_target.rs:126-171 | the search over factors, with its skipped overflows, is a closed form over widths alone |
| UpscaleTarget.DecisionIsLeast | src/upscale_target.rs:137-170 | refuses exactly when aspects differ or no factor of 2, 3, 4 fits and meets a needed target; otherwise executes with the least that does |
| UpscaleTarget.DecisionSays | src/upscale_target.rs:121-171 | which refusal and which status, in terms of dimensions, aspect and forcing alone |
| UpscaleTarget.GeometryIsExact | src/upscale_target.rs:126-171 | every decision keeps the aspect exactly, meets its mode's promise, and keeps the input as authority exactly when it bypasses |
| UpscaleTarget.DecisionConverges | src/upscale_target.rs:121-171 | deciding again on the outcome without forcing is a bypass that changes nothing |
| UpscaleTarget.ForcedExactIsRefused | src/upscale_target.rs:141-170 | a forced exact target, once met, is refused |
| UpscaleTarget.SecondDecisionBypasses | src/upscale_target.rs:126-171 | deciding again on the outcome under the same policy bypasses if and only if the policy does not force reprocessing |
| UpscaleTarget.ResourcesAddUp | src/upscale_target.rs:194-216 | only the final totals decide overflow; every total is the product of dimensions, frames, factor and bytes that its name says; effective pixels grow by the square of the factor |
| InvocationRequest.CheckInputs | src/invocation_v3.rs:188-199 | the growing key set refuses exactly repeated inputs |
| InvocationRequest.CheckOutputs | src/invocation_v3.rs:201-237 | growing sets and paths decide distinct ports and ids and pairwise incomparable paths; each refusal names a true cause |
| InvocationRequest.Validate | src/invocation_v3.rs:164-239 | accepts exactly the valid requests |
| InvocationRequest.OverlapIsSharedPath | src/invocation_v3.rs:315-330 | two paths overlap if and only if some path lies in both their trees, ignoring case |
| InvocationRequest.NamesBetween | src/invocation_v3.rs:315-330 | a path is made of its names between separators, without empty ones and single dots |
| InvocationRequest.TreesAreSeparate | src/invocation_v3.rs:222-237 | the pairwise checks pass if and only if no path whatever lies in two output trees, or in an output tree and an input tree |
| InvocationRequest.JoinedStaysUnder | src/invocation_v3.rs:294-330 | whatever is joined below a validated base, in any spelling and with any dots that do not climb above it, names a file of the base's tree |
| InvocationRequest.WritesStayApart | src/invocation_v3.rs:188-238 | a file named below one output without climbing above it is never a file so named below another output or an input |
| Placeholders.ReplaceFills | src/pipeline.rs:496-500 | one textual replacement fills one slot and touches nothing else, where no stray brace and no value starts the slot's placeholder |
| PlaceholderSafety.TemplateIsSafe | src/pipeline.rs:489-501 | for all braceless first three values and any run directory the four replacements are one simultaneous substitution, if and only if no stray brace of the template can join a value |
| PlaceholderSafety.ValueIsSafe | src/pipeline.rs:489-501 | for all templates without stray braces and all braceless other values they are, if and only if no part of the value from a brace on is comparable with a later placeholder |
| Placeholders.ExpansionIsSimultaneous | src/pipeline.rs:489-501 | in particular where template braces all start placeholders and the first three values bring in none |
| Placeholders.OrderIsImmaterial | src/pipeline.rs:496-500 | then any order of the four replacements gives the same argument |
| Placeholders.NothingIsLeft | src/pipeline.rs:489-501 | and no placeholder is left over |
| Placeholders.BracesInValuesExpandAgain | src/pipeline.rs:496-500 | a value that is spelled as a placeholder is expanded again |
| Placeholders.StrayBracesJoin | src/pipeline.rs:496-500 | a stray brace joins a value into a placeholder |
| StageNames.SanitizeIsIdempotent | src/pipeline.rs:503-515 | sanitizing twice is sanitizing once; exactly the normal texts are left alone |
| StageNames.SanitizedMeans | src/pipeline.rs:503-515 | the characters that would become hyphens are cut off at both ends, and each other one is lowered or replaced in its place |
| StageNames.ValidateUniqueIds | src/pipeline.rs:548-567 | the growing set accepts exactly distinct, nonempty, normal identifiers |
| StageNames.StageNames | src/pipeline.rs:263-300 | the result lists its stages: audio restoration if and only if there is audio, subtitles and rendering by their flags, exactly one numbered and sanitized name for each enabled processor of each kind at its place in the run order, audio processors only with audio, and nothing else |
| StageNames.StagesAreListed | src/pipeline.rs:263-300 | the same of the stages as a function, for every pipeline |
| StageNames.StagesAreDistinct | src/pipeline.rs:263-300 | stage names are pairwise distinct in every pipeline |
| StageNames.StagePathsAreDistinct | src/workspace.rs:133-169 | sanitizing a stage name changes nothing, so markers and provider locks never collide |
| DeliveryMetadata.TagsAreApart | src/delivery_metadata.rs:20-26 | release fields have distinct tags, none of them regenerated or a language |
| DeliveryMetadata.KnownNames | src/delivery_metadata.rs:20-26 | the nine release tags, the regenerated names and the language name, spelled out |
| DeliveryMetadata.CountScope | src/delivery_metadata.rs:233-247 | the counters are the numbers of regenerated and of unexpected keys, in any order of iteration |
| DeliveryMetadata.Verify | src/delivery_metadata.rs:205-250 | the failed flag and the counters decide the status: failed exactly when the policy's demands are not met, clean exactly when nothing is residual |
| DeliveryMetadata.AcceptableSays | src/delivery_metadata.rs:205-250 | the demands of each mode on streams, chapters, tags and languages |
| DeliveryMetadata.FieldsAreAccounted | src/delivery_metadata.rs:173-255 | in the clearing modes every field of an unfailed file is residual, regenerated, approved or a stream language: the counts add up |
| DeliveryMetadata.CleanFileSaysOnlyApproved | src/delivery_metadata.rs:227-248 | without residual fields, what remains was regenerated, approved with its exact value, or a kept or undetermined language |
| Framehash.DecodedHash | src/frame_decode.rs:22-56 | succeeds if and only if distinct admitted headers, all six required among them, precede exactly one valid row, whose digest it returns |
| Framehash.Step | src/frame_decode.rs:29-51 | a line is refused only where no continuation could be complete, and the set of whole header lines never decides |
| FramehashText.PrintedIsRead | src/frame_decode.rs:22-56 | what the decoder prints for one frame of the expected size, whatever it says of itself and of its time base, is accepted and yields the frame's digest |
| Text.SplitBetween | src/frame_decode.rs:29-44 | splitting gives the pieces between separators |
| Text.TrimKeeps | src/frame_decode.rs:27-44 | trimming leaves everything from the first to the last character that is not white space |
| BoundedCapture.ReadBounded | src/command.rs:100-115 | for every chunking, exactly the first bytes up to the limit are kept, and truncation is flagged exactly beyond it |

## Left out

- PngReader.InspectPng: the digest half of a file's identity, the second identity check against a file that changes while it is read, and I/O failures other than a short file.
- NoteNormaliser.NormalizeEvents: the activation field of a note, Python's integer and boolean argument types, and floating-point rounding of the source's duration, which is taken as the exact quotient.
- NativeNotes.Validate: the activation field, from which the velocity is derived, and the schema and clock constants of an observation.
- MidiReader.ReadMidi: the reasons for refusal, which the code does not separate by category, and the constant fields of the result.
- AudioTimeline.ValidateTimeline: labels, provenance, scope and capability references, which are looked up in other collections of the analysis.
- FrameSelection.PlanSelection: the validation of the frame index itself; a constant-rate, zero-origin, contiguous index is assumed, as the code's callee establishes. Digests and schema labels of the plan are not modelled.
- UpscaleTarget.Decide: digests and byte counts of the input, schema labels and reason texts; the kept input identity is the input itself.
- UpscaleTarget.ResourcesAddUp: the configured ceilings that are copied through, and the validation of the neural configuration.
- InvocationRequest.Validate: provider configuration is one truth value; paths are valid UTF-8, so the fallback comparison of other paths, which validation makes unreachable, is absent.
- DeliveryMetadata.Verify: text bounds of approved values and the digest arguments; the policy's mode rule is modelled.
- Framehash.DecodedHash: bytes that are not UTF-8, refused before parsing begins.
- FramehashText.PrintedIsRead: negative time stamps, which the parser also takes, and columns set apart by more than one blank.
- BoundedCapture.ReadBounded: read errors are the end of the stream, as in the code; threads, polling and wall-clock limits of the process runner.
- Subprocesses, FFmpeg and FFprobe arguments, model inference, directory walks, hashing of files, canonical paths and staging of snapshots.
- JSON decoding and normalization, schema and expression checks, and error message texts.
- DEFLATE content of IDAT chunks, which the inspection does not decode either.
- RunManifests.CheckSuccessor: the formats of identifiers, digests and versions, and the fields of output evidence other than identity and size; the digest is any function of the payload.
- RunDirectory.RunDirectory.Append: the atomic publication of one file, and entries of the directory that are not manifest files.
- RunSession.Session.Execute: what providers, validators, the cache and the assessment of checkpoint evidence decide is the session's script, which may be anything; progress reports, cache receipts and the bytes of checkpoints are not part of this model. The exclusion list is kept in order of exclusion, where the code sorts it. The plan's stages are taken to be distinct and to depend on earlier ones, as `PipelineGraph.ValidateGraph` establishes.
- RunOutcomes.SessionOutcome: checkpoint files that something outside the program removes between sessions, and I/O errors, which cut a session short as a dying process does.
- InvocationRequest.WritesStayApart: symbolic links, and names that climb above their base; two dots lead back by name.
- PipelineGraph.ValidateGraph: ports, capabilities, provider selection, validations, final outputs, artifact paths and the text rules of identifiers; resolution of providers.
- The v2 run state and the temporal modules; their operations are not part of this model.
