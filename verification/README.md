# RepoPassport: a verified model

RepoPassport is a controller that runs untrusted repository code, watches and bounds it, and seals evidence
about what it saw. This project models the parts of it that are state machines, byte-level codecs or arithmetic,
and proves what they promise. `dafny verify dfyconfig.toml` checks everything.

| modules | what they model |
|---|---|
| FrameStream, FrameChannel | the bounded line stream between helper and controller: its framing, and who can wait for whom around its mutex and channel |
| WriteScope, LiveComparison | declared write patterns, their compilation into rules, and that a live notification is judged as the plan declares |
| TraceHelper, TraceHelperScript | the Python activity-trace helper, as a step machine and in the script's own shape |
| TraceSession, ControlSize, ControlInput, SampleRules | the two-party protocol between controller and helper, in every interleaving; how long its commands are, how they are read, and declarations that reach its bounds |
| TraceTransport, FrameSize | the session over its real transport: frames as bytes, the framing, the mutex and the channel in one machine that refines the protocol |
| FilesystemDiff, RetainedState | retained-state diff, write scope and comparison |
| Ustar, Bundle, Dsse, Base64 | the canonical encodings of an attestation bundle |
| PortablePath, ArchiveLimit, OutputExport, OutputStream | export of the sandbox's outputs: names, byte ceiling, extraction and the second look |
| HttpRequest, HttpAssertions, HttpPlan, HttpJourney | HTTP journeys: static validation and execution |
| TrustChain, TrustPolicy | authority transitions, chains of them, signed policies and the gates of a chained verification |
| Freshness, RepeatAggregation | freshness of accepted evidence, and aggregation over repeats |
| Prelude, Paths, Ordering | shared vocabulary |

Where the source updates something in place or loops, the model has a class or a method with the same steps, proved
against a recursive function; the theorems are about that function. Foreign code enters as function parameters
collected in records (`Foreign`, `Library`, `JsonLibrary`, `Digests`, `Codec`): digests, signatures, PEM, JSON and
schema validation, URL parsing, duration parsing. No fact is assumed of them except where a lemma says so in a
`requires` (that an empty duration does not parse; that a chain codec reads back what it wrote; that a session's frames
are written as text of the length of their keys and values, without a newline, and read back).

## Where the code and its promises part

Each of these has a lemma that shows the failing case and one that says exactly when the promise holds.

- Frames handed on before an invalidation can depend on how the bytes were split into writes
  (`FramesBeforeInvalidationDependOnSplit`). They do for exactly the byte strings that break the transport bound after
  beginning with a good line within it (`SplitsSendTheSameIff`); the verdict never does (`RunIsChunkFree`).
- A stream whose frame-count limit admits six frames can lock writer and reader up; the operation stream (130 frames)
  relies on its peer never having six under way, which the session protocol guarantees
  (`LockableIffSixFramesFit`, `TransportNeverLocks`).
- The controller sends phase commands of up to 524288 bytes and then adds a newline; the helper keeps 524288 bytes in
  all. It also sends rule bases with backslashes, which the helper refuses. A call succeeds exactly when the command is
  strictly shorter and no base has one (`CommandOfExactlyTheLimitIsRefused`, `BackslashRuleIsRefused`,
  `PhaseCallSucceedsIff`). Rules compiled from valid patterns never have one. Only bases that need JSON escapes reach
  the limit (`UnescapedRulesFit`).
- The controller's decoder caps the declared patterns of a session at 4096, while the helper allows 128 windows of
  256; a finished session decodes exactly when the total stays within the cap (`SeventeenFullWindowsAreNotDecoded`,
  `TerminalFrameDecodes`, `FinishSucceedsIff`).
- Extraction alone accepts an empty tree, or directories, under a disk limit that is not positive; the second walk then
  refuses. The two agree exactly when the limit is positive, which the export checks first (`EmptyStreamUnderNoLimit`,
  `WalkAgreesWithStream`).
- Observing freshness in stages can answer differently from one evaluation of everything there was to observe when the
  source changes in between (`UnstableSourcesCanDisagree`). It does exactly when the stages stop before they see what
  is wrong with the source (`StagesAgreeIff`); a stable source is always enough (`StagesAgreeWithOneShot`).

## Model

| member | source | states |
|---|---|---|
| `FrameStream.ActivityTraceFrameStream.NewActivityTrace` | internal/execution/activity_trace_observer.go:305-311 | the activity stream starts empty and valid with its limits of 8 KiB, 16 KiB and two frames |
| `FrameStream.ActivityTraceFrameStream.NewOperationNotification` | internal/execution/activity_trace_observer.go:313-322 | the operation stream starts empty with a 64 KiB transport and 130 frames, two required and all to be consumed |
| `FrameStream.ActivityTraceFrameStream.Write` | internal/execution/activity_trace_observer.go:337-384 | one Write takes the stream exactly one step of the recursive specification, reports every byte written, changes nothing once invalid, and queues an error event exactly when it invalidates the stream and the channel has a free slot |
| `FrameStream.ActivityTraceFrameStream.CutFrames` | internal/execution/activity_trace_observer.go:346-369 | the cutting loop inside Write is the recursive drain of the pending bytes |
| `FrameStream.ActivityTraceFrameStream.Next` | internal/execution/activity_trace_observer.go:386-401 | the oldest frame not yet consumed is handed out and counted; behind the last of them the error event of an invalidation, once; otherwise nothing |
| `FrameStream.ActivityTraceFrameStream.Complete` | internal/execution/activity_trace_observer.go:403-413 | said of the bytes received: complete holds exactly when they are acceptable, end in a newline, and make the required number of frames, all consumed where that is asked |
| `FrameStream.RunIsChunkFree` | internal/execution/activity_trace_observer.go:337-384 | for any split into writes the stream is invalid exactly when the whole byte stream breaks a bound (total, line length 1..limit, over-long tail, frame count); a valid one has enqueued exactly the lines, an invalid one a prefix of them |
| `FrameStream.SplitsAgree` | internal/execution/activity_trace_observer.go:337-384 | two splits of the same bytes agree on the verdict, and on all frames, the pending bytes and the counts when it is valid |
| `FrameStream.SentIsGoodRunOfHeard` | internal/execution/activity_trace_observer.go:337-384 | the frames sent, valid or not: the longest run of good lines, up to the frame count, of the bytes written before the transport bound was crossed; within the bound the split leaves no trace |
| `FrameStream.SplitsSendTheSameIff` | internal/execution/activity_trace_observer.go:337-384 | all splits of a byte string send the same frames if and only if it keeps the transport bound or does not begin with a good line that ends within it |
| `FrameStream.FramesBeforeInvalidationDependOnSplit` | internal/execution/activity_trace_observer.go:343-347 | any other byte string sends nothing when written whole, and the good lines within the bound, at least one, when the first write ends at the bound |
| `FrameStream.UnacceptableForever` | internal/execution/activity_trace_observer.go:337-384 | a byte stream that breaks a bound breaks it whatever follows |
| `FrameStream.AcceptableByBytes` | internal/execution/activity_trace_observer.go:337-384 | the verdict said of single bytes: within the transport bound, at most so many newlines, none first or behind another, and one in every stretch longer than a frame may be |
| `FrameStream.LinesAreUnique` | internal/execution/activity_trace_observer.go:346-369 | only one list of lines and one tail make up a byte stream |
| `FrameStream.SegmentsRejoin` | internal/execution/activity_trace_observer.go:346-369 | the lines and the tail of a stream, each line with its newline, put together are the stream |
| `FrameStream.SentOnlyGrows` | internal/execution/activity_trace_observer.go:337-371 | a write never takes back a frame already sent |
| `FrameChannel.InvAlways` | internal/execution/activity_trace_observer.go:324-401 | in every interleaving of the writer's and the reader's single steps: the queue holds at most four events, an error event only last, and what was delivered, held, queued and in flight is what was cut, in order |
| `FrameChannel.DeliveryIsFifo` | internal/execution/activity_trace_observer.go:337-401 | the frames delivered are a prefix of the frames cut and consumed never exceeds the frame count |
| `FrameChannel.CircularWaitIsSixOutstanding` | internal/execution/activity_trace_observer.go:337-401 | a reachable state is stuck exactly when writer and reader wait for each other, exactly when a valid stream has six frames outstanding; with four or fewer the writer does not even wait |
| `FrameChannel.SixFramesInOneWriteCanLock` | internal/execution/activity_trace_observer.go:337-401 | a concrete interleaving of one write of six frames with a reader ends in that circular wait |
| `FrameChannel.LockableIffSixFramesFit` | internal/execution/activity_trace_observer.go:305-333 | a stream can lock up exactly when its frame-count limit admits six frames |
| `WriteScope.CompileRules` | internal/execution/operation_notification_observer.go:127-164 | rules are compiled exactly from lists of at most 256 valid patterns; the result is strictly sorted, without repeats, and holds exactly the patterns' rules |
| `WriteScope.PatternRoundTrip` | internal/execution/operation_notification_observer.go:140-149 | a pattern can be read back from its rule |
| `WriteScope.PatternIsValidIff` | internal/execution/filesystem_observer.go:617-636 | a pattern is valid exactly when, its stars taken as a name, it is itself a base the helper would take |
| `WriteScope.ObservedByCharacters` | internal/execution/filesystem_observer.go:454-467 | a path that may be observed, character by character: at most 1024 bytes, below /outputs, printable, a name other than one or two dots behind every separator |
| `WriteScope.SortedByBase` | internal/execution/operation_notification_observer.go:152-163 | compiled rules are in the order of their bases, and for one base child before exact before tree |
| `WriteScope.RuleMatchesMeans` | internal/execution/activity_trace_observer.go:126-131 | what a rule matches: its base, its base and one more name, or its base and anything below |
| `WriteScope.RuleAgreesWithPattern` | internal/execution/filesystem_observer.go:638-656 | a valid pattern matches a valid observed path in the controller exactly when its compiled rule matches it in the helper |
| `WriteScope.CompilationPreservesMeaning` | internal/execution/activity_trace_observer.go:126-131 | for any valid patterns and observed path, some pattern matches on the controller's side exactly when the helper's rule loop accepts the path under the compiled rules |
| `WriteScope.SentRuleIsTakenIff` | internal/execution/operation_notification_observer.go:178-199 | a rule the controller is willing to send is one the helper takes exactly when its base has no backslash, which the controller does not look for |
| `WriteScope.BackslashRuleIsRefused` | internal/execution/operation_notification_observer.go:178-199 | a concrete rule the controller sends and the helper refuses |
| `WriteScope.CompiledRulesTravel` | internal/execution/operation_notification_observer.go:127-164 | compiled rules pass both sides' checks, so a compiled list is never refused for its bases |
| `FilesystemDiff.DiffSnapshots` | internal/execution/filesystem_observer.go:469-525 | the change list has strictly increasing paths, exactly those that differ, each with what happened there |
| `FilesystemDiff.DiffMeans` | internal/execution/filesystem_observer.go:469-525 | path by path: listed once, in increasing order, exactly when the entries differ, with both entries, and created, deleted, of another type or modified according to them |
| `FilesystemDiff.LastEntryIsKept` | internal/execution/filesystem_observer.go:485-495 | of several entries for one path the last is compared |
| `FilesystemDiff.DiffIsPatch` | internal/execution/filesystem_observer.go:469-525 | applied to the baseline, the change list gives the final snapshot |
| `FilesystemDiff.DiffUndoes` | internal/execution/filesystem_observer.go:469-525 | inverted, it takes the final snapshot back to the baseline |
| `FilesystemDiff.DiffEmptyIffEqual` | internal/execution/filesystem_observer.go:469-525 | it is empty exactly when the snapshots are equal |
| `FilesystemDiff.DiffIsUnique` | internal/execution/filesystem_observer.go:485-525 | ranging over the map in another order gives the same list |
| `FilesystemDiff.SortedSnapshotsEqual` | internal/execution/filesystem_observer.go:469-525 | two snapshots with strictly increasing paths and equal indexes are the same list, so the empty diff means equal snapshots |
| `RetainedState.ScopeIsUnion` | internal/execution/filesystem_observer.go:540-573 | the write scope of a run is the union of what its phases declared, in any order and with repeats, or ambiguous if a pattern is invalid or the union too large |
| `RetainedState.FilesystemObservation.MarkAmbiguous` | internal/execution/filesystem_observer.go:605-615 | an ambiguous scope keeps its reason and loses its patterns |
| `RetainedState.FilesystemObservation.RecordPhaseDispatch` | internal/execution/filesystem_observer.go:540-573 | recording a dispatch grants exactly that phase's patterns, or makes the scope ambiguous for good |
| `RetainedState.FilesystemObservation.Compare` | internal/execution/filesystem_observer.go:658-741 | a comparison is made exactly when it is required, unambiguous, without failure and ready, with at most 256 changes and 256 patterns, all valid; it then counts the diff against the scope and is nonconforming exactly when a change is undeclared |
| `RetainedState.CountChanges` | internal/execution/filesystem_observer.go:701-741 | the counting loop counts each change once by kind and once by permission, and gives up exactly on an invalid path |
| `RetainedState.CountsPartition` | internal/execution/filesystem_observer.go:701-741 | allowed and undeclared, and the four kinds, each partition the changes; each count is the number of paths whose entries differ in that way, allowed ones being those some pattern matches |
| `TraceHelper.InvRun` | internal/execution/activity_trace_observer.go:62-218 | in every run the helper's counters balance, are tallies of the canonical transcript while nothing has failed, its flags agree with the latched failure, and its frames are ready, one acknowledgement per window in order, then at most one terminal frame |
| `TraceHelper.CountersCountLines` | internal/execution/activity_trace_observer.go:132-168 | while nothing has failed every counter is the number of transcript indexes it stands for: lines of that phase, of that kind, of that judgement |
| `TraceHelper.RecordMeans` | internal/execution/activity_trace_observer.go:132-168 | what one notification becomes: overflow, new-directory gap, gap, or one more line, whose kind is what the mask bits say, under the phase in force and judged by the rules in force |
| `TraceHelper.ObeyMeans` | internal/execution/activity_trace_observer.go:199-217 | what one control line becomes: a good phase line opens a window and is acknowledged, stop ends with the failure on record or a final frame, any other line ends with a failure; pending notifications fail a line that would have succeeded |
| `TraceHelper.FirstFailure` | internal/execution/activity_trace_observer.go:79-82 | the first failure stays, sets its flag and ends the watch, and changes nothing else |
| `TraceHelper.FinalFrameReports` | internal/execution/activity_trace_observer.go:88-94 | the final frame of a run without failure reports, number by number, what its transcript holds, and the windows it acknowledged |
| `TraceHelper.OneTerminalFrameLast` | internal/execution/activity_trace_observer.go:79-94 | at most one terminal frame is written, nothing follows it, and it is never final once a failure is latched |
| `TraceHelper.TerminalFrameDecodes` | internal/execution/activity_trace_observer.go:793-971 | a failed frame always decodes to the latched failure; a final frame decodes exactly when the watch closed cleanly and at most 4096 rules were declared in total; and then the exit code is the one the controller demands |
| `TraceHelper.DecodedIff` | internal/execution/operation_notification_observer.go:448-494 | of any frame, whoever wrote it: decoded exactly when it is of the session and a named failure, or a final frame in order whose numbers agree and keep their bounds |
| `TraceHelper.SeventeenFullWindowsAreNotDecoded` | internal/execution/operation_notification_observer.go:460-477 | a concrete session of 17 windows, each with the 256 different rules that 256 valid patterns compile to, that ends without failure and whose final frame the controller cannot decode |
| `TraceHelper.TerminalFrameOf` | internal/execution/operation_notification_observer.go:448-494 | the same for any helper state that keeps the invariant, which is how the controller's side uses it |
| `TraceHelperScript.Helper.Latch` | internal/execution/activity_trace_observer.go:79-82 | only the first failure is latched, its flags set and watching stopped |
| `TraceHelperScript.Helper.Failed` | internal/execution/activity_trace_observer.go:83-87 | the failed frame is emitted once, with the latched failure |
| `TraceHelperScript.Helper.Final` | internal/execution/activity_trace_observer.go:88-94 | the final frame is emitted once, with the counts at that moment, and not ok after an unclean close |
| `TraceHelperScript.Helper.Record` | internal/execution/activity_trace_observer.go:132-168 | recording one notification is the specification's step, check for check |
| `TraceHelperScript.Helper.Matches` | internal/execution/activity_trace_observer.go:126-131 | the rule loop decides membership in the matched set |
| `TraceHelperScript.Helper.DecodeRules` | internal/execution/activity_trace_observer.go:119-125 | a rule list decodes exactly when it is short enough and every rule is good |
| `TraceHelperScript.Helper.ReadNotifications` | internal/execution/activity_trace_observer.go:188-198 | one read takes records in order until one latches a failure; a torn read is a failure of its own; the object remains where a run over the inputs heard ends |
| `TraceHelperScript.Helper.ReadInput` | internal/execution/activity_trace_observer.go:199-217 | one read of standard input: too much of it, or its end, is answered by failing; otherwise complete lines are taken off the buffer and obeyed in order until a terminal frame is out, and the partial line stays |
| `TraceHelperScript.Helper.ObeyLines` | internal/execution/activity_trace_observer.go:202-217 | the inner loop over the lines in the buffer obeys exactly the lines the buffer splits into, up to a terminal frame |
| `TraceHelperScript.Helper.InputEnded` | internal/execution/activity_trace_observer.go:200 | end of input, or too much of it, ends the session with a failed frame |
| `ControlInput.CommandArrives` | internal/execution/activity_trace_observer.go:199-203 | in whatever pieces a command is read, it arrives as one line if and only if line and newline fit the helper's 524288 bytes; otherwise the helper gives up without having seen a line |
| `ControlSize.UnescapedRulesFit` | internal/execution/activity_trace_observer.go:588-601 | a phase command whose bases need no JSON escape stays below the controller's limit, whatever its 256 rules are |
| `ControlSize.EightySixRulesReachTheLimit` | internal/execution/operation_notification_observer.go:200-218 | 86 rules whose bases are runs of `<`, which Go writes in six bytes each, make a command of exactly 524288 bytes |
| `TraceHelper.RuleKindsByName` | internal/execution/operation_notification_observer.go:140-149 | rule kinds and their names on the wire |
| `FrameSize.PhasesByName` | internal/execution/activity_trace_observer.go:119-125 | phases and their names |
| `SampleRules.SampleIsCompiled` | internal/execution/operation_notification_observer.go:127-164 | those rules, and the 256 of the 17-window session, are what valid declared patterns compile to |
| `TraceSession.WireRoundTrip` | internal/execution/operation_notification_observer.go:200-210 | rules the controller accepts survive encoding and the helper's decoder exactly when no base has a backslash |
| `TraceSession.SendableMeans` | internal/execution/operation_notification_observer.go:166-210 | what the controller sends: at most 256 rules on bases that are /outputs or may be observed, under one of five phase names, in one of 128 windows, in at most 524288 bytes |
| `TraceSession.AckMeans` | internal/execution/operation_notification_observer.go:211-227 | the one frame it takes as the acknowledgement of its command |
| `TraceSession.PhaseIsTakenIff` | internal/execution/activity_trace_observer.go:206-212 | the helper takes a command the controller was willing to send, and acknowledges exactly what was sent, if and only if line and newline fit its input and no base has a backslash |
| `TraceSession.SessionInvAlways` | internal/execution/operation_notification_observer.go:166-227 | in every interleaving of controller, helper and pipe the two sides agree on where the session is: command in the pipe, acknowledgement or refusal on the way, or window in force |
| `TraceSession.SuccessfulPhaseIsInForce` | internal/execution/operation_notification_observer.go:166-227 | whenever a phase call has succeeded, the helper's phase and rules are the ones sent, its window count equals operationWindowSequence, and its declared total is the sum over the successful calls |
| `TraceSession.PhaseCallSucceedsIff` | internal/execution/operation_notification_observer.go:211-227 | once the helper has obeyed, the call succeeds if and only if the command is strictly shorter than the controller's own limit and no base has a backslash |
| `TraceSession.CommandOfExactlyTheLimitIsRefused` | internal/execution/activity_trace_observer.go:588-605 | a concrete session: 86 declared patterns whose compiled rules, none with a backslash, make a command of exactly 524288 bytes, which is sent and which the helper refuses |
| `TraceSession.FinishSucceedsIff` | internal/execution/activity_trace_observer.go:673-729 | finish succeeds exactly when the terminal frame decodes, its exit-code and leftover checks add nothing; and exactly when a failure was latched, or the watch closed cleanly and the calls declared at most 4096 rules (CompletedSessionsComplete below supplies the stream's own bounds) |
| `TraceSession.ReportMatchesCalls` | internal/execution/activity_trace_observer.go:673-729 | the report finish returns is the helper's, and its window and rule counts are those of the phase calls that succeeded |
| `TraceSession.FlightIsShort` | internal/execution/operation_notification_observer.go:166-227 | at most one command and two frames are ever under way, aborted sessions included |
| `FrameSize.FrameLengthAtMost` | internal/execution/activity_trace_observer.go:83-94 | every frame a helper can emit is between 1 and 1000 bytes of JSON, and all but the final one at most 300 |
| `TraceTransport.OutputIsAcceptable` | internal/execution/activity_trace_observer.go:305-322 | the bytes a helper writes keep every bound of the operation stream: 8 KiB a line, 64 KiB and 130 lines in all, none empty and no partial one left |
| `TraceTransport.OutputSurvivesAnySplit` | internal/execution/activity_trace_observer.go:337-371 | so in any session, however its output is split into writes, the stream ends valid, has sent exactly the helper's frames in order and has nothing pending |
| `TraceTransport.IncomingIsWriteStep` | internal/execution/activity_trace_observer.go:337-371 | what the composed machine lets one Write bring in is what the framing specification sends, up to the frame count, and broken exactly when it is |
| `TraceTransport.LinkInvAlways` | internal/execution/activity_trace_observer.go:324-401 | in every interleaving of the two parties, of writes of any size, of the writer's single steps and of the reader: the channel carries exactly the lines of what was fed, unbroken, and the reader's count is the session's |
| `TraceTransport.LinkRefinesSession` | internal/execution/activity_trace_observer.go:337-401 | the composed machine refines the two-party protocol: its sessions are sessions of the protocol, and the texts the controller was given are those of the first frames the helper emitted |
| `TraceTransport.CountKeeps` | internal/execution/activity_trace_observer.go:386-401 | returning a frame from next is exactly the protocol's step of receiving the next frame |
| `TraceTransport.TransportNeverLocks` | internal/execution/activity_trace_observer.go:333-401 | at most two frames are ever outstanding on the channel, so neither Write nor next ever waits for the other |
| `TraceTransport.FrameGetsThrough` | internal/execution/activity_trace_observer.go:337-401 | whatever the composed machine has been through: if the controller waits and the helper has emitted a frame it has not got, moves of the transport alone get it there, and the controller does what the protocol does on receiving it |
| `TraceTransport.LimitsAre` | internal/execution/activity_trace_observer.go:313-322 | the bounds of the operation stream in numbers |
| `TraceTransport.CompleteIffAllConsumed` | internal/execution/activity_trace_observer.go:403-413 | once all output is fed and Write is back, complete() holds if and only if every emitted frame was consumed and there were at least two |
| `TraceTransport.CompletedSessionsComplete` | internal/execution/activity_trace_observer.go:710-724 | a session the protocol completes passes complete() too: the byte, line and frame bounds of the stream fail no session |
| `TraceTransport.SomeCodecWrites` | internal/execution/activity_trace_observer.go:60-62 | texts as the transport results assume them exist for any frames a session may emit |
| `LiveComparison.LiveJudgementIsDeclared` | internal/execution/activity_trace_observer.go:148-168 | after a phase call with compiled rules has succeeded, every notification that does not fail the helper is written down under that phase and counted allowed or undeclared according to whether a declared pattern matches its path |
| `Ustar.HeaderRoundTrip` | internal/attestation/attestation.go:983-999 | a written header block reads back as exactly the header the builder set: mode 0600, owner 0, time 0, regular, plain ustar, checksum included |
| `Ustar.NumberRoundTrip` | internal/attestation/attestation.go:983-999 | octal fields read back the number written, whatever fills the field after it |
| `Ustar.NextOfEntry` | internal/attestation/attestation.go:1030-1034 | after a written entry the reader finds its header, its content and what follows |
| `Ustar.AcceptedChecksum` | internal/attestation/attestation.go:1027-1034 | in every header block the parser takes, the octal number in bytes 148 to 155 is the sum of the other bytes and eight spaces |
| `Ustar.WrittenChecksum` | internal/attestation/attestation.go:978-1003 | and in every header block the builder writes |
| `Ustar.WrittenLayout` | internal/attestation/attestation.go:978-1003 | the fields of a written header, byte by byte at their offsets |
| `Bundle.BuildCanonicalTarPaths` | internal/attestation/attestation.go:970-1016 | the builder's loop produces exactly the specified archive, or refuses for a missing, unknown or oversized file or an oversized archive |
| `Bundle.SelectPaths` | internal/attestation/attestation.go:1070-1088 | the names found select at most one of the three models |
| `Bundle.ModelsAre` | internal/attestation/attestation.go:1070-1088 | the three models and the names of their files |
| `Bundle.ParseCanonicalTarModel` | internal/attestation/attestation.go:1023-1099 | the parser's loop is the specified scan, model selection, rebuild and comparison |
| `Bundle.BuiltParses` | internal/attestation/attestation.go:970-1099 | what the builder writes for any of the three models, the parser reads back as the same file map |
| `Bundle.BuildsIff` | internal/attestation/attestation.go:970-1016 | the builder builds exactly from a map with the model's files and no others, each within its limit, if the archive fits |
| `Bundle.BuiltLayout` | internal/attestation/attestation.go:970-1016 | where in the archive each file's header, content and padding stand, and the zero blocks at the end |
| `Bundle.ParsesIffBuilt` | internal/attestation/attestation.go:1023-1099 | an archive is accepted with a file map if and only if it is what one of the three models builds from that map |
| `Bundle.EqualContentsEqualBytes` | internal/attestation/attestation.go:1089-1098 | accepted archives with equal contents are equal byte for byte |
| `Dsse.PaeIsInjective` | internal/attestation/attestation.go:1177-1183 | equal pre-authentication encodings force equal payload type and payload, for arbitrary bytes in both |
| `Dsse.PaeIs` | internal/attestation/attestation.go:1177-1183 | the encoding itself: the version, then type and payload, each behind its length |
| `Dsse.DecimalMeans` | internal/attestation/attestation.go:1177-1183 | a length is written in decimal digits that stand for it, without a needless zero |
| `Base64.StrictDecoderSkipsLineBreaks` | internal/attestation/attestation.go:1189 | the strict decoder accepts exactly the standard encodings with line breaks put in anywhere |
| `Base64.AcceptsExactlyTheCanonical` | internal/attestation/attestation.go:1185-1197 | the bounded decoder returns b exactly when the text is the standard encoding of b and b fits; the length check up front turns away nothing it should not |
| `Base64.OneTextPerValue` | internal/attestation/attestation.go:1185-1197 | no two accepted texts decode to the same bytes |
| `Base64.StripNext` | internal/attestation/attestation.go:1189 | the bytes the strict decoder skips are carriage return and line feed, wherever they stand |
| `Base64.SymbolsAreStandard` | internal/attestation/attestation.go:1185-1197 | the standard alphabet |
| `Base64.QuantumIsOneNumber` | internal/attestation/attestation.go:1185-1197 | three octets and their four sextets are one number, most significant first |
| `PortablePath.AcceptedIsFixed` | internal/execution/output_export.go:397-446 | an accepted archive path is accepted again unchanged, is relative and has no dot segments |
| `PortablePath.PortableMeans` | internal/execution/output_export.go:397-446 | what is accepted: the root, or any number of `./` before a plain relative path of at most 4096 characters |
| `PortablePath.RelativeIsPlain` | internal/execution/output_export.go:408-445 | plain, character by character: every segment of 1 to 255 printable ASCII characters but eight, not ending in a dot or space, not a device name in any case, the first none of the runner's own |
| `PortablePath.HeaderPathMeans` | internal/execution/output_export.go:383-395 | an entry's name: a directory's may end in one separator |
| `ArchiveLimit.CeilingIsExact` | internal/execution/output_export.go:469-487 | with int64 arithmetic written out, the ceiling exists exactly when the limits are positive and their true sum is an int64, and is that sum |
| `ArchiveLimit.ArchiveLimitReader.Read` | internal/execution/output_export.go:492-507 | one read delivers at most what remains of the ceiling; past it, a single probing byte decides between end and limit error |
| `ArchiveLimit.ReaderEnforcesCeiling` | internal/execution/output_export.go:489-507 | for any read sizes, never more than the ceiling is delivered and always a prefix; the end is reported only with the whole stream delivered, the limit error only for a longer stream |
| `ArchiveLimit.LengthDecides` | internal/execution/output_export.go:489-507 | as long as reads make progress the outcome is settled, and by the stream's length alone |
| `ArchiveLimit.LawfulArchivesPass` | internal/execution/output_export.go:469-507 | every ustar stream within the entry and disk limits, root entry included, fits the ceiling and never meets the limit error |
| `ArchiveLimit.DrainZeroArchivePadding` | internal/execution/output_export.go:448-467 | draining ends clean only after nothing but zeros up to the end, and otherwise says why |
| `OutputStream.ExtractStream` | internal/execution/output_export.go:207-253 | extraction from the raw stream: the archive reader's reads and the drain go through the byte ceiling, and the result is the entries' tree only if the archive ends, all of it fits and only zeros follow |
| `OutputStream.CeilingOnlyRefuses` | internal/execution/output_export.go:489-507 | the ceiling refuses every longer stream and makes no difference to any other |
| `OutputStream.ExtractedStreamIsWhole` | internal/execution/output_export.go:207-253 | whatever is extracted, every byte was accounted for: a front the archive reader took for an archive, then zeros to the end |
| `OutputStream.DrainRest` | internal/execution/output_export.go:448-467 | with reads that make progress the drain ends clean exactly when the rest fits and is all zeros |
| `OutputExport.ExtractOutputArchive` | internal/execution/output_export.go:207-381 | the extraction loop computes the specified fold over the entries, or fails where it fails |
| `OutputExport.ExtractsIffLawful` | internal/execution/output_export.go:207-381 | a stream is accepted exactly when every entry, given only the entries before it, is plain, portable, new in any case, below an extracted directory, no link, complete and within the limits |
| `OutputExport.ExtractedTree` | internal/execution/output_export.go:207-381 | what is left is exactly the entries, a regular one as a file with the entry's own content and executable bit, a directory as one; below the root, unique when case is ignored, counted and summed exactly, within the limits |
| `OutputExport.ValidateExportedOutputs` | internal/execution/output_export.go:509-634 | the second walk computes the specified inventory of the tree |
| `OutputExport.WalkAgreesWithStream` | internal/execution/output_export.go:509-634 | in whatever order it walks, it reaches every extracted node and no other, and its inventory is the stream's own if and only if the disk limit is positive |
| `OutputExport.EmptyStreamUnderNoLimit` | internal/execution/output_export.go:509-520 | the concrete case in which they disagree: the empty stream under a zero limit |
| `OutputExport.InventoriesNeverDiffer` | internal/execution/output_export.go:64-184 | in the whole export, where the ceiling is computed first, the comparison of the two inventories never fails |
| `HttpRequest.ValidateAlphaHTTPHeaders` | internal/domain/http_contract.go:103-130 | the plan-time header check, ranging in any order, accepts exactly the sets with bounded printable values, effective count and effective weight |
| `HttpRequest.TrustedRequestFromPlan` | internal/execution/http_driver.go:387-506 | the conversion succeeds exactly under its conditions and yields the sorted, completed trusted form |
| `HttpRequest.AcceptableMeans` | internal/execution/http_driver.go:387-506 | its conditions in plain terms: the timeout, the method's spelling, plain headers, one body, and the limits, said of the header lines as sent |
| `HttpRequest.VerbsAccepted` | internal/execution/http_driver.go:406-418 | exactly which spellings of the seven methods pass |
| `HttpRequest.WeightIsWireLength` | internal/execution/http_driver.go:454-486 | the weight that is limited is the length of the header lines on the wire |
| `HttpRequest.AlphaMeans` | internal/domain/http_contract.go:103-130 | the plan-time bounds on headers in numbers; a JSON body without a content type in any case counts as one header more |
| `HttpRequest.TrustedFormIsUnique` | internal/execution/http_driver.go:493-495 | the order the header map is ranged over in does not show in the result |
| `HttpRequest.ValidateTrustedRequest` | internal/execution/http_driver.go:692-755 | the driver's own check, with its loop over the header list |
| `HttpRequest.SendableMeans` | internal/execution/http_driver.go:692-755 | what the driver sends, in plain terms: one of seven methods, one millisecond to 1800 seconds, at most 64 plain headers of different names, within the tighter of the configured and built-in limits |
| `HttpRequest.PlanAcceptsMeans` | internal/execution/http_plan.go:325-366 | what a plan's request step has to be |
| `HttpRequest.LongSPasses` | internal/execution/http_driver.go:406-418 | a method the code takes although it is not spelled in ASCII: `poſt`, whose capitals are POST |
| `HttpRequest.PlanTimeImpliesRunTime` | internal/execution/http_driver.go:858-863 | an accepted request converts again at run time with the same result, passes the driver's check and the step-timeout gate, and its header count and weight are those checked at plan time |
| `HttpAssertions.EvaluateResponseAssertion` | internal/execution/http_assertions.go:96-268 | the evaluator, overwriting the status predicate by predicate, computes the combined verdict |
| `HttpAssertions.StatusMeans` | internal/execution/http_assertions.go:124-263 | passed exactly when every declared predicate holds, failed exactly when one definitely does not, whatever could not be decided |
| `HttpAssertions.StatusByResponse` | internal/execution/http_assertions.go:96-268 | in terms of the response: passed when it meets every declared predicate, failed when it contradicts one, blocked when it does neither and a missing schema or path has the last word |
| `HttpAssertions.BlockedForWantOfSchema` | internal/execution/http_assertions.go:188-240 | with a path and expected value that were accepted before, an evaluated response is blocked only for want of the plan-bound schema |
| `HttpPlan.ValidatePlan` | internal/execution/http_plan.go:110-411 | the validator accepts exactly the plans whose signal timeout, assertions and ordered steps are in order |
| `HttpPlan.CheckSteps` | internal/execution/http_plan.go:299-411 | the ordered step pass accepts exactly the step lists in which each step is fine in the light of those before it, with 1 to 32 requests and every assertion once |
| `HttpPlan.CollectAssertions` | internal/execution/http_plan.go:183-297 | the assertion pass accepts exactly the lists of acceptable assertions and indexes them |
| `HttpPlan.PlanMeans` | internal/execution/http_plan.go:110-411 | acceptance step by step, by positions: 2 to 128 steps in order, 1 to 32 of them requests, every assertion made in some step |
| `HttpPlan.ResponseCheckMeans` | internal/execution/http_plan.go:187-275 | what an assertion on a response may say, in plain terms |
| `HttpPlan.LastAssertionIsKept` | internal/execution/http_plan.go:187-189 | of several assertions with one identifier the last is kept |
| `HttpJourney.ExecuteJourney` | internal/execution/http_driver.go:812-1102 | the executor computes the specified journey and stops where it stops |
| `HttpJourney.JourneyRecords` | internal/execution/http_driver.go:843-1087 | of an accepted plan's journey: every step before the stop ran with time left and the service alive, every exchange on record is the transport's answer to its request, every status the file inspection's or what the predicates say of the response asked about, and nothing is on record beyond the step it stopped at |
| `HttpJourney.RequestStepMeans` | internal/execution/http_driver.go:853-905 | one request of any plan, accepted or not, under the default of ten seconds |
| `HttpJourney.EntriesAre` | internal/execution/http_assertions.go:15-77 | which entries the final results have and with which status |
| `HttpJourney.EvaluateJourneyAssertions` | internal/execution/http_assertions.go:15-77 | the final results list one entry per reported assertion step |
| `HttpJourney.AcceptedPlanNeverStuck` | internal/execution/http_driver.go:843-1087 | the journey of an accepted plan never stops because of the plan, and every response assertion reached finds its request's exchange |
| `HttpJourney.FinalResultsShape` | internal/execution/http_assertions.go:15-77 | one entry per assertion in step order: passed entries, at most one other, then blocked; all passed without an error; a recorded non-pass is where the journey stopped |
| `TrustChain.TransitionIsSound` | internal/attestation/offline_trust_policy_authority_transition.go:198-241 | an accepted transition is signed by the previous authority over the encoding of exactly its type, names both keys, and meets the floor |
| `TrustChain.TransitionIff` | internal/attestation/offline_trust_policy_authority_transition.go:198-241 | a transition verifies exactly when it is one: sealed by the previous key in the one way possible, naming both keys, at the floors up to its generation |
| `TrustChain.AuthenticatedIff` | internal/attestation/offline_trust_policy_authority_transition.go:198-241 | an envelope authenticates a payload exactly when it is the one sealed form of it: type, payload and one 64-byte signature, both in standard base64 |
| `TrustChain.VerifyTransitionChain` | internal/attestation/offline_trust_policy_authority_transition_chain.go:153-233 | the verification loop computes the specified walk along the hops |
| `TrustChain.ChainIsSound` | internal/attestation/offline_trust_policy_authority_transition_chain.go:153-233 | an accepted chain leads signature by signature from the explicit root to the explicit terminal key, through distinct authorities and strictly growing generations, so the last is at least the hop count, and meets the floor |
| `TrustChain.ChainVerifiesIff` | internal/attestation/offline_trust_policy_authority_transition_chain.go:153-233 | a raw chain verifies exactly when it is the transport of two to eight transitions that chain from the root to the terminal key, at the floors up to the last generation |
| `TrustChain.BuildTransitionChain` | internal/attestation/offline_trust_policy_authority_transition_chain.go:111-148 | the builder returns the encoded transport only after verifying it |
| `TrustChain.BuiltChainVerifiesAtFloors` | internal/attestation/offline_trust_policy_authority_transition_chain.go:111-233 | a built chain verifies at exactly the floors from one to its terminal generation, always with the same facts |
| `TrustChain.BuildsIffChainable` | internal/attestation/offline_trust_policy_authority_transition_chain.go:111-148 | with a chain codec that reads back what it wrote, building succeeds exactly when the keys parse and differ, each transition verifies between its neighbours and generations grow |
| `TrustChain.ChainsExist` | internal/attestation/offline_trust_policy_authority_transition_chain.go:111-148 | chains exist: for some foreign code two transitions between three keys build |
| `TrustPolicy.CollectStatuses` | internal/attestation/signed_trust_policy.go:178-186 | the key loop accepts exactly valid, strictly increasing identifiers and tabulates them |
| `TrustPolicy.StatusesAreListed` | internal/attestation/signed_trust_policy.go:178-202 | the table has exactly the listed identifiers, each with its listed status |
| `TrustPolicy.ParseSignedPolicy` | internal/attestation/signed_trust_policy.go:104-155 | the parser, signature before payload, with the self-listed authority as a conflict of its own |
| `TrustPolicy.PolicyIsSound` | internal/attestation/signed_trust_policy.go:104-202 | a parsed policy is signed by its authority, which it does not list, and says of every key what its document says |
| `TrustPolicy.ParsedOrConflicts` | internal/attestation/signed_trust_policy.go:104-155 | a policy file is a role conflict exactly when the signed document lists its own signer, and is parsed exactly when it is in order otherwise |
| `TrustPolicy.VerifyWithChainedPolicy` | internal/cli/offline_trust_policy_authority_chain_verify.go:44-155 | the report accepts exactly when every gate opens; each reason, the released chain and policy facts, and which files were read are each tied, both ways, to the gates passed |
| `TrustPolicy.AcceptanceIsSound` | internal/cli/offline_trust_policy_authority_chain_verify.go:44-155 | acceptance means hop-by-hop signatures from root to terminal, a policy signed by the terminal key, both floors met, a signer its document lists as trusted, and no authority of the chain in that document under any status |
| `TrustPolicy.RolesAreSeparateIff` | internal/cli/offline_trust_policy_authority_chain_verify.go:99-104 | roles are separate exactly when no authority of the chain is in the signed document, whatever its status there |
| `TrustPolicy.SignerReasonIs` | internal/attestation/signed_trust_policy.go:188-202 | after the gates the reason is revoked, trusted or not listed exactly as the signed document says of the signer |
| `TrustPolicy.GatesOpenIff` | internal/cli/offline_trust_policy_authority_chain_verify.go:44-155 | all gates open exactly under conditions on the files themselves |
| `TrustPolicy.RolesCollideIff` | internal/cli/offline_trust_policy_authority_chain_verify.go:84-104 | and a role conflict is found exactly when the document lists an authority, the terminal one included |
| `Freshness.Report.SetStatus` | internal/attestation/freshness.go:200-208 | exactly the check of the named dimension is overwritten |
| `Freshness.EvaluateFreshness` | internal/attestation/freshness.go:108-182 | the evaluator yields the specified evaluation, reason and checks |
| `Freshness.EvaluationMeans` | internal/attestation/freshness.go:108-182 | current exactly when everything was observed and is unchanged; current, stale and unknown are what the four checks say |
| `Freshness.ReasonMeans` | internal/attestation/freshness.go:108-182 | the reason names the first dimension that does not match, and how |
| `Freshness.ReasonTable` | internal/attestation/freshness.go:108-182 | which reason is given when, in the fields of what was claimed and observed |
| `Freshness.MarksShowObserved` | internal/attestation/freshness.go:108-182 | a decided check shows the digest of what was observed, one that was not reached shows none |
| `Freshness.ChecksShowBoth` | internal/attestation/freshness.go:184-198 | the four checks, in order, with the evidence's own digests beside the observed ones |
| `Freshness.RunnersCompareByFields` | internal/attestation/freshness.go:87-104 | when a runner can be compared, and that only five of its fields matter |
| `Freshness.ProbeRunner` | internal/cli/cli.go:1587-1608 | the probe returns the one comparable runner of the backend, if there is exactly one |
| `Freshness.ProbedIs` | internal/cli/cli.go:1587-1608 | it finds a runner exactly when one candidate, and no other, is of that backend and can be compared |
| `Freshness.EvaluateInStages` | internal/cli/cli.go:1441-1574 | the staged observation with its early exits: if enough was seen, the evaluation and reason of one evaluation of the complete observation, otherwise the early answer; the runner is probed exactly when all else matches |
| `Freshness.StagesAgreeIff` | internal/cli/cli.go:1441-1574 | the stages and one evaluation of the complete observation agree if and only if the source is stable or the stages got to see what is wrong with it; otherwise the answer is the early one |
| `Freshness.StagesAgreeWithOneShot` | internal/cli/cli.go:1441-1574 | in particular for every stable source |
| `Freshness.UnstableSourcesCanDisagree` | internal/cli/cli.go:1492-1502 | a source changed for the first two looks and back at the third: the stages call the evidence stale, the complete observation finds the source unstable |
| `Freshness.ProbedOnlyWhenAllElseMatches` | internal/cli/cli.go:1540-1569 | the runner is probed exactly when source, policy and plan all match and the evidence's own runner is comparable |
| `RepeatAggregation.RunRepeats` | internal/cli/cli.go:494-604 | the loop and its break: completed, the largest multiplicity of one fingerprint among completed repeats, cleanup, resources and runner of exactly the repeats that ran |
| `RepeatAggregation.CountFingerprint` | internal/cli/cli.go:511-519 | the running maximum over a counter per fingerprint is the largest multiplicity |
| `RepeatAggregation.WorstIsWorst` | internal/cli/cli.go:2994-3030 | the aggregate cleanup is the worst verdict, an unrecognised one counting as not tested |
| `RepeatAggregation.WorstMeans` | internal/cli/cli.go:2994-3030 | verdict by verdict: undeclared residue outweighs what was not tested, that outweighs declared residue, and clean means every repeat was |
| `RepeatAggregation.WorstIgnoresOrder` | internal/cli/cli.go:2994-3030 | and does not depend on the order of the repeats |
| `RepeatAggregation.MergeResources` | internal/cli/cli.go:2832-2915 | merging combines every field and clears what was not observed on both sides |
| `RepeatAggregation.ResourcesAreTotals` | internal/cli/cli.go:2832-2915 | over two or more repeats a sandbox field is the int64 sum or the maximum if observed in every one and zero otherwise; a legacy field is so in any case |
| `RepeatAggregation.LegacyReport` | internal/cli/cli.go:2832-2915 | each legacy field of the report: memory and processes are the largest, cpu time, duration and log bytes the sum |
| `RepeatAggregation.SandboxReport` | internal/cli/cli.go:2832-2915 | each sandbox field: memory, tasks and writable bytes the largest, cpu time and output the sum, of what every repeat observed, zero otherwise |
| `RepeatAggregation.RunnerReport` | internal/cli/cli.go:2917-2992 | an identity change leaves a runner without availability, promises, coverage and engine version through every later merge; without one, each flag is the conjunction and each coverage the least over the repeats |
| `RepeatAggregation.CoverageOrder` | internal/cli/cli.go:2973-2992 | the order of coverages: full, high, best effort, enforcement only, none |

## Left out

- Encryption, digests, PEM and X.509 parsing, JSON Schema and canonical JSON: parameters of the model.
- Container and process execution, timeouts as clock values, file handles, locks and permissions: the model has only their outcomes. Losing the process or running out of time is the controller giving up at any moment.
- The Node helper script and the other embedded helpers (HTTP, snapshot, lstat, cleanup): not part of this model.
- JSON encoding of frames and commands: the lengths of both are computed, their texts enter through a `Codec`; duplicate or unknown keys are the decoder's business. A control line whose phase is not a hashable JSON value crashes the Python helper; it counts here as neither command.
- TraceHelper.InvRun: elapsed times and path digests inside transcript lines are represented by the length of the line only.
- TraceHelper.InvRun: a run starts at `ready`; the start line and the tree walk that installs the watches are represented by their three outcomes, and the 2048-watch bound by the overflow outcome.
- TraceHelperScript.Helper.ReadInput: parsing a line as JSON is a parameter, and so is what the helper finds in the notification queue while it obeys one.
- TraceTransport.LinkRefinesSession: the digest in a final frame stands for the transcript it was taken of; a session's frames are assumed to read back, not those of all sessions.
- TraceSession.FinishSucceedsIff: the helper's standard error, which must be empty, is not part of this model.
- WriteScope.CompileRules: `path.Clean` and `os.path.normpath` appear through the absolute paths they leave unchanged, which is all the code asks of them.
- Ustar.HeaderRoundTrip: base-256 numbers, signed checksums, GNU, STAR and PAX headers, which the archive reader understands, read as errors here. They cannot occur in an archive equal to its own rebuild, so no verdict on a bundle changes.
- Bundle.ParseCanonicalTarModel: a truncated padding is refused together with its entry rather than at the next header; the verdict is the same.
- OutputExport.ExtractOutputArchive: error codes and messages, file modes beyond the executable bit, and file systems that fold case.
- OutputStream.ExtractStream: which entries an archive has is the archive reader's business, a function of the bytes it was given; the reads it makes are arbitrary.
- OutputExport.ValidateExportedOutputs: `filepath.WalkDir` enters as any order over the nodes reachable from the root.
- HttpPlan.ValidatePlan: the checks on commands, roles, required features, readiness, ports and capabilities that come before the assertion pass; output-path and schema-reference checks are parameters.
- HttpRequest.TrustedRequestFromPlan: Unicode case mapping is modelled only where an ASCII letter is on either side; a header name or method with any other cased letter is refused for that letter, in both passes.
- HttpAssertions.EvaluateResponseAssertion: the published expected and actual maps and messages.
- HttpJourney.ExecuteJourney: observation events, error objects and the `driverStarted` flag.
- TrustPolicy.VerifyWithChainedPolicy: the persistent trust state enters as its verdict; its store is not part of this model.
- Freshness.StagesAgreeWithOneShot: digests inside the checks are not compared, because the stages leave the runner's current digest empty where the one evaluation fills it.
- RepeatAggregation.MergeResources: the list of observed fields is a set, without its order and repeats.
- RepeatAggregation.RunRepeats: findings, assertions and observations are only appended and renumbered, and are not modelled; the assertion fingerprint is an optional text.
- Report rendering, command-line flags, the acceptance registry, build identity and release state: not part of this model.
