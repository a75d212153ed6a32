# Ghosty: proofs about the consent protocol, the conversation repair and the stream filters

This project models the parts of Ghosty where correctness hangs on many steps at
once, and proves what they promise, for all inputs and all runs:

* **Telemetry consent and buffer** (`TelemetryHome`, `TelemetryDecision`,
  `TelemetryProtocol`, `TelemetryFlush`, `TelemetryRing`): any number of processes share one
  directory; every body that runs under the sibling lock is one atomic step;
  the tombstone carries a nonce that works as an epoch. The results are about
  every interleaving.
* **Think-tag filter** (`ThinkTags`, `ThinkGrammar`, `ThinkScan`, `ThinkCuts`,
  `ThinkProbes`, `ThinkFilter`): an incremental
  parser with a capped hold-back buffer; the tags it knows are those of a grammar,
  and it equals one pass over the whole text exactly at the chunk boundaries where
  that is true.
* **Conversation repair** (`Messages`, `ToolCalling`, `MessageMerge`,
  `ConversationRepair`, `ConversationShape`, `RepairConserves`, `RepairFixpoint`):
  the nine passes, what each keeps, what the whole pipeline conserves, and what it
  accepts, yields and leaves alone.
* **Streamed answers** (`StreamMerge`): `Conversation::push` and
  `collect_stream` agree, and conserve text, thinking, all other blocks and status.
* **Agent loop** (`AgentTurn`, `AgentTools`, `AgentInference`, `AgentMachine`,
  `AgentDispatch`, `AgentResults`, `AgentAnswer`):
  first-applicable-step scheduling with a cancel flag that may be set at any
  moment, the duty to answer tool calls with what their tools returned, and what the
  provider is shown and what of its answer is kept.
* **Scanners and placement** (`JsonRepair`, `JsonGrammar`, `JsonArguments`,
  `SummaryJson`, `SummaryOrder`, `CacheBreakpoints`, `MiddleOut`).

## How to read it

Files and objects that the program updates in place are classes; loops are
methods with invariants. Each such method is tied by its postcondition to a
function (`ProcessBuffer` to `Scan`, `FixToolCallingLoop` to `FixToolCalling`,
`WipeUnderLock` to `Wipe`, and so on), and the lemmas are about that function.
Wherever it was possible the function is in turn characterised by a definition
that does not mention it: `Survives` for the tool-call repair, `WellFormed` for
the pipeline, `Longest` for the ring, `Awaited` for the pending set, the grammars
`ThinkGrammar.Syntax` for the tag parser and `JsonGrammar.Piece` for the JSON
scanners, `FirstFull` for a telemetry batch, `Found` for the summary candidates,
`IsLeadingObject` for the brace scanner, `IsAnchor` for the cache breakpoints. Limits
and fixed texts of the source stand in those definitions as literals.

Strings are sequences of Unicode scalars; byte lengths are the UTF-8 widths of
their characters (`Text.Bytes`), because the caps of the source are in bytes.
What the outside world decides is an argument: whether a file operation fails,
what the configuration says, when the cancel flag becomes visible, what the
provider streams, what a strict JSON parser makes of a text. Nonces written into
tombstones are assumed fresh.

Where a tempting property is false, the model keeps the code as it is, a lemma
exhibits the input or the run, and another says exactly when the property holds:

* A chunk boundary after `<`, after `</` inside a think block, or inside
  `<think/…` can change the result: `SafeCutIsExact` says which boundaries do, with
  no condition on the text; `HazardShows` names a continuation for every other one.
* A repeated request id can orphan a response: `RepeatedIdOrphansResponse`,
  `ResponseKeepsItsRequest`. So can the leading message that is dropped:
  `LeadingCallOrphansAnswer`, `RepairedResponsesRequested`.
* The repair pipeline is not idempotent, and a list of mixed visibility may still
  begin with an assistant message: `RepairIsNotIdempotent`,
  `MixedVisibilityBreaksLead`; exactly when the repaired list would be accepted:
  `RepairSettlesExactly`, `DistinctIdsSettle`; when a second repair changes nothing:
  `IdempotentExactly`; when its ends are right:
  `RepairedEndsExactly`.
* The size probe of the ring hides an over-full sink if 513 lines in a row amount
  to less than 4096 bytes, and only then: `SixByteLinesOverflow`,
  `EnforcedIsLongest`, `SinkIsLongestSuffix`. Lines of seven bytes suffice (the
  source reasons with eight): `SevenBytesSuffice`.
* A stale line can be drained if an arming removes the tombstone and then cannot
  truncate: `FailedTruncationLeaksStaleLine`; exactly such armings leave stale
  lines: `ArmingLeavesStaleLines`, `RunStaysFresh`.
* A batch drained before an opt-out can be delivered after a later re-enablement:
  `OldBatchMayFollowReenablement`; it needs one (`OldBatchNeedsClearing`), and
  whenever there is one it can be delivered (`BatchCanBeDelivered`,
  `BatchOutlivesOptOut`).
* One round can dispatch an id twice, if a provider asks again for an id whose tool
  was not available before: `PendingIdAskedAgain`; over which runs it cannot:
  `RunKeepsPendingDistinct`, `RunDispatchesOnce`.
* `push` and `collect_stream` differ on some chunks of several blocks:
  `MultiBlockChunksDiffer`; on which: `PushAgreesWithCollect`.

## Model

| member | source | states |
|---|---|---|
| TelemetryFiles.TelemetryHome.AppendUnderLock | crates/ghosty-telemetry/src/buffer.rs:201-219 | nothing is appended while a tombstone stands; success exactly if none stands and both the write and the synchronisation work |
| TelemetryFiles.TelemetryHome.DrainUnderLock | crates/ghosty-telemetry/src/buffer.rs:355-373 | lines are returned only if the buffer was emptied by this very drain and no tombstone stood |
| TelemetryFiles.TelemetryHome.WipeUnderLock | crates/ghosty-telemetry/src/buffer.rs:403-449 | past the tombstone write the tombstone stands whatever else fails; success means all four files are gone |
| TelemetryFiles.TelemetryHome.ArmUnderLock | crates/ghosty-telemetry/src/buffer.rs:458-478 | succeeds exactly if the observed generation is the current one, permission is still given, a standing tombstone could be removed and the buffer truncated |
| TelemetryFiles.TelemetryHome.ReadOrCreateInstallId | crates/ghosty-telemetry/src/envelope.rs:61-85 | no id is read or minted while the tombstone stands; a valid stored id is returned and kept; otherwise the new one is returned exactly if it can be written |
| TelemetryFiles.TelemetryHome.WriteStateFile | crates/ghosty-telemetry/src/envelope.rs:107-117 | the state is written exactly if no tombstone stands and the write works |
| TelemetryFiles.ParseEvents | crates/ghosty-telemetry/src/actor.rs:250-267 | the loop computes the batch: exactly the accepted lines up to the first line that finds 200 events or no room in 64 KiB |
| TelemetryFiles.ParsedIsBounded | crates/ghosty-telemetry/src/actor.rs:240-267 | a batch holds at most 200 events and 64 KiB, only accepted lines, in the drained order |
| TelemetryFiles.ParsedExact | crates/ghosty-telemetry/src/actor.rs:250-267 | a batch is every accepted line up to the first that finds it full: a line that does not parse is skipped and costs nothing, none before that point is left out, none after it is taken |
| TelemetryDecision.EvaluateExact | crates/ghosty-telemetry/src/decision.rs:284-342 | exactly when the configuration permits, opts out or forces off; nothing run-scoped opts out |
| TelemetryDecision.PermittingIsNotWiping | crates/ghosty-telemetry/src/decision.rs:344-385 | exactly when this home is permitted and when it is wiped; never both |
| TelemetryProtocol.TombstoneFreezes | crates/ghosty-telemetry/src/buffer.rs:201-219 | in every run, while a tombstone stands nothing is appended, drained, minted, written as state or delivered, and its generation does not change |
| TelemetryProtocol.GenerationIsOnePeriod | crates/ghosty-telemetry/src/buffer.rs:38-44 | a generation stands for one unbroken period and never returns |
| TelemetryProtocol.ConsentHasDecision | crates/ghosty-telemetry/src/decision.rs:264-282 | a consent held by a process comes from its own permitting decision, which read the generation it carries |
| TelemetryProtocol.OnlyThisPeriodsConsentClears | crates/ghosty-telemetry/src/buffer.rs:451-478 | a tombstone is cleared only by an arming whose fresh permission check said yes and whose decision was made while this same generation stood, which it did from then on |
| TelemetryProtocol.StaleConsentCannotClear | crates/ghosty-telemetry/src/lib.rs:95-112 | a process that has not decided again since an opt-out cannot clear it |
| TelemetryProtocol.StepAccounts | crates/ghosty-telemetry/src/buffer.rs:178-273 | every step keeps each appended line in exactly one of: buffer, dropped by the ring, truncated, drained |
| TelemetryProtocol.StepKeepsOrder | crates/ghosty-telemetry/src/buffer.rs:355-373 | every step keeps all drains and the buffer in append order |
| TelemetryProtocol.StepKeepsSingleUse | crates/ghosty-telemetry/src/actor.rs:188-238 | every step keeps each drain behind at most one batch, under way or delivered |
| TelemetryProtocol.RunInvariants | crates/ghosty-telemetry/src/actor.rs:118-145 | the three invariants hold in every state of every run |
| TelemetryProtocol.DeliveredAtMostOnce | crates/ghosty-telemetry/src/client.rs:46-73 | no appended line is delivered twice, in one batch or in two |
| TelemetryProtocol.ArmingLeavesStaleLines | crates/ghosty-telemetry/src/buffer.rs:471-476 | an arming past its checks leaves stale lines if and only if it does not truncate a buffer that has lines |
| TelemetryProtocol.RunStaysFresh | crates/ghosty-telemetry/src/buffer.rs:385-402 | a run is free of stale lines throughout if and only if none of its armings leaves lines behind |
| TelemetryProtocol.DrainsOnlyFreshLines | crates/ghosty-telemetry/src/buffer.rs:385-402 | then what a drain returns was appended after every earlier wipe and arming, even if a wipe could not truncate |
| TelemetryProtocol.StaleLineCanBeDrained | crates/ghosty-telemetry/src/buffer.rs:355-373 | in every run, a stale line left behind can be drained next by a process that is armed and idle |
| TelemetryProtocol.FailedTruncationLeaksStaleLine | crates/ghosty-telemetry/src/buffer.rs:471-476 | the run in which an arming clears the tombstone, fails to truncate, and a line from before the opt-out is drained |
| TelemetryProtocol.OldBatchMayFollowReenablement | crates/ghosty-telemetry/src/actor.rs:199-237 | the run in which a batch drained before an opt-out is delivered after a re-enablement |
| TelemetryProtocol.OldBatchNeedsClearing | crates/ghosty-telemetry/src/client.rs:46-73 | in every run, a batch under way while a tombstone stands is delivered only after a step that cleared it |
| TelemetryProtocol.BatchCanBeDelivered | crates/ghosty-telemetry/src/actor.rs:199-237 | every run that has a batch under way and no tombstone can be continued to deliver it |
| TelemetryProtocol.BatchOutlivesOptOut | crates/ghosty-telemetry/src/actor.rs:199-237 | every run that has a batch under way while a generation stands can be continued to clear it and deliver the batch |
| TelemetryFlush.DecideExact | crates/ghosty-telemetry/src/decision.rs:264-282 | a permitting decision leaves a consent that carries the generation read; any other changes nothing |
| TelemetryFlush.InitExact | crates/ghosty-telemetry/src/lib.rs:95-112 | the consent is used up; the process is armed if and only if the consent carries what the home shows, permission is still given and both file operations work, and then the home is free and its buffer empty |
| TelemetryFlush.RecordsAreBuffered | crates/ghosty-telemetry/src/actor.rs:147-160 | what an armed process records stands at the end of the buffer, in order, under fresh serials |
| TelemetryFlush.OneFlushStep | crates/ghosty-telemetry/src/actor.rs:188-238 | an armed process can take exactly one step of a flush at any time: it collects only when no batch is under way |
| TelemetryFlush.FlushExact | crates/ghosty-telemetry/src/actor.rs:188-238 | a flush drains the whole buffer, sends the one batch it makes, keeps a valid id and mints one otherwise, stamps the state, and does nothing more; without a batch only the drain happens |
| TelemetryFlush.RecordedIsDelivered | crates/ghosty-telemetry/src/actor.rs:188-267 | with an empty buffer, the next flush delivers the recorded events in order, up to the first that finds 200 events or no room in 64 KiB |
| TelemetryFlush.FailedStepDrops | crates/ghosty-telemetry/src/actor.rs:199-237 | taking an id or delivering, when it fails or a tombstone stands, gives up the batch and sends nothing |
| TelemetryRing.Sink.EnforceRing | crates/ghosty-telemetry/src/buffer.rs:225-269 | the compaction loop computes the compacted file |
| TelemetryRing.Sink.Append | crates/ghosty-telemetry/src/buffer.rs:178-198 | a line is taken exactly if it is not empty and fits the limit; then the ring is enforced |
| TelemetryRing.LinesOfJoin | crates/ghosty-telemetry/src/buffer.rs:334-342 | reading back a sink gives the lines it was written from, and its size is their byte count |
| TelemetryRing.AppendedExact | crates/ghosty-telemetry/src/buffer.rs:178-198 | a line is taken unless it is empty or, with its line end, longer than the limit |
| TelemetryRing.LinesOfRaw | crates/ghosty-telemetry/src/buffer.rs:337-346 | any file, with either line end and an unfinished last line, is read as its lines |
| TelemetryRing.NonBlankExact | crates/ghosty-telemetry/src/buffer.rs:337-346 | exactly the blank lines are passed over |
| TelemetryRing.EnforcedExact | crates/ghosty-telemetry/src/buffer.rs:225-269 | whatever a file holds: untouched below 4096 bytes or within 512 lines and 262144 bytes; otherwise its newest lines, and of the oldest no more go than both limits ask for |
| TelemetryRing.LongestIsLongest | crates/ghosty-telemetry/src/buffer.rs:30-33 | the reference result is a suffix within both limits, and no longer suffix is |
| TelemetryRing.LongestSnoc | crates/ghosty-telemetry/src/buffer.rs:221-224 | what the ring forgot can never matter again |
| TelemetryRing.EnforcedIsLongest | crates/ghosty-telemetry/src/buffer.rs:225-273 | one enforcement leaves the longest suffix within both limits if and only if there are at most 512 lines or at least 4096 bytes |
| TelemetryRing.SinkIsLongestSuffix | crates/ghosty-telemetry/src/buffer.rs:178-273 | after every append of a history the sink is the longest suffix within 512 lines and 256 KiB, if and only if no 513 lines in a row amount to less than 4096 bytes |
| TelemetryRing.SevenBytesSuffice | crates/ghosty-telemetry/src/buffer.rs:48-52 | so it always is with lines of at least seven bytes |
| TelemetryRing.SixByteLinesOverflow | crates/ghosty-telemetry/src/buffer.rs:48-52 | with six-byte lines the probe lets 513 lines stand |
| ThinkTags.ParseStable | crates/goose-provider-types/src/thinking.rs:188-268 | a recognised tag does not depend on what follows it |
| ThinkTags.GrowingIsHeld | crates/goose-provider-types/src/thinking.rs:270-286 | whatever can still become a tag is held back, except `<`, `</` and `<think/…` |
| ThinkTags.HeldPrefix | crates/goose-provider-types/src/thinking.rs:270-286 | being held back is inherited by every prefix that has reached the name |
| ThinkGrammar.ParseTagIsGrammar | crates/goose-provider-types/src/thinking.rs:188-268 | a tag of a kind and length is found if and only if the text starts with one of the grammar: `<`, an optional `/`, "think" or "thinking" in any case, a boundary, and attributes whose only unquoted `>` is the last character |
| ThinkGrammar.SyntaxIsParsed | crates/goose-provider-types/src/thinking.rs:188-268 | every text of the grammar is found, with its kind and length, whatever follows |
| ThinkGrammar.TagIsRead | crates/goose-provider-types/src/thinking.rs:76-186 | a tag over 8192 bytes, or a closing one outside every block, is text on the current side; every other disappears and changes the depth by one or, self-closing, not at all |
| Text.WidthIsLeast | crates/goose-provider-types/src/thinking.rs:7 | the byte width behind the caps is the least of the four UTF-8 lengths that can hold the character |
| ThinkGrammar.BlockIsSplit | crates/goose-provider-types/src/thinking.rs:9-16 | for both names in any case, what stands between the tags is thinking and what follows is content |
| ThinkGrammar.DepthCounts | crates/goose-provider-types/src/thinking.rs:93-104 | the depth is the number of opening tags read less that of closing ones |
| ThinkGrammar.NoTagMissed | crates/goose-provider-types/src/thinking.rs:164-186 | one pass leaves no tag of at most 8192 bytes in the text, except closing ones outside every block and those inside an overlong or unfinished tag |
| ThinkGrammar.HeldGrowsExactly | crates/goose-provider-types/src/thinking.rs:270-286 | exactly which held texts some continuation makes a tag of |
| ThinkFilters.ContainsUnquotedGt | crates/goose-provider-types/src/thinking.rs:288-303 | the loop finds a `>` outside quotes exactly when there is one |
| ThinkFilters.AttributeEnd | crates/goose-provider-types/src/thinking.rs:238-267 | the attribute loop stops at the first unquoted `>` and tells open from self-closing |
| ThinkFilters.ParseThinkTag | crates/goose-provider-types/src/thinking.rs:188-268 | the parser at a position computes the tag specification of the suffix |
| ThinkFilters.NextBufferEvent | crates/goose-provider-types/src/thinking.rs:164-186 | the event is the first place where the scan does not emit a single character |
| ThinkFilters.ThinkFilter.ProcessBuffer | crates/goose-provider-types/src/thinking.rs:76-156 | the event loop ends, and computes rest, depth and both outputs of the scan |
| ThinkFilters.ThinkFilter.Push | crates/goose-provider-types/src/thinking.rs:58-61 | keeps the input partitioned into routed characters, tags and a short possible partial tag; the flag equals positive depth |
| ThinkFilters.ThinkFilter.Finish | crates/goose-provider-types/src/thinking.rs:63-74 | releases what is held, on the current side |
| ThinkFilters.SplitThinkBlocks | crates/goose-provider-types/src/thinking.rs:9-16 | push and finish together give the single-pass result |
| ThinkScan.TagStandsAlone | crates/goose-provider-types/src/thinking.rs:188-268 | the text of a recognised tag is itself that tag, whole |
| ThinkScan.ScanPartitions | crates/goose-provider-types/src/thinking.rs:76-156 | a push partitions its buffer, in order; characters go to thinking exactly under an open tag; what stays is at most 8192 bytes and a possible partial tag |
| ThinkScan.StreamPartitions | crates/goose-provider-types/src/thinking.rs:58-156 | for every chunking nothing is lost, invented, reordered or misrouted |
| ThinkScan.LoneCloseIsText | crates/goose-provider-types/src/thinking.rs:171-180 | outside a think block a bare `</` may be emitted at once: a closing tag there is text |
| ThinkCuts.SafeCutSuffices | crates/goose-provider-types/src/thinking.rs:58-186 | at a safe cut, scanning on from the held rest equals scanning the whole, for every continuation |
| ThinkCuts.ChunkInvariance | crates/goose-provider-types/src/thinking.rs:9-16 | with safe cuts, streaming any chunks equals one pass over their concatenation, piece by piece |
| ThinkProbes.HazardShows | crates/goose-provider-types/src/thinking.rs:275-283 | at every unsafe cut a continuation is given for which the stream and one pass emit different amounts of text |
| ThinkProbes.SafeCutIsExact | crates/goose-provider-types/src/thinking.rs:270-286 | for every text: a cut is harmless for every continuation if and only if it is safe |
| ThinkCuts.ShadowHead | crates/goose-provider-types/src/thinking.rs:80-156 | an overlong `<think/…` passed over is harmless when a tag held at its end is as long and ends where it does |
| ThinkProbes.HeldTells | crates/goose-provider-types/src/thinking.rs:80-156 | whatever else the filter holds, one of three texts tells it apart from plain text |
| ThinkFilters.FilterChunks | crates/goose-provider-types/src/thinking.rs:58-74 | pushing all chunks and finishing puts out the stream result |
| ThinkFilters.FilterMatchesSplit | crates/goose-provider-types/src/thinking.rs:9-16 | at safe cuts that is what `split_think_blocks` gives for the whole text |
| ToolCalling.FixToolCallingLoop | crates/goose-provider-types/src/conversation.rs:426-512 | the two passes with removal by index compute the functional passes |
| ToolCalling.PendingIsAwaited | crates/goose-provider-types/src/conversation.rs:426-491 | the pending set is exactly the ids requested and not answered since |
| ToolCalling.FixToolCallingIsExact | crates/goose-provider-types/src/conversation.rs:426-512 | exactly the surviving items stay, in order; beyond that only empty text goes |
| ToolCalling.RepairedCallsAnswered | crates/goose-provider-types/src/conversation.rs:426-512 | requests only from the assistant, responses only from the user, every request answered later |
| ToolCalling.RepairedCallsPaired | crates/goose-provider-types/src/conversation.rs:426-512 | with distinct request ids, calls and answers correspond one to one, the call first |
| ToolCalling.ResponseKeepsItsRequest | crates/goose-provider-types/src/conversation.rs:493-508 | a surviving response keeps an earlier request if and only if its id is not awaited again at the end |
| ToolCalling.RepeatedIdOrphansResponse | crates/goose-provider-types/src/conversation.rs:426-512 | three messages in which the repeat of an id orphans the response to it |
| MessageMerge.MergeTextsExact | crates/goose-provider-types/src/conversation.rs:296-319 | no two texts for one audience stay adjacent; nothing changes exactly when none were |
| MessageMerge.MergeTextsConservesText | crates/goose-provider-types/src/conversation.rs:296-319 | the text of every audience is conserved in order |
| MessageMerge.MergeTextsRuns | crates/goose-provider-types/src/conversation.rs:296-319 | every block of the result is one run of the input: a block as it was, or texts for one audience joined in order under the annotations of the first |
| MessageMerge.MergeTextsPair | crates/goose-provider-types/src/conversation.rs:296-319 | two texts are joined exactly if they are for the same audience |
| MessageMerge.MergeConsecutive | crates/goose-provider-types/src/conversation.rs:526-550 | the loop computes the merge and its reports |
| MessageMerge.MergeLeavesApart | crates/goose-provider-types/src/conversation.rs:526-550 | no mergeable neighbours remain |
| MessageMerge.MergeExact | crates/goose-provider-types/src/conversation.rs:526-550 | one report per merged message; unchanged exactly when nothing was mergeable |
| MessageMerge.MergeIdempotent | crates/goose-provider-types/src/conversation.rs:516-524 | both merges are idempotent |
| MessageMerge.MergeKeepsItems | crates/goose-provider-types/src/conversation.rs:526-550 | the blocks, with the roles that carry them, are the same before and after |
| MessageMerge.MergeRuns | crates/goose-provider-types/src/conversation.rs:526-550 | every message of the result is one run of messages: the id, role and metadata of the first, the blocks of all |
| MessageMerge.EffectiveRoleExact | crates/goose-provider-types/src/conversation.rs:645-654 | who plays the assistant, the tool and the user |
| MessageMerge.MergePairExact | crates/goose-provider-types/src/conversation.rs:533-548 | exactly which two messages become one, with and without regard to visibility and turn context |
| MessageMerge.MergePairReports | crates/goose-provider-types/src/conversation.rs:541-543 | the merge is reported under the role both play |
| MessageMerge.PersistThenRequest | crates/goose-provider-types/src/conversation.rs:514-524 | merging for persistence and then for a request equals merging for the request |
| ConversationRepair.MergeMessageTextsHonest | crates/goose-provider-types/src/conversation.rs:321-334 | reports exactly the messages it changes |
| ConversationRepair.TrimMessageHonest | crates/goose-provider-types/src/conversation.rs:336-360 | reports exactly when an assistant text ends in white space, and otherwise changes nothing |
| ConversationRepair.TrimBlockExact | crates/goose-provider-types/src/conversation.rs:336-360 | exactly the white space at the end of a text is cut off; annotations and all other blocks are untouched |
| ConversationRepair.FillBlockHonest | crates/goose-provider-types/src/conversation.rs:382-424 | reports exactly the empty results, and leaves none |
| ConversationRepair.FillBlockExact | crates/goose-provider-types/src/conversation.rs:384-424 | a successful result in which no item says anything gets the placeholder behind the items it has; no other block is touched |
| ConversationRepair.RemoveEmptyExact | crates/goose-provider-types/src/conversation.rs:362-380 | reports exactly when a message is empty, and otherwise changes nothing |
| ConversationRepair.FixToolCallingReports | crates/goose-provider-types/src/conversation.rs:426-512 | reports nothing exactly when every item survives and no message is empty, and is then the identity |
| ConversationRepair.DedupeSignedThinking | crates/goose-provider-types/src/conversation.rs:582-615 | the loops compute the deduplication and its reports |
| ConversationRepair.DedupeExact | crates/goose-provider-types/src/conversation.rs:552-615 | every signed block stays exactly once, all else stays in place, and nothing is reported exactly when there were no duplicates |
| ConversationRepair.FixLeadTrailExact | crates/goose-provider-types/src/conversation.rs:656-674 | reports nothing exactly when both ends are user messages, and is then the identity |
| ConversationRepair.LeadTrailEnds | crates/goose-provider-types/src/conversation.rs:656-674 | nothing stays exactly of at most two messages, all of the assistant; otherwise the ends come out right if and only if no two assistant messages stood there |
| ConversationRepair.AcceptsExactlyWellFormed | crates/goose-provider-types/src/conversation.rs:24-29 | `Conversation::new` accepts exactly the well-formed lists, and the repair is the identity on them |
| ConversationShape.FixMessagesVisible | crates/goose-provider-types/src/conversation.rs:273-294 | visible in, visible out; at least one message and no more than went in |
| ConversationShape.FixConversationByShadowMap | crates/goose-provider-types/src/conversation.rs:235-271 | building and replaying the shadow map computes the reassembly |
| ConversationShape.FixConversationWeaves | crates/goose-provider-types/src/conversation.rs:235-271 | hidden messages untouched and in order; the visible ones become exactly their repair; nothing visible, nothing changed |
| ConversationShape.WovenInPlace | crates/goose-provider-types/src/conversation.rs:235-271 | every hidden message stays behind the hidden ones before it and behind as many repaired ones as visible messages stood before it, while they last; a visible slot holds the next repaired message |
| ConversationShape.FixProjection | crates/goose-agent/src/inference.rs:377-379 | on a projection of visible messages `fix_conversation` is exactly the repair |
| ConversationShape.UniformRepairAlternates | crates/goose-provider-types/src/conversation.rs:273-294 | with uniform visibility and turn context the result is not empty, begins and ends with the user, and no neighbours share an effective role |
| ConversationShape.MixedVisibilityBreaksLead | crates/goose-provider-types/src/conversation.rs:656-664 | three messages of mixed visibility whose repair begins with an assistant |
| RepairFixpoint.RepairIsNotIdempotent | crates/goose-provider-types/src/conversation.rs:273-294 | four messages that a second repair changes again |
| RepairFixpoint.RepairedAlways | crates/goose-provider-types/src/conversation.rs:273-294 | for every input the repaired messages are trimmed and filled, none can be merged with its neighbour, and no signed thinking is repeated |
| RepairFixpoint.RepairedCallsStand | crates/goose-provider-types/src/conversation.rs:426-512 | for every input, after the whole pipeline calls and answers are well placed and every call is answered later |
| RepairFixpoint.RepairSettlesExactly | crates/goose-provider-types/src/conversation.rs:196-294 | the repaired list is accepted if and only if nothing stays, or no two assistants stood at an end, no texts came together, no message was emptied and every answer that stays still has its call |
| RepairFixpoint.AcceptsExactlyFixpoints | crates/goose-provider-types/src/conversation.rs:24-29 | a list is accepted if and only if the repair leaves it as it is |
| RepairFixpoint.IdempotentExactly | crates/goose-provider-types/src/conversation.rs:273-294 | repairing twice is repairing once if and only if that same condition holds |
| RepairFixpoint.RequestIsAlternating | crates/goose-agent/src/inference.rs:377-382 | for every input the request merged for the provider is not empty, alternates in effective role, has its calls well placed and answered, and its ends are right exactly if no two assistants stood at an end |
| RepairFixpoint.RepairedEndsExactly | crates/goose-provider-types/src/conversation.rs:656-674 | the repaired list begins and ends with the user if and only if nothing stays or no two assistants stood at an end |
| RepairFixpoint.RepairedResponsesRequested | crates/goose-provider-types/src/conversation.rs:656-664 | with distinct request ids, every answer has its call before it if and only if the message dropped in front carried none |
| RepairFixpoint.DistinctIdsSettle | crates/goose-provider-types/src/conversation.rs:196-294 | the exact condition of acceptance when request ids are distinct |
| RepairFixpoint.LeadingCallOrphansAnswer | crates/goose-provider-types/src/conversation.rs:656-664 | a call in the first message is dropped and its answer stays |
| RepairConserves.RepairConserves | crates/goose-provider-types/src/conversation.rs:273-294 | up to the removal at the ends, every letter of text is conserved in order with its role and audience, and so is every block that is neither text, call, answer nor signed thinking |
| RepairConserves.DedupeKeepsFirst | crates/goose-provider-types/src/conversation.rs:582-615 | of every signed block the first occurrence stays where it is, the others go, and nothing else does |
| RepairConserves.RemoveEmptyPicks | crates/goose-provider-types/src/conversation.rs:362-380 | exactly the messages that say something stay, as they were and in order |
| RepairConserves.MergePicks | crates/goose-provider-types/src/conversation.rs:526-550 | merged messages take id, role and metadata from messages of the input, in order |
| RepairConserves.RepairKeepsEnvelopes | crates/goose-provider-types/src/conversation.rs:273-294 | the messages of a repaired list take id, role and metadata from messages of the input, in order, or the list is the one greeting |
| RepairConserves.RepairedBlocksBelong | crates/goose-provider-types/src/conversation.rs:273-294 | no repaired user message carries a call, a confirmation request or thinking, no repaired assistant message a response |
| StreamMerge.Conversation.Push | crates/goose-provider-types/src/conversation.rs:50-120 | computes the pushed list, metadata and status-only messages included |
| StreamMerge.CollectStream | crates/goose-provider-types/src/base.rs:365-455 | the nested loops compute the collected content, under the first chunk's identity |
| StreamMerge.PushAgreesWithCollect | crates/goose-provider-types/src/base.rs:378-426 | for the chunks of one message, pushing them gives one message, and its blocks are the collected ones if and only if no chunk of several blocks brings text next to text for the same audience |
| StreamMerge.SingleBlocksAgree | crates/goose-provider-types/src/base.rs:378-426 | for chunks of one block each both are the deltas of all blocks |
| StreamMerge.DeltasConserve | crates/goose-provider-types/src/conversation.rs:84-112 | the text of every audience and the thinking text are conserved in order |
| StreamMerge.DeltasAreRuns | crates/goose-provider-types/src/conversation.rs:94-112 | each block is the fusion of one run of deltas; after a signed delta a run holds only that signature |
| StreamMerge.StreamStatus | crates/goose-provider-types/src/conversation.rs:50-84 | for the chunks of one message: the output limit is reported exactly if some chunk reports it, the inference is the last one given, all other metadata is that of the first chunk |
| StreamMerge.PushTouchesLast | crates/goose-provider-types/src/conversation.rs:75-120 | a chunk of the message under way changes that message alone |
| StreamMerge.PushElsewhere | crates/goose-provider-types/src/conversation.rs:75-120 | a message under another id is appended as it is |
| StreamMerge.StreamAppends | crates/goose-provider-types/src/conversation.rs:50-120 | the next stream becomes one more message behind those there are |
| StreamMerge.NoteExact | crates/goose-provider-types/src/conversation.rs:51-73 | a status note changes the last message that may take it, and only its status; otherwise a report of the output limit becomes a message for the user alone, and any other note is dropped |
| StreamMerge.CollectConserves | crates/goose-provider-types/src/base.rs:378-426 | whatever the chunks are like, the text of every audience, the thinking text and all other blocks are conserved in order |
| StreamMerge.MultiBlockChunksDiffer | crates/goose-provider-types/src/base.rs:379-403 | a two-block chunk on which the two coalescers differ |
| AgentTurn.TurnGrows | crates/goose-agent/src/operation.rs:20-31 | messages that start no turn extend the current one |
| AgentTurn.CancellationResponseLoop | crates/goose-agent/src/inference.rs:223-248 | the loop over two changing sets computes the response |
| AgentTurn.CancellationAnswersAll | crates/goose-agent/src/inference.rs:223-248 | every unanswered request is answered exactly once, nothing else is; no response exactly when nothing was missing |
| AgentTools.DispatchAll | crates/goose-agent/src/tool.rs:333-367 | one reply per pending request, in order; `AgentResults.RepliesExact` says which |
| AgentMachine.DispatchedIsUnanswered | crates/goose-agent/src/tool.rs:290-303 | a dispatched request stands in the turn, is not external, and has no answer |
| AgentMachine.Step | crates/goose-agent/src/machine.rs:76-138 | the loop over the pipeline computes the first applicable step |
| AgentMachine.CancelBeforeStepStopsCleanly | crates/goose-agent/src/machine.rs:113-137 | for every pipeline: if the flag is set before a step, that step is the last, every request of the turn is then answered, each missing answer added exactly once |
| AgentMachine.AtMostTwoStepsAfterCancel | crates/goose-agent/src/machine.rs:158-173 | at most two steps are applied once the flag is set |
| AgentMachine.TurnOnlyGrows | crates/goose-agent/src/machine.rs:162-171 | within a run the turn stays the same turn and keeps its answers |
| AgentMachine.NeverDispatchedTwice | crates/goose-agent/src/tool.rs:284-370 | no id is dispatched in two rounds of a run |
| AgentMachine.DispatchedOncePerRound | crates/goose-agent/src/tool.rs:290-367 | one round dispatches no id twice if the pending ids are distinct |
| AgentDispatch.RunKeepsPendingDistinct | crates/goose-agent/src/tool.rs:290-303 | over every run the pending ids are distinct in all rounds if and only if they are in the first and no round asks again for a pending id |
| AgentDispatch.RunDispatchesOnce | crates/goose-agent/src/tool.rs:284-370 | then no round of the run dispatches an id twice |
| AgentDispatch.NothingPendingNothingRepeated | crates/goose-agent/src/inference.rs:416-468 | an answer to a turn that owes none never asks again |
| AgentDispatch.PendingIdAskedAgain | crates/goose-agent/src/inference.rs:416-468 | a run in which an id left pending is asked for again and dispatched twice in one round |
| AgentMachine.CancelledStreamAnswersAll | crates/goose-agent/src/inference.rs:470-494 | when a stream is cancelled, what is appended answers every request of the turn, the streamed ones included |
| AgentInference.GatheredRequestsDistinct | crates/goose-agent/src/inference.rs:416-468 | one answer never carries two requests with one id |
| AgentResults.KickoffExact | crates/goose-agent/src/operation.rs:20-31 | the turn begins at the last user message that is shown and carries no tool response |
| AgentResults.PendingExact | crates/goose-agent/src/tool.rs:55-65 | what is pending, and what of it a round takes up, as one pass over the blocks of the turn: own requests without an answer, with a tool or unreadable |
| AgentResults.RepliesExact | crates/goose-agent/src/tool.rs:333-367 | a dispatched call that is not interrupted is answered with what its tool returned, an unreadable one with its error, and every call from the noticed cancellation on as interrupted |
| AgentResults.IdleRound | crates/goose-agent/src/tool.rs:290-306 | without a turn the operation fails; with nothing owed it does not apply |
| AgentResults.InterruptedRound | crates/goose-agent/src/tool.rs:308-322 | cancelled during the look-up of tools, everything owed is answered as interrupted |
| AgentResults.ToolRoundExact | crates/goose-agent/src/tool.rs:284-370 | otherwise one message answers exactly the calls whose tools are there, in order, each with its own result |
| AgentResults.StepIsFirstOperation | crates/goose-agent/src/machine.rs:81-137 | a step is the first operation that does not pass: what it made, or the answer to calls cut short; it yields if the operation does or the flag was seen |
| AgentResults.FirstApplicable | crates/goose-agent/src/machine.rs:81-137 | with the flag clear, a step is exactly the result of the first operation that applies |
| AgentResults.StepAnswersCalls | crates/goose-agent/src/tool.rs:284-370 | the message a round of tools appends, lifted to the step |
| AgentResults.RunAnswersWithResult | crates/goose-agent/src/machine.rs:158-173 | over every run: after a round that dispatches an id and lets its tool finish, the conversation ends in a message with that tool's own result for it |
| AgentAnswer.RetainNewExact | crates/goose-agent/src/inference.rs:449-454 | of a chunk exactly the requests go whose id the answer asked for before |
| AgentAnswer.DropRepeatsExact | crates/goose-agent/src/inference.rs:78-95 | exactly the thinking that a message of the same role carries already goes, and only from a chunk with a request |
| AgentAnswer.GatherStep | crates/goose-agent/src/inference.rs:445-464 | what each chunk becomes before it is pushed, its inference filled in included |
| AgentAnswer.GatherConserves | crates/goose-agent/src/inference.rs:416-468 | however it is streamed, the gathered answer has all text for every audience and all blocks other than thinking and requests, in order |
| AgentAnswer.GatherAsksFirst | crates/goose-agent/src/inference.rs:449-454 | its requests are those of the stream, each id where it is asked for first |
| AgentAnswer.GatherKeepsThinking | crates/goose-agent/src/inference.rs:78-95 | if no chunk carries both a request and thinking, all thinking is there too |
| AgentAnswer.ProviderViewExact | crates/goose-agent/src/inference.rs:175-199 | what the provider sees of a message: nothing hidden from the agent or for the user alone, and no request of an earlier turn that the conversation never answered |
| AgentAnswer.AppliesExact | crates/goose-agent/src/inference.rs:324-330 | an inference applies exactly if there is a turn, the conversation does not end in an error, and what the provider would see ends in a message of the user |
| AgentAnswer.ProjectionIsIdempotent | crates/goose-agent/src/inference.rs:377-378 | projecting what the provider may see once more changes nothing |
| AgentAnswer.RequestIsSound | crates/goose-agent/src/inference.rs:377-382 | whenever an inference applies, the request is the repair of exactly what the provider may see, merged once more; it is not empty, alternates, and has its calls well placed and answered |
| AgentAnswer.FailedInference | crates/goose-agent/src/inference.rs:393-438 | the messages left by a stream that cannot be opened or breaks off |
| AgentAnswer.EndedInference | crates/goose-agent/src/inference.rs:481-497 | an answer that says something or hit the output limit is appended as gathered; any other is replaced by the notice, and the step yields |
| AgentAnswer.CancellationExact | crates/goose-agent/src/inference.rs:223-248 | the response to calls cut short, on the blocks alone: each unanswered id once, in the order of first request |
| AgentAnswer.StoppedInference | crates/goose-agent/src/inference.rs:474-500 | a cancelled answer is appended as gathered, followed by that response |
| JsonRepair.RepairTruncatedJson | crates/goose-provider-types/src/json.rs:29-75 | the loops compute the repair |
| JsonRepair.LooksTruncatedLoop | crates/goose-provider-types/src/json.rs:129-167 | the loop with its early return computes the verdict |
| JsonRepair.EscapeControlChars | crates/goose-provider-types/src/json.rs:91-121 | the loop computes the escaping |
| JsonRepair.RepairCloses | crates/goose-provider-types/src/json.rs:29-75 | repair extends its input, leaves nothing open, and is idempotent |
| JsonRepair.TruncationVerdict | crates/goose-provider-types/src/json.rs:123-167 | truncated exactly when a closer closes nothing or a string or delimiter is open; trimming does not matter |
| JsonRepair.RepairLeavesCompleteTextAlone | crates/goose-provider-types/src/json.rs:29-75 | the identity on what does not look truncated; afterwards only a stray closer looks truncated |
| JsonRepair.EscapePreservesVerdict | crates/goose-provider-types/src/json.rs:77-121 | escaping control characters preserves the verdict |
| JsonRepair.ArgumentsAreNeverCompleted | crates/goose-provider-types/src/json.rs:266-297 | for every strict parser, taking the repair out changes no result |
| JsonGrammar.TruncatedIsUnbalanced | crates/goose-provider-types/src/json.rs:123-167 | a text looks truncated if and only if it is not a sequence of characters, strings with escapes, and closed groups |
| JsonGrammar.DraftOf | crates/goose-provider-types/src/json.rs:29-75 | every text without a stray closer is complete pieces, then the groups that the scanner owes closers for, then at most one open string |
| JsonGrammar.RepairIsShortest | crates/goose-provider-types/src/json.rs:29-75 | what is appended, character by character; no shorter text closes everything |
| JsonArguments.UnescapeInverts | crates/goose-provider-types/src/json.rs:91-121 | reading escapes back makes the same of the escaped text as of the text, so a text without escaped control characters comes back as it was |
| JsonArguments.PlainStays | crates/goose-provider-types/src/json.rs:91-121 | no control character is left, and a text without any is not changed |
| JsonArguments.FenceStripped | crates/goose-provider-types/src/json.rs:216-225 | out of a code fence tagged json or JSON comes its body, trimmed |
| JsonArguments.BareFenceStripped | crates/goose-provider-types/src/json.rs:216-225 | and out of one without a tag |
| JsonArguments.ElementStripped | crates/goose-provider-types/src/json.rs:227-244 | out of an element with a proper name and any attributes comes its body, trimmed |
| JsonArguments.OnlyWrappersStripped | crates/goose-provider-types/src/json.rs:216-247 | whatever is unwrapped was a fence or an element with its own closing tag |
| JsonArguments.WrappedParsesAsBare | crates/goose-provider-types/src/json.rs:279-288 | wrapped arguments that do not parse are worth what their body is worth |
| JsonArguments.TruncatedIsRefused | crates/goose-provider-types/src/json.rs:266-298 | what looks truncated and does not parse, wrapped or not, is refused |
| JsonArguments.UnwrappedExact | crates/goose-provider-types/src/json.rs:249-264 | a string is unwrapped to the object it quotes exactly if that takes at most three readings |
| JsonArguments.OnlyStringsUnwrapped | crates/goose-provider-types/src/json.rs:249-273 | nothing but a string is unwrapped, and no arguments at all are an empty object |
| JsonArguments.SafelyParseTries | crates/goose-provider-types/src/json.rs:9-27 | which of the four texts is parsed |
| SummaryJson.LeadingObjectLoop | crates/goose-context-management/src/structured.rs:255-290 | the loop finds the leading object exactly when there is one; the depth never underflows |
| SummaryJson.LeadingObjectExact | crates/goose-context-management/src/structured.rs:255-290 | the object is the shortest balanced prefix, strings respected; an unterminated one is never returned |
| SummaryJson.JsonCandidatesLoop | crates/goose-context-management/src/structured.rs:216-252 | the nested loops compute the candidates |
| SummaryJson.MatchesAreAll | crates/goose-context-management/src/structured.rs:217-222 | occurrences of the terminator and of the fence never overlap, so the matches are all of them |
| SummaryJson.QuotingEndsLate | crates/goose-context-management/src/structured.rs:228-236 | a candidate that contains as many terminators as follow its cut ends behind them all |
| SummaryJson.CandidatesAvoidScratchpad | crates/goose-context-management/src/structured.rs:195-240 | every candidate is the leading object of the whole answer, or ends behind the last terminator and stands directly at a cut or a fence |
| JsonGrammar.GroupIsLeading | crates/goose-context-management/src/structured.rs:255-290 | a complete group in braces is the leading object, all of it and no more, whatever its strings contain and whatever follows |
| SummaryOrder.CutExact | crates/goose-context-management/src/structured.rs:228-237 | behind one cut: one candidate for every fence and the cut itself that has an object quoting all later terminators, last fence first, the cut itself after all of them |
| SummaryOrder.DedupExact | crates/goose-context-management/src/structured.rs:238 | of neighbours with the same text exactly the first stays |
| SummaryOrder.CandidatesExact | crates/goose-context-management/src/structured.rs:216-240 | the candidates are all that there is to find, last cut first and last marker first, then a leading object of the whole answer |
| SummaryOrder.NothingMissed | crates/goose-context-management/src/structured.rs:216-252 | an object behind a terminator, fenced or leading, that quotes every later terminator is among the candidates |
| SummaryOrder.TriedFirst | crates/goose-context-management/src/structured.rs:195-198 | the first candidate is the one at the last marker behind the last cut that has one |
| CacheBreakpoints.CumulativeBlockOffsets | crates/goose-provider-types/src/cache_semantics.rs:105-129 | the running total gives every cumulative offset |
| CacheBreakpoints.ChatPayload.ApplyBreakpoints | crates/goose-provider-types/src/cache_semantics.rs:59-103 | exactly the anchors and the last tool are marked |
| CacheBreakpoints.TargetIsExact | crates/goose-provider-types/src/cache_semantics.rs:74-81 | the saturating subtraction never saturates for a cacheable message |
| CacheBreakpoints.AnchorsFound | crates/goose-provider-types/src/cache_semantics.rs:69-91 | the searches find the last cacheable message, the nearest one at least 20 blocks behind it, and the first system message |
| CacheBreakpoints.OffsetExact | crates/goose-provider-types/src/cache_semantics.rs:105-129 | an offset counts every block, every tool call and every reasoning entry once |
| CacheBreakpoints.AnchorExact | crates/goose-provider-types/src/cache_semantics.rs:69-91 | the three kinds of anchor on the blocks themselves, with the distance of twenty |
| CacheBreakpoints.AnchorsAreMarked | crates/goose-provider-types/src/cache_semantics.rs:156-178 | after placement the last block of every anchor that can hold a mark is marked |
| CacheBreakpoints.PlacementKeepsContent | crates/goose-provider-types/src/cache_semantics.rs:156-178 | the block view of all content is unchanged |
| CacheBreakpoints.MarksSitOnAnchors | crates/goose-provider-types/src/cache_semantics.rs:131-178 | every new mark is on the last block of an anchor, which is non-blank text or an image |
| CacheBreakpoints.AtMostThreeAnchors | crates/goose-provider-types/src/cache_semantics.rs:59-103 | at most three messages are anchors |
| CacheBreakpoints.AtMostFourMarks | crates/goose-provider-types/src/cache_semantics.rs:59-103 | on a payload without marks, blocks and tools together carry at most four afterwards |
| CacheBreakpoints.OnlyLastToolMarked | crates/goose-provider-types/src/cache_semantics.rs:94-102 | of the tools only the last one is touched |
| MiddleOut.FilterToolResponses | crates/goose-context-management/src/summarize.rs:38-75 | the index-collecting loop drops the middle interval and keeps all else in order |
| MiddleOut.DropsOneRunOfToolResponses | crates/goose-context-management/src/summarize.rs:54-67 | only tool responses are dropped, and they are one unbroken run of them |
| MiddleOut.DroppedExact | crates/goose-context-management/src/summarize.rs:38-67 | exactly which tool responses go: that percentage of their number, at least one, half of them before the middle; and how many that is |
| MiddleOut.DropsAreNested | crates/goose-context-management/src/summarize.rs:54-67 | a larger percentage drops all a smaller one drops |
| MiddleOut.FullRemovalLeavesAtMostTheNewest | crates/goose-context-management/src/summarize.rs:54-67 | at 100 percent all go when their number is even, all but the newest when it is odd |
| MiddleOut.SomethingIsDropped | crates/goose-context-management/src/summarize.rs:54-55 | with two or more responses, any positive percentage drops one |
| MiddleOut.Summarize | crates/goose-context-management/src/summarize.rs:124-182 | the summariser is retried exactly after an overflow with tool responses to remove; each outcome is characterised by the replies, and the error after the loop is never reached |
| MiddleOut.RetriesOnlyDropMore | crates/goose-context-management/src/summarize.rs:133-134 | every retry of the summariser drops at least what the one before dropped |

## Left out

- ThinkFilters.ThinkFilter.ProcessBuffer: the release of over-large buffer capacity has no effect on contents and is not modelled.
- TelemetryProtocol.OnlyThisPeriodsConsentClears: assumes fresh nonces; a tombstone write that fails after creating the file, and so leaves an empty generation, is not modelled.
- TelemetryFiles.TelemetryHome.WipeUnderLock: leaves out a tombstone write that fails after the file was created.
- TelemetryFiles.TelemetryHome.ArmUnderLock: leaves out a truncation that empties the buffer and still reports an error.
- TelemetryFiles.TelemetryHome.AppendUnderLock: leaves out a write that lands in part before it fails.
- Telemetry dry-run sink: a dry-run append that lands and then fails to synchronise (in the model the file is then as it was), and the ring enforcement of that file.
- TelemetryRing.SinkIsLongestSuffix: is about uncontended appends of non-blank lines without line breaks.
- StreamMerge.PushAgreesWithCollect: is about chunks that share an id, the first of which is not a mere status note, and whose later notes fit it; other notes make a message of their own or none.
- AgentMachine.Step: operations other than tools and inference, extra messages of a custom request preparer, usage records and emitted events are not modelled; the identifier given to the cancellation response is taken to be fresh; provider messages are taken to have the assistant role.
- AgentMachine.CancelBeforeStepStopsCleanly: a pipeline without inference has no operation that answers cancelled calls, so nothing is claimed about answers there.
- Telemetry: torn lines after a killed process, file permissions, install-id expiry and rotation, counters, event schema and endpoint URL parsing.
- Telemetry lock contention: a contended step is a step that does not happen; fairness and blocking are not modelled.
- Messages: audience annotations on images and inside tool results, document and notification payloads, provider metadata on requests.
- Reports of the repair passes: when each pass reports is proved, and the wording of merge reports; the wording of the others is modelled and nothing more is said of it.
- JSON parsing itself: the strict parser is a parameter; the wording of truncation error messages is left out.
- Summaries: template rendering, token estimates and error texts; the summariser's replies are parameters.
- Cache semantics per provider and model: a table.
- HTTP transports, provider construction, command line, logging, signals and MCP servers.
