# Fragments Engine: models and proofs

This Dafny 4.11 project models the parts of Fragments Engine in which several calls, workers or writers
meet, and proves what they keep. `dafny verify dfyconfig.toml` checks all of it.

Code that updates state is written as methods over classes and loops, each proved against a function on
values; what the system promises is then proved of those functions, over every input and over whole runs.
A database transaction is a step from one state of its tables to the next that commits whole or not at
all; a concurrent algorithm is a state machine whose runs are all interleavings.

| file | what it models |
|---|---|
| `JsonScan` | the scanner that recovers one JSON object from noisy model output, tied to the JSON grammar |
| `YamlTree`, `YamlMerge`, `YamlMergeProperties` | the in-place merge of two YAML documents over heap nodes, its meaning on trees, and what that keeps |
| `ConfigSave` | saving the configuration and loading it again, along its declared types |
| `Digest`, `Media` | digests, variants and blobs, shared by the next two |
| `CaptureProtocol`, `CaptureCompletion`, `CaptureEffects`, `CaptureRuns` | a capture: guarded uploads race with one completion report |
| `Acquisition`, `AcquisitionRuns` | commands that ask for custody of an asset, and their receipts |
| `EnrichSession`, `EnrichSessionProperties`, `EnrichRun`, `EnrichRunProperties` | an enrichment run: calls and retries of one session, the dispatcher and its workers, budget, ledger and stop rules |
| `Chunks` | splitting a long session into overlapping parts |
| `Sorting`, `Selection`, `SelectionProperties` | choosing a stage's sessions by stratum |
| `Grounding`, `GroundingProperties`, `GroundingReplies` | validating what the model returns |
| `IngestDispatch` | a schedule's slot becomes a fire, and a fire becomes one run |
| `Routing`, `RoutingProperties` | fan-out of a fragment to every matching destination |
| `Recall` | search over fragments that may be projected twice |
| `BlobStore` | the content-addressed file store under concurrent writers |
| `Entities` | replacing the entity rows one ingest stage owns |
| `RevisionMaterial`, `Revisions` | material normalization and the revisions of a fragment |
| `Wrappers`, `Text` | options, results and string operations |

Conventions. Digests of revisions and the hash that orders session IDs are injective functions; of a
blob's digest only its form is assumed. Money, confidences and scores are reals, times are integers, and
strings are sequences of characters with ASCII case and white space. A transaction's fault parameter,
where there is one, names the statement that fails. The gateway, the model, the recall engine,
destinations and the delivery queue are parameters that may answer anything.

Where code and comments differ, or a property fails, the models follow the code:

- The merge's comment says every declared key carries its value; that holds, but a key deleted from a
  map-typed field survives (`ConfigSave.DeletedRuleSurvives`), so a saved document need not read back as
  the configuration. `ConfigSave.SavedReadsBack` says exactly when it does.
- `RecordUploadedOutcome` does not ask whether the attempt is terminal, unlike the guarded pair used by
  uploads. `CaptureRuns.UnguardedRecordRewrites` is a completed capture it changes, and
  `CaptureRuns.UnguardedRecordFreezes` says exactly when it changes nothing; runs use the pair.
- A part's claims are capped at twelve after they were capped at eight
  (`GroundingProperties.PartialIsGrounded`).
- A blob handle is validated in lower case but used as it is spelled (`BlobStore.HandlesNameOneFile`,
  `BlobStore.CapitalHandleAccepted`).
- Replacing entities by kind and source checks kinds only; that the sources are the caller's own is a
  precondition of `Entities.LastWriteStands`, met by the indexer (`Entities.IndexerKeepsToScope`).
- After a stop one more session may still start: the one the dispatcher had already let through.
  `EnrichRunProperties.OneMoreStarts` is such a run, and `EnrichRunProperties.StopIsFinal` says exactly
  when it happens.
- A kind with a newline in it lets two entities share an ID (`Entities.NewlinesCollide`), and then one
  loses rows to the other (`Entities.NewlineClears`). `Entities.ReplaceById` holds for any kinds.
- A variant discovered under the identity an acquisition would give its own diverts later commands from
  the variant earlier receipts name (`AcquisitionRuns.ReservedIdentityDiverts`);
  `AcquisitionRuns.DiscoverySteadyExactly` says exactly when. No caller in the repository does so.
- `AdvanceCompletion` can make an attempt complete without a report (`CaptureRuns.AdvanceWithoutReport`);
  `CaptureRuns.AdvanceReportedExactly` says exactly when. No caller in the repository does so.
- A variant discovered with bytes may claim to be held longer than they are
  (`AcquisitionRuns.CachedBytesClaimed`); `AcquisitionRuns.DiscoveryHeldExactly` says exactly when. No
  caller in the repository does so.
- Recall drops repeats by key, and a key may be an alias, so a fragment can come twice or come back when
  it is left out (`Recall.AliasesRepeat`); `Recall.FragmentsOnce` and `Recall.FragmentIsThere` say exactly
  when.

## Model

| member | source | states |
|---|---|---|
| JsonScan.FirstJsonObject | internal/analyze/vision.go:121-158 | the scan returns the shortest slice from the first `{` at which the brace depth outside strings is back to zero, says there is no object exactly when there is no `{`, and fails exactly when that depth never comes back |
| JsonScan.FirstObjectUnique | internal/analyze/vision.go:121-158 | that promise has one answer for each text, so it determines the scanner |
| JsonScan.PrintedObjectBalanced | internal/analyze/vision.go:126-155 | a printed JSON object, with any nesting, escapes and white space, is balanced and none of its proper prefixes is |
| JsonScan.PrintThenScan | internal/analyze/vision.go:121-158 | round trip: from any prefix without `{`, a printed object and any suffix, exactly the object is returned |
| JsonScan.ScanIgnoresSuffix | internal/analyze/vision.go:121-158 | text after the object never matters, and scanning what was found finds it again |
| YamlMerge.MergeMappingNode | internal/config/merge.go:49-68 | the in-place merge of two mappings over heap nodes denotes the tree function `MergePairs`, writes only the two documents, and leaves a well-formed tree |
| YamlMerge.MergeNode | internal/config/merge.go:58-66 | the in-place merge of two nodes of any kinds denotes `MergeValue`, about which `YamlMergeProperties` proves what it keeps and carries |
| YamlMerge.MergeSequenceNode | internal/config/merge.go:77-105 | the loop over source items, with its `used` array and growing result, denotes `MergeItems` |
| YamlMerge.MergeItem | internal/config/merge.go:80-102 | one source item claims the first unused item of its name, or is taken as it is; untouched nodes stay untouched |
| YamlMerge.FindMappingKey | internal/config/merge.go:107-114 | the index of the first key with that spelling, -1 when there is none |
| YamlMerge.MappingIdentityValue | internal/config/merge.go:116-126 | a mapping's first scalar `name`, empty for anything else |
| YamlMerge.ReplaceNodeValue | internal/config/merge.go:128-139 | kind, tag, value, style, anchor and content become the source's, and the node keeps its own comment |
| YamlTree.IdentityExactly | internal/config/merge.go:120-125 | the first pair with key `name` and a scalar value gives a mapping's identity, and without one it has none |
| YamlMergeProperties.MergePairsLookup | internal/config/merge.go:49-68 | as a table, the merged mapping gives a source key the merge of both values (the source's when it is new) and every other key its old value |
| YamlMergeProperties.MergeKeepsKeys | internal/config/merge.go:43-48 | every key node of the destination, with its comment, stands at its old index |
| YamlMergeProperties.MergeKeepsOthers | internal/config/merge.go:43-48 | a value whose key the source lacks is unchanged at its old index |
| YamlMergeProperties.MergeAppendsNewPairs | internal/config/merge.go:53-56 | behind the old entries come exactly the source's new pairs, in source order |
| YamlMergeProperties.MergeItemsByClaims | internal/config/merge.go:77-105 | item by item, a merged sequence is the source's item or its merge into an unused destination item of the same non-empty name |
| YamlMergeProperties.MergeItemsLength | internal/config/merge.go:77-105 | a merged sequence has the source's length |
| YamlMergeProperties.ClaimsAreDistinct | internal/config/merge.go:78-94 | no destination item is used twice |
| YamlMergeProperties.ClaimsAreComplete | internal/config/merge.go:83-88 | a named source item goes without a match only when every destination item of its name was used before |
| YamlMergeProperties.NamedItemKeepsRest | internal/config/merge.go:70-76 | an item merged by name keeps its comment and every key the source's item does not have |
| YamlMergeProperties.MergedNode | internal/config/merge.go:58-65 | a merged node has the old node's comment; two mappings or two sequences keep the old node's own labels, and anything else takes the source's tag, value, style, anchor and content |
| YamlMergeProperties.MergeKeepsComments | internal/config/merge.go:43-48 | main result: on every node, under every key both documents have and on every claimed item, at any depth, the old document's comment is kept |
| YamlMergeProperties.MergeCarries | internal/config/merge.go:9-12 | main result: after the merge every key the source declares carries the source's value, at any depth |
| YamlMergeProperties.MergeFixed | internal/config/merge.go:49-139 | a document that already carries the source is not changed by merging it |
| YamlMergeProperties.MergeIdempotent | internal/config/merge.go:49-139 | main result: merging the same source again changes nothing |
| ConfigSave.ScalarsDecode | internal/config/config.go:374-377 | a scalar decodes to its tag and text where one is expected, to null if it is null, and else is an error |
| ConfigSave.SequencesDecode | internal/config/config.go:374-377 | a sequence decodes if and only if each item does, to the list of what they decode to |
| ConfigSave.MappingsDecode | internal/config/config.go:374-377 | a mapping that decodes gives a row for each of its keys that the type declares, and no other, with what is under the key |
| ConfigSave.EncodedDecodes | internal/config/config.go:368-384 | every encoded configuration decodes without an error |
| ConfigSave.SavedReadsBack | internal/config/merge.go:22-47 | main result: read along the declared types, the saved document decodes to the configuration that was saved if and only if the old document repeats no key where the merge goes and holds no key of a map-typed field that the configuration dropped |
| ConfigSave.UnknownKeyIsHarmless | internal/config/merge.go:5-8 | a key no struct declares has no part in whether a save reads back |
| ConfigSave.NoteStands | internal/config/merge.go:43-46 | such a key stands through the save with its value |
| ConfigSave.NoteIsHarmless | internal/config/config.go:374-376 | a concrete document with a key of its own, saved and read back as the configuration |
| ConfigSave.RepeatedKeyIsRefused | internal/config/config.go:374-377 | a concrete document with a repeated key, which the save keeps and the decoder refuses |
| ConfigSave.DeletedRuleSurvives | internal/config/merge.go:49-68 | a concrete configuration whose deleted rule is still in the saved document and is loaded again |
| CaptureProtocol.CaptureStore.CompleteCapture | internal/repository/capture_protocol.go:288-479 | one completion commits the state and gives the reply of the step function `CompleteStep`, or changes nothing |
| CaptureProtocol.CaptureStore.JudgeReports | internal/repository/capture_protocol.go:305-324 | whichever row the lookup by capture or key returns, the verdict is the same: replay, conflict or no report |
| CaptureProtocol.CaptureStore.Commit | internal/repository/capture_protocol.go:434-477 | a settled completion is written whole, or not at all when a report is left over or the snapshot fails |
| CaptureProtocol.CaptureStore.StoreAssetContent | internal/service/capture_manifest.go:633-654 | the guarded upload: validating, attaching the bytes and recording the outcome are one transaction that commits whole or not at all |
| CaptureProtocol.SettleBindings | internal/repository/capture_protocol.go:356-433 | the loop over the bindings computes `SettleAll`, the bindings settled in order from the state before the call |
| CaptureProtocol.CollectItems | internal/repository/capture_protocol.go:343-354 | the reported outcomes by client, refused when one is foreign or repeated |
| CaptureProtocol.AnyMatchDecides | internal/repository/capture_protocol.go:305-313 | the lookup by capture or key may match two reports; either of them leads to the same verdict |
| Media.AttachesExactly | internal/repository/media.go:639-702 | bytes are linked to a variant if and only if it exists, expects and has no others, its custody keeps bytes for that long and the digest has that size; and all that changes of variant and blob, field by field |
| Media.FailsExactly | internal/repository/media.go:736-754 | a failure is recorded if and only if it has a code and a message and the variant is not available, and changes state and failure alone |
| Digest.NormalizedExactly | internal/domain/media.go:129-139 | a digest has a normal form if and only if its algorithm is one of the two names of SHA-256 and its value 64 hexadecimal digits, up to case and white space |
| CaptureEffects.StoredExactly | internal/repository/capture_protocol.go:199-229 | a row is stored if and only if its outcome is known, client and time are there, the size is not negative and the digest, if given, is in form; and its fields |
| CaptureEffects.SettleAccepts | internal/repository/capture_protocol.go:364-427 | exactly which final outcomes of a binding are accepted |
| CaptureEffects.SettleRefuses | internal/repository/capture_protocol.go:364-427 | and the error for each that is not |
| CaptureEffects.SettleStores | internal/repository/capture_protocol.go:372-430 | the row stored for each binding, field by field, and the failure its variant is marked with |
| CaptureEffects.CompletesExactly | internal/repository/capture_protocol.go:288-478 | main result: a completion succeeds if and only if its fields are there, its capture is there and open, no report is stored for it or under its key, its items are valid and on its own bindings, every binding's outcome is acceptable and the snapshot can be built; otherwise nothing changes |
| CaptureEffects.RefusedExactly | internal/repository/capture_protocol.go:289-331 | what missing fields, a missing capture and a terminal one are answered with |
| CaptureEffects.ItemRefused | internal/repository/capture_protocol.go:343-354 | the first item that is foreign or repeats a client gives the error |
| CaptureEffects.OutcomeRefused | internal/repository/capture_protocol.go:357-474 | the first binding whose outcome is not acceptable gives the error, then a client that is not bound, then the snapshot |
| CaptureEffects.ReportStored | internal/repository/capture_protocol.go:439-478 | main result: the attempt, the report and the reply after a completion, field by field |
| CaptureEffects.RowsAreStored | internal/repository/capture_protocol.go:357-433 | main result: one row for each binding, determined by the variant and the client's report, and no other row changes |
| CaptureEffects.LossesMark | internal/repository/capture_protocol.go:422-427 | main result: a reported loss of bytes that were asked for marks the variant failed with the code of its outcome, the reason and whether to retry, the last one where bindings share it; every other variant is unchanged |
| CaptureEffects.UploadsExactly | internal/service/capture_manifest.go:633-654 | main result: an upload succeeds if and only if its client is bound in an open capture by an action that takes bytes, and the bytes are what was announced, what the variant expects and what it has |
| CaptureEffects.UploadThrough | internal/repository/capture_protocol.go:157-197 | all that a successful upload changes: variant, blob, row and attempt, field by field |
| CaptureEffects.UploadRefusedExactly | internal/repository/capture_protocol.go:157-176 | the error of an upload: no binding, or the first condition it fails |
| CaptureCompletion.SettleExact | internal/repository/capture_protocol.go:364-433 | a binding's final outcome claims bytes exactly when the stored variant is available with a digest, and then carries the stored digest and size; what makes it partial is stated for every action |
| CaptureCompletion.SettleAllDecides | internal/repository/capture_protocol.go:355-433 | every row the loop writes is decided from the state before the call alone, and the capture turns partial exactly when some binding does |
| CaptureCompletion.CompletionExact | internal/repository/capture_protocol.go:355-440 | main result: after a completion every binding has its one outcome, available exactly when verified bytes are stored |
| CaptureCompletion.CompleteExactly | internal/repository/capture_protocol.go:380-440 | main result: a capture is complete if and only if each binding has verified bytes, or is by reference or server-acquired, or is a reuse the client reported on |
| CaptureCompletion.CollectExact | internal/repository/capture_protocol.go:343-354 | each reported outcome is found under its client, and nothing else is |
| CaptureCompletion.CollectReordered | internal/repository/capture_protocol.go:343-354 | outcomes listed in another order are collected into the same table |
| CaptureCompletion.OrderDoesNotMatter | internal/repository/capture_protocol.go:343-440 | main result: the order of the reported outcomes changes neither the committed state nor whether the call succeeds |
| CaptureRuns.UploadKeeps | internal/repository/capture_protocol.go:157-197 | a guarded upload keeps the invariant and touches no terminal capture |
| CaptureRuns.CompleteKeeps | internal/repository/capture_protocol.go:288-479 | a completion keeps the invariant and only moves its own capture forward |
| CaptureRuns.AdvanceKeeps | internal/repository/captures.go:921-983 | moving an attempt on by itself keeps the invariant and terminal captures, and only a move to a completion leaves a report out |
| CaptureRuns.StepKeeps | internal/repository/capture_protocol.go:157-479 | every transaction keeps: reports agree with attempts, outcomes stand for bytes only where verified bytes are stored, and no completion moves back |
| CaptureRuns.RunKeeps | internal/repository/capture_protocol.go:157-479 | main result: the same over every run of transactions on any number of captures; and every completed capture has its report as long as no attempt is moved to a completion by itself |
| CaptureRuns.AdvanceReportedExactly | internal/repository/captures.go:923-970 | such a move leaves a completed capture without a report if and only if it is to a completion and takes effect |
| CaptureRuns.AdvanceWithoutReport | internal/repository/captures.go:923-970 | a concrete capture that it does so to |
| CaptureRuns.TerminalIsFrozen | internal/domain/capture.go:24-26 | main result: once a capture is terminal, no run changes its attempt, its outcomes or its report |
| CaptureRuns.MeetsReport | internal/repository/capture_protocol.go:305-324 | a request that meets a stored report by capture or by key is a replay of it or a conflict, and changes nothing |
| CaptureRuns.CompletionIsIdempotent | internal/repository/capture_protocol.go:305-324 | main result: after a completion and any run, the identical request replays the stored status and any other use of its capture or key conflicts, both without effect |
| CaptureRuns.UnguardedRecordFreezes | internal/repository/capture_protocol.go:112-151 | the entry point without a terminal check leaves a terminal capture as it was if and only if it would rewrite the same row at a time no later than the last update |
| CaptureRuns.RecordWrites | internal/repository/capture_protocol.go:112-151 | the row and the time that entry point writes, whatever the state of the attempt |
| CaptureRuns.UnguardedRecordRewrites | internal/repository/capture_protocol.go:112-151 | a concrete completed capture whose outcome and time it rewrites |
| Acquisition.AcquisitionStore.RequestAssetAcquisition | internal/repository/asset_acquisition.go:27-107 | one command commits the state and gives the reply of `Request`, which the rows below determine in terms of command and tables |
| Acquisition.AcquisitionStore.ResolveAcquisitionVariant | internal/repository/asset_acquisition.go:109-178 | selects or creates the variant and moves it on as `Resolve` says, or changes nothing; `AdvanceExactly` and `RecordedExactly` say what that writes |
| Acquisition.SelectVariant | internal/repository/asset_acquisition.go:128-153 | the only variant of the kind, else the one acquisitions created, else the kind is ambiguous |
| AcquisitionRuns.SelectExactly | internal/repository/asset_acquisition.go:110-150 | the variant of an asset and kind: none, the acquisition's own, the only one, or ambiguous, each if and only if |
| AcquisitionRuns.RefusedByCustody | internal/repository/asset_acquisition.go:180-188 | an existing variant is refused if and only if it is mirrored or adopted and something else is asked for, or cached and adoption is |
| AcquisitionRuns.AdvanceExactly | internal/repository/asset_acquisition.go:155-178 | the advanced variant has the custody asked for, the retention that goes with it, no failure, and is available if it was and else pending; every other field, variant and blob is as before but for the retention of its bytes |
| AcquisitionRuns.RecordedExactly | internal/repository/asset_acquisition.go:85-107 | main result: a recorded command has a receipt for the trimmed command that names the one variant changed, with custody, retention, failure and state as asked, created without bytes if there was none |
| AcquisitionRuns.RecordedWhen | internal/repository/asset_acquisition.go:27-107 | main result: a command is recorded if and only if it is complete, names a kind and a custody that holds bytes, shares no receipt, its asset exists and its variant may be advanced or created |
| AcquisitionRuns.RefusedExactly | internal/repository/asset_acquisition.go:35-87 | each refusal before a variant is looked at, if and only if |
| AcquisitionRuns.SemanticsExactly | internal/repository/asset_acquisition.go:62-84 | two commands mean the same if and only if they agree on all but their time |
| AcquisitionRuns.CustodyIsOrdered | internal/repository/asset_acquisition.go:180-188 | the custody transition rule is a partial order |
| AcquisitionRuns.SelectCreated | internal/repository/asset_acquisition.go:128-135 | a variant created because there was none of the kind is the one selected from then on |
| AcquisitionRuns.ResolveKeeps | internal/repository/asset_acquisition.go:109-178 | resolving only raises custody, never takes an available variant back, and leaves every earlier receipt's variant the one selected |
| AcquisitionRuns.RequestKeeps | internal/repository/asset_acquisition.go:27-107 | a command keeps receipts unique by ID and by key, bytes of indefinite variants indefinite, and receipts for one asset and kind on the one variant commands resolve to |
| AcquisitionRuns.RunKeeps | internal/repository/asset_acquisition.go:27-178 | main result: over every run of commands, uploads, failures and discoveries, receipts stay unique and unchanged, custody only rises and bytes are kept; receipts go on naming the variant commands resolve to as long as no variant is discovered under an acquisition's own identity, and bytes of indefinite variants stay indefinite as long as none is discovered to be held longer than its bytes |
| AcquisitionRuns.DiscoveryHeldExactly | internal/repository/media.go:425-464 | a discovery leaves an indefinite variant on bytes that are not if and only if it is new, comes with such bytes and is itself indefinite |
| AcquisitionRuns.CachedBytesClaimed | internal/repository/media.go:425-464 | a concrete discovery that does so |
| AcquisitionRuns.DiscoverySteadyExactly | internal/repository/asset_acquisition.go:128-153 | a discovery changes which variant a receipt's asset and kind resolve to if and only if it is new, is under an acquisition's own identity, and there is such a receipt |
| AcquisitionRuns.ReservedIdentityDiverts | internal/repository/asset_acquisition.go:128-153 | a concrete table in which such a discovery does |
| AcquisitionRuns.PrecedentOf | internal/repository/asset_acquisition.go:62-84 | a command that shares its ID or its key with a receipt is a replay of that receipt or a conflict |
| AcquisitionRuns.RecordedIsReplayed | internal/repository/asset_acquisition.go:62-84 | main result: after any run, repeating a recorded command returns its original receipt and reusing its ID or key otherwise conflicts, both without effect |
| EnrichSession.CallWithBackoff | internal/enrich/runner.go:587-606 | at most three calls, ending at the first reply, lasting error or cancellation |
| EnrichSession.Session.AskOnce | internal/enrich/runner.go:419-482 | one logical call computes `Ask`: the books after it and its answer |
| EnrichSession.Session.Enrich | internal/enrich/runner.go:503-572 | a session, in one call or in parts and a combining call, computes `EnrichOne` |
| EnrichSessionProperties.TriesExactly | internal/enrich/runner.go:587-606 | main result: the call that decides is the first that is a reply, an error not to be retried or cancelled, or the third; all before it are errors worth retrying |
| EnrichSessionProperties.AskExactly | internal/enrich/runner.go:427-482 | main result: a logical call ends on its first reply or error under the class and fatality of that event, and asks again exactly when the reply is refused, once; retries and their classes are counted so |
| EnrichSessionProperties.StoreFailsExactly | internal/enrich/runner.go:450-459 | the books record a store failure if and only if a failed ledger write ended a call |
| EnrichSessionProperties.SessionExactly | internal/enrich/runner.go:503-572 | main result: a session makes its calls in turn until one does not succeed, one or one for each part and one to combine; its outcome and class are the last one's, unless the result cannot be saved |
| EnrichSession.AskBooks | internal/enrich/runner.go:427-481 | a logical call makes at most two paid replies, each costed once and in the ledger or in the gap, and nothing after a failed ledger write |
| EnrichSession.EnrichOneBooks | internal/enrich/runner.go:444-481 | main result: the same for a whole session, with two paid replies at most for each prompt; a failed ledger write is the last call and is fatal |
| EnrichSession.GapIsFatal | internal/enrich/runner.go:444-459 | a session that does not end the run with a store failure left no gap in the ledger |
| EnrichSession.SessionCostBound | internal/enrich/runner.go:503-548 | a session costs at most twice the dearest reply for each of its prompts, parts and one more |
| EnrichRun.RunState.DecideNext | internal/enrich/runner.go:325-340 | the dispatcher's critical section: whether to go on, and the reason to stop it records |
| EnrichRun.RunState.AccountSession | internal/enrich/runner.go:346-391 | the worker's critical section: costs, counters, errors by class, and stop rules |
| EnrichRunProperties.DecidesExactly | internal/enrich/runner.go:329-342 | main result: the dispatcher goes on if and only if nothing stopped the run and neither limit is reached; the budget stops it as `budget`, and else the total cap as `total_cap`, and an earlier reason stays |
| EnrichRunProperties.FatalAccounted | internal/enrich/runner.go:358-370 | a fatal error stops the run as `store_write`, with the session and its gap on record, or under its gateway class |
| EnrichRunProperties.SuccessAccounted | internal/enrich/runner.go:381-386 | a success is counted, as a first try if nothing was retried, and ends a row of failures |
| EnrichRunProperties.FailureAccounted | internal/enrich/runner.go:371-374 | a failure is counted, once under its class, and lengthens the row |
| EnrichRunProperties.FailureStops | internal/enrich/runner.go:374-380 | a failure stops the run as `consecutive_failures` when the row is full, and else as `failure_rate` when the rate is exceeded |
| EnrichRunProperties.FinishCounts | internal/enrich/runner.go:346-391 | accounting keeps the counters those of the sessions accounted for, class by class |
| EnrichRunProperties.RunKeeps | internal/enrich/runner.go:313-399 | every interleaving of dispatcher and workers keeps slots, ledger and counters in agreement |
| EnrichRunProperties.LedgerConserved | internal/enrich/runner.go:352-391 | main result: at the end, rows written plus the gap are the cost; attempted is successes, failures and fatal errors; error counts sum to the failures |
| EnrichRunProperties.SpendBounded | internal/enrich/runner.go:322-345 | main result: at every moment of every interleaving, if no session costs more than B, what is spent stays below the limit plus B for each worker, for the run's budget and for the total cap |
| EnrichRunProperties.SpendBoundedByReplies | internal/enrich/runner.go:313-345 | main result: when every worker reports what its session came to, a limit is overrun by less than two replies at the dearest price for each prompt of a session and each worker |
| EnrichRunProperties.NothingStarts | internal/enrich/runner.go:332-340 | a total cap used up before the run lets no session start |
| EnrichRunProperties.StreakStops | internal/enrich/runner.go:369-374 | over every interleaving the counter of consecutive failures is the number since the last success, and a run that goes on has not reached its limit |
| EnrichRunProperties.FailureStopsExactly | internal/enrich/runner.go:369-377 | a failed session stops the run exactly when it is one too many in a row or the failure rate is above its limit |
| EnrichRunProperties.StoppingStep | internal/enrich/runner.go:318-345 | the step that stops the run leaves fewer sessions in flight than there are workers |
| EnrichRunProperties.HaltedRun | internal/enrich/runner.go:318-345 | after a stop the reason stays, and only sessions already in flight are still accounted for |
| EnrichRunProperties.StartsAfterStop | internal/enrich/runner.go:324-347 | from a stop on, over any run, one session starts if the dispatcher had already been let through and launches, uncancelled; otherwise none does |
| EnrichRunProperties.StopIsFinal | internal/enrich/runner.go:318-345 | main result: the first reason to stop is the one reported, fewer further sessions are accounted for than there are workers, and a further session starts if and only if the dispatcher had been let through before the stop and launches, uncancelled, after it |
| EnrichRunProperties.OneMoreStarts | internal/enrich/runner.go:324-347 | a concrete run that is stopped and then starts a session |
| EnrichRunProperties.SessionsBalance | internal/enrich/runner.go:503-572 | every session's outcome meets what the run assumes of a finishing worker |
| IngestDispatch.DispatchStore.CreateFire | internal/repository/ingest_fires.go:29-68 | the compare-and-swap on the schedule and the insert commit together, or nothing changes |
| IngestDispatch.DispatchStore.EnqueueScheduledIngest | internal/app/ingest_dispatch.go:18-59 | fence, run and envelope commit together, or nothing changes, whichever statement fails |
| IngestDispatch.PruningWouldRepeat | internal/repository/ingest_fires.go:14-22 | why retention is refused: a created fire's ID is refused from then on, and with its row deleted would be created again |
| IngestDispatch.CreateExactly | internal/repository/ingest_fires.go:29-68 | main result: a fire is created if and only if its schedule is enabled and next due when the caller expects, its ID is new and no statement fails; schedule and fire are then written so, and otherwise nothing changes |
| IngestDispatch.DisabledNeverFires | internal/repository/ingest_fires.go:41-50 | a disabled schedule never fires |
| IngestDispatch.EnqueueExactly | internal/app/ingest_dispatch.go:19-58 | an enqueue succeeds exactly for a named fire that is new, when nothing fails, and then adds one run, one fence entry and one envelope |
| IngestDispatch.RunKeeps | internal/app/ingest_dispatch.go:14-17 | main result: over any run every committed fire has a run, no two share one, and each run was pushed exactly once |
| IngestDispatch.AcceptedOnce | internal/app/ingest_dispatch.go:29-39 | main result: however often a fire is retried and wherever transactions fail, at most one enqueue of it succeeds |
| IngestDispatch.DispatchIsPermanent | internal/app/ingest_dispatch.go:14-17 | a fire's run never changes, not even after the worker has removed the envelope |
| IngestDispatch.FireCreatedOnce | internal/repository/ingest_fires.go:53-64 | a fire ID is created at most once in any run, even after the fire has ended |
| IngestDispatch.SlotFiresOnce | internal/repository/ingest_fires.go:43-52 | of all creators that expect one slot, at most one succeeds in any run in which schedules move on |
| IngestDispatch.RivalsExclude | internal/repository/ingest_fires.go:43-52 | of two creators of one slot in a row, the second succeeds if and only if the slot is its own next slot, its ID is new and nothing fails |
| Chunks.BuildChunks | internal/enrich/prompt.go:131-162 | the parts are the slices of a chain of windows that covers the session: each filled as far as it goes, each repeating as much of the one before as it may |
| Chunks.KeepTurns | internal/enrich/prompt.go:143-150 | the overlap is the longest that is asked for, allowed, and still makes progress |
| Chunks.WindowsAdvance | internal/enrich/prompt.go:128-155 | windows strictly advance, neighbours share at most the overlap turns and a quarter of the limit, and there are no more parts than turns |
| Chunks.PartsFit | internal/enrich/prompt.go:137-155 | no part is longer than the limit, or a quarter of it and one trimmed turn |
| Chunks.PartsAreTheSession | internal/enrich/prompt.go:131-162 | main result: dropping the overlaps gives the session back |
| Chunks.SplitIsUnique | internal/enrich/prompt.go:131-162 | main result: only one split meets those conditions |
| Chunks.ShortStaysWhole | internal/enrich/prompt.go:141-155 | a session within the limit stays in one part |
| Chunks.TurnSizeExactly | internal/enrich/prompt.go:137-140 | a turn counts its length, or 8060 if it is longer than 8000 |
| Sorting.SortIgnoresOrder | internal/enrich/stage.go:77-79 | sorting distinct elements by a strict total order gives one result whatever the order of the input |
| Sorting.StringsOrdered | internal/enrich/stage.go:71-75 | the order of strings is a strict total order |
| Sorting.FirstDifferenceDecides | internal/enrich/stage.go:75 | two strings are ordered as their first different characters are |
| Sorting.PrefixComesFirst | internal/enrich/stage.go:75 | and a proper prefix comes first |
| Selection.SelectWork | internal/enrich/stage.go:59-105 | the loops compute the arrangement of what the strata give, and a report of one row for each stratum; the rows below say by times and hashes what is selected |
| Selection.GroupByStratum | internal/enrich/stage.go:60-63 | each stratum's sessions, in input order |
| Selection.TakeStrata | internal/enrich/stage.go:76-89 | each stratum gives its quota from its own ranking |
| SelectionProperties.PicksLead | internal/enrich/stage.go:65-90 | main result: a stratum gives sessions of its own; newest first, later ones come before and instead of earlier ones and ties go by the hash of the ID; otherwise the hash alone decides, whatever the times |
| SelectionProperties.PicksFill | internal/enrich/stage.go:81-89 | a stratum gives all its sessions without an allocation, none if the allocation does not name it, and else as many as it says or all |
| SelectionProperties.RowCounts | internal/enrich/stage.go:88-97 | a row of the report has the number of pending sessions and of those given |
| SelectionProperties.ChosenByStratum | internal/enrich/stage.go:71-90 | strata come in the order of their keys |
| SelectionProperties.SelectionIgnoresInputOrder | internal/enrich/stage.go:56-105 | main result: with distinct session IDs the selection is the same for every order of the input |
| SelectionProperties.ReportIgnoresInputOrder | internal/enrich/stage.go:86-96 | and so is the report |
| SelectionProperties.ReportAddsUp | internal/enrich/stage.go:37-42 | main result: available sums to the input and selected to what was selected before the limit |
| SelectionProperties.SelectionComposes | internal/enrich/stage.go:76-89 | main result: taking n of a stratum and then m of what is left is taking n + m at once, in the same order |
| SelectionProperties.NewestLead | internal/enrich/stage.go:98-104 | main result: newest first, the final times do not increase, ties go by hash, and no session left out by the limit is later than one kept |
| SelectionProperties.ChosenStand | internal/enrich/stage.go:101-104 | otherwise the selection is what was chosen, cut at the limit |
| Grounding.Truncate | internal/enrich/result.go:146-158 | the backward scan computes `Truncated` and counts the cut |
| Grounding.Claims | internal/enrich/result.go:198-226 | the nested loops compute `ClaimsOf` and add exactly `ClaimsCounts` to the counters |
| Grounding.Tags | internal/enrich/result.go:160-177 | the loop computes `TagsOf` and counts a cut list |
| Grounding.Names | internal/enrich/result.go:179-196 | the loop computes `NamesOf` and counts every cut |
| Grounding.Parse | internal/enrich/result.go:86-142 | a decoded reply is refused under its class, or validated and redacted text by text, and the counters of an accepted one are exact |
| Grounding.RedactResult | internal/enrich/result.go:228-246 | the loops redact every text of a result and nothing else |
| Grounding.ParsePartial | internal/enrich/partial.go:26-60 | the same for one part of a long session |
| GroundingReplies.ParsesExactly | internal/enrich/result.go:86-123 | main result: a reply is accepted if and only if it was decoded with nothing behind it, has schema version 0 or 1, a title, a summary and known kinds; otherwise the first of these it misses is its class |
| GroundingReplies.SavedFields | internal/enrich/result.go:113-141 | main result: every field of a saved result comes from its own field of the reply: decisions from decisions, follow-ups from follow-ups, each list of names from its own |
| GroundingReplies.PartFields | internal/enrich/partial.go:26-60 | the same for a part: when it is refused, and each of its fields |
| GroundingReplies.ListsAreCapped | internal/enrich/result.go:160-226 | lists keep their first eight claims or tags and twelve names; claims are cut at 300 characters and names at 60 |
| GroundingReplies.CitesExactly | internal/enrich/result.go:205-212 | the counters of citations are all citations of claims with a text, and those of turns that do not exist |
| GroundingReplies.EntitiesExactly | internal/enrich/result.go:133-140 | the counters of entities are the projects and repositories kept, and those the session never mentions |
| GroundingReplies.CutsExactly | internal/enrich/result.go:146-150 | every text and every list cut short is counted once |
| GroundingReplies.KeptTagsExactly | internal/enrich/result.go:160-171 | the tags kept are the usable normal forms of the topics given |
| GroundingReplies.TagCharsExactly | internal/enrich/result.go:164 | a space becomes a dash, lower-case letters, digits and dashes stay, and everything else goes |
| GroundingReplies.TagIsBetweenDashes | internal/enrich/result.go:164-165 | a tag is what these characters leave, without the dashes at its ends |
| GroundingReplies.CitationsGrow | internal/enrich/result.go:205-216 | kept citations stand in the order they were first made |
| GroundingReplies.TagsGrow | internal/enrich/result.go:162-171 | kept tags stand in the order they were first given |
| GroundingReplies.NamesGrow | internal/enrich/result.go:181-190 | and so do kept names |
| GroundingProperties.TruncationKeepsWords | internal/enrich/result.go:144-158 | truncation keeps a prefix within the limit, all of a short text, ends where a word ends when it stops early, and is idempotent |
| GroundingProperties.CutAtLastSpace | internal/enrich/result.go:146-158 | a text that is too long is cut at the last space of its last quarter, less the separators before it, or else at the limit |
| GroundingProperties.GroundedExactly | internal/enrich/result.go:205-216 | the turns kept are exactly the cited ones that exist, each once, and every other citation is counted |
| GroundingProperties.ClaimsKeepOrder | internal/enrich/result.go:198-219 | a claim comes out for each one that has a text, in order, with its own text and grounded turns |
| GroundingProperties.ClaimsAreGrounded | internal/enrich/result.go:198-226 | main result: at most eight claims, each with a text and distinct turns that exist; ungrounded is at most cites, and what is retained at most the difference |
| GroundingProperties.TagsAreNormal | internal/enrich/result.go:160-177 | main result: tags are distinct, in normal form and at most eight, and normalizing them again changes nothing |
| GroundingProperties.TagsAreComplete | internal/enrich/result.go:163-171 | every usable input tag is there unless the list was cut |
| GroundingProperties.NamesAreComplete | internal/enrich/result.go:182-190 | every name given is listed, but for case and the limit, and none is made up |
| GroundingProperties.NamesAreShort | internal/enrich/result.go:179-196 | names are distinct but for case, not empty, short and at most twelve |
| GroundingProperties.AcceptedIsGrounded | internal/enrich/result.go:86-142 | every accepted reply meets the whole output contract before it is redacted, and afterwards everything in it but the lengths and the texts |
| GroundingProperties.DraftCountsAddUp | internal/enrich/result.go:122-138 | over a whole reply, ungrounded is at most cites and what is retained at most the difference |
| GroundingProperties.PartialIsGrounded | internal/enrich/partial.go:50-60 | so does every accepted part; its cap of twelve claims never cuts, because eight was applied before |
| GroundingProperties.AskDraft | internal/enrich/runner.go:419-482 | the loop over two attempts: the first valid reply, or the class the second was rejected under |
| GroundingProperties.AskPart | internal/enrich/runner.go:419-482 | the same for a part |
| GroundingProperties.AnswersAgree | internal/enrich/runner.go:460-481 | judged so, the two replies make a call of `EnrichSession` end with that answer, asking again exactly when the first was rejected |
| GroundingProperties.ResultOf | internal/enrich/runner.go:503-548 | a session's result from its replies, two at most for each prompt: one call, or all parts valid and then the combining call |
| GroundingProperties.EveryCitationIsATurn | internal/enrich/runner.go:503-548 | main result: whatever the model returns, at the first or the second attempt, every citation saved for a session, or given to its combining call, is the number of a turn of that session |
| Routing.RouteMatches | internal/ingest/pipeline.go:534-558 | a route matches when its source, type and some one entity meet every criterion it sets |
| Routing.RouteStage.Run | internal/ingest/pipeline.go:328-411 | the stage writes what `Routes` says: log, paths, queue, status and inbox, for every list of routes |
| Routing.RouteStage.RunMatches | internal/ingest/pipeline.go:388-398 | the loop over the matches computes `RunAll`, and stops at an unknown destination |
| Routing.RouteStage.RunMatch | internal/ingest/pipeline.go:418-494 | one match computes `OneMatch` |
| Routing.RouteStage.EnqueueCallbackDelivery | internal/ingest/pipeline.go:502-532 | a callback is only ever queued, and its log entry says how that went |
| Routing.ClaimAttachments | internal/ingest/pipeline.go:469-478 | a match claims what it published, and lists, sorted, exactly what it took from earlier ones |
| RoutingProperties.MatchesExactly | internal/ingest/pipeline.go:534-558 | a route matches if and only if source and type are the fragment's or not given, and one entity has both the kind and the value asked for, unless neither is |
| RoutingProperties.MatchesInTurn | internal/ingest/pipeline.go:358-363 | of two routes that match, the earlier has its turn first |
| RoutingProperties.MatchingKeepsOrder | internal/ingest/pipeline.go:358-363 | the matches are exactly the matching routes, and their IDs stay unique |
| RoutingProperties.StopsAtUnknown | internal/ingest/pipeline.go:430-433 | a pass does exactly the matches before the first unknown destination, and fails exactly when there is one |
| RoutingProperties.OneEntryEach | internal/ingest/pipeline.go:418-494 | main result: each match has exactly one log entry, in route order, with its decision and its exact reason: manual review, queue unavailable, enqueue error, queued, failed or delivered after so many attempts |
| RoutingProperties.NoMatchIsLogged | internal/ingest/pipeline.go:365-372 | a fragment that nothing matches has exactly one new entry, which says so; a skipped one has none |
| RoutingProperties.EveryMatchIsLogged | internal/ingest/pipeline.go:387-396 | main result: otherwise there is one for each match up to the first unknown destination, which fails the pass |
| RoutingProperties.InlineExactly | internal/ingest/pipeline.go:435-443 | exactly the automatic matches that are no callbacks are delivered inline, and exactly the callbacks and failed deliveries that the queue accepts are queued, once each and in order |
| RoutingProperties.CallbacksOnlyQueued | internal/ingest/pipeline.go:435-441 | no callback destination is ever called inline |
| RoutingProperties.LastPublisherWins | internal/ingest/pipeline.go:461-482 | main result: each attachment's path is the one its last successful publisher gave it |
| RoutingProperties.CollisionsAreTheChain | internal/ingest/pipeline.go:461-491 | main result: the recorded collisions are exactly the chain of earlier publishers |
| RoutingProperties.RoutedOrStaged | internal/ingest/pipeline.go:400-411 | main result: after both stages a fragment is routed and out of the inbox if and only if some match delivered at once, and is otherwise unrouted and staged |
| Recall.ResolveResults | internal/recall/vanta.go:242-276 | the loop returns the first `limit` of the ranking without repeats |
| Recall.SearchVector | internal/recall/vanta.go:135-154 | the resolved results, or the base index's when recall fails or nothing resolves |
| Recall.Related | internal/recall/vanta.go:192-217 | the same around a fragment that is left out |
| Recall.ResultsSay | internal/recall/vanta.go:242-276 | main result: every result is a hit's own: the fragment its trimmed key names, its score or zero, its summary or the fragment's; keys are distinct, the limit holds, and nothing is left out while there is room |
| Recall.RecallLimitExactly | internal/recall/vanta.go:487-492 | twice the limit is asked for, unless there is none or that is more than an `int` holds |
| Recall.EveryWantedKeyIsThere | internal/recall/vanta.go:242-276 | every wanted key in the ranking has a result |
| Recall.OverfetchExactly | internal/recall/vanta.go:485-492 | fetching n hits gives what the whole ranking would if and only if they hold as many distinct wanted keys as asked for, or all there are |
| Recall.OverfetchIsEnough | internal/recall/vanta.go:485-492 | main result: when keys occur at most twice and all resolve, twice the limit is enough, for every limit and every ranking that can be held |
| Recall.OverfetchAroundSkip | internal/recall/vanta.go:201-208 | and so is twice three more when one fragment is skipped |
| Recall.ResultsAreFirstHits | internal/recall/vanta.go:242-276 | each result is its key's first wanted hit, in ranking order |
| Recall.FragmentsOnce | internal/recall/vanta.go:242-254 | the results name each fragment once if and only if no two wanted keys are names of one fragment |
| Recall.FragmentIsThere | internal/recall/vanta.go:242-254 | a fragment is among the results if and only if a wanted key names it, whichever key is left out |
| Recall.AliasesRepeat | internal/repository/fragments.go:728-745 | a concrete fragment with an alias that comes twice, and comes back when its own ID is left out |
| BlobStore.FinishesAlone | internal/blobstore/file.go:63-132 | main result: from any state a writer that meets no other can finish, and leaves its bytes under their digest if it was free and they were expected, and otherwise nothing; no staging name stays |
| BlobStore.ReportsExactly | internal/blobstore/file.go:93-124 | main result: in any interleaving, what each outcome a writer reports says of its bytes and of what is visible before and after |
| BlobStore.OthersLeaveIt | internal/blobstore/file.go:78-124 | no step of another writer touches a writer |
| BlobStore.RunKeeps | internal/blobstore/file.go:60-132 | main result: the same over every interleaving of writers, crashes and removals |
| BlobStore.ReadersSeeWholeBlobs | internal/blobstore/file.go:60-62 | main result: whoever opens a visible file reads one whole blob for as long as it is open, even past removal |
| BlobStore.ReuseFailsOnlyWhenRemoved | internal/blobstore/file.go:114-122 | a writer that finds the name taken can use what is there if and only if it was not removed since and has its size; and what is there is its own source if and only if the two do not collide |
| BlobStore.MismatchInstallsNothing | internal/blobstore/file.go:93-101 | main result: over every run, a writer with the wrong bytes makes nothing visible and creates nothing for as long as it is there |
| BlobStore.RunRecorded | internal/blobstore/file.go:112-124 | over every run a digest is created and removed in turn, and is visible exactly when created last |
| BlobStore.CreatedOnceBetweenRemovals | internal/blobstore/file.go:112-124 | main result: in every run, between two successive removals of a digest it is created exactly once |
| BlobStore.OwnHandleResolves | internal/blobstore/file.go:164-186 | every handle built for a valid digest resolves to the digest's own file |
| BlobStore.HandlesNameOneFile | internal/blobstore/file.go:164-182 | an accepted handle is the one built for the file it leads to, and that is a digest's own file if and only if it is spelled in normal form |
| BlobStore.BuiltHandleAccepted | internal/blobstore/file.go:164-186 | and every handle so built is accepted, if it does not end in white space |
| BlobStore.CapitalHandleAccepted | internal/blobstore/file.go:164-182 | a concrete handle in capitals, accepted and leading to a name that is no digest's own |
| BlobStore.FileStore.Put | internal/blobstore/file.go:63-132 | main result: each of five errors and success, if and only if, in terms of the expected digest, the retention, the reader, the source and what is visible; on success the blob described and what is visible, and otherwise nothing changes; no staging file is left |
| BlobStore.FileStore.Stage | internal/blobstore/file.go:78-97 | the staging file holds the source, and nothing visible changes |
| BlobStore.FileStore.Install | internal/blobstore/file.go:112-124 | the name then holds the source if it was free; otherwise nothing changes and what is there is accepted exactly when it has the source's size |
| BlobStore.FileStore.RemoveBlob | internal/blobstore/file.go:147-162 | exactly the named file goes, if the handle is valid |
| Entities.EntityStore.ReplaceScoped | internal/repository/entities.go:98-148 | the delete and the upserts commit together, refused exactly when there are no kinds, a kind is out of scope, or a statement fails |
| Entities.EntityStore.ReplaceByKind | internal/repository/entities.go:83-85 | the same, for every source |
| Entities.EntityStore.ReplaceByKindAndSource | internal/repository/entities.go:91-96 | the same, for some sources, refused without any |
| Entities.EntityStore.UpsertAll | internal/repository/entities.go:154-180 | the upsert loop computes `Upsert` |
| Entities.IdsAreInjective | internal/repository/entities.go:312-315 | an ID stands for one kind and value when kinds are one line |
| Entities.NewlinesCollide | internal/repository/entities.go:312-315 | with a newline in a kind, two entities can share an ID |
| Entities.OneLineIsAlone | internal/repository/entities.go:312-315 | with one-line kinds every entity is alone under its ID |
| Entities.ReplaceById | internal/repository/entities.go:98-180 | main result, for any kinds: after a replacement each row is the last observation that goes by its ID, gone if the kind recorded for the ID was in scope, and otherwise as before |
| Entities.EntitiesAreKept | internal/repository/entities.go:154-167 | a replacement removes no entity; an entity keeps the time it was first seen at, and takes kind and value from the last observation under its ID |
| Entities.ReplaceExactly | internal/repository/entities.go:98-180 | so the same holds by kind and value for every entity that is alone under its ID |
| Entities.NewlineClears | internal/repository/entities.go:115-132 | a concrete table in which an entity is not, and loses a row to the clearing of a kind it does not have |
| Entities.LastTouchStands | internal/repository/entities.go:98-180 | main result: after any writes by any owners, each row is what the last write that clears or gives it gives, and untouched when none does |
| Entities.OwnersKeepApart | internal/repository/entities.go:71-82 | with disjoint scopes that owners keep to, a row in an owner's scope is touched by that owner's writes alone |
| Entities.LastWriteStands | internal/repository/entities.go:71-82 | so such a row is what its owner last wrote for the fragment |
| Entities.WritesCommute | internal/repository/entities.go:71-82 | two writes commute on every row that they do not both touch |
| Entities.RepeatedWrite | internal/repository/entities.go:98-180 | a write repeated changes nothing but the time on the rows it gives |
| Entities.IndexerKeepsToScope | internal/recall/sqlite.go:39-42 | the indexer's call keeps to its kinds and sources |
| RevisionMaterial.NormalizeMaterial | internal/domain/material.go:42-71 | the loop and the defaults compute the normal form of a material, which the next rows determine |
| RevisionMaterial.DescribedEach | internal/domain/material.go:43-55 | main result: a manifest lists every attachment, in order, by eight fields trimmed, three of them in lower case |
| RevisionMaterial.SameManifestExactly | internal/domain/material.go:43-55 | two sets have one manifest if and only if they are alike one by one |
| RevisionMaterial.MaterialFields | internal/domain/material.go:56-71 | title, description and content have normal line ends, and a blank format is `markdown` |
| RevisionMaterial.NewlinesExactly | internal/domain/material.go:73-76 | read in one pass, a carriage return with or without a line feed is one line end |
| RevisionMaterial.NewlinesAreIdempotent | internal/domain/material.go:73-76 | normalized text ends lines with line feeds only, and normalizing again changes nothing |
| RevisionMaterial.NewlinesKeepText | internal/domain/material.go:56-61 | nothing but line endings changes |
| RevisionMaterial.BodyIsIdempotent | internal/domain/material.go:52-68 | normalizing normal material changes nothing |
| Revisions.RevisionStore.EnsureAttachmentManifestRevision | internal/repository/attachments.go:518-574 | computes `Ensure`: nothing for the current manifest, else the revision with that material, found or added, becomes current; the rows below say when and which |
| Revisions.RevisionStore.SelectRevision | internal/repository/attachments.go:540-573 | computes `Select` |
| Revisions.RevisionStore.IngestMaterial | internal/repository/fragments.go:201-245 | the ingest path adds and selects revisions in the same way |
| Revisions.RunKeeps | internal/repository/attachments.go:518-574 | main result: over any run revisions are only added, and each is well formed, next in order and new |
| Revisions.OrdinalsAreExact | internal/repository/attachments.go:547-550 | a fragment's ordinals are exactly 1 to n, each once |
| Revisions.MaterialIsUnique | internal/repository/attachments.go:540-552 | no two revisions of a fragment have the same material |
| Revisions.CurrentExists | internal/repository/attachments.go:566-573 | the revision a fragment names as current exists and is its own |
| Revisions.EnsureSelects | internal/repository/attachments.go:518-574 | setting attachments selects the one revision of that text and manifest, and keeps the text |
| Revisions.SetsShareExactly | internal/repository/attachments.go:536-573 | main result: two sets of attachments share a revision if and only if they are alike one by one, and setting the second after the first changes the tables if and only if they are not |
| Revisions.EnsureWrites | internal/repository/attachments.go:518-573 | a missing fragment is refused if and only if it is missing, and a change writes the fragment's row whole |
| Revisions.IngestSelects | internal/repository/fragments.go:201-245 | main result: after material was ingested the current revision says just that, and nothing is written if it was current already |
| Revisions.RepeatedIngest | internal/repository/fragments.go:201-217 | ingesting the same material again changes nothing |
| Revisions.RepeatChangesNothing | internal/repository/attachments.go:537-539 | setting the same attachments again changes nothing |
| Revisions.SetLeadsBack | internal/repository/attachments.go:540-545 | main result: an attachment set always leads back to its original revision, whatever was set in between |

## Left out

- Recall.OverfetchIsEnough: rankings of up to half the largest integer, more than any slice holds; `limit + 3` does not wrap around.
- Recall.OverfetchAroundSkip: the same.
- AcquisitionRuns.RunKeeps: that receipts go on naming the variant commands resolve to, and that indefinite variants keep indefinite bytes, need the conditions on discoveries it states; the rest holds over every run.
- CaptureRuns.RunKeeps: that every completed capture has a report needs the condition on advances it states; the rest holds over every run.
- IngestDispatch.SlotFiresOnce: needs callers whose next slot lies after the expected one and edits that do not move a schedule back; the code does not check either.
- EnrichSession.SessionCostBound: replies are taken to cost at least nothing; the source takes whatever cost the gateway reports.
- EnrichRunProperties.SpendBounded: the bound B on one session is a premise, which `EnrichRunProperties.SpendBoundedByReplies` replaces by the price of the dearest reply.
- EnrichRunProperties.SpendBoundedByReplies: as there, replies are taken to cost at least nothing.
- SelectionProperties.SelectionComposes: is about each stratum; the overall newest-first order and the limit are applied to what was chosen afterwards.
- Entities.ReplaceExactly: is about entities that are alone under their IDs, as all are when kinds have no newline; `Entities.ReplaceById` has no such condition.
- Entities.LastTouchStands: the same condition, as in `Entities.WritesCommute` and `Entities.RepeatedWrite`.
- Entities.WritesCommute: the same condition.
- Entities.RepeatedWrite: the same condition.
- Entities.LastWriteStands: the same condition, and owners who write only sources of their own, which the code does not check; `Entities.LastTouchStands` is without the latter.
- Grounding.Parse: what redaction makes of a text is a parameter, so nothing is said of the length of a redacted text.
- GroundingProperties.ResultOf: replies only; gateway errors and ledger failures between them are in `EnrichSession`, joined by `GroundingProperties.AnswersAgree`.
- ConfigSave.SavedReadsBack: aliases, anchors and merge keys are read as plain nodes, though the decoder resolves them; validation and the anchoring of relative paths on load come after.
- Chunks.BuildChunks: the framing of each part as a prompt, and the trimming of long turns inside it, appear only as sizes.
- YAML anchors and aliases, and the parser and emitter.
- Comments in YAML documents: one comment per node stands for all three that the library keeps.
- Manifest acceptance appears as one step that adds an open capture with distinct clients and existing variants; envelope normalization is not modelled.
- Listing and projecting capture state, enrichment progress and status snapshots: the snapshot builder is a parameter that succeeds or fails.
- Failures of single SQL statements inside capture, acquisition, routing and revision calls: they roll back to the old state, and only the transactions with a fault parameter show it.
- Errors of an enrichment ledger write other than a store write error, tier-0 facts, planning estimates, gates and latencies.
- The scheduler library's own tables and retries: a fire's later status changes are arbitrary, and retries are repeated calls.
- Symbolic links, directory creation, permissions and file synchronisation in the blob store; retention is carried but not enforced there.
- Retry and back-off inside one inline delivery: a delivery succeeds or fails with some number of attempts.
- Store errors during routing other than an unknown destination.
- Normalization of source identities, fragment aliases, attachment rows and references, and the metadata columns of revisions.
- HTTP and MCP servers, the command line, the user interface, network clients, OCR and document extraction, vision prompts, templates, Unicode case tables and regular expression engines.
