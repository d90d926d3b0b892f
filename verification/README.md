# A verified model of the release, QA and translation tooling

The repository's `scripts/` directory holds tools that build, translate, probe and release the product.
Several of them contain real protocols and algorithms. This project models those in Dafny, in the form the
scripts have (classes with mutable fields, loops, recursive functions), and proves what they are for.

| module | models |
|---|---|
| `PromptClient`, `PromptVerdict`, `PromptAlone`, `PromptRun` | the single-slot RPC client, what becomes of each of its prompts, one client under any callers, and whole runs of driver, clients and child processes |
| `BatchPlanner`, `BatchTranslation` | the greedy batcher; retry, split and timeout handling of one batch |
| `TranslationMemory`, `LocaleSync`, `SourceOrder`, `LocaleSyncLoop`, `LocaleFile` | the translation memory, a run of `syncLocale` as a specification, said of its files alone, and as loops, and the file between two runs |
| `TranslationTree`, `TranslationObjects` | flattening and rebuilding nested maps, on values and on heap objects |
| `ProtoWire`, `OtlpDecoder`, `OtlpEncoding`, `OtlpTrace`, `WireExact` | the protobuf reader, the OTLP decoders, the standard encoding they invert, and what they make of any bytes |
| `ArgumentScanner`, `ArgumentText`, `ReaderPool` | the quote-aware scanner and what it does to text; the pool of workers that share an index |
| `ImportClosure` | the worklist search over import specifiers |
| `CommandRunner`, `RestartProbe`, `OutputLines` | the event machines around child processes |
| `BlockLens`, `BlockLines`, `SparkleFeed` | the marked text block; build numbers and the feed check |

State machines are written twice: as a function on values, about which the theorems over all runs are proved,
and as methods on objects, each proved to perform exactly its step.

Where the code does not do what one would expect of it, the model follows the code, and a lemma says exactly
when the expectation holds:

- The batcher charges 10 characters per item while `estimateBatchChars` charges 8 for an item inside a batch. It is
  optimal for its own charge on every input. Against the estimate it is not: `EstimateCounterexample` has the
  input. The condition is on the items: a stretch of at most 20 that fits the budget by the estimate but not by the
  charge (`Gap`). Without one the loop is optimal by the estimate (`OptimalWithoutGap`); it is so on every stretch of
  the items if and only if there is none (`OptimalOnEveryPartIff`); and the loss is bounded for all inputs
  (`NearlyOptimalForEstimate`).
- An `agent_end` line is not matched to a request. `LateAnswerSettlesNextRequest` has a run in which one prompt's
  answer goes to the next, and `MisledIffOutstanding` says when that can happen: if and only if an earlier request
  is still outstanding when the next is sent. `ResolvedWithItsOwnAnswer` shows that no run of the driver does it,
  because it retires a client after any failure.
- An argument that leaves a square bracket or a brace open swallows the next comma (`OpenBracketSwallowsComma`).
  `SplitInvertsJoin` says that splitting is exact if and only if every argument but the last closes them.
- Rewriting a block twice is the same as rewriting it once if and only if the end marker occurs neither in the
  start marker nor in an indented line (`PutPut`; `RepeatCounterexample` has an input where it is not).
- `--force` changes no value and no fallback state of a run that completes (`ForceChangesNothing`).

## Model

| member | source | states |
|---|---|---|
| `PromptClient.StepKeepsInv` | scripts/control-ui-i18n.ts:1140-1348 | Every event keeps: `pending` is exactly the one unsettled request, and exactly that request has a live timeout and heartbeat; a settled promise keeps its outcome; closed stays closed. |
| `PromptClient.RunKeepsInv` | scripts/control-ui-i18n.ts:1140-1348 | The same after every sequence of events, in every order that timers and the promise chain allow. |
| `PromptClient.ReachableSlot` | scripts/control-ui-i18n.ts:1269-1335 | In every reachable state: no pending request means all settled and no timer live; a pending request is the only unsettled one and the only one with timers. |
| `PromptVerdict.SentIsCounted` | scripts/control-ui-i18n.ts:1197-1347 | In every legal run the requests sent are the starts with no timeout, process close or close before them, and the client is closed exactly if there was one. |
| `PromptVerdict.VerdictIsExact` | scripts/control-ui-i18n.ts:1239-1335 | In every legal run a request is unsettled if and only if no settling event came after it was sent, and otherwise has the outcome that the first one names. Settling are a failed response with its id, any `agent_end`, its timeout, its failed write, a process error and a process close; a successful response and one to another id are not. |
| `PromptVerdict.OutcomesAreNamed` | scripts/control-ui-i18n.ts:1140-1348 | So all outcomes of a run can be read off its list of events, and there are no others. |
| `PromptClient.LateAnswerSettlesNextRequest` | scripts/control-ui-i18n.ts:1239-1266 | For every text there is a run of one client in which the late answer to a failed request resolves the next one. |
| `PromptAlone.MisledIffOutstanding` | scripts/control-ui-i18n.ts:1239-1270 | After every run of one client, whatever its callers do, the request sent next can be given another's answer if and only if an earlier request is still outstanding. |
| `PromptAlone.MisledSettles` | scripts/control-ui-i18n.ts:1256-1265 | In that case the end of the other request settles this one. |
| `PromptClient.PiRpcClient.constructor` | scripts/control-ui-i18n.ts:1141-1152 | A new client has no request and satisfies the invariant. |
| `PromptClient.PiRpcClient.RejectPendingRequest` | scripts/control-ui-i18n.ts:1213-1219 | Performs the step of a process error: the pending request, if any, is rejected and its timers cleared. |
| `PromptClient.PiRpcClient.OnProcessClose` | scripts/control-ui-i18n.ts:1197-1202 | Performs the step of a process that closes: the client is closed and its pending request rejected. |
| `PromptClient.PiRpcClient.HandleStdoutLine` | scripts/control-ui-i18n.ts:1221-1267 | A successful response to the pending request is noted and settles nothing; a failed one rejects it with its error; `agent_end` resolves or rejects it; a response to another id, noise, and any line without a pending request change nothing. This is the step of a line. |
| `PromptClient.PiRpcClient.Prompt` | scripts/control-ui-i18n.ts:1269-1270 | A call is queued and changes nothing else. |
| `PromptClient.PiRpcClient.RunNext` | scripts/control-ui-i18n.ts:1270-1316 | The queued body runs once all earlier ones settled: refused if closed, else a new id, two timers and the slot. |
| `PromptClient.PiRpcClient.OnTimeout` | scripts/control-ui-i18n.ts:1289-1301 | A live timeout rejects its request, clears the slot and the heartbeat, and closes the client. |
| `PromptClient.PiRpcClient.OnWriteFailed` | scripts/control-ui-i18n.ts:1318-1328 | A failed write rejects its own request and clears the slot only if that request holds it. |
| `PromptClient.PiRpcClient.CloseClient` | scripts/control-ui-i18n.ts:1336-1347 | Closing sets `closed` and touches no request. |
| `PromptRun.DeliverKeeps` | scripts/control-ui-i18n.ts:1221-1267 | Delivering a line keeps the invariant of its endpoint; an `agent_end` that meets a pending request was caused by it. |
| `PromptRun.ActionKeeps` | scripts/control-ui-i18n.ts:1527-1542 | Every action of driver, clients and children keeps the invariant of the whole system. |
| `PromptRun.RunKeeps` | scripts/control-ui-i18n.ts:1381-1443 | So does every whole run. |
| `PromptRun.ResolvedWithItsOwnAnswer` | scripts/control-ui-i18n.ts:1140-1348 | Over every run and every client used in it, a prompt that resolved holds the text its child produced for that prompt. |
| `PromptRun.AgentEndMeetsItsRequest` | scripts/control-ui-i18n.ts:1256-1265 | Over every run, an `agent_end` delivered while a request is pending was caused by that request, though it carries no id. |
| `PromptRun.RetiredClientsAreQuiet` | scripts/control-ui-i18n.ts:1527-1542 | Over every run, only the client in use has a pending request, and only while the driver waits for it; all others are closed, with no live timer. |
| `BatchPlanner.GreedyIsPartition` | scripts/control-ui-i18n.ts:1114-1138 | The greedy batches are the items in order, none empty or over 20, and those of two or more within the budget. |
| `BatchPlanner.GreedyOfSuffix` | scripts/control-ui-i18n.ts:1114-1138 | Dropping leading items never needs more batches. |
| `BatchPlanner.GreedyIsOptimal` | scripts/control-ui-i18n.ts:1114-1138 | No order-preserving partition under the same limits has fewer batches. |
| `BatchPlanner.BuildTranslationBatches` | scripts/control-ui-i18n.ts:1114-1138 | The loop yields the greedy batches, optimal under the charge it applies, and every batch of two or more is within the budget by `estimateBatchChars`. |
| `BatchPlanner.LoopBatches` | scripts/control-ui-i18n.ts:914-916 | The loop's batches are optimal for its charge and a valid partition for the estimate. |
| `BatchPlanner.OptimalWithoutGap` | scripts/control-ui-i18n.ts:914-916 | If no stretch of at most 20 items fits the budget by the estimate but not by the charge, the loop is optimal by the estimate. |
| `BatchPlanner.OptimalOnEveryPartIff` | scripts/control-ui-i18n.ts:1120-1131 | The loop is optimal by the estimate on every stretch of the items if and only if there is no such gap. |
| `BatchPlanner.EstimateCounterexample` | scripts/control-ui-i18n.ts:1120-1131 | Two items with different keys and an estimate of 22 are not batched optimally under a budget of 24. |
| `BatchPlanner.NearlyOptimalForEstimate` | scripts/control-ui-i18n.ts:1114-1138 | No partition whose estimates stay 40 below the budget has fewer batches than the loop. |
| `BatchTranslation.AttemptBound` | scripts/control-ui-i18n.ts:1381-1443 | For every pattern of replies, errors and timeouts, n items take at least one and at most 4n - 2 prompts. |
| `BatchTranslation.JudgeIsExact` | scripts/control-ui-i18n.ts:1398-1408 | A reply is accepted if and only if it has a non-blank text for every item; then the map holds exactly the keys of the batch with the texts of the reply; otherwise the error is that of the prompt or names the first item without a text. |
| `BatchTranslation.CourseOf` | scripts/control-ui-i18n.ts:1381-1443 | For every pattern of replies a batch runs a course that the rules on prompts alone describe: a failing first prompt is repeated once, a timeout halves what is more than one item, the right half follows only a left half that was answered; the result is an answer exactly if all parts were answered, and otherwise the error of the last prompt. |
| `BatchTranslation.OneCourse` | scripts/control-ui-i18n.ts:1381-1443 | These rules leave no freedom: one pattern has one course. |
| `BatchTranslation.ServedByRun` | scripts/control-ui-i18n.ts:1544-1552 | A list of batches is served if and only if the first succeeds and the rest is served from the prompt after it. |
| `BatchTranslation.AnswersServe` | scripts/control-ui-i18n.ts:1544-1552 | A provider whose every reply is complete for every batch serves them all. |
| `BatchTranslation.TranslateComplete` | scripts/control-ui-i18n.ts:1381-1443 | If it returns, its domain is exactly the keys of the batch, and each value is a non-blank text that a reply of this very call gave for that key. |
| `BatchTranslation.BoundIsReached` | scripts/control-ui-i18n.ts:1415-1439 | For every batch there is a pattern of failures that takes exactly 4n - 2 prompts. |
| `BatchTranslation.Provider.Ask` | scripts/control-ui-i18n.ts:1394-1398 | One prompt on a client on which no attempt has thrown before. |
| `BatchTranslation.Provider.ResetClient` | scripts/control-ui-i18n.ts:1535-1541 | Retires the client in use. |
| `BatchTranslation.ReadReply` | scripts/control-ui-i18n.ts:1398-1408 | Accepts a reply if and only if every item has a non-blank text in it, with exactly those texts; otherwise fails with the error of the prompt or names the first item that has none. |
| `BatchTranslation.TranslateBatch` | scripts/control-ui-i18n.ts:1381-1443 | Takes the course that `CourseOf` describes; a complete next reply is returned as the map after exactly one prompt; meets the prompt bound and the completeness of the map, never prompts a client after a failure on it, and leaves none in use when it fails. |
| `TranslationMemory.PutGet` | scripts/control-ui-i18n.ts:1557-1569 | Storing an entry changes the lookup of its own key and of no other, and keeps one entry per key. |
| `TranslationMemory.GetReordered` | scripts/control-ui-i18n.ts:506-514 | The same entries in another order answer every lookup alike. |
| `TranslationMemory.LoadClean` | scripts/control-ui-i18n.ts:485-504 | Loading keeps one entry per key, all of them lines with a key and a non-blank translation. |
| `TranslationMemory.LoadFinds` | scripts/control-ui-i18n.ts:493-502 | A key is answered by the last kept line that has it, and by nothing if no kept line has it. |
| `TranslationMemory.LastIndexedWins` | scripts/control-ui-i18n.ts:521-526 | A text hash is answered by the last usable entry that has it. |
| `TranslationMemory.LoadOfClean` | scripts/control-ui-i18n.ts:485-514 | Loading what was written from a memory gives that memory back. |
| `TranslationMemory.LoadTranslationMemory` | scripts/control-ui-i18n.ts:485-504 | The loop over the lines computes `Load`. |
| `TranslationMemory.ByTextHashIs` | scripts/control-ui-i18n.ts:516-528 | The index holds exactly the hashes of usable entries of the locale, each with an entry of that hash. |
| `TranslationMemory.BuildTranslationMemoryByTextHash` | scripts/control-ui-i18n.ts:516-528 | The loop over the entries computes that index. |
| `LocaleSync.MemoryHolds` | scripts/control-ui-i18n.ts:1494-1571 | After a run the memory answers each segment with what the run stored for it, or with what was there before. |
| `LocaleSync.MemoryEntries` | scripts/control-ui-i18n.ts:1494-1571 | Every entry of the final memory is an old one, a copy under a new segment, or a fresh translation. |
| `LocaleSync.CountsBalance` | scripts/control-ui-i18n.ts:1478-1652 | The result has exactly the source keys, the fallback keys are among them, translated plus fallback keys are all keys, and a completed provider run has no fallback key. |
| `LocaleSync.EnglishIsLastResort` | scripts/control-ui-i18n.ts:1478-1609 | A key that newly falls back has no cached segment, no cached text, no existing value and no provider, and its value is the source text. |
| `SourceOrder.ValuesComeInOrder` | scripts/control-ui-i18n.ts:1478-1652 | In every completed run each key gets value and fallback state from the first source that serves: the last kept memory line of its segment (not for an earlier fallback of a provider run), else the last usable entry with its text hash (for an earlier fallback or a key without a value), else the existing value, else the translation, else the English text; only the last, and what fell back before and is kept, is listed as a fallback. |
| `SourceOrder.OneValue` | scripts/control-ui-i18n.ts:1478-1652 | This leaves no freedom: one value and one fallback state per key. |
| `SourceOrder.MemoryIsExact` | scripts/control-ui-i18n.ts:1494-1571 | In every completed run the memory answers a segment of the source with its old line, a copy of the entry for its text, or a new entry of its translation, according to the source its value came from, and any other segment as before. |
| `SourceOrder.MetadataIsExact` | scripts/control-ui-i18n.ts:1622-1655 | Every field of the metadata that a run wants, with the old timestamp kept if and only if nothing else changed. |
| `LocaleSync.ProviderRefreshesFallbacks` | scripts/control-ui-i18n.ts:1484-1519 | A completed provider run replaces every earlier fallback by a non-blank translation of the same text. |
| `LocaleSync.ForceChangesNothing` | scripts/control-ui-i18n.ts:1595-1609 | In a completed run `--force` changes no value and no fallback state. |
| `LocaleSync.MemoryReloads` | scripts/control-ui-i18n.ts:485-514 | The memory of a completed run, written in any order, is read back unchanged. |
| `LocaleSync.NoNewHashes` | scripts/control-ui-i18n.ts:1478-1519 | A run without a provider brings no new text hash into the memory. |
| `LocaleSync.SecondChoice` | scripts/control-ui-i18n.ts:1478-1519 | On a second run every key is kept, with the value and the fallback state that the first run gave it. |
| `LocaleSync.EveryRunCanBeRepeated` | scripts/control-ui-i18n.ts:1591-1609 | Whatever the files hold, a run without a provider completes, so that what is said of second runs applies to it. |
| `LocaleSync.SecondRunChangesNothing` | scripts/control-ui-i18n.ts:1478-1655 | After a completed run, with or without a provider, a second run defers no key and wants exactly the values, fallback keys, metadata (timestamp included) and memory that are there. |
| `LocaleSyncLoop.Resolve` | scripts/control-ui-i18n.ts:1474-1519 | The resolution loop, which writes the memory while it reads it: every key has its value and fallback state from the segment cache, else the text-hash cache, else the existing file, as these were at the start, or else is left for the provider. |
| `LocaleSyncLoop.StoreBatch` | scripts/control-ui-i18n.ts:1551-1570 | The translations of one batch go into the flat map and the memory. |
| `LocaleSyncLoop.TranslatePending` | scripts/control-ui-i18n.ts:1521-1593 | It fails if and only if the provider does not serve the batches in turn, and then with the error of the last prompt; otherwise all pending keys and only those are translated, by replies of this very call, and stored; whatever happens, no client is left in use. |
| `LocaleSyncLoop.FullAnswersServe` | scripts/control-ui-i18n.ts:1521-1593 | A provider whose every reply has a text for every deferred key serves every run, so that nothing fails. |
| `LocaleSyncLoop.FillFallbacks` | scripts/control-ui-i18n.ts:1595-1609 | Keys still without a value get the existing one or the English text, and the fallback list grows by exactly those that fall back. |
| `LocaleSyncLoop.CheckParity` | scripts/control-ui-i18n.ts:377-424 | True exactly if every translation has the placeholders of its source. |
| `LocaleSyncLoop.RunStages` | scripts/control-ui-i18n.ts:1474-1609 | The three stages together yield the specified values, fallback keys and memory if and only if the provider serves the deferred keys; without a provider or without deferred keys nothing is asked and nothing fails. |
| `LocaleSyncLoop.Conclude` | scripts/control-ui-i18n.ts:1616-1714 | A run is synced exactly if placeholders match; it reports a change exactly if the files differ, and writes exactly if that is asked for. |
| `LocaleSyncLoop.SyncLocale` | scripts/control-ui-i18n.ts:1452-1715 | If the provider serves the deferred keys, the run is completed and synced exactly if placeholders match, with the specified files, every value from the first source that serves; otherwise it fails with the error of the last prompt, or skips the locale if that is an authorisation error and skipping is asked for; the provider is asked only if a key is deferred. |
| `LocaleSyncLoop.SyncAgain` | scripts/control-ui-i18n.ts:1452-1715 | A run right after one that completed and wrote sends no prompt, finds no difference and writes nothing, at any time and under any options. |
| `LocaleFile.WrittenReadsBack` | scripts/control-ui-i18n.ts:1618-1621 | For a source with plain keys, the nested map built from any values has plain keys, and its flat map is exactly those values. |
| `LocaleFile.WriteAndRead` | scripts/control-ui-i18n.ts:1462-1465 | What the next run reads from the locale file is what this run ended with. |
| `TranslationTree.SplitDotted` | scripts/control-ui-i18n.ts:330-341 | Splitting a dotted key at its dots gives back the path, for segments without dots. |
| `TranslationTree.LeavesArePrefixFree` | scripts/control-ui-i18n.ts:328-338 | No leaf of a tree lies on the way to another. |
| `TranslationTree.WriteLeaf` | scripts/control-ui-i18n.ts:340-355 | What a write does to every path: its own is set, those on the way to it or beyond it are lost, all others stay. |
| `TranslationTree.SameLeaves` | scripts/control-ui-i18n.ts:340-355 | Two trees without empty branches and with the same leaves are equal. |
| `TranslationTree.RebuildLeaves` | scripts/control-ui-i18n.ts:1618-1621 | Rebuilding from entries that do not clash sets exactly their paths. |
| `TranslationTree.RebuildThenFlatten` | scripts/control-ui-i18n.ts:1618-1621 | Rebuilding in any key order gives a tree that flattens to the same map. |
| `TranslationTree.ListedKeysAreSeparate` | scripts/control-ui-i18n.ts:328-338 | The keys a tree flattens to never clash, so that no write overwrites another. |
| `TranslationTree.FlattenThenRebuild` | scripts/control-ui-i18n.ts:328-355 | Flattening a tree and setting its entries back in any order gives the tree without its empty branches. |
| `TranslationTree.FlattenInto` | scripts/control-ui-i18n.ts:328-338 | The recursion adds exactly the leaves of a nested map under their dotted paths, in any order of entries. |
| `TranslationTree.FlattenTranslations` | scripts/control-ui-i18n.ts:328-338 | The flat map lists the tree: its keys are the dotted leaf paths, with their texts. |
| `TranslationObjects.StepInto` | scripts/control-ui-i18n.ts:343-353 | One turn of the cursor loop goes down, or grafts a new object where there is none, and keeps the objects a tree. |
| `TranslationObjects.SetNested` | scripts/control-ui-i18n.ts:340-355 | On heap objects, writing through the cursor keeps them a tree without sharing, changes the leaves as `WriteLeaf` says, and leaves no new empty object behind. |
| `TranslationObjects.WriteHolds` | scripts/control-ui-i18n.ts:340-355 | What the objects hold after a write is what the function on values gives. |
| `TranslationObjects.HoldersMirror` | scripts/control-ui-i18n.ts:340-355 | Objects that hold the leaves of a tree, none of them empty below the root, are that tree slot for slot. |
| `TranslationObjects.BuildMap` | scripts/control-ui-i18n.ts:1618-1621 | The objects built for the next map are, slot for slot, the tree that the rebuilding function gives. |
| `ProtoWire.RecordAt` | scripts/qa-otel-smoke.ts:203-268 | Every record advances the offset, by at most 8 past the end, and a nested message is at least two bytes shorter than what is left of its container. |
| `ProtoWire.ScanIsShort` | scripts/qa-otel-smoke.ts:203-268 | Every nested message of a message is at least two bytes shorter than it, for every byte string. |
| `ProtoWire.SumStep` | scripts/qa-otel-smoke.ts:217-228 | Adding seven bits at a growing power of two computes the varint read from its first byte. |
| `ProtoWire.ProtoReader.ReadVarint` | scripts/qa-otel-smoke.ts:217-229 | The loop reads the varint at the offset and moves behind it, or reports truncation. |
| `ProtoWire.ProtoReader.ReadTag` | scripts/qa-otel-smoke.ts:212-215 | Field and wire type of the tag, the field from its low 32 bits. |
| `ProtoWire.ProtoReader.ReadBytes` | scripts/qa-otel-smoke.ts:231-240 | The length-delimited bytes at the offset, or the error. |
| `ProtoWire.ProtoReader.ReadFixed64` | scripts/qa-otel-smoke.ts:246-254 | The next eight bytes if they are there. |
| `ProtoWire.ProtoReader.Skip` | scripts/qa-otel-smoke.ts:256-268 | Moves behind a payload of any wire type, past the end only for fixed widths, or reports what is wrong. |
| `OtlpDecoder.ReadAnyField` | scripts/qa-otel-smoke.ts:275-292 | One field of a value: the reader ends behind it and the value is the specified one. |
| `OtlpDecoder.DecodeAnyValue` | scripts/qa-otel-smoke.ts:271-295 | Terminates on every byte string, with the specified value or error. |
| `OtlpDecoder.DecodeArrayValue` | scripts/qa-otel-smoke.ts:297-309 | The same for arrays. |
| `OtlpDecoder.DecodeKeyValue` | scripts/qa-otel-smoke.ts:311-325 | The same for key-value pairs. |
| `OtlpDecoder.DecodeKeyValueList` | scripts/qa-otel-smoke.ts:327-339 | The same for lists of pairs. |
| `OtlpEncoding.VarintInverts` | scripts/qa-otel-smoke.ts:217-229 | Reading an encoded varint gives the number, wherever it stands. |
| `OtlpEncoding.RecordInverts` | scripts/qa-otel-smoke.ts:212-268 | Reading an encoded record gives the record and the offset behind it. |
| `OtlpEncoding.ScanWhole` | scripts/qa-otel-smoke.ts:203-268 | Splitting an encoded message gives back its records. |
| `OtlpEncoding.ArrayInverts` | scripts/qa-otel-smoke.ts:297-309 | An array of decodable elements is decoded to them in order, with unknown fields around each. |
| `OtlpEncoding.KvListInverts` | scripts/qa-otel-smoke.ts:327-339 | The same for lists of pairs. |
| `OtlpEncoding.KvInverts` | scripts/qa-otel-smoke.ts:311-325 | The same for a pair, with unknown fields before, between and after key and value. |
| `OtlpEncoding.DecodeInvertsEncode` | scripts/qa-otel-smoke.ts:271-339 | Decoding inverts the encoding of every value of any depth, whatever well-formed unknown fields are inserted at any level. |
| `OtlpEncoding.RoundTrip` | scripts/qa-otel-smoke.ts:271-339 | Every value survives being encoded and decoded, and inserted unknown fields change nothing. |
| `OtlpTrace.DecodeSpan` | scripts/qa-otel-smoke.ts:341-358 | The loop computes the specified span or error. |
| `OtlpTrace.DecodeScopeSpans` | scripts/qa-otel-smoke.ts:360-372 | The loop computes the specified list of spans. |
| `OtlpTrace.DecodeResourceSpans` | scripts/qa-otel-smoke.ts:374-386 | The loop computes the specified list of scopes. |
| `OtlpTrace.DecodeTraceRequest` | scripts/qa-otel-smoke.ts:388-416 | The spans whose name, decoded and trimmed, is not empty, in the order of the whole request, each with that name, whether it has a non-empty parent, and its attributes; or the first error met. |
| `OtlpTrace.CaptureAllAt` | scripts/qa-otel-smoke.ts:400-416 | The capture loop keeps exactly the spans with a name, in order, with name, parent flag and attributes as the span has them. |
| `OtlpTrace.OneCapture` | scripts/qa-otel-smoke.ts:400-416 | Only one list does. |
| `OtlpTrace.MeantIsExact` | scripts/qa-otel-smoke.ts:341-358 | Of all fields of a span the last parent and the last name count, and all attributes in order. |
| `Common.TrimIsExact` | scripts/qa-otel-smoke.ts:402-405 | What trimming leaves is the text without blanks at both ends and no more; it is empty if and only if the text is blank. |
| `OtlpTrace.SpanInverts` | scripts/qa-otel-smoke.ts:341-358 | A span is decoded to what its fields say, in any order of fields and with unknown ones among them. |
| `OtlpTrace.ListInverts` | scripts/qa-otel-smoke.ts:360-398 | A message of repeated elements is decoded to them in order, whatever unknown fields stand between. |
| `OtlpTrace.ScopeInverts` | scripts/qa-otel-smoke.ts:360-372 | A scope is decoded to its spans. |
| `OtlpTrace.ResourceInverts` | scripts/qa-otel-smoke.ts:374-386 | A resource is decoded to its scopes. |
| `OtlpTrace.TraceInverts` | scripts/qa-otel-smoke.ts:388-416 | An encoded trace request is decoded to its spans, with unknown fields around resources, scopes, spans, attributes and values, and exactly those with a name are captured, in order. |
| `WireExact.FieldIsExact` | scripts/qa-otel-smoke.ts:203-268 | At every offset of any bytes a field is read if and only if there is one: a varint of number and wire type, then what that type announces, in full where a length is declared; and otherwise the error is the reason there is none. |
| `WireExact.ScanIsExact` | scripts/qa-otel-smoke.ts:203-268 | The records and the error found in any bytes are those of the only way to cut them into fields. |
| `WireExact.ListIsExact` | scripts/qa-otel-smoke.ts:297-398 | A message with a list, of any bytes, is decoded to the values of its entries, in order, and fails if and only if an entry or the message is bad, with the error of the first. |
| `WireExact.ValueIsExact` | scripts/qa-otel-smoke.ts:271-295 | A value, of any bytes: each of its seven fields is that of the last record which carries it, and missing without one; it fails if and only if a record or the message is bad, with the error of the first. |
| `WireExact.PairIsExact` | scripts/qa-otel-smoke.ts:311-325 | The same for key and value of a pair. |
| `WireExact.SpanIsExact` | scripts/qa-otel-smoke.ts:341-358 | The same for a span, with all its attributes in order. |
| `ArgumentScanner.QuoteScanState.BeginQuotedSection` | scripts/check-temp-path-guardrails.ts:46-52 | Opens a section exactly at a quote mark. |
| `ArgumentScanner.QuoteScanState.ConsumeQuotedChar` | scripts/check-temp-path-guardrails.ts:54-70 | Consumes exactly inside a section; a backslash that is not escaped escapes the next character, and the section ends exactly at its mark when that is not escaped. |
| `ArgumentScanner.OneCloses` | scripts/check-temp-path-guardrails.ts:72-95 | At most one parenthesis closes a given one: with balanced text between and outside quotes. |
| `ArgumentScanner.FindMatchingParen` | scripts/check-temp-path-guardrails.ts:72-95 | Returns that parenthesis, and -1 if and only if there is none. |
| `ArgumentScanner.SplitTopLevelArguments` | scripts/check-temp-path-guardrails.ts:97-162 | The loop cuts the text as the specification does. |
| `ArgumentScanner.CallIsClosed` | scripts/check-temp-path-guardrails.ts:72-95 | For every list of arguments and any text before and after, the closing parenthesis of the call is the only match. |
| `ArgumentScanner.SplitInvertsJoin` | scripts/check-temp-path-guardrails.ts:97-162 | Splitting joined arguments gives back the list, trimmed, if and only if every argument but the last closes its brackets and braces. |
| `ArgumentScanner.OpenBracketSwallowsComma` | scripts/check-temp-path-guardrails.ts:127-155 | Two arguments, the first an open bracket, are taken for one. |
| `ArgumentText.ScannerSeesSections` | scripts/check-temp-path-guardrails.ts:46-70 | On every text the scanner is inside a section exactly where the text is: each of the three marks opens one outside, and the first later occurrence of that mark after an even run of backslashes closes it. |
| `ArgumentText.ClosesIsCounted` | scripts/check-temp-path-guardrails.ts:72-95 | A parenthesis closes an opening one if and only if it is outside the sections of the text between, which has as many opening as closing ones there and no beginning with fewer. |
| `ArgumentText.TopIsAllClosed` | scripts/check-temp-path-guardrails.ts:97-155 | A comma separates if and only if it is outside sections and every bracket of each kind before it is closed, where closing brackets without an opening one do not count. |
| `ArgumentText.SplitIsExact` | scripts/check-temp-path-guardrails.ts:97-162 | On every text the splitter cuts exactly at these commas, trims every piece and leaves out the last one if it is blank. |
| `ArgumentText.LiteralIsArgument` | scripts/check-temp-path-guardrails.ts:54-162 | A string literal with any body whose marks and backslashes are escaped is one argument: nothing in it closes or separates. |
| `ArgumentText.CallIsTakenApart` | scripts/check-temp-path-guardrails.ts:72-162 | For every call whose arguments are code with closed brackets and string literals, nested at will, only its own parenthesis closes it, and splitting gives back its arguments, trimmed. |
| `ReaderPool.StepKeepsInv` | scripts/check-temp-path-guardrails.ts:232-255 | A step of any worker on the shared `nextIndex` keeps the invariant that relates counter, claims, workers and slots, and the work left decreases. |
| `ReaderPool.EachIndexOnce` | scripts/check-temp-path-guardrails.ts:234-235 | In every such state exactly the indexes below `nextIndex` have been claimed, each by one worker and once. |
| `ReaderPool.RunKeepsInv` | scripts/check-temp-path-guardrails.ts:232-261 | So does every schedule, and its length is bounded by the work done. |
| `ReaderPool.EveryInterleaving` | scripts/check-temp-path-guardrails.ts:223-263 | For every interleaving the steps are bounded and no index is claimed twice; once all workers have returned, every index of the input was claimed exactly once, and the result is the input order with exactly the unreadable and the empty paths removed. |
| `ReaderPool.NeverStuck` | scripts/check-temp-path-guardrails.ts:232-261 | Until all workers have returned, one can step. |
| `ImportClosure.ResolveInstalledDistRelativeImport` | scripts/openclaw-npm-postpublish-verify.ts:218-252 | Returns the first of the seven candidates that lies in dist and exists, and none exactly if there is none. |
| `ImportClosure.ResolutionOrder` | scripts/openclaw-npm-postpublish-verify.ts:218-252 | Only specifiers that begin with a dot resolve: to the named path, else with the ending .js, .mjs or .cjs, else to index.js, index.mjs or index.cjs below it, whichever is usable first. |
| `ImportClosure.ClosedHoldsReachable` | scripts/openclaw-npm-postpublish-verify.ts:254-307 | A set that holds the entry and all imports of its members holds everything reachable. |
| `ImportClosure.CheckFile` | scripts/openclaw-npm-postpublish-verify.ts:268-293 | Finds a problem exactly if the file is missing, not a regular file, too large, unparsable or imports zod, and names one it has. |
| `ImportClosure.PushImports` | scripts/openclaw-npm-postpublish-verify.ts:288-303 | Adds exactly the resolved imports of the file to the worklist. |
| `ImportClosure.CollectZodArtifactErrors` | scripts/openclaw-npm-postpublish-verify.ts:254-307 | No error if and only if every reachable file is clean; an error is about a reachable file that has it; terminates on cyclic graphs. |
| `CommandRunner.StepKeepsInv` | scripts/openclaw-cross-os-release-checks.ts:3494-3618 | Every event keeps: one settlement exactly if settled, and then no timer live; before, the timeout or the kill wait is live whenever a timeout is set. |
| `CommandRunner.SettlesSafely` | scripts/openclaw-cross-os-release-checks.ts:3484-3619 | In every possible order of events the promise settles at most once, no timer is live afterwards, it never resolves once the timeout fired, and by default resolves only with code 0. |
| `CommandRunner.NeverHangs` | scripts/openclaw-cross-os-release-checks.ts:3545-3563 | With a timeout set, one or two firings of live timers settle every unsettled run, whatever the child does. |
| `CommandRunner.VerdictIsExact` | scripts/openclaw-cross-os-release-checks.ts:3584-3617 | The outcome of every trace is the verdict of its first error, close or kill-wait event, with the output before it; without such an event there is none. |
| `CommandRunner.CommandRun.Finalize` | scripts/openclaw-cross-os-release-checks.ts:3516-3524 | Settles and clears all timers the first time, and does nothing after. |
| `CommandRunner.CommandRun.OnStdout` | scripts/openclaw-cross-os-release-checks.ts:3579-3583 | Output is appended to the first stream only, before and after settling. |
| `CommandRunner.CommandRun.OnStderr` | scripts/openclaw-cross-os-release-checks.ts:3584-3588 | Output is appended to the second stream only, before and after settling. |
| `CommandRunner.CommandRun.OnTimer` | scripts/openclaw-cross-os-release-checks.ts:3547-3562 | Records the timeout and arms the kill wait without settling. |
| `CommandRunner.CommandRun.OnKillWait` | scripts/openclaw-cross-os-release-checks.ts:3553-3561 | Rejects as not terminated. |
| `CommandRunner.CommandRun.OnError` | scripts/openclaw-cross-os-release-checks.ts:3590-3592 | Leaves the promise settled, by this error unless it was before. |
| `CommandRunner.CommandRun.OnChildClose` | scripts/openclaw-cross-os-release-checks.ts:3594-3617 | Leaves the promise settled, by this close unless it was before. |
| `CommandRunner.CommandRun.Outcomes` | scripts/openclaw-cross-os-release-checks.ts:3484-3619 | What a caller sees is the verdict read off the handled events alone. |
| `RestartProbe.Observe` | scripts/bench-gateway-restart.ts:650-678 | One attempt updates the loop's variables, and pushes an event exactly if it lists a transition. |
| `RestartProbe.WaitForRestartProbe` | scripts/bench-gateway-restart.ts:617-702 | The loop makes the attempts up to the first reason to stop and returns the result they deserve: a downtime exactly for 200* non-200+ 200, recovery minus first failure; a time without downtime exactly if there were attempts and all were 200; first error, last status, transitions; and it pushes one event for each transition. |
| `RestartProbe.ClassifiedIsUnique` | scripts/bench-gateway-restart.ts:617-702 | That description leaves no freedom: a trace has one result. |
| `RestartProbe.StopsOnce` | scripts/bench-gateway-restart.ts:636-650 | There is one place to stop, and one result. |
| `RestartProbe.DowntimeIsNotNegative` | scripts/bench-gateway-restart.ts:679-685 | On a clock that never runs backwards a downtime is at least 0. |
| `RestartProbe.RunsAreMaximal` | scripts/bench-gateway-restart.ts:654-669 | The runs whose openings are the transitions cut the trace into stretches of one state, with different states next to each other. |
| `RestartProbe.OnlyRunsAreMaximal` | scripts/bench-gateway-restart.ts:654-669 | No other cutting does. |
| `RestartProbe.TransitionsAreExact` | scripts/bench-gateway-restart.ts:652-661 | The transitions are the first attempt and exactly those whose status or kind of error differs from the attempt before, in order, with time, status and error of the attempt. |
| `OutputLines.SplitResumes` | scripts/bench-gateway-restart.ts:1096-1102 | Splitting what has arrived, and later only the unfinished piece with what follows, is splitting everything at once, also inside a `\r\n` pair. |
| `OutputLines.SplitStripsReturns` | scripts/bench-gateway-restart.ts:1097-1097 | The pieces are those between newlines, each but the last without one carriage return at its end. |
| `OutputLines.FoldSplitsOnce` | scripts/bench-gateway-restart.ts:1096-1102 | Folding over the chunks gives the lines and the carry of splitting the whole text once. |
| `OutputLines.ChunkInvariance` | scripts/bench-gateway-restart.ts:1096-1102 | Two ways of cutting the same text give the same lines and carry. |
| `OutputLines.OutputBuffers.OnChunk` | scripts/bench-gateway-restart.ts:1366-1382 | For any interleaving of both streams, each stream's lines and carry are those of its whole text. |
| `OutputLines.OutputBuffers.FlushOutputLineBuffers` | scripts/bench-gateway-restart.ts:1104-1121 | A partial flush completes each stream's lines to all the lines of its text; any other changes nothing. |
| `BlockLens.FailsIffMarkerMissing` | scripts/sync-moonshot-docs.ts:21-28 | It fails for the start marker exactly if there is none, and for the end marker exactly if none stands at or after the first start marker. |
| `BlockLens.ReplaceKeepsSurroundings` | scripts/sync-moonshot-docs.ts:30-50 | Otherwise all text before the line of the first start marker, and all text after the line of the first end marker from there on, is kept. |
| `BlockLines.ReplaceKeepsLines` | scripts/sync-moonshot-docs.ts:15-51 | The lines of the result are those before the start marker's line, the markers around the new lines with that line's indent, and those after the end marker's line. |
| `BlockLens.BlockHoldsLines` | scripts/sync-moonshot-docs.ts:40-50 | Between them stand exactly the indented markers around the indented lines, also when the block is last and the trailing newline is dropped. |
| `BlockLens.PutPut` | scripts/sync-moonshot-docs.ts:15-51 | Replacing by L1 and then by L2 is replacing by L2 if and only if the end marker occurs neither in the start marker nor in an indented line of L1. |
| `BlockLens.Idempotent` | scripts/sync-moonshot-docs.ts:15-51 | A repeat is a no-op under the same condition. |
| `BlockLens.RepeatCounterexample` | scripts/sync-moonshot-docs.ts:25-33 | A repeat that is not a no-op, with a line that holds the end marker. |
| `BlockLens.BlankIndentIsSealed` | scripts/sync-moonshot-docs.ts:30-46 | With a blank indent it is enough that the lines themselves are free of the end marker. |
| `SparkleFeed.FloorsAreArithmetic` | scripts/sparkle-build.ts:37-53 | Stringing decimal digits together amounts to date key, ten times it, and a hundred times it plus the lane. |
| `SparkleFeed.BuildsEmbedOrder` | scripts/sparkle-build.ts:14-58 | Canonical builds are ordered exactly as (year, month, day, lane), equal only if these are, with the plain version after every suffixed one of its date. |
| `SparkleFeed.SuffixesOrder` | scripts/sparkle-build.ts:41-51 | On one date the version without suffix has the greatest build, a greater number at the end gives a greater build up to 89 and the same from there on, and other text counts as 1. |
| `SparkleFeed.NumbersAreLanes` | scripts/sparkle-build.ts:41-58 | Numbers below 90 are added as they are, and no suffix counts 90. |
| `SparkleFeed.FloorsAreSeparated` | scripts/release-check.ts:117-117 | A legacy floor is below the least lane build; a lane floor reaches it exactly from year 1000 on. |
| `SparkleFeed.ObservedAdoption` | scripts/release-check.ts:768-771 | The least date of a lane build, and none exactly if there is no lane build. |
| `SparkleFeed.CheckItems` | scripts/release-check.ts:743-766 | The first loop lists the builds that are missing or no numbers, in order, and the items to compare with floors. |
| `SparkleFeed.CheckFloors` | scripts/release-check.ts:777-787 | The second loop lists the builds below their floor, in order. |
| `SparkleFeed.CollectAppcastSparkleVersionErrors` | scripts/release-check.ts:733-790 | All errors in order, and none exactly for an acceptable feed. |
| `SparkleFeed.ErrorsAreExact` | scripts/release-check.ts:733-790 | An error is listed if and only if the feed deserves it: a build is below its floor, which is that of its lane exactly if it is a lane build, is dated on or after the official date, or on or after some lane build of the feed. |
| `SparkleFeed.AcceptedIff` | scripts/release-check.ts:733-790 | A feed is accepted if and only if it is not empty, all builds are numbers, and it changed from legacy to lane builds for good on some date not after the official one. |
| `SparkleFeed.LaneBuildsAreUpwardClosed` | scripts/release-check.ts:768-788 | In an accepted feed nothing dated on or after a lane build, or the official date, is a legacy build. |
| `SparkleFeed.CanonicalFeedIsAccepted` | scripts/release-check.ts:733-790 | Every non-empty feed of canonical builds is accepted. |
| `SparkleFeed.OrderDoesNotMatter` | scripts/release-check.ts:733-790 | Acceptance depends on the set of items alone. |

## Left out

- Process spawning, HTTP, the file system, git, npm and `gh`: they appear as events, scripts of replies, maps of files or function parameters.
- SHA-256, JSON and UTF-8: cache keys are injective in segment, text hash and locale; prompt replies and output lines arrive parsed; span names are decoded by a parameter.
- Prompt texts, progress output, delays between attempts and the glossary file of the translation sync.
- The order of the fallback list and of the memory file: the list is a set, and the memory may be written in any order.
- LocaleSyncLoop.Conclude: compares the values that files hold, not their formatted text.
- LocaleSyncLoop.SyncLocale: a run that the provider stops writes nothing, so that its outcome holds no files.
- BatchTranslation.Provider.Ask: creating the client, sending the prompt and parsing the reply are one lookup in a script of attempts; the protocol behind it is the subject of `PromptRun`.
- BatchTranslation.Provider.ResetClient: records that the client is retired; the closing itself is `PiRpcClient.CloseClient`.
- BatchPlanner.BuildTranslationBatches: takes the budget as an integer; a fractional budget acts as its floor, since all costs are whole.
- TranslationTree.FlattenTranslations: promises nothing for trees with empty or dotted keys, and names inherited from the object prototype do not occur.
- ProtoWire.ProtoReader.ReadVarint: computes with exact naturals, as the code does for values below 2^53 in at most 147 bytes; rounding of larger doubles, and the overflow of the scale in longer encodings, are not modelled.
- OtlpDecoder.DecodeAnyValue: a double is its eight bytes, and the choice among several kinds set at once (`normalizeOtlpValue`) is not modelled.
- OtlpTrace.DecodeTraceRequest: keeps a span's attributes as decoded, without turning them into a record; metrics and logs are not modelled.
- ImportClosure.CollectZodArtifactErrors: path operations are parameters, parsing of imports is an input, and the zod specifiers of a file are checked before its other imports are pushed, which changes no result.
- CommandRunner.VerdictIsExact: the log stream, the kill request and the shortened output in the error message are not modelled.
- RestartProbe.WaitForRestartProbe: takes the clock, the requests and the two callbacks as a trace; running out of ticks stands for the deadline.
- OutputLines.OutputBuffers.OnChunk: takes chunks as text cut between characters; the code decodes each chunk of bytes by itself, so a cut inside a multi-byte character is not modelled.
- SparkleFeed.CollectAppcastSparkleVersionErrors: starts from parsed items; extraction of tags and the version pattern are not modelled.
- The import-cycle checks, raw-copy detection, comment stripping, the Swift and shell generators, argument parsers, report printing, and the benchmarks other than the restart probe.
