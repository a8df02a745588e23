# Verified models of the repository's algorithms

These Dafny modules model the parts of the repository that hold state, loops and
arithmetic of their own, and prove what those parts are for. Everything the code gets from
outside (files, the translator, timers, schedulers, hashes, JSON) is a parameter, and the
theorems hold for every value of it that meets the assumptions listed below.

| part | modules |
|---|---|
| Translation sync of the control UI | `Tree`, `Rebuilding`, `Memory`, `Batching`, `Translating`, `Sync`, `SyncProofs`, `SyncFixpoint`, `SyncExact`, `SyncEdits`, `SyncReports`, `SyncTranslations` |
| Request/response client of the translator | `RpcClient`, `RpcClosed`, `AnswerStreams`, `Serving` |
| Quote-aware scanners and the pool of file readers | `Scanner`, `ReaderPool` |
| Worklists over graphs, common ancestor, relocating copy | `Reachability`, `ProcessTree`, `Paths`, `ImportGraph`, `ImportNames` |
| Build numbers and the feed check | `SparkleBuild`, `Appcast` |
| Session engine and prompt router | `Session`, `SessionResults`, `SessionResume`, `Router` |
| Names of schemas by identity and structure | `Schemas` |
| Strings, sorting, decimal numbers | `Text`, `Sorting`, `Decimal` |

Loops and objects keep the form they have in the source: a method with a loop, or a class
with the same fields, is proved equal to a function of its inputs or old state, and the
theorems are about that function. `SyncLocaleMethod` joins five parts: flattening, the key
loop that rewrites the memory it reads, batching, bisecting translation, and the fallback
loop with the metadata.

The main results:

* **A written sync is a fixpoint, exactly when** no source key starts with a dot or continues
  another one after a dot, and there is a provider or no two source keys tie under
  `localeCompare` (`FixpointExactly`, an if-and-only-if over the source, for all files).
  Under the first condition every later run repeats values and memory (`SyncIsFixpoint`,
  `LaterRunsAreQuiet`), and ties cost one extra report of a change at most
  (`ThirdRunIsStable`). Where the first condition fails, stored translations are lost (`KeyIsLost`).
  After an edit of the source, exactly the new keys with unknown texts are pending; a key
  whose text was edited keeps its old translation unless the new text is known (`EditedSourceExactly`,
  `EditedTextStays`).
* **A run writes exactly on a change with `--write`** and reports a change exactly if one of the
  four files is out of date (`RunReports`); apart from that the flags, `--force` included,
  change nothing (`FlagsOnlyWrite`).
* **Every key gets its own translation** (`ReturnsOwnTexts`, `ServedInOrder`): through retries,
  bisection and batches, each key left over ends with the text that the translator gave for
  it, in values and memory (`SyncDecides`).
* **Greedy batching is optimal** (`GreedyIsOptimal`).
* **The bisecting retry is bounded, and the bound is reached** (`BatchIsBounded`,
  `BoundIsReached`).
* **The client settles each prompt at most once** (`SettledOnce`). It resolves each by its own
  answer exactly if no answer strays (`OwnExactly`), and it does so in every interleaving
  exactly for the streams in which no translation answers a prompt answered before
  (`StreamIsSafeExactly`). Once closed, it never writes again (`ClosedForever`,
  `WritesExactly`). `translateBatch` never prompts a client whose chain is poisoned
  (`TranslateNeverPoisons`).
* **The two scanners agree**, and splitting inverts joining (`ScannersAgree`,
  `PiecesUnique`, `SplitOfJoin`).
* **Every schedule of the reader pool** ends with the sequential result (`EverySchedule`,
  `PoolTerminates`).
* **Which file a specifier means** is stated name by name (`ResolvesWithExtension`,
  `ResolvesWithoutExtension`).
* **A relocated import graph resolves the same, exactly when** no specifier that resolves
  climbs above the copy root on its way, and none leads to the root itself while the new
  directory has an extension (`ResolveRelocatesExactly`, `GraphRelocatesExactly`, for a copy
  under a fresh name). Both ways of failing are shown (`ByNameIsLost`,
  `DottedNameLosesIndex`). If unresolved specifiers are contained as well, the copy holds
  the closure of the copied entry (`ClosureRelocates`).
* **The common ancestor contains every path exactly unless the loop overshoots**
  (`CommonAncestorExact`): its test for a leading `../` misses a bare `..`
  (`ParentOvershoots`), which the script's only caller cannot bring about
  (`CallerNeverOvershoots`).
* **An error-free feed never mixes its numbering lanes** (`ErrorFreeExactly`, over the items of
  the feed; `ErrorsExactly` says which errors the others have).
* **Session history, turn gate and routing** (`SessionHistory`, `GateExactly`,
  `LeftOutRanksBelow`). Resuming is invisible with default settings (`ResumeContinues`); the
  gate survives it exactly for the settings of `VerdictSurvivesExactly` and
  `GateSurvivesExactly`.

## Assumptions

* sha256 has no collisions, and its digests are non-empty and hold no `|`.
* Each codec of a file reads back what it writes and writes a non-empty text; a locale module
  reads back as an object with the same flattened keys and texts, in any order. A rendered
  memory entry is one trimmed line. `formatGeneratedTypeScript` is part of the codec of the
  locale module.
* `localeCompare` is a total preorder. Ties are allowed unless a theorem says otherwise.
* `JSON.stringify` of stable schemas is injective.
* The copy goes to a directory in which no file exists, and no source file lies above the
  package root. Where a statement speaks of a fresh name, that name is no part of a
  specifier, does not end like a source file, and no source file beside the new directory
  bears it.
* Settings from the environment (provider, model, budget) are the same in compared runs.

Where a comment in the source and its code differ, the model follows the code. Python slices
with a window of zero or less are modelled as Python has them: `[-0:]` keeps the whole list.

## Model

| member | source | states |
|---|---|---|
| `SyncFixpoint.SyncIsFixpoint` | openclaw/scripts/control-ui-i18n.ts:1330-1579 | Provided no source key starts with a dot or continues another one after a dot: after a `--write` run, any further run with the same source and settings and any flags, translator and clock computes the same values and memory, leaves nothing pending and has the same set of fallback keys. With a provider, or if no two source keys tie in collation order, it reports no change and touches no file; otherwise it reports a change exactly when the fallback keys come in another order |
| `SyncFixpoint.SyncIsFixpointForTrees` | openclaw/scripts/control-ui-i18n.ts:1330-1579 | The same for every English tree with non-empty, dot-free keys and no empty subtree: same values, memory and metadata, nothing pending, `changed` false |
| `SyncFixpoint.LaterRunsAreQuiet` | openclaw/scripts/control-ui-i18n.ts:1330-1579 | Under those conditions, in every series of later runs none throws, finds anything pending, changes a file or computes other values, memory or metadata |
| `SyncFixpoint.ThirdRunIsStable` | openclaw/scripts/control-ui-i18n.ts:1330-1579 | Provided no source key starts with a dot or continues another one, ties or not: after two runs that write, the third finds no change |
| `SyncFixpoint.RerunRepeats` | openclaw/scripts/control-ui-i18n.ts:1337-1537 | Under the same condition on the keys, a run on the files that a settled state was written to finds the same values and memory, nothing pending, the fallback keys in source order, and a change exactly if their sorted list differs |
| `SyncFixpoint.SecondLoop` | openclaw/scripts/control-ui-i18n.ts:1356-1397 | The key loop on reloaded results reproduces every value, adds nothing to the memory, leaves nothing pending and lists the fallback keys in source order |
| `SyncFixpoint.ReloadFollows` | openclaw/scripts/control-ui-i18n.ts:1341-1349 | Under the same condition on the keys, what the next run loads from the four written files is what the last run computed |
| `SyncFixpoint.FinishAgain` | openclaw/scripts/control-ui-i18n.ts:1487-1537 | A run with the values and memory that the files hold reports `changed` exactly when its sorted fallback keys differ from the written ones |
| `SyncFixpoint.ReadsBackExactly` | openclaw/scripts/control-ui-i18n.ts:1482-1485 | The written locale file reads back as the computed values if and only if no source key starts with a dot and none continues another key after a dot |
| `SyncExact.FixpointExactly` | openclaw/scripts/control-ui-i18n.ts:1330-1579 | For any flags, clocks and translators of two runs, the first with `--write`: that the second leaves nothing pending whatever the files held before is equivalent to no source key starting with a dot or continuing another one; without a provider, so is that it repeats the values; and that it reports no change is equivalent to that together with a provider or no two source keys tying in collation order |
| `SyncExact.KeyIsLost` | openclaw/scripts/control-ui-i18n.ts:1337-1537 | Whenever the condition on the keys fails, a written module with all keys loses one of them: in the second run it is pending again and translated anew, with a new memory entry, or without a provider falls back to English; the run reports a change |
| `SyncExact.DottedKeyIsLost` | openclaw/scripts/control-ui-i18n.ts:324-351 | Two concrete runs: a stored translation of the key `.x` is replaced by English in the second |
| `SyncExact.TiesReorderFallback` | openclaw/scripts/control-ui-i18n.ts:1461-1504 | For any two source keys that tie there are files after which the first run lists them in one order and the second in the other, and so reports a change |
| `SyncExact.RunKeepsModule` | openclaw/scripts/control-ui-i18n.ts:1383-1389 | A run on nothing but a module with all keys computes the texts of that module |
| `SyncFixpoint.Coverage` | openclaw/scripts/control-ui-i18n.ts:1352-1494 | A run that does not throw gives values to exactly the source keys, lists only source keys as fallback, counts no negative `translatedKeys`, has no fallback with a provider, keeps every memory entry under its own `cache_key` and can reload the rendered memory to the same map |
| `SyncReports.RunReports` | openclaw/scripts/control-ui-i18n.ts:1523-1579 | Whatever the flags and files: `changed` is false exactly if all four current texts are the expected ones, `wrote` holds exactly for a change with `--write` and without `--check`, a run that writes leaves the expected texts (no memory file where there was none and nothing to store), and one that does not leaves every file as it was |
| `SyncReports.FlagsOnlyWrite` | openclaw/scripts/control-ui-i18n.ts:1330-1579 | Any two runs on the same files with different flags throw alike or compute the same values, memory, metadata and `changed`: the flags decide only whether the files are written, and a dry run foretells what `--write` does |
| `SyncReports.ForceIsInert` | openclaw/scripts/control-ui-i18n.ts:1461-1475 | `--force` never matters: no key with a text in the locale file reaches the fallback loop without a value |
| `SyncReports.MetaLaw` | openclaw/scripts/control-ui-i18n.ts:1487-1521 | The metadata of every run: the fallback keys are those of the run, once each and in order, `translatedKeys` counts the source keys that did not fall back, provider and model are the current ones or without a provider the previous ones, and `generatedAt` changes exactly when another field does |
| `SyncReports.LoadThrowsExactly` | openclaw/scripts/control-ui-i18n.ts:1341-1348 | Loading throws exactly if one of the files exists and cannot be read |
| `SyncTranslations.SyncDecides` | openclaw/scripts/control-ui-i18n.ts:1330-1475 | Every source key of every run that returns: value, fallback mark and memory entry by what the files as loaded call for; with a provider each key left over ends with the text that a successful attempt on that key was answered with, in the values and in a new memory entry with all its fields, and the successful attempts cover the keys left over once each, in source order |
| `SyncTranslations.ProviderGives` | openclaw/scripts/control-ui-i18n.ts:1399-1452 | The same for the batches of one run: each pending item has its own text, and none is lost, repeated or reordered |
| `SyncTranslations.PendingExactly` | openclaw/scripts/control-ui-i18n.ts:1356-1397 | The pending items are exactly the keys that the loaded files leave over, in source order |
| `SyncTranslations.SegmentKeyExactly` | openclaw/scripts/control-ui-i18n.ts:269-292 | Two segments share a memory entry if and only if they have the same key and their texts have the same words |
| `SyncTranslations.CacheKeyIdentifies` | openclaw/scripts/control-ui-i18n.ts:281-292 | Runs with another provider, model or locale never share a memory entry, as long as these names hold no bar |
| `SyncEdits.EditedSourceExactly` | openclaw/scripts/control-ui-i18n.ts:1330-1537 | After a written run, a run with any edited source has exactly those keys pending that are new and whose text has no usable memory entry; the others get their own memory entry, the entry of the text, or the value of before, in the order of the loop |
| `SyncEdits.EditedTextStays` | openclaw/scripts/control-ui-i18n.ts:1372-1389 | A key whose English text was edited keeps the translation of its old text and is not pending, unless its new text is already stored for it, or it was a fallback key and the new text is known |
| `SyncProofs.ComputeChooses` | openclaw/scripts/control-ui-i18n.ts:1356-1475 | Which value each key ends up with, stated on the loaded files alone: its own memory entry, else an entry of the same text, else the existing file, else translator or English |
| `SyncProofs.KeyLoopChooses` | openclaw/scripts/control-ui-i18n.ts:1356-1397 | Although the loop rewrites the memory it reads, no key's decision is influenced by another's |
| `SyncProofs.KeyLoopInv` | openclaw/scripts/control-ui-i18n.ts:1356-1397 | Every key is decided once: it has a value or is pending, not both; the memory stays sound and gains no new text hash |
| `SyncProofs.SegmentKeyInjective` | openclaw/scripts/control-ui-i18n.ts:269-292 | Two segments share a cache key only if key and normalised text agree, given a collision-free hash |
| `SyncProofs.StoreBatchLaw` | openclaw/scripts/control-ui-i18n.ts:1429-1448 | Storing a translated batch changes exactly the values and memory entries of its items |
| `SyncProofs.TranslateAllLaw` | openclaw/scripts/control-ui-i18n.ts:1421-1452 | The same for all batches of a run together |
| `SyncProofs.ProviderRun` | openclaw/scripts/control-ui-i18n.ts:1399-1475 | A provider run that does not throw leaves no fallback key: the fallback loop finds every pending key translated |
| `SyncProofs.FallbackSettles` | openclaw/scripts/control-ui-i18n.ts:1461-1475 | Without a provider, the fallback loop gives every pending key a value and leaves a state that a rerun reproduces |
| `SyncProofs.ComputeSettles` | openclaw/scripts/control-ui-i18n.ts:1356-1475 | Every run that does not throw ends in such a settled state |
| `SyncProofs.MemoryConserved` | openclaw/scripts/control-ui-i18n.ts:1372-1448 | A run changes memory entries only under the cache keys of source segments and removes none |
| `Sync.KeyLoopMethod` | openclaw/scripts/control-ui-i18n.ts:1356-1397 | The key loop, branch by branch, with its early `continue`s |
| `Sync.StoreBatchMethod` | openclaw/scripts/control-ui-i18n.ts:1429-1448 | The loop that stores a translated batch |
| `Sync.TranslatePending` | openclaw/scripts/control-ui-i18n.ts:1399-1452 | The loop over the batches, stopping at the first that throws |
| `Sync.FallbackMethod` | openclaw/scripts/control-ui-i18n.ts:1461-1475 | The fallback loop |
| `Sync.ComputeMethod` | openclaw/scripts/control-ui-i18n.ts:1349-1475 | The three loops in sequence |
| `Sync.SyncLocaleMethod` | openclaw/scripts/control-ui-i18n.ts:1330-1579 | The whole of `syncLocale`: loading, loops, metadata, rendering, comparison, writing |
| `Sync.FlattenTranslations` | openclaw/scripts/control-ui-i18n.ts:324-334 | The recursion that fills one shared map equals setting the flattened pairs in order |
| `Sync.BuildNextMap` | openclaw/scripts/control-ui-i18n.ts:1482-1485 | The loop that builds the object of the locale module |
| `Tree.FlattenIsPaths` | openclaw/scripts/control-ui-i18n.ts:324-334 | Flattening lists exactly the leaf paths, in order, under their dotted keys |
| `Tree.SetPathLaw` | openclaw/scripts/control-ui-i18n.ts:336-351 | After `setNestedValue` its path holds the text, paths above and below it hold none, every other path is as before |
| `Tree.RebuildRelabels` | openclaw/scripts/control-ui-i18n.ts:1482-1485 | Folding `setNestedValue` over the flattened keys gives the tree with the new leaf texts and nothing else changed, key order included |
| `Rebuilding.RebuildAnyOrder` | openclaw/scripts/control-ui-i18n.ts:1482-1485 | The same up to key order for every insertion order |
| `Rebuilding.RebuildKeepsAll` | openclaw/scripts/control-ui-i18n.ts:336-351 | With prefix-free paths no write undoes another |
| `Rebuilding.NoTextBelowText` | openclaw/scripts/control-ui-i18n.ts:324-334 | The paths that hold a text are prefix-free |
| `Rebuilding.FlatRoundTrip` | openclaw/scripts/control-ui-i18n.ts:324-351 | Flattening a rebuilt object gives the same map if and only if no key starts with a dot and none continues another |
| `Rebuilding.PlainIsRebuildable` | openclaw/scripts/control-ui-i18n.ts:324-334 | The flattened keys of an ordinary tree are distinct and meet that condition |
| `Memory.LoadTranslationMemory` | openclaw/scripts/control-ui-i18n.ts:419-438 | The loading loop; whatever the file holds, the loaded memory stores each entry under its own `cache_key` and holds no blank translation |
| `Memory.LoadThrows` | openclaw/scripts/control-ui-i18n.ts:432-436 | A line that cannot be read makes the whole load throw |
| `Memory.LoadsExactly` | openclaw/scripts/control-ui-i18n.ts:426-437 | Loading throws if and only if some line that is not blank cannot be parsed; otherwise a key holds the entry of the last line with that key and a translation that is not blank |
| `Memory.LoadRendered` | openclaw/scripts/control-ui-i18n.ts:419-448 | Loading a rendered memory gives back the same map, and rendering that gives the same text |
| `Memory.BuildTranslationMemoryByTextHash` | openclaw/scripts/control-ui-i18n.ts:450-462 | The loop that indexes usable entries by text hash |
| `Memory.TextHashesLaw` | openclaw/scripts/control-ui-i18n.ts:450-462 | The index has exactly the hashes of usable entries, each with an entry of that text |
| `Memory.LastEntryWins` | openclaw/scripts/control-ui-i18n.ts:455-460 | Of several usable entries with one text the last one is used |
| `Memory.IndexExactly` | openclaw/scripts/control-ui-i18n.ts:454-461 | The index holds for each hash the last entry of the locale with that hash and a translation that is not blank |
| `Memory.RendersExactly` | openclaw/scripts/control-ui-i18n.ts:440-448 | The rendered memory is empty for an empty map and otherwise has one line per entry, in the order of the keys, each line ended |
| `Batching.BuildTranslationBatches` | openclaw/scripts/control-ui-i18n.ts:993-1017 | The batching loop: non-empty batches within the limits that concatenate to the input, each but the last one saturated; batches of two or more items are within budget by `estimateBatchChars` as well |
| `Batching.GreedyIsOptimal` | openclaw/scripts/control-ui-i18n.ts:993-1017 | No order-preserving partition within the item and character limits (single items exempt from the latter) uses fewer batches |
| `Batching.EstimateBelowRunning` | openclaw/scripts/control-ui-i18n.ts:833-835 | The running cost of the loop exceeds the estimate by two characters for each item |
| `Batching.CountsExactly` | openclaw/scripts/control-ui-i18n.ts:833-835 | The estimate is two, the characters, and eight per item; the running cost of the loop ten per item |
| `Translating.ReturnsAllKeys` | openclaw/scripts/control-ui-i18n.ts:1259-1321 | For every translator, a returned map has exactly the keys of the batch, each with a non-blank text |
| `Translating.ReturnsOwnTexts` | openclaw/scripts/control-ui-i18n.ts:1272-1321 | For every translator, a returned map holds for each key the text that a successful attempt on that very key was answered with |
| `Translating.ServedInOrder` | openclaw/scripts/control-ui-i18n.ts:1272-1321 | However often a batch is retried and split, its successful attempts cover its items once each and in order |
| `Translating.AnswerAccepted` | openclaw/scripts/control-ui-i18n.ts:1276-1284 | An answer is accepted if and only if it has a text that is not blank for every item |
| `Translating.FirstMissingNamed` | openclaw/scripts/control-ui-i18n.ts:1279-1282 | Otherwise the error names the first item without one |
| `Translating.FirstSuccessEnds` | openclaw/scripts/control-ui-i18n.ts:1272-1286 | The first attempt that succeeds ends the batch |
| `Translating.GivesUpLate` | openclaw/scripts/control-ui-i18n.ts:1265-1323 | A batch throws only after a timeout on a single item or a second failure on the same items, neither being a timeout, and reports that last failure |
| `Translating.TimeoutExactly` | openclaw/scripts/control-ui-i18n.ts:807-809 | A timeout is an error whose message says `timed out` in any letter case |
| `Translating.BatchIsBounded` | openclaw/scripts/control-ui-i18n.ts:1259-1321 | For every translator, a batch of n items ends within 4n - 2 attempts (two for at most one item) at split depth at most ceil(log2 n) |
| `Translating.BoundIsReached` | openclaw/scripts/control-ui-i18n.ts:1259-1321 | For every non-empty batch some translator forces all 4n - 2 attempts |
| `Translating.CeilLog2IsLeast` | openclaw/scripts/control-ui-i18n.ts:1293-1308 | The depth bound is the least e with n <= 2^e |
| `Translating.FreshAfterFailure` | openclaw/scripts/control-ui-i18n.ts:1287-1289 | Every attempt after a failed one runs on a client that no earlier attempt used |
| `Translating.ReadAnswerLoop` | openclaw/scripts/control-ui-i18n.ts:1277-1284 | The loop that collects one non-blank string for each item or throws at the first missing one |
| `Translating.ReadAnswerThrows` | openclaw/scripts/control-ui-i18n.ts:1279-1282 | The first item without a usable answer decides the error |
| `Translating.ClientAccess.Try` | openclaw/scripts/control-ui-i18n.ts:1272-1289 | One attempt: client creation, reply, parsing, and the reset after a failure |
| `Translating.ClientAccess.GetClient` | openclaw/scripts/control-ui-i18n.ts:1407-1412 | A client is created only when there is none |
| `Translating.ClientAccess.ResetClient` | openclaw/scripts/control-ui-i18n.ts:1413-1419 | Forgets the client |
| `Translating.ClientAccess.Translate` | openclaw/scripts/control-ui-i18n.ts:1259-1321 | The retry loop with its bisection on timeouts |
| `Serving.TranslateNeverPoisons` | openclaw/scripts/control-ui-i18n.ts:1148-1321 | For every translator and whatever events its clients go through, `translateBatch` calls no prompt on a client on which a prompt was rejected, and a prompt that is rejected when its turn comes finds the client closed: no attempt is lost to a poisoned promise chain |
| `Serving.OnlyLastFails` | openclaw/scripts/control-ui-i18n.ts:1272-1289 | On each client only the last attempt may have failed |
| `RpcClient.RunInv` | openclaw/scripts/control-ui-i18n.ts:1061-1226 | In every interleaving at most one prompt is pending, it is the last one written, and exactly its timer and heartbeat are armed |
| `RpcClient.SettledOnce` | openclaw/scripts/control-ui-i18n.ts:1092-1226 | Over every run a settled prompt keeps its outcome, and after the first rejection no prompt is written |
| `RpcClient.SettledExactlyBy` | openclaw/scripts/control-ui-i18n.ts:1100-1208 | Which events settle the pending prompt and how: an iff over all events |
| `RpcClosed.ClosedExactly` | openclaw/scripts/control-ui-i18n.ts:1076-1081 | Over every run the client is closed if and only if the process closed, `close` was called or the pending prompt timed out: once closed it stays closed |
| `RpcClosed.ClosedForever` | openclaw/scripts/control-ui-i18n.ts:1149-1152 | Over every series of events after closing no request is made, no prompt becomes active, what has settled stays, and what was queued or is called later is still queued or rejected unwritten |
| `RpcClosed.TurnExactly` | openclaw/scripts/control-ui-i18n.ts:1149-1208 | The turn of a prompt: rejected unwritten, with nothing else changed, if the client is closed or an earlier prompt was rejected; otherwise written with the next number, its timer and its heartbeat |
| `RpcClosed.WritesExactly` | openclaw/scripts/control-ui-i18n.ts:1149-1208 | A request is made if and only if the turn comes of a prompt that an open client has queued behind resolved prompts only |
| `RpcClosed.ClosedDrains` | openclaw/scripts/control-ui-i18n.ts:1149-1152 | With nothing in flight, the callbacks still to run reject every queued prompt of a closed client and change nothing else |
| `RpcClosed.ReceivedExactly` | openclaw/scripts/control-ui-i18n.ts:1120-1136 | `responseReceived` of the pending prompt is set by exactly its own successful response and kept while it is in flight |
| `RpcClient.OwnExactly` | openclaw/scripts/control-ui-i18n.ts:1061-1226 | Over every run, all resolved prompts have their own answers if and only if no `agent_end` with a translation is read that answers another prompt than the pending one |
| `AnswerStreams.StreamIsSafeExactly` | openclaw/scripts/control-ui-i18n.ts:1100-1212 | For every stream of answers: however it interleaves with prompts, timers, failures and closing (no request being answered before it is written), every resolved prompt has its own answer, if and only if no translation in the stream answers a prompt that the stream has answered before |
| `RpcClient.NoCrossTalk` | openclaw/scripts/control-ui-i18n.ts:1100-1212 | If the peer answers written prompts in order and at most once, no prompt is resolved by another one's `agent_end` |
| `RpcClient.RepeatedAnswerCrosses` | openclaw/scripts/control-ui-i18n.ts:1135-1143 | A concrete run in which a repeated `agent_end` resolves the next prompt |
| `RpcClient.PiRpcClient.Prompt` | openclaw/scripts/control-ui-i18n.ts:1148-1149 | Queues a prompt on the promise chain |
| `RpcClient.PiRpcClient.RunNextJob` | openclaw/scripts/control-ui-i18n.ts:1149-1208 | The callback on the chain: writes the prompt, or rejects if the client is closed or the chain already rejected |
| `RpcClient.PiRpcClient.HandleStdoutLine` | openclaw/scripts/control-ui-i18n.ts:1100-1146 | The effect of one line of output on every field; on `null` the handler throws exactly while a prompt is pending, and changes nothing |
| `RpcClient.PiRpcClient.RejectCurrent` | openclaw/scripts/control-ui-i18n.ts:1092-1098 | Rejects the pending prompt, if any, and clears its timers |
| `RpcClient.PiRpcClient.OnTimer` | openclaw/scripts/control-ui-i18n.ts:1168-1180 | The timeout: rejects and closes only if its own prompt is pending |
| `RpcClient.PiRpcClient.OnWriteError` | openclaw/scripts/control-ui-i18n.ts:1197-1207 | A failed write rejects its own prompt |
| `RpcClient.PiRpcClient.OnProcessError` | openclaw/scripts/control-ui-i18n.ts:1072-1074 | A process error rejects the pending prompt |
| `RpcClient.PiRpcClient.OnProcessClose` | openclaw/scripts/control-ui-i18n.ts:1076-1081 | A closed process closes the client and rejects the pending prompt |
| `RpcClient.PiRpcClient.Close` | openclaw/scripts/control-ui-i18n.ts:1214-1225 | Marks the client closed |
| `Scanner.FindMatchingParen` | openclaw/scripts/check-temp-path-guardrails.ts:72-95 | Returns the one position that closes the parenthesis, or -1 exactly when there is none |
| `Scanner.SplitTopLevelArguments` | openclaw/scripts/check-temp-path-guardrails.ts:97-162 | The splitting loop returns the trimmed pieces between top-level commas, without a blank last one |
| `Scanner.PiecesUnique` | openclaw/scripts/check-temp-path-guardrails.ts:97-162 | The pieces are the only way to write the source as a comma-join of pieces without separating commas that end outside quotes and brackets |
| `Scanner.SplitOfJoin` | openclaw/scripts/check-temp-path-guardrails.ts:97-162 | Splitting a comma-joined list of trimmed, non-empty, balanced arguments without top-level commas gives that list |
| `Scanner.DepthIsNet` | openclaw/scripts/check-temp-path-guardrails.ts:115-150 | While no prefix closes more than it opens the clamp never fires and the depth is the net count |
| `Scanner.SplitterState` | openclaw/scripts/check-temp-path-guardrails.ts:97-162 | After any part of its source, separators included, the splitter is in the state that scanning that part leads to |
| `Scanner.ScannersAgree` | openclaw/scripts/check-temp-path-guardrails.ts:72-162 | Wherever the splitter stands in what `findMatchingParen` delimits, the two scanners agree on quote state and parenthesis depth; it ends the slice at depth 0 outside quotes and the parenthesis clamp never fires |
| `Scanner.SectionLasts` | openclaw/scripts/check-temp-path-guardrails.ts:46-70 | A quoted section opened by an apostrophe, quotation mark or backtick lasts while its mark occurs only behind an odd number of backslashes |
| `Scanner.SectionEnds` | openclaw/scripts/check-temp-path-guardrails.ts:54-70 | The first mark behind an even number of backslashes ends it |
| `Scanner.BracketCounts` | openclaw/scripts/check-temp-path-guardrails.ts:72-95 | Outside quotes exactly the three kinds of brackets count, each by one |
| `Scanner.SectionHidesBrackets` | openclaw/scripts/check-temp-path-guardrails.ts:72-95 | Inside a quoted section no bracket counts |
| `Scanner.ArgumentsExactly` | openclaw/scripts/check-temp-path-guardrails.ts:97-162 | Every piece is reported trimmed and in order, a blank one included unless it is the last |
| `Scanner.QuoteScanState.BeginQuotedSection` | openclaw/scripts/check-temp-path-guardrails.ts:46-52 | Opens a quoted section on a quote character |
| `Scanner.QuoteScanState.ConsumeQuotedChar` | openclaw/scripts/check-temp-path-guardrails.ts:54-70 | Consumes one character of a quoted section, with escapes |
| `ReaderPool.EverySchedule` | openclaw/scripts/check-temp-path-guardrails.ts:223-263 | Under every schedule each index is claimed once, in order, and a finished pool holds the sequential map-then-filter of the paths |
| `ReaderPool.ResultExactly` | openclaw/scripts/check-temp-path-guardrails.ts:223-263 | The result lists, in the order of the paths, exactly the files with a path that could be read, each under its relative path with its own text |
| `ReaderPool.AtMost24` | openclaw/scripts/check-temp-path-guardrails.ts:257-261 | Under every schedule the pool has 24 workers, or as many as there are paths if fewer, and at least one |
| `ReaderPool.PoolTerminates` | openclaw/scripts/check-temp-path-guardrails.ts:232-261 | No schedule of running workers lasts longer than 2n + workers steps |
| `ReaderPool.StepProgress` | openclaw/scripts/check-temp-path-guardrails.ts:233-254 | Each step of a running worker uses up some of that budget |
| `ReaderPool.Reader.RunWorker` | openclaw/scripts/check-temp-path-guardrails.ts:232-255 | One uninterrupted stretch of one worker |
| `ReaderPool.ReadRuntimeSourceFiles` | openclaw/scripts/check-temp-path-guardrails.ts:223-263 | Under an arbitrary scheduler the pool ends with the sequential result |
| `ProcessTree.ReadRows` | openclaw/scripts/bench-gateway-startup.ts:604-621 | The two maps filled from the process listing |
| `ProcessTree.CpuExactly` | openclaw/scripts/bench-gateway-startup.ts:604-616 | The time of a process is that of its last row with a usable time |
| `ProcessTree.ChildrenExactly` | openclaw/scripts/bench-gateway-startup.ts:604-633 | A process is a child of another if and only if some row with a usable time says so and its pid is not zero |
| `ProcessTree.ReadProcessTreeCpuMs` | openclaw/scripts/bench-gateway-startup.ts:592-641 | Ends on every listing, cycles and repeated rows included, with the CPU total over the least set that holds the root and the non-zero children of its members, each counted once; none for a zero or unlisted root |
| `Reachability.LeastUnique` | openclaw/scripts/bench-gateway-startup.ts:626-640 | The least closed set is unique, so the result above is determined |
| `ImportGraph.FirstFileWins` | openclaw/scripts/load-channel-config-surface.ts:106-115 | The first existing candidate is chosen, and nothing only if none exists |
| `ImportNames.ResolvesWithExtension` | openclaw/scripts/load-channel-config-surface.ts:89-115 | A specifier whose last name has an extension means the named file, or else the first of the stem with the eight extensions that exists, in the order of the script; nothing if and only if none of these exists |
| `ImportNames.ResolvesWithoutExtension` | openclaw/scripts/load-channel-config-surface.ts:89-115 | One without an extension means the named file, or else the first that exists of the name with an extension and the index file with that extension, for the eight extensions in turn; nothing if and only if none exists |
| `ImportNames.NameForms` | openclaw/scripts/load-channel-config-surface.ts:90 | Every name has exactly one extension or is plain: no dot but at the start |
| `ImportNames.ImportsExactly` | openclaw/scripts/load-channel-config-surface.ts:127-141 | The imports of a file are what its specifiers that start with a dot resolve to |
| `ImportNames.CompiledNameFindsSource` | openclaw/scripts/load-channel-config-surface.ts:92-96 | `./x.js` finds `x.ts` beside the importing file if `x.js` does not exist |
| `ImportNames.RelativeLeads` | openclaw/scripts/load-channel-config-surface.ts:181-182 | Walking along the relative path from one path to another leads there |
| `ImportGraph.CollectRelativeImportGraph` | openclaw/scripts/load-channel-config-surface.ts:117-144 | Throws exactly if the entry is missing; otherwise the least set that holds the entry and is closed under resolved relative imports |
| `ImportGraph.ResolveRelocatesExactly` | openclaw/scripts/load-channel-config-surface.ts:89-192 | In a copy under a fresh name with nothing of that name beside it, a specifier that resolves keeps its target, as an image, if and only if its walk never climbs above the copy root and, should it lead to the root itself, the name of the new directory has no extension (and the target is not a file with only an extension for its name, possible at the top of the file system) |
| `ImportGraph.GraphRelocatesExactly` | openclaw/scripts/load-channel-config-surface.ts:117-192 | All specifiers of the copied files that resolve keep their targets if and only if each meets that condition |
| `ImportGraph.RootRelocates` | openclaw/scripts/load-channel-config-surface.ts:89-104 | The root's index file is found in the copy exactly if the new name has no extension |
| `ImportGraph.DottedNameLosesIndex` | openclaw/scripts/load-channel-config-surface.ts:178-185 | A concrete package with a dot in its name: `mkdtemp` keeps the dot, and a specifier that never leaves the copy loses its index file |
| `ImportGraph.ByNameIsLost` | openclaw/scripts/load-channel-config-surface.ts:106-192 | A concrete package in which a specifier climbs out and comes back by name: its target is lost in the copy |
| `ImportGraph.BaseRelocates` | openclaw/scripts/load-channel-config-surface.ts:107-109 | The path that a specifier names, before candidates are tried, moves along if and only if the walk to it never climbs above the copy root, given roots of different names |
| `ImportGraph.CandidatesImage` | openclaw/scripts/load-channel-config-surface.ts:89-104 | The candidates in the copy are the images of the original candidates, in order |
| `ImportGraph.ResolveRelocates` | openclaw/scripts/load-channel-config-surface.ts:106-192 | Each contained specifier of a copied file resolves in the copy to the image of its original target, or to nothing in both |
| `ImportGraph.ClosureRelocates` | openclaw/scripts/load-channel-config-surface.ts:117-192 | Following imports in the copy from the copied entry finds exactly the copied files |
| `ImportGraph.TargetIsImage` | openclaw/scripts/load-channel-config-surface.ts:180-182 | Joining the relative path to the new root gives the image of the file |
| `ImportGraph.CopyAll` | openclaw/scripts/load-channel-config-surface.ts:180-185 | The copy loop puts each collected file at its image, and changes no other file |
| `ImportGraph.CopyModuleImportGraph` | openclaw/scripts/load-channel-config-surface.ts:165-192 | The whole: throws exactly if the module is missing, returns the image of the module, under a fresh name the specifiers that resolve keep their targets exactly under the condition above, and the copy holds the closure if all specifiers are contained |
| `Paths.Climb` | openclaw/scripts/load-channel-config-surface.ts:153-161 | The inner loop climbs to the candidate's stopping length |
| `Paths.ResolveCommonAncestor` | openclaw/scripts/load-channel-config-surface.ts:146-163 | Throws on an empty list; otherwise the prefix of the first path with the least stopping length |
| `Paths.CommonAncestorExact` | openclaw/scripts/load-channel-config-surface.ts:146-163 | The result contains every path if and only if the loop does not stop one segment below a proper ancestor of the first path; every common ancestor is a prefix of it |
| `Paths.CommonAncestorDeepest` | openclaw/scripts/load-channel-config-surface.ts:146-163 | Without a later path properly above the first one, the result is the deepest directory that contains every path |
| `Paths.ParentOvershoots` | openclaw/scripts/load-channel-config-surface.ts:152-161 | For every path but the root: with its own parent as a later path the loop does not climb, and the result does not contain the parent |
| `ImportGraph.CallerNeverOvershoots` | openclaw/scripts/load-channel-config-surface.ts:172-174 | The script's only call never overshoots, so its result contains all files and the package root |
| `Paths.OutsideMeans` | openclaw/scripts/load-channel-config-surface.ts:154 | The test for a leading `../` in terms of common prefixes |
| `SparkleBuild.FloorsArithmetic` | openclaw/scripts/sparkle-build.ts:37-52 | The numbers read from concatenated digits are the arithmetic ones |
| `SparkleBuild.LaneFloorsEmbedVersions` | openclaw/scripts/sparkle-build.ts:14-53 | Lane floors compare exactly as (year, month, day, lane) and decode back to them |
| `SparkleBuild.LanesDisjoint` | openclaw/scripts/release-check.ts:118-119 | Legacy floors lie below 1,000,000,000; lane floors reach it exactly from the year 1000 on |
| `SparkleBuild.SuffixStaysBelow` | openclaw/scripts/sparkle-build.ts:40-49 | Lane 90 belongs to versions without a suffix and to no other |
| `SparkleBuild.ReadsWhatIsWritten` | openclaw/scripts/sparkle-build.ts:12-35 | A version that is written out reads back as its year, month, day and lane |
| `SparkleBuild.ReadsOnlyWritten` | openclaw/scripts/sparkle-build.ts:12-35 | Nothing else is read |
| `SparkleBuild.LaneIsNumber` | openclaw/scripts/sparkle-build.ts:40-49 | The lane of a suffix is the number at its end, at most 89, or 1 without a number |
| `Appcast.CheckShape` | openclaw/scripts/release-check.ts:734-757 | The checks of one item |
| `Appcast.CheckShapes` | openclaw/scripts/release-check.ts:734-757 | The first loop |
| `Appcast.CheckFloors` | openclaw/scripts/release-check.ts:768-778 | The second loop |
| `Appcast.CollectAppcastSparkleVersionErrors` | openclaw/scripts/release-check.ts:724-781 | The errors, in the order the script reports them |
| `Appcast.EffectiveKeyLaw` | openclaw/scripts/release-check.ts:759-766 | The adoption date is the least of the fixed date and the dates of lane-numbered items |
| `Appcast.CheckedAlone` | openclaw/scripts/release-check.ts:734-757 | An item is checked, with its own number and floors, if and only if its version is numeric and its short version has the calendar form |
| `Appcast.AdoptionKeyExactly` | openclaw/scripts/release-check.ts:759-766 | The date from which lane floors apply is the least of the fixed date and the dates of the feed's items that are numbered in the lane |
| `Appcast.ErrorsExactly` | openclaw/scripts/release-check.ts:724-781 | Which errors a feed has, over its items: one for no items, for a missing and for a non-numeric version, and for each dated item below its floor, which is the lane floor if it is numbered in the lane or dated from that date on |
| `Appcast.ErrorFreeExactly` | openclaw/scripts/release-check.ts:724-781 | A feed of four-digit years has no errors if and only if it has items, all versions are numeric, every dated item numbered below 1,000,000,000 is dated strictly before every lane-numbered item and before the fixed date, and every dated item reaches the floor of the lane it is numbered in |
| `Appcast.ErrorsIgnoreOrder` | openclaw/scripts/release-check.ts:724-781 | Reordering the feed reports the same errors |
| `Appcast.LaneFloorIsSafe` | openclaw/scripts/release-check.ts:768-778 | Whoever reaches the lane floor is never reported as too low, whatever else the feed holds |
| `Session.TranscriptStore.Append` | src/transcript.py:11-13 | Adds an entry and marks the store unflushed |
| `Session.TranscriptStore.Compact` | src/transcript.py:15-17 | Keeps the last entries, with Python's slices for zero and negative windows |
| `Session.TranscriptStore.Flush` | src/transcript.py:22-23 | Marks the store flushed |
| `Session.QueryEnginePort.SubmitMessage` | src/query_engine.py:61-104 | One turn: result and whole new state |
| `Session.QueryEnginePort.CompactMessagesIfNeeded` | src/query_engine.py:129-132 | Compacts messages and transcript alike |
| `Session.QueryEnginePort.PersistSession` | src/query_engine.py:140-150 | Flushes and returns what is stored |
| `Session.QueryEnginePort.FromSaved` | src/query_engine.py:49-59 | The engine that resumes a stored session |
| `Session.SessionHistory` | src/query_engine.py:61-132 | Over every session, messages equal transcript entries and are the window of accepted prompts, usage is the sum of the word counts, denials are those of the accepted requests |
| `Session.GateExactly` | src/query_engine.py:68-78 | Which prompts are accepted, for every setting: exactly the first `max_turns` if the window keeps that many; all with a smaller positive or a negative window and a positive limit; none with a limit of zero or less, or if formatting always raises |
| `Session.RefusedForever` | src/query_engine.py:68-78 | Once the gate closes, no series of further submissions changes any field |
| `Session.OverBudgetForever` | src/query_engine.py:87-95 | Once the budget is exceeded, no later turn of any series is reported as completed |
| `Session.PlainOutputWords` | src/models.py:33-37 | A plain output costs eight words plus those of the prompt and the names, so each accepted turn pays for its prompt twice |
| `SessionResults.ResultEchoes` | src/query_engine.py:61-104 | Every result shows prompt, commands, tools and denials of its own request and the usage after it |
| `SessionResults.PlainOutputLines` | src/query_engine.py:80-85 | A plain output has four lines: prompt, commands, tools and the number of denials |
| `SessionResults.ListsNames` | src/query_engine.py:82-83 | Splitting a list of names at its commas gives back the names |
| `SessionResults.KeepLastExactly` | src/transcript.py:15-17 | Compacting keeps an end of the list: `k` elements, all for zero, all but the first `-k` for a negative window |
| `Session.ResumeRestores` | src/session_store.py:27-35 | Resuming a stored session restores messages, usage and identity, with a flushed transcript that agrees with the messages |
| `Session.ResumeContinues` | src/query_engine.py:49-104 | With default settings, storing and resuming at any point of a session changes the result of no later turn |
| `SessionResume.VerdictSurvivesExactly` | src/query_engine.py:49-68 | Settings are not stored. For every setting: at every point of a session the resumed engine gives the same verdict on the next prompt, if and only if the turn limit is positive and either it is 8, or formatting always raises, or the window is negative or smaller than both limits |
| `SessionResume.GateSurvivesExactly` | src/query_engine.py:49-132 | For every setting: resuming at any point changes no later verdict of the gate, if and only if the turn limit is 8, the window does not hide accepted prompts from the gate, and formatting does not always raise |
| `Session.TakeTurn` | src/runtime.py:161-164 | One turn of the loop |
| `Session.RunTurnLoop` | src/runtime.py:154-167 | At most `max_turns` results, each the engine's answer to its turn, none `max_turns_reached`; fewer only if the last one exceeds the budget |
| `SessionResults.LoopEchoes` | src/runtime.py:161-167 | Turn i of the loop answers the prompt, numbered from the second turn on, with the routed names |
| `Router.ScoreLoop` | src/runtime.py:185-192 | The score is the number of tokens found, in whatever order the set is traversed |
| `Router.CollectMatches` | src/runtime.py:176-183 | The modules with a positive score, stably sorted by score and name |
| `Router.HitsExactly` | src/runtime.py:185-192 | A token hits a module if and only if it occurs in its name, source or responsibility, in lower case |
| `Router.TokensAround` | src/runtime.py:91 | White space, slashes and dashes separate tokens |
| `Router.MatchesExactly` | src/runtime.py:176-182 | The matches are the modules that some token hits, with the number of tokens that do |
| `Sorting.SortStable` | src/runtime.py:182 | Elements that tie keep their order |
| `Router.RoutePrompt` | src/runtime.py:90-107 | The entries selected for a prompt |
| `Router.RouteIsPrefix` | src/runtime.py:97-107 | The selection is a prefix of one line: the heads, then the leftovers by rank, each match once |
| `Router.RouteDraws` | src/runtime.py:97-107 | For a limit of at least 0: min(limit, matches) entries, a sub-multiset of the matches |
| `Router.BestOfEachKind` | src/runtime.py:97-100 | With both kinds matching and a limit of at least 2, the best command and the best tool come first |
| `Router.BothKindsRouted` | src/runtime.py:90-107 | For a prompt that hits a command and a tool, with a limit of at least 2, the first entry is a command and the second a tool, and no module of either kind scores higher |
| `Router.LeftOutRanksBelow` | src/runtime.py:102-107 | No match left out ranks above a leftover that is taken, by (-score, kind, name) |
| `Router.LeftoversInOrder` | src/runtime.py:102-107 | The leftovers taken come by descending score, commands before tools, then by name, and nothing left out comes before one of them |
| `Router.BestComeFirst` | src/runtime.py:97-100 | No command comes before the first entry in that order, no tool before the second |
| `Router.NegativeLimit` | src/runtime.py:106-107 | A limit of -1 leaves the best command alone if both kinds match; below that, or with one kind only, a negative limit leaves nothing |
| `Schemas.StableDecidesSame` | openclaw/scripts/protocol-gen-swift.ts:89-102 | Stable forms are equal if and only if the values are equal up to the order of object keys at any depth |
| `Schemas.RegistryCounts` | openclaw/scripts/protocol-gen-swift.ts:108-120 | Over every series of registrations, a signature names a schema exactly when one registration has it and is set aside exactly when several do |
| `Schemas.StructuralLookup` | openclaw/scripts/protocol-gen-swift.ts:122-127 | Structural lookup gives a name exactly when one and only one registered schema equals the asked one up to key order, and then its name |
| `Schemas.ByIdentity` | openclaw/scripts/protocol-gen-swift.ts:122-127 | Lookup by identity gives the name registered last for that object |
| `Schemas.NamedByIdentity` | openclaw/scripts/protocol-gen-swift.ts:122-127 | A registered object has the name given last, with structural lookup or without |
| `Schemas.UnregisteredHasNoName` | openclaw/scripts/protocol-gen-swift.ts:122-127 | Any other object has no name without structural lookup |
| `Schemas.SchemaNames.RegisterNamedSchema` | openclaw/scripts/protocol-gen-swift.ts:108-120 | The effect of one registration on the two maps and the set |

## Left out

- Sync.BuildNextMap: rebuilds objects as values, so that neither the update in place nor sharing of nested objects is captured; keys that JavaScript finds on `Object.prototype` behave as ordinary keys, and integer-like keys are rendered where they were set.
- Translating.ClientAccess.Translate: log messages, labels and the delays between attempts are not modelled, and closing a client only forgets it.
- RpcClient.PiRpcClient.HandleStdoutLine: lines are classified by what the switch looks at; that Node ends the process when the handler throws, which nothing catches, is not modelled.
- RpcClient.PiRpcClient.Close: ending the input and the signals to the process are not modelled; their effect arrives as a process event.
- RpcClient.PiRpcClient.OnTimer: only the order of events counts, not how long a timer takes; the second signal that `close` may send is not modelled.
- Sync.SyncLocaleMethod: metadata files are complete records or fail to load; a record with missing fields is not modelled. `FileText` of a file that does not exist is the empty text, as in the source.
- Scanner.SplitTopLevelArguments: works on UTF-16 code units as characters; the searches that call it are regular expressions and are not modelled.
- ReaderPool.ReadRuntimeSourceFiles: a worker runs without interruption between two awaits, as in a JavaScript event loop; a read that never returns is not modelled.
- ProcessTree.ReadProcessTreeCpuMs: starts from the parsed listing; the text of `ps` and its time format, the platform test and a failing `ps` are not modelled.
- ImportGraph.CollectRelativeImportGraph: the specifiers of each file are given; the pattern that finds them is not modelled.
- ImportGraph.CopyModuleImportGraph: creating directories, and `cleanup`, are not modelled.
- Appcast.CollectAppcastSparkleVersionErrors: the items of the feed and their tags are given, and numbers above 2^53 are compared exactly.
- Session.QueryEnginePort.PersistSession: the file and its JSON are not modelled; the stored record itself is returned.
- Schemas.StableDecidesSame: keys are sorted by UTF-16 code units; integer-like keys, which JavaScript puts first, are treated as other keys. They come first in both forms, so that the equivalence is not affected.
- The paging generator in `openclaw/scripts/label-open-issues.ts`: cutting a stream of pages into batches of 500 would add only an easy concatenation property.
- Rendering of translation modules, prompts, reports and Swift code; argument parsing; HTTP, processes, git and npm.
- Statistics over measured times (medians and percentiles): arithmetic on floating-point numbers.
- `stream_submit_message` and `bootstrap_session`: they wrap the modelled operations.
