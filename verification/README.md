# FerricStore native layer: models and proofs

A Dafny model of the native (Rust) layer of FerricStore and proofs about it. The model
follows the code's branches, constants and error cases; where the code updates fields,
arrays or counters in place the model is a class or a method with loops, proved against
specification functions.

What is modelled, by group:

* **Crash-safe sidecars** (`Receipt`, `AfterImages`, `SidecarProtocol`, `SidecarSafety`,
  `SidecarTheorems`, `SidecarLimits`, `SidecarCrashes`, `SidecarLosses`, `SidecarGates`,
  `SidecarTears`, `SidecarFile`): the receipt codec, and the
  receipt / after-image / footer protocol as a state machine with a step per write, publish,
  rename, fsync, decision, abandoned operation and power loss; what every run guarantees, and the
  exact conditions under which it does.
* **Sketches on that protocol** (`IndexedHeap`, `CountMin`, `Counters`, `TopK*`, `Cms*`,
  `Bloom*`): in-memory staging, the guarantees over a key's whole life, and the file images.
  `SidecarSketches`, `SketchMutations`, `SketchGates`, `SketchGuarantees` and `SketchReplies` put
  both together: which files are opened after a power loss, what a recovered file reads as, which
  promises it still keeps and what a replay answers.
* **The Flow index** (`Score`, `FlowOrder`, `FlowLookup`, `FlowIndex`, `FlowClaims`, `FlowScan`,
  `FlowPaging`, `FlowDue`, `DueMerge`, `FlowReads`, `FlowKeys`) and the **Flow record** (`Varint`,
  `Bits`, `Decimals`, `FlowRecord`, `ClaimChain`, `FlowTag`).
* **The WAL worker** (`AlignedBuffer`, `WalDrain`, `WalProtocol`, `WalSafety`, `WalAnswers`).
* **Smaller cores**: the Raft command compactor (`RaftCodec`, `RaftCodecLoops`,
  `RaftTerms`), the bounded prefix merge (`PrefixMerge`), blocking admission (`Admission`).

Parameters and assumptions:

* Hash functions (FNV, xxh3), CRC32 and the Raft dictionary are arbitrary functions or values;
  the dictionary only has to fit its references and, for the statements over terms, to hold whole
  terms, as the released one does (`ReleasedTermIsWhole`).
* Disk: publishing a receipt is atomic and durable; data writes reach the disk in issue order,
  a power loss keeps a prefix of the unsynced ones and may tear the next, except the 16-byte
  footer; promoting a receipt is one rename. `Setting.ordered` says whether a durable publish
  also makes earlier data writes durable.
* Scores are f64 values other than NaN, as signed magnitudes; the two zeros are one score.
* Clocks, waiting and thread scheduling are nondeterministic steps; locks make the steps that
  hold them atomic. A WAL writer that reports more bytes than it was given wrote none of them.
* A byte string has fewer than 2^64 - 1 bytes, and no index key has 2^63 members.

Four properties do not hold without a condition, and the project gives the exact one.

* Exactly-once needs images that end at or below the footer, which the code does not check. One
  byte more is enough to lose a mutation (`FooterImageLosesMutation`), so the footer is the exact
  bound (`FooterIsTheBound`). All three sketches keep to it (`CmsRealizes`, `BloomRealizes`,
  `TopKRealizes`).
* Recovery skips the fsync when the footer already equals the receipt's token, so a later publish
  may find unsynced data writes. Unless the disk makes them durable with the publish, a mutation
  can be lost (`UnorderedPublishLosesMutation`). A run can be recovered at every moment if and only
  if each publish was harmless: every file a power loss could have left before it is the visible
  file wherever the published images do not write (`LosslessExactly`; for the two kinds of publish
  `StagingIsExact` and `CompactionIsExact`). A publish over an ordering disk or with nothing
  unsynced is harmless (`SettledPublishesAreHarmless`), and so are all publishes of a run in which
  no operation is abandoned with data writes pending (`SettledRunIsHarmless`).
* Every entry reads and checks the sketch's header before it calls recovery. The Bloom count and
  the TopK heap length are header fields that a batch overwrites, and a torn write of one can leave
  a number that the check refuses: then recovery never sees the receipt
  (`BloomTornCountIsRefused`, `TopKTornLengthIsRefused`), and the file stays refused
  (`RefusedStaysRefused`). Whatever a power loss leaves at any moment of a run is opened if and only
  if at no moment an unsynced write, torn at its worst, could take the field above its limit
  (`BloomOpensThroughout`, `TopKOpensThroughout`); for whole writes of the field that is, if and only
  if none of them is unsynced (`BloomOpensExactly`, `TopKOpensExactly`). Tears that keep a prefix of
  the new bytes are always opened, because both fields only grow and are little-endian
  (`BloomOpensAfterPrefixTears`, `TopKOpensAfterPrefixTears`). A CMS header has no such field
  (`CmsAlwaysOpens`). The machine's runs include those in which recovery is entered past a refusal;
  a refusal itself is a failed operation that leaves the disk alone.
* The CMS row-sum law fails for negative increments that would take the total below zero, and
  only for those (`ConservedExactly`). The transactional entry `cms_file_incrby_at` admits negative
  increments (`apps/ferricstore/lib/ferricstore/bitcask/nif.ex:1154-1160`); the guard against them
  is the command layer's check that every count is positive
  (`apps/ferricstore/lib/ferricstore/commands/cms.ex:452`).

## Model

| member | source | states |
|---|---|---|
| Receipt.TokenRoundTrip | apps/ferricstore/native/ferricstore_bitcask/src/prob_txn.rs:46-62 | a decoded token is the encoded one |
| Receipt.TokenCanonical | apps/ferricstore/native/ferricstore_bitcask/src/prob_txn.rs:53-62 | 16 bytes that decode are the encoding of what they decode to |
| Receipt.TokenOrder | apps/ferricstore/native/ferricstore_bitcask/src/prob_txn.rs:28-32 | tokens are ordered like the 128-bit numbers with the index as high and the ordinal as low half |
| Receipt.ReceiptRoundTrip | apps/ferricstore/native/ferricstore_bitcask/src/prob_txn.rs:284-332 | every transaction the encoder accepts decodes to itself: token, layout, images and result |
| Receipt.ReceiptCanonical | apps/ferricstore/native/ferricstore_bitcask/src/prob_txn.rs:421-483 | bytes that decode are exactly the encoding of the decoded transaction, so a receipt determines its bytes |
| Receipt.ImagesRoundTrip | apps/ferricstore/native/ferricstore_bitcask/src/prob_txn.rs:318-324 | a list of after-images survives encoding, whatever bytes follow it |
| Receipt.ImagesCanonical | apps/ferricstore/native/ferricstore_bitcask/src/prob_txn.rs:452-465 | parsed image bytes are the encoding of the parsed images |
| Receipt.DecodeTransaction | apps/ferricstore/native/ferricstore_bitcask/src/prob_txn.rs:421-483 | the cursor decoder returns what the specification decodes, and refuses exactly what it refuses |
| Receipt.ReadImages | apps/ferricstore/native/ferricstore_bitcask/src/prob_txn.rs:452-465 | the image loop consumes exactly the images the header announces |
| AfterImages.ApplyDependsOnUncovered | apps/ferricstore/native/ferricstore_bitcask/src/prob_txn.rs:247-257 | redoing all images forgets every byte they cover, so a torn or partial earlier attempt does not matter |
| AfterImages.ApplyKeepsUncovered | apps/ferricstore/native/ferricstore_bitcask/src/prob_txn.rs:247-257 | a byte no image covers keeps its value |
| SidecarTheorems.ExactlyOnce | apps/ferricstore/native/ferricstore_bitcask/src/prob_txn.rs:125-257 | for every run with replays, abandoned operations, crashes between any two writes and crashes inside recovery, whose committed images keep below the footer and whose publishes are harmless: recovering any file a power loss can leave gives each committed mutation executed exactly once, in token order, under the last token; the numbers of the tokens, index high and ordinal low, rise along the log |
| SidecarTheorems.RunIsSafe | apps/ferricstore/native/ferricstore_bitcask/src/prob_txn.rs:125-257 | the protocol invariant holds in every state of such a run |
| SidecarTheorems.ReceiptLeads | apps/ferricstore/native/ferricstore_bitcask/src/prob_txn.rs:197-245 | recovery accepts every receipt the protocol leaves; the receipt token is never below the footer, and an image-free receipt means the footer has reached it |
| SidecarTheorems.RepliesAgree | apps/ferricstore/native/ferricstore_bitcask/src/prob_txn.rs:145-168 | every answer that carries a result for a token, first execution or replay, carries the same result |
| SidecarTheorems.DecisionIsRight | apps/ferricstore/native/ferricstore_bitcask/src/prob_txn.rs:125-168 | a token is applied if and only if its number (index high, ordinal low) exceeds those of all committed mutations, replayed only with its own result, and a token from effective_token is always applied |
| SidecarLimits.LosslessExactly | apps/ferricstore/native/ferricstore_bitcask/src/prob_txn.rs:125-257 | a run is recoverable at every moment if and only if each of its publishes was harmless |
| SidecarLimits.PublishIsExact | apps/ferricstore/native/ferricstore_bitcask/src/prob_txn.rs:170-245 | from any safe state a publish leaves every survivor recoverable if and only if each is the visible file wherever the published images do not write |
| SidecarLimits.StagingIsExact | apps/ferricstore/native/ferricstore_bitcask/src/prob_txn.rs:170-193 | publishing the receipt of a new mutation keeps all survivors repairable if and only if each agrees with the visible file on every byte its images do not cover |
| SidecarLimits.CompactionIsExact | apps/ferricstore/native/ferricstore_bitcask/src/prob_txn.rs:225-245 | publishing a compacted receipt keeps all survivors repairable if and only if each is the visible file |
| SidecarLimits.SettledPublishesAreHarmless | apps/ferricstore/native/ferricstore_bitcask/src/prob_txn.rs:197-223 | publishes that find an ordering disk or nothing unsynced are harmless |
| SidecarLimits.SettledRunIsHarmless | apps/ferricstore/native/ferricstore_bitcask/src/prob_txn.rs:247-257 | on any disk, a run in which no operation is abandoned with data writes pending publishes only over synced files |
| SidecarLosses.UnorderedPublishLosesMutation | apps/ferricstore/native/ferricstore_bitcask/src/prob_txn.rs:197-223 | counterexample: recovery does not fsync when the footer already equals the token, so after an abandoned commit a publish that does not order earlier data writes loses a committed mutation |
| SidecarLosses.FooterImageLosesMutation | apps/ferricstore/native/ferricstore_bitcask/src/prob_txn.rs:492-508 | counterexample on every layout: image validation admits an image one byte into the footer; in a run that loses power after that image recovery takes the file for complete, with the body before the mutation |
| SidecarLosses.FooterIsTheBound | apps/ferricstore/native/ferricstore_bitcask/src/prob_txn.rs:492-508 | for every bound: committed images that end at or below it are exactly-once across all crashes of all runs if and only if it is at or below the footer |
| SidecarGates.OpensExactly | apps/ferricstore/native/ferricstore_bitcask/src/prob_txn.rs:103-118 | behind any header check on one field: every file a power loss can leave is opened if and only if the durable field is within the limit and no unsynced write, torn at its worst, takes it above |
| SidecarGates.OpensThroughout | apps/ferricstore/native/ferricstore_bitcask/src/prob_txn.rs:103-118 | the same over every moment of every run whose mutations write no other header byte |
| SidecarGates.WholeWritesAreLoud | apps/ferricstore/native/ferricstore_bitcask/src/prob_txn.rs:247-257 | if the field can hold more than its limit, whole writes of it are safe from refusal if and only if none is unsynced |
| SidecarGates.TornFieldIsRefused | apps/ferricstore/native/ferricstore_bitcask/src/prob_txn.rs:247-257 | counterexample for every such mutation: a run that loses power while the field is written and leaves a file that is refused |
| SidecarGates.RefusedStaysRefused | apps/ferricstore/native/ferricstore_bitcask/src/prob_txn.rs:103-118 | a refused file stays as it is and refused, whatever is asked of it |
| SidecarTears.PrefixTearsAreOpened | apps/ferricstore/native/ferricstore_bitcask/src/prob_txn.rs:247-257 | in every run whose power losses keep a prefix of the write they tear, a growing field never exceeds its committed value, so the file is opened |
| SidecarTears.MixBelow | apps/ferricstore/native/ferricstore_bitcask/src/prob_txn.rs:247-257 | a prefix of the little-endian bytes of a larger number over a smaller one is at most the larger |
| SidecarSafety.StepKeeps | apps/ferricstore/native/ferricstore_bitcask/src/prob_txn.rs:125-257 | each step of the protocol, including an abandoned write and a power loss, keeps the invariant, a publish if it is harmless |
| SidecarSafety.ReadsKeeps | apps/ferricstore/native/ferricstore_bitcask/src/prob_txn.rs:361-397 | reading the receipt, at either path, finds the last logged mutation or none |
| SidecarSafety.RedoesKeeps | apps/ferricstore/native/ferricstore_bitcask/src/prob_txn.rs:247-257 | each redo write keeps every file a power loss could leave repairable |
| SidecarSafety.PromotesKeeps | apps/ferricstore/native/ferricstore_bitcask/src/prob_txn.rs:346-359 | promoting a pending receipt keeps the invariant |
| SidecarSafety.TidiesAfterRecoveryKeeps | apps/ferricstore/native/ferricstore_bitcask/src/prob_txn.rs:225-245 | a harmless compaction of a receipt never forgets images that are still needed |
| SidecarSafety.StagesKeeps | apps/ferricstore/native/ferricstore_bitcask/src/prob_txn.rs:170-193 | a harmless publish of a receipt logs the mutation and makes every survivable file lead to its result |
| SidecarSafety.CommitsKeeps | apps/ferricstore/native/ferricstore_bitcask/src/prob_txn.rs:247-257 | each image write and the final fsync keep the invariant |
| SidecarSafety.LosesPowerKeeps | apps/ferricstore/native/ferricstore_bitcask/src/prob_txn.rs:197-223 | a power loss leaves a file from which recovery still reaches the last committed body |
| SidecarFile.Sidecar.ApplyTransaction | apps/ferricstore/native/ferricstore_bitcask/src/prob_txn.rs:247-257 | the write loop leaves exactly the file with all images applied in order |
| SidecarFile.Sidecar.Recover | apps/ferricstore/native/ferricstore_bitcask/src/prob_txn.rs:197-223 | succeeds exactly for a sound layout and a readable receipt of this file; then the file is the recovered one, otherwise nothing has changed |
| SidecarFile.Sidecar.CompactIfLarge | apps/ferricstore/native/ferricstore_bitcask/src/prob_txn.rs:225-245 | the receipt keeps its token and result, and loses its images only above the threshold |
| SidecarFile.Sidecar.EffectiveToken | apps/ferricstore/native/ferricstore_bitcask/src/prob_txn.rs:125-143 | a log-less token is one index above the footer of the recovered file with an ordinal of at least one, an error exactly if recovery fails or the index would overflow; any other token is returned as it is |
| SidecarFile.Sidecar.Begin | apps/ferricstore/native/ferricstore_bitcask/src/prob_txn.rs:145-168 | errs exactly when recovery does, changing nothing; otherwise Apply, exactly if the number of the token (index high, ordinal low) exceeds that of the recovered footer, Replay or out of date |
| SidecarFile.Sidecar.Commit | apps/ferricstore/native/ferricstore_bitcask/src/prob_txn.rs:170-195 | the new file holds the images and the footer token, and the receipt decodes to this transaction |
| SidecarFile.FooterWrittenLast | apps/ferricstore/native/ferricstore_bitcask/src/prob_txn.rs:182 | once its last image is written a commitment has the new token as footer and the planned body |
| SidecarFile.FooterUntilLast | apps/ferricstore/native/ferricstore_bitcask/src/prob_txn.rs:182-192 | as long as only images below the footer have been written, however many, the footer token is as it was |
| SidecarSketches.LogWasStaged | apps/ferricstore/native/ferricstore_bitcask/src/prob_txn.rs:170-193 | over every run each committed mutation was staged from the body its predecessors left |
| SidecarSketches.SketchSurvivesCrashes | apps/ferricstore/native/ferricstore_bitcask/src/prob_txn.rs:125-257 | if plans have the effect of their batch on what a file reads as, then after any run and any power loss the recovered file reads as every committed batch applied once |
| SidecarSketches.RepliesWereStaged | apps/ferricstore/native/ferricstore_bitcask/src/prob_txn.rs:145-193 | over every run each answer with a result, first or replayed, is what staging that token from the body of its predecessors gave |
| SketchMutations.CmsRealizes | apps/ferricstore/native/ferricstore_bitcask/src/cms.rs:312-350 | plans that keep the CMS staging contract, increments or merges, stay below the footer and take effect once |
| SketchMutations.BloomRealizes | apps/ferricstore/native/ferricstore_bitcask/src/bloom.rs:203-295 | plans that keep the Bloom staging contract stay below the footer and add the elements |
| SketchMutations.TopKRealizes | apps/ferricstore/native/ferricstore_bitcask/src/topk.rs:530-570 | plans that keep the TopK staging contract stay below the footer and add the batch |
| SketchMutations.CmsSurvivesCrashes | apps/ferricstore/native/ferricstore_bitcask/src/cms.rs:283-350 | after any run of increment batches and merges, the destination among its own sources included, and any power loss, recovery leaves the counters and the total of every committed one executed once |
| SketchMutations.BloomSurvivesCrashes | apps/ferricstore/native/ferricstore_bitcask/src/bloom.rs:203-295 | after any run of batches and any power loss, recovery, wherever the header check in front of it lets it run, leaves the bits and the count of every committed batch |
| SketchMutations.TopKSurvivesCrashes | apps/ferricstore/native/ferricstore_bitcask/src/topk.rs:530-570 | after any run of batches and any power loss, recovery, wherever the header check in front of it lets it run, leaves the counters and the heap of every committed batch added once |
| SketchGates.BloomOpensThroughout | apps/ferricstore/native/ferricstore_bitcask/src/bloom.rs:356-409 | over a whole run of batches whatever a power loss leaves at any moment passes the header check in front of recovery, if and only if at no moment an unsynced write torn at its worst takes the count above the number of bits |
| SketchGates.BloomOpensExactly | apps/ferricstore/native/ferricstore_bitcask/src/bloom.rs:356-409 | unless a count write was cut short: every survivor passes if and only if the durable count is within the number of bits and no unsynced write touches it |
| SketchGates.BloomTornCountIsRefused | apps/ferricstore/native/ferricstore_bitcask/src/bloom.rs:376-409 | counterexample for every batch that sets a new bit: a run that loses power while the count is written and leaves a file that is refused before recovery |
| SketchGates.TopKOpensThroughout | apps/ferricstore/native/ferricstore_bitcask/src/topk.rs:153-193 | over a whole run of batches whatever a power loss leaves at any moment passes the header check in front of recovery, if and only if at no moment an unsynced write torn at its worst takes the heap length above k |
| SketchGates.TopKOpensExactly | apps/ferricstore/native/ferricstore_bitcask/src/topk.rs:153-193 | unless a heap-length write was cut short: every survivor passes if and only if the durable length is within k and no unsynced write touches it |
| SketchGates.TopKTornLengthIsRefused | apps/ferricstore/native/ferricstore_bitcask/src/topk.rs:672-680 | counterexample for every batch: a run that loses power while the heap length is written and leaves a file that is refused before recovery |
| SketchGates.CmsAlwaysOpens | apps/ferricstore/native/ferricstore_bitcask/src/cms.rs:356-399 | whatever a power loss leaves of a CMS file passes the header check in front of recovery |
| SketchGuarantees.BloomKeepsItsPromise | apps/ferricstore/native/ferricstore_bitcask/src/bloom.rs:399-409 | from a fresh file, after any run and any power loss: the file is reopened if and only if the count that was left is within the number of bits, and then it passes its header check again and reports every committed element |
| SketchGuarantees.BloomOpensAfterPrefixTears | apps/ferricstore/native/ferricstore_bitcask/src/bloom.rs:399-409 | from a fresh file it is always reopened if power losses keep a prefix of the write they tear |
| SketchGuarantees.TopKKeepsItsPromise | apps/ferricstore/native/ferricstore_bitcask/src/topk.rs:1570-1576 | from a fresh file, after any run and any power loss: the file is reopened if and only if the heap length that was left is within k, and then it misses no heavy hitter of all committed updates and its counts bracket the truth |
| SketchGuarantees.TopKOpensAfterPrefixTears | apps/ferricstore/native/ferricstore_bitcask/src/topk.rs:1570-1576 | from a fresh file it is always reopened if power losses keep a prefix of the write they tear |
| SketchGuarantees.CmsKeepsItsPromise | apps/ferricstore/native/ferricstore_bitcask/src/cms.rs:389-399 | from a fresh file, after any run of increments and merges and any power loss: the file is reopened, and a query of it lies between the true count of everything committed and the recovered total |
| SketchReplies.CmsAnswersTheCounts | apps/ferricstore/native/ferricstore_bitcask/src/cms.rs:250-306 | every answer to an increment batch, first or replayed after any power loss, decodes to its counts right after exactly the batches committed before it |
| SketchReplies.BloomAnswersNovelty | apps/ferricstore/native/ferricstore_bitcask/src/bloom.rs:160-190 | every answer to a Bloom batch, first or replayed after any power loss, decodes to which elements were new right after exactly the batches committed before it: answer i is whether element i has a bit that was neither set before nor belongs to an earlier element of the batch |
| SketchReplies.TopKAnswersEvictions | apps/ferricstore/native/ferricstore_bitcask/src/topk.rs:694-713 | every answer to a TopK batch whose elements passed the length check, first or replayed after any power loss, decodes to its evictions right after exactly the batches committed before it, naming for each element of the batch the one that left the heap when it was offered |
| IndexedHeap.V2IndexedHeap.New | apps/ferricstore/native/ferricstore_bitcask/src/topk.rs:245-283 | a heap is built if and only if the entries fit the capacity and are distinct; it is in heap order, indexed exactly, and holds the same map |
| IndexedHeap.V2IndexedHeap.SiftUp | apps/ferricstore/native/ferricstore_bitcask/src/topk.rs:307-316 | restores heap order from a hole that may be too small, keeping the contents |
| IndexedHeap.V2IndexedHeap.SiftDown | apps/ferricstore/native/ferricstore_bitcask/src/topk.rs:318-339 | restores heap order from a hole that may be too large, keeping the contents |
| IndexedHeap.V2IndexedHeap.Swap | apps/ferricstore/native/ferricstore_bitcask/src/topk.rs:290-305 | exchanges two entries and keeps the position map the exact inverse |
| IndexedHeap.V2IndexedHeap.Add | apps/ferricstore/native/ferricstore_bitcask/src/topk.rs:341-383 | contents and eviction equal the map model that evicts the least (count, element), so they do not depend on the stored array order; on values: a held or fitting element is stored and nobody leaves, a full heap keeps out an element that beats no count and otherwise gives up the one entry below all others by count, then by bytes |
| IndexedHeap.AddToOffers | apps/ferricstore/native/ferricstore_bitcask/src/topk.rs:341-383 | offering an element to the map model stores it, keeps it out or replaces the entry below all others, and names the one that left |
| IndexedHeap.LeastIsUnique | apps/ferricstore/native/ferricstore_bitcask/src/topk.rs:285-288 | the least (count, element) of a heap is unique |
| IndexedHeap.RootIsModelLeast | apps/ferricstore/native/ferricstore_bitcask/src/topk.rs:365-383 | the root of a valid heap is the least of what it holds |
| CountMin.BumpAt | apps/ferricstore/native/ferricstore_bitcask/src/topk.rs:494-507 | an increment raises the element's own cell of each row by exactly the increment and no other cell |
| CountMin.IncrementRaises | apps/ferricstore/native/ferricstore_bitcask/src/topk.rs:512-523 | no estimate falls when an element is counted, and its own rises by at least the increment |
| TopK.CmsIncrement | apps/ferricstore/native/ferricstore_bitcask/src/topk.rs:481-509 | succeeds if and only if no counter of the element overflows; then counters and estimate are the incremented ones, otherwise nothing changed |
| TopK.StageMutation | apps/ferricstore/native/ferricstore_bitcask/src/topk.rs:530-546 | new counters, heap and evictions of a whole batch equal adding its elements one at a time; it fails exactly when that overflows or the stored heap is invalid |
| TopK.BatchEvictions | apps/ferricstore/native/ferricstore_bitcask/src/topk.rs:530-546 | answer i of a batch names exactly the element that the heap held before element i and no longer holds after it, and nothing if there is none |
| TopKGuarantee.NoHeavyHitterMissed | apps/ferricstore/native/ferricstore_bitcask/src/topk.rs:341-383 | over every life of positive batches: estimates never undercount, stored counts lie between truth and estimate, a heap with room misses nothing, and nothing outside a full heap was added more often than any entry says |
| TopKGuarantee.HeavyElementIsListed | apps/ferricstore/native/ferricstore_bitcask/src/topk.rs:341-383 | an element added more often than the least stored count is in the heap |
| TopKGuarantee.RootNeverFalls | apps/ferricstore/native/ferricstore_bitcask/src/topk.rs:341-383 | the least stored count of a full heap never falls |
| TopKGuarantee.RootNeverFallsInLife | apps/ferricstore/native/ferricstore_bitcask/src/topk.rs:341-383 | between any two moments of a life a full heap stays full and its least stored count does not fall |
| TopKGuarantee.StoredCountsAreLastEstimates | apps/ferricstore/native/ferricstore_bitcask/src/topk.rs:341-383 | over every life each stored count is the estimate of its element right after that element was last added |
| TopKFile.HeapRoundTrip | apps/ferricstore/native/ferricstore_bitcask/src/topk.rs:393-454 | heap slots decode to the entries they were written from |
| Counters.CountersRoundTrip | apps/ferricstore/native/ferricstore_bitcask/src/topk.rs:196-225 | counters decode to what was encoded, negative ones included |
| TopKFile.PlanReadsBack | apps/ferricstore/native/ferricstore_bitcask/src/topk.rs:548-569 | the planned images leave a file that reads back as exactly the new counters and heap |
| TopKFile.PlanFits | apps/ferricstore/native/ferricstore_bitcask/src/topk.rs:63-98 | every planned byte lies below the mutation footer |
| TopKFile.Stage | apps/ferricstore/native/ferricstore_bitcask/src/topk.rs:530-570 | from file to plan: the planned file reads as the batch added once, and the results are the evictions; an error means overflow, an unreadable file or an over-long element |
| TopKResults.ResultsRoundTrip | apps/ferricstore/native/ferricstore_bitcask/src/topk.rs:572-649 | encoded results decode to themselves if and only if no evicted element is longer than an element may be |
| TopKFile.ReplayAnswersTheSame | apps/ferricstore/native/ferricstore_bitcask/src/topk.rs:572-649 | a planned batch whose elements passed the entry check answers with results that can be stored, and a replay decodes them to the first answer |
| TopKResults.ResultsCanonical | apps/ferricstore/native/ferricstore_bitcask/src/topk.rs:603-649 | accepted result bytes are the encoding of what they decode to |
| TopKResults.DecodeMutationResults | apps/ferricstore/native/ferricstore_bitcask/src/topk.rs:603-649 | the cursor loop accepts and returns exactly what the format defines |
| Cms.StageIncrements | apps/ferricstore/native/ferricstore_bitcask/src/cms.rs:180-225 | the staged map, its sorted updates, the counts and the total of a batch equal counting its items one at a time; it fails exactly when that fails |
| Cms.StageOne | apps/ferricstore/native/ferricstore_bitcask/src/cms.rs:199-212 | row by row through the staged map equals one increment of the file seen through it |
| Cms.CountsArePrefixQueries | apps/ferricstore/native/ferricstore_bitcask/src/cms.rs:214-215 | each returned count is the query of that element after that prefix of the batch |
| Cms.InOrderIsSorted | apps/ferricstore/native/ferricstore_bitcask/src/cms.rs:218-219 | the planned updates are strictly increasing in offset |
| Cms.InOrderHolds | apps/ferricstore/native/ferricstore_bitcask/src/cms.rs:218-219 | the planned updates are exactly the staged counters |
| Cms.QueryCount | apps/ferricstore/native/ferricstore_bitcask/src/cms.rs:227-248 | the query is a lower bound of the element's cells and equals one of them |
| CmsHistory.RowsSumToTotal | apps/ferricstore/native/ferricstore_bitcask/src/cms.rs:124-132 | over every life without negative increments, merges with any weights included, every row sums to the header total |
| CmsHistory.ConservedExactly | apps/ferricstore/native/ferricstore_bitcask/src/cms.rs:124-132 | a batch keeps the row-sum law if and only if no prefix of its counts takes the total below zero |
| CmsHistory.SubtractionBreaksTheLaw | apps/ferricstore/native/ferricstore_bitcask/src/cms.rs:124-132 | counterexample: subtracting from an empty key saturates the total and breaks the law |
| CmsHistory.MergeConserves | apps/ferricstore/native/ferricstore_bitcask/src/cms.rs:664-757 | a merge of keys that obey the row-sum law obeys it, whatever the weights |
| CmsBounds.QueryBetweenTruthAndTotal | apps/ferricstore/native/ferricstore_bitcask/src/cms.rs:227-248 | for non-negative increments and weights every query lies between the true count and the total, merges included |
| CmsCells.CellsAreTallies | apps/ferricstore/native/ferricstore_bitcask/src/cms.rs:664-757 | over every life, negative counts and weights included, each counter is the sum of what was counted for the elements that hash to it, merged counts multiplied by their weight |
| CmsCells.TrueCountIsTally | apps/ferricstore/native/ferricstore_bitcask/src/cms.rs:664-757 | the true count of an element is the sum of its entries in what the key has counted |
| CmsCells.ErrorIsCollisions | apps/ferricstore/native/ferricstore_bitcask/src/cms.rs:227-248 | over every life a query is the true count plus exactly what was counted for the elements that collide with it in the row where that is least |
| CmsMerge.StageMerge | apps/ferricstore/native/ferricstore_bitcask/src/cms.rs:664-757 | the chunks put together are the unchunked weighted sum and the total the weighted sum of totals; refused exactly for mismatched lists or sizes, too much work, or a sum outside its range |
| CmsMerge.MergeChunk | apps/ferricstore/native/ferricstore_bitcask/src/cms.rs:722-748 | a chunk holds the weighted sums of its counters; it fails exactly when a partial sum leaves i128 or a result is no counter |
| CmsMerge.MergeTotal | apps/ferricstore/native/ferricstore_bitcask/src/cms.rs:134-150 | the merged total, refused exactly when a partial total leaves u64 |
| CmsFile.PlanIncrements | apps/ferricstore/native/ferricstore_bitcask/src/cms.rs:312-350 | the planned file reads as the batch counted once and the answered counts are the batch's; planning fails exactly when reading or counting does |
| CmsFile.IncrementsReadBack | apps/ferricstore/native/ferricstore_bitcask/src/cms.rs:324-337 | increment images stay below the footer and read back as exactly the staged counters and total |
| CmsFile.MergeReadsBack | apps/ferricstore/native/ferricstore_bitcask/src/cms.rs:716-756 | merge images stay below the footer and read back as exactly the merged counters and total |
| CmsFile.PlanMerge | apps/ferricstore/native/ferricstore_bitcask/src/cms.rs:664-757 | the planned file reads as the merge of the sources; planning fails exactly when reading or merging does, and plans nothing exactly without sources |
| Bloom.NoFalseNegatives | apps/ferricstore/native/ferricstore_bitcask/src/bloom.rs:203-295 | over every life no added element is ever reported absent, and count <= set bits <= num_bits |
| Bloom.AddingAgain | apps/ferricstore/native/ferricstore_bitcask/src/bloom.rs:244-258 | adding a reported element changes nothing and answers 0 |
| Bloom.BatchBits | apps/ferricstore/native/ferricstore_bitcask/src/bloom.rs:203-295 | a batch sets the bits of its elements and no others |
| Bloom.BatchAnswers | apps/ferricstore/native/ferricstore_bitcask/src/bloom.rs:203-295 | answer i of a batch is whether element i has a bit that was neither set before the batch nor belongs to an earlier element, and the count rises by the number of such elements |
| Bloom.ReportedExactly | apps/ferricstore/native/ferricstore_bitcask/src/bloom.rs:765-798 | over every life an element is reported if and only if each of its bits belongs to some element that was added |
| Bloom.OwnedExactly | apps/ferricstore/native/ferricstore_bitcask/src/bloom.rs:62-68 | the bits of an element are its first num_hashes double-hashing positions |
| BloomFile.SetMasks | apps/ferricstore/native/ferricstore_bitcask/src/bloom.rs:246-253 | the bits become the old ones plus the element's, and the answer says whether one was new |
| BloomStage.Load | apps/ferricstore/native/ferricstore_bitcask/src/bloom.rs:104-127 | every touched offset is loaded with the file's byte |
| BloomStage.Coalesce | apps/ferricstore/native/ferricstore_bitcask/src/bloom.rs:264-288 | the images of the changed runs write exactly the touched bytes |
| BloomStage.AddElements | apps/ferricstore/native/ferricstore_bitcask/src/bloom.rs:240-262 | bits, count and answers as if the elements were added one at a time |
| BloomStage.Stage | apps/ferricstore/native/ferricstore_bitcask/src/bloom.rs:203-295 | a staged batch leaves the bits, the count and the answers of adding the elements one at a time, below the footer, and writes no header field but the count, exactly if one was new; it is refused only for an unreadable file or too much work |
| BloomStage.AnswersRoundTrip | apps/ferricstore/native/ferricstore_bitcask/src/bloom.rs:160-190 | stored answers decode to themselves, and accepted bytes are the encoding of what they decode to |
| BloomStage.Exists | apps/ferricstore/native/ferricstore_bitcask/src/bloom.rs:765-800 | present exactly when all bits of the element are set |
| BloomStage.StaysAcceptable | apps/ferricstore/native/ferricstore_bitcask/src/bloom.rs:376-378 | if the count does not exceed the set bits, the header check count <= num_bits accepts the file after any batch |
| Score.OrderIsIntegerOrder | apps/ferricstore/native/ferricstore_bitcask/src/flow_index.rs:146-180 | the zero-canonical total order of f64 is the order of the signed magnitudes |
| Score.NextIsSuccessor | apps/ferricstore/native/ferricstore_bitcask/src/flow_index.rs:3228-3243 | next_score is the immediate successor and is missing only for infinity |
| FlowIndex.FlowOrderedIndex.constructor | apps/ferricstore/native/ferricstore_bitcask/src/flow_index.rs:306-312 | the empty index is coherent |
| FlowIndex.FlowOrderedIndex.Put | apps/ferricstore/native/ferricstore_bitcask/src/flow_index.rs:2435-2450 | all five structures stay in agreement and the lookup gains exactly the member |
| FlowIndex.FlowOrderedIndex.Delete | apps/ferricstore/native/ferricstore_bitcask/src/flow_index.rs:2452-2459 | all five structures stay in agreement and the lookup loses exactly the member |
| FlowIndex.FlowOrderedIndex.MoveMember | apps/ferricstore/native/ferricstore_bitcask/src/flow_index.rs:2482-2504 | all five structures stay in agreement; the member leaves the source key and is under the destination with the new score |
| FlowIndex.FlowOrderedIndex.SetCount | apps/ferricstore/native/ferricstore_bitcask/src/flow_index.rs:2552-2566 | both catalogs stay exactly the keys with a positive count |
| FlowIndex.FlowOrderedIndex.PutNewWithoutCount | apps/ferricstore/native/ferricstore_bitcask/src/flow_index.rs:2461-2470 | coherence up to one deferred count |
| FlowIndex.FlowOrderedIndex.DeleteWithoutCount | apps/ferricstore/native/ferricstore_bitcask/src/flow_index.rs:2472-2480 | coherence up to one deferred count |
| FlowIndex.FlowOrderedIndex.ApplyCountDeltas | apps/ferricstore/native/ferricstore_bitcask/src/flow_index.rs:2520-2534 | settling the deferred counts restores full coherence |
| FlowIndex.LookupDetermines | apps/ferricstore/native/ferricstore_bitcask/src/flow_index.rs:306-312 | two coherent indexes with the same lookup agree everywhere, up to counts that are explicitly zero |
| FlowLookup.ImageOfNew | apps/ferricstore/native/ferricstore_bitcask/src/flow_index.rs:2461-2470 | inserting entry and member keeps the ordered set the exact image of the lookup |
| FlowLookup.ImageOfRemoval | apps/ferricstore/native/ferricstore_bitcask/src/flow_index.rs:2472-2480 | removing entry and member keeps the ordered set the exact image of the lookup |
| FlowLookup.ImageOfUpdate | apps/ferricstore/native/ferricstore_bitcask/src/flow_index.rs:2435-2450 | a new score replaces the old entry and nothing else |
| FlowDue.TakeDue | apps/ferricstore/native/ferricstore_bitcask/src/flow_index.rs:2742-2771 | returns the first due members in order, removes exactly these, and what was due behind them is what is due now |
| FlowDue.FirstScoreForKey | apps/ferricstore/native/ferricstore_bitcask/src/flow_index.rs:2968-2976 | the least score of the key, or none if and only if it has no members |
| FlowDue.EarliestDueScoreMatching | apps/ferricstore/native/ferricstore_bitcask/src/flow_index.rs:2940-2966 | walking the catalog of due keys finds the minimum over a scan of all entries, and none exactly when that scan finds none |
| FlowClaims.ApplyClaimEntries | apps/ferricstore/native/ferricstore_bitcask/src/flow_index.rs:1204-1244 | the index stays coherent and the lookup is the batch applied claim by claim; for distinct ids that is, key by key, the score that the entry gives the flow there, and other flows are untouched |
| FlowClaims.RollBackClaimEntries | apps/ferricstore/native/ferricstore_bitcask/src/flow_index.rs:1247-1306 | the index stays coherent and the lookup is the batch rolled back claim by claim; for distinct ids that is, key by key, the score that the entry takes the flow back to, and other flows are untouched |
| FlowClaims.ClaimsLeave | apps/ferricstore/native/ferricstore_bitcask/src/flow_index.rs:1204-1244 | after a batch of claims of distinct flows each flow has exactly the scores its own entry determines, and every other flow is untouched |
| FlowClaims.RollbacksLeave | apps/ferricstore/native/ferricstore_bitcask/src/flow_index.rs:1247-1306 | the same for a batch of rollbacks |
| FlowClaims.ClaimedIsListed | apps/ferricstore/native/ferricstore_bitcask/src/flow_index.rs:1204-1244 | a claimed flow whose entry names different keys, none of which it was listed under, is listed under the due key, the state key, the inflight key and the worker key with their own scores, and no longer under its two source keys |
| FlowClaims.RollbackUndoesClaim | apps/ferricstore/native/ferricstore_bitcask/src/flow_index.rs:1204-1306 | for distinct ids: rolling back a batch of claims restores the lookup if and only if each flow sits under its source keys with the recorded scores and under no other key of its entry |
| FlowClaims.OneUndone | apps/ferricstore/native/ferricstore_bitcask/src/flow_index.rs:1204-1306 | the same if-and-only-if for everything the index holds about one flow, source keys that are also destinations included |
| FlowClaims.InflightEntryIsLost | apps/ferricstore/native/ferricstore_bitcask/src/flow_index.rs:1267-1300 | counterexample: a flow that was already listed under its inflight key no longer is after claim and rollback |
| FlowClaims.ClaimAndRollBack | apps/ferricstore/native/ferricstore_bitcask/src/flow_index.rs:1204-1306 | claiming and rolling back undoable claims restores ordered set, lookup and catalogs, and all counts up to explicit zeros |
| FlowScan.BoundsAreExact | apps/ferricstore/native/ferricstore_bitcask/src/flow_index.rs:3173-3226 | an entry lies between the computed bounds if and only if it has the key and a score in the window |
| FlowScan.RangeIsScan | apps/ferricstore/native/ferricstore_bitcask/src/flow_index.rs:3218-3226 | the range between the bounds is the plain scan of the window, and missing bounds mean an empty window |
| FlowPaging.RangeSlice | apps/ferricstore/native/ferricstore_bitcask/src/flow_index.rs:2602-2651 | the rows are the requested slice of the window, in either direction |
| FlowPaging.RangeForwardAfter | apps/ferricstore/native/ferricstore_bitcask/src/flow_index.rs:2696-2740 | the rows are a slice of exactly the window entries after the cursor |
| FlowPaging.RangeReverseBefore | apps/ferricstore/native/ferricstore_bitcask/src/flow_index.rs:2653-2694 | the rows are a slice of exactly the window entries before the cursor, backwards |
| FlowPaging.PagingIsExact | apps/ferricstore/native/ferricstore_bitcask/src/flow_index.rs:2602-2740 | chaining pages of any sizes, forward or in reverse, yields each entry of the window once and in order |
| FlowReads.ReadPages | apps/ferricstore/native/ferricstore_bitcask/src/flow_index.rs:2602-2740 | a caller that chains the three range functions over a coherent index reads the window once and in order, as far as its page sizes reach |
| FlowReads.ReadPage | apps/ferricstore/native/ferricstore_bitcask/src/flow_index.rs:2602-2740 | one call of the range function for the direction and cursor gives the page at the cursor |
| FlowReads.ImageIsRanked | apps/ferricstore/native/ferricstore_bitcask/src/flow_index.rs:306-312 | the ordered set of a coherent index is sorted and every entry carries its own member rank |
| FlowKeys.WindowIsInReadingOrder | apps/ferricstore/native/ferricstore_bitcask/src/flow_index.rs:190-198 | every window of a coherent index is read by score, among equal scores under a history key by version, and then by member, and holds exactly the entries with that key and a score in the window |
| FlowKeys.HistoryIsInVersionOrder | apps/ferricstore/native/ferricstore_bitcask/src/flow_index.rs:200-209 | of two events with one score and millisecond, the one with the smaller version comes first in any window of the history, 1000-9 before 1000-10 |
| FlowKeys.VersionOf | apps/ferricstore/native/ferricstore_bitcask/src/flow_index.rs:227-247 | the version of two numerals joined by a dash is the value of the second, or zero if it exceeds u64 |
| FlowKeys.OthersHaveNoVersion | apps/ferricstore/native/ferricstore_bitcask/src/flow_index.rs:227-247 | any other member has version zero |
| FlowKeys.HistoryKeysAreRanked | apps/ferricstore/native/ferricstore_bitcask/src/flow_index.rs:211-225 | f:{tag}:h:id with a non-empty tag without a closing brace and a non-empty id is a history key |
| FlowKeys.RankedKeysAreHistory | apps/ferricstore/native/ferricstore_bitcask/src/flow_index.rs:211-225 | every history key has that form |
| FlowKeys.DueKeysExactly | apps/ferricstore/native/ferricstore_bitcask/src/flow_index.rs:3039-3043 | the due catalog covers exactly the keys that start with f:{f and hold }:d: or }:da: anywhere |
| FlowKeys.DueQueuesAreCovered | apps/ferricstore/native/ferricstore_bitcask/src/flow_index.rs:3039-3043 | the queue keys of a flow tag are covered and are no history keys |
| DueMerge.NextDue | apps/ferricstore/native/ferricstore_bitcask/src/flow_index.rs:282-303 | a cursor yields the key's due entries one by one and ends exactly behind the last |
| DueMerge.MergeDue | apps/ferricstore/native/ferricstore_bitcask/src/flow_index.rs:2787-2832 | the heap of cursors yields the first min(limit, max_scan) due entries: no later row and no due entry left out has a smaller score, among equal scores a smaller member, then a smaller key, then a smaller position |
| DueMerge.ClaimSingleKey | apps/ferricstore/native/ferricstore_bitcask/src/flow_index.rs:2889-2918 | the single-key path yields what the general path would, in the same order on scores and members |
| DueMerge.ClaimDueCandidates | apps/ferricstore/native/ferricstore_bitcask/src/flow_index.rs:2773-2833 | both paths and all empty cases yield the first min(limit, max_scan) due candidates; no later row and nothing left out is smaller by score, member, key and position in that order |
| FlowReads.ClaimDue | apps/ferricstore/native/ferricstore_bitcask/src/flow_index.rs:2773-2833 | over a coherent index the candidates are the first min(limit, max_scan) due ones; no later row and nothing left out is smaller by score, member, key and position in that order |
| DueMerge.FirstIsUnique | apps/ferricstore/native/ferricstore_bitcask/src/flow_index.rs:250-275 | the first n due candidates are one sequence only |
| DueMerge.FirstIsBest | apps/ferricstore/native/ferricstore_bitcask/src/flow_index.rs:257-268 | being among the first by the candidate order means: smaller score, among equal scores smaller member, then smaller key, then smaller position |
| Varint.VarintRoundTrip | apps/ferricstore/native/ferricstore_bitcask/src/flow_index.rs:3432-3439 | every u64 decodes to itself and leaves what follows |
| Varint.VarintCanonical | apps/ferricstore/native/ferricstore_bitcask/src/flow_index.rs:3245-3272 | exactly the canonical encodings of u64 values are accepted |
| Varint.ReadVarint | apps/ferricstore/native/ferricstore_bitcask/src/flow_index.rs:3245-3272 | the shifting loop decodes what the format defines |
| Varint.PushVarint | apps/ferricstore/native/ferricstore_bitcask/src/flow_index.rs:3432-3439 | the pushing loop appends the encoding |
| FlowRecord.RecordRoundTrip | apps/ferricstore/native/ferricstore_bitcask/src/flow_index.rs:1792-1952 | an encoded record decodes, with omitted fields at their defaults and every byte consumed, if and only if its sidecar is one well-formed field |
| FlowRecord.EncoderRefuses | apps/ferricstore/native/ferricstore_bitcask/src/flow_index.rs:1824-1832 | a record is refused exactly when a required field is missing, empty or too large, or an optional integer is the largest u64 |
| FlowRecord.SlotsRoundTrip | apps/ferricstore/native/ferricstore_bitcask/src/flow_index.rs:3057-3169 | all optional fields in wire order survive their flags |
| FlowRecord.FlagsAgree | apps/ferricstore/native/ferricstore_bitcask/src/flow_index.rs:3501-3588 | every flag a field looks at was set by that field alone |
| FlowRecord.BinCanonical | apps/ferricstore/native/ferricstore_bitcask/src/flow_index.rs:3299-3313 | an accepted byte-string field is the encoding of its value |
| ClaimChain.PlannedClaimDecodes | apps/ferricstore/native/ferricstore_bitcask/src/flow_index.rs:1373-1481 | every planned claim decodes to a running record with version and fencing token one higher, owned by the worker under the new lease token, updated now, with lease deadline and next run at now plus lease, the run state it had (queued if it was running), two retention fields cleared and every other field unchanged |
| ClaimChain.PlannedExactly | apps/ferricstore/native/ferricstore_bitcask/src/flow_index.rs:1373-1440 | a claim is planned if and only if the value decodes to a record of that flow, type and state, of fast shape, due, whose counters can grow, at a storable time and with now plus lease below the largest u64 |
| ClaimChain.DecodedIsEncodable | apps/ferricstore/native/ferricstore_bitcask/src/flow_index.rs:3057-3169 | a decoded record is complete and carries a well-formed sidecar |
| ClaimChain.LeaseTokenInjective | apps/ferricstore/native/ferricstore_bitcask/src/flow_index.rs:3667-3675 | a lease token determines worker, time and fencing token, colons in the worker name included |
| ClaimChain.ClaimStores | apps/ferricstore/native/ferricstore_bitcask/src/flow_index.rs:1373-1481 | the value a planned claim stores decodes to the next fencing token and the lease token made of it |
| ClaimChain.LeaseTokensNeverRepeat | apps/ferricstore/native/ferricstore_bitcask/src/flow_index.rs:3667-3682 | along any run of stored values in which a claim stores its planned value and no other write lowers the decoded fencing token, the lease tokens stored by any two claims differ, and the later fencing token is larger |
| AlignedBuffer.RoundUp | apps/ferricstore/native/ferricstore_wal_nif/src/aligned_buffer.rs:209-211 | the least multiple of the alignment that is not below the value |
| AlignedBuffer.Buffer.constructor | apps/ferricstore/native/ferricstore_wal_nif/src/aligned_buffer.rs:36-46 | an empty buffer of at least one alignment unit |
| AlignedBuffer.Buffer.Grow | apps/ferricstore/native/ferricstore_wal_nif/src/aligned_buffer.rs:133-144 | room for what is required, at least doubled, with the contents kept |
| AlignedBuffer.Buffer.Extend | apps/ferricstore/native/ferricstore_wal_nif/src/aligned_buffer.rs:49-58 | the contents gain the data at the end |
| AlignedBuffer.Buffer.Prepend | apps/ferricstore/native/ferricstore_wal_nif/src/aligned_buffer.rs:66-81 | the data comes before everything that arrived meanwhile |
| AlignedBuffer.Buffer.Take | apps/ferricstore/native/ferricstore_wal_nif/src/aligned_buffer.rs:86-114 | hands out exactly the contents, zero-padded to the alignment in memory the buffer no longer uses, and starts over empty |
| WalDrain.WriteAllRetry | apps/ferricstore/native/ferricstore_wal_nif/src/background_thread.rs:404-429 | the file grows by exactly the bytes counted as written; it succeeds exactly when the writer's reports add up |
| WalDrain.Wal.Drain | apps/ferricstore/native/ferricstore_wal_nif/src/background_thread.rs:356-387 | file followed by buffer is unchanged whatever the writer does, and the size counter follows the file |
| WalDrain.Wal.BufferWrite | apps/ferricstore/native/ferricstore_wal_nif/src/wal_handle.rs:156-190 | the bytes join the end of the stream exactly when the worker is alive at both checks and they fit the limit; otherwise nothing happens and the error names the first check that failed |
| WalSafety.StreamIntegrity | apps/ferricstore/native/ferricstore_wal_nif/src/background_thread.rs:123-243 | under every interleaving: file, bytes in flight and buffer are the accepted bytes in order; every success names a durable position that covers all bytes accepted before its request was queued |
| WalSafety.AnsweredExactlyOnce | apps/ferricstore/native/ferricstore_wal_nif/src/background_thread.rs:162-321 | requests are answered in order and at most once; an idle worker holds none, and a stopped worker has answered every request, also after a panic |
| WalSafety.CloseIsComplete | apps/ferricstore/native/ferricstore_wal_nif/src/background_thread.rs:254-343 | a close that reported success left every accepted byte in the file and durable |
| WalAnswers.SuccessTellsAll | apps/ferricstore/native/ferricstore_wal_nif/src/background_thread.rs:225-289 | a sync that succeeds, in a cycle or on close, makes everything in the file durable and answers exactly the callers it holds, in order, each with success and the position reached |
| WalAnswers.DurableMeansTold | apps/ferricstore/native/ferricstore_wal_nif/src/background_thread.rs:225-289 | along every run, whenever more bytes become durable all callers held are told so |
| WalAnswers.FailureHasCause | apps/ferricstore/native/ferricstore_wal_nif/src/background_thread.rs:162-321 | along every run a request is answered with a failure only if, after all answers before it, a write or sync failed, a delay was refused or the worker panicked |
| WalAnswers.FailedCloseHasCause | apps/ferricstore/native/ferricstore_wal_nif/src/background_thread.rs:254-289 | a close is reported as failed only after such a fault |
| WalAnswers.NoFaultNoFailure | apps/ferricstore/native/ferricstore_wal_nif/src/background_thread.rs:162-321 | in a run without faults every answer is a success whose position covers its request and is durable, and a stopped worker has answered every request and reported a successful close |
| WalSafety.StepKeeps | apps/ferricstore/native/ferricstore_wal_nif/src/background_thread.rs:123-387 | every step of producers and worker keeps the invariant |
| RaftCodec.CompactionUndone | apps/ferricstore/native/ferricstore_bitcask/src/raft_command_codec.rs:125-285 | whatever compact_term writes, expand_term reads back at the same depth: exactly those bytes and exactly the term |
| RaftCodec.SelfCheckNeverFires | apps/ferricstore/native/ferricstore_bitcask/src/raft_command_codec.rs:86-101 | the final comparison of compact never fails; what compact gives is shorter and expands to the input |
| RaftCodec.CompactIsInjective | apps/ferricstore/native/ferricstore_bitcask/src/raft_command_codec.rs:86-101 | two commands never share a compact form |
| RaftCodec.LeafPrefix | apps/ferricstore/native/ferricstore_bitcask/src/raft_command_codec.rs:289-309 | the size of a leaf is written inside the leaf |
| RaftTerms.PrefixFree | apps/ferricstore/native/ferricstore_bitcask/src/raft_command_codec.rs:140-147 | no term of the external term format is the beginning of another, so a dictionary term found at a term start is that whole term |
| RaftTerms.CompactsTheTree | apps/ferricstore/native/ferricstore_bitcask/src/raft_command_codec.rs:125-207 | on the bytes of any covered term compact_term writes the compacted tree and consumes exactly the term; it refuses exactly if the nesting exceeds the limit, terms held whole by the dictionary not counted |
| RaftTerms.AcceptedIsTerm | apps/ferricstore/native/ferricstore_bitcask/src/raft_command_codec.rs:125-207 | whatever compact_term accepts is the bytes of a covered term: tuples with their items, maps with keys and values, lists with elements and tail |
| RaftTerms.CompactsWritten | apps/ferricstore/native/ferricstore_bitcask/src/raft_command_codec.rs:86-101 | a written term is compacted if and only if its nesting is allowed and its compact form is shorter, to exactly the compacted tree |
| RaftTerms.CompactedIsTerm | apps/ferricstore/native/ferricstore_bitcask/src/raft_command_codec.rs:86-101 | whatever compact accepts is a version byte and such a term |
| RaftTerms.ReleasedTermIsWhole | apps/ferricstore/native/ferricstore_bitcask/src/raft_command_dictionary_v1.rs:350-362 | the one term of the released dictionary is a complete term |
| RaftCodecLoops.CompactTermInto | apps/ferricstore/native/ferricstore_bitcask/src/raft_command_codec.rs:125-192 | the appending term writer produces the specified bytes and position |
| RaftCodecLoops.CompactManyInto | apps/ferricstore/native/ferricstore_bitcask/src/raft_command_codec.rs:194-207 | the loop over nested terms produces the specified bytes and position |
| RaftCodecLoops.ExpandTermInto | apps/ferricstore/native/ferricstore_bitcask/src/raft_command_codec.rs:209-270 | the appending term reader produces the specified bytes and position |
| RaftCodecLoops.ExpandManyInto | apps/ferricstore/native/ferricstore_bitcask/src/raft_command_codec.rs:272-285 | the loop over nested terms produces the specified bytes and position |
| RaftCodecLoops.CompactCommand | apps/ferricstore/native/ferricstore_bitcask/src/raft_command_codec.rs:86-101 | compact as it runs is compact as specified |
| RaftCodecLoops.ExpandCommand | apps/ferricstore/native/ferricstore_bitcask/src/raft_command_codec.rs:105-123 | expand as it runs is expand as specified |
| PrefixMerge.ScanSource | apps/ferricstore/native/ferricstore_bitcask/src/prefix_merge.rs:19-56 | although it may stop early and reads at most cap rows, the heap then holds the smallest rows of what it held and all readable rows of the source; an error means a failed read before the cutoff |
| PrefixMerge.SmallestOfUnion | apps/ferricstore/native/ferricstore_bitcask/src/prefix_merge.rs:19-56 | after any number of sources the heap holds exactly the cap smallest rows of the union |
| PrefixMerge.KeepsTheFirst | apps/ferricstore/native/ferricstore_bitcask/src/prefix_merge.rs:19-56 | the union splits into the rows kept, cap of them if there are that many, and the rows left out; the rows kept are ordered by key, then source, then value, and no row left out is ahead of one kept |
| PrefixMerge.ScanOrderIsIrrelevant | apps/ferricstore/native/ferricstore_bitcask/src/prefix_merge.rs:19-56 | the order in which sources are scanned does not matter |
| PrefixMerge.WithinByteCap | apps/ferricstore/native/ferricstore_bitcask/src/prefix_merge.rs:59-68 | true exactly when the total size is within the cap, overflow included |
| Admission.AdmissionIsSafe | apps/ferricstore/native/ferricstore_bitcask/src/async_io.rs:63-130 | under all interleavings: slots and bytes within their limits, equal to held permits plus calls and drops between their steps, and to the bytes not yet released |
| Admission.NoUnderflow | apps/ferricstore/native/ferricstore_bitcask/src/async_io.rs:105-150 | whenever a thread is about to subtract, the counter is large enough |
| Admission.NoResidue | apps/ferricstore/native/ferricstore_bitcask/src/async_io.rs:80-150 | once every call is refused or its permit dropped, both counters are zero |
| Admission.CheckedInputBytes | apps/ferricstore/native/ferricstore_bitcask/src/async_io.rs:51-61 | the full charge, or a refusal exactly when it exceeds the maximum |
| FlowTag.DigestsAreEncodings | apps/ferricstore/native/ferricstore_bitcask/src/flow_composite_codec.rs:139-171 | accepted digests are exactly the unpadded base64url encodings of 16-byte and 32-byte strings (sections 5 and 3.5 of RFC 4648) |
| FlowTag.BucketsAreDecimals | apps/ferricstore/native/ferricstore_bitcask/src/flow_composite_codec.rs:129-138 | accepted buckets are exactly the canonical decimals 0 to 255 |
| FlowTag.TagsAreCanonical | apps/ferricstore/native/ferricstore_bitcask/src/flow_composite_codec.rs:125-171 | the accepted tags are f, fa: with such a bucket, and f: with such a digest |
| FlowTag.OwnershipIsExact | apps/ferricstore/native/ferricstore_bitcask/src/flow_composite_codec.rs:110-122 | a state key owns an id if and only if it is a valid tag's key for that id, whatever the id contains |
| FlowTag.StateKeyDetermines | apps/ferricstore/native/ferricstore_bitcask/src/flow_composite_codec.rs:110-122 | a state key determines its tag and id |
| FlowTag.UnpackUndone | apps/ferricstore/native/ferricstore_bitcask/src/flow_composite_codec.rs:143-148 | six-bit values with zero spare bits are the packing of the bytes they unpack to |
| FlowTag.SextetsAreBits | apps/ferricstore/native/ferricstore_bitcask/src/flow_composite_codec.rs:143-148 | four six-bit values are the 24 bits of three bytes, highest first |
| FlowTag.AlphabetIsTable2 | apps/ferricstore/native/ferricstore_bitcask/src/flow_composite_codec.rs:139-154 | the 64 characters are those of table 2 of RFC 4648 in its order |
| Bytes.LexIsFirstDifference | apps/ferricstore/native/ferricstore_bitcask/src/flow_index.rs:179-186 | one byte string is below another if and only if it is smaller at the first difference, or ends there |

## Left out

- NIF entry points, term decoding and encoding, scheduler yields, request budgets and message sends.
- The sidecar writers without a token (`bloom_file_add`, `cms_file_incrby`, `cms_file_merge`, `topk_file_*` without a token): they bypass the protocol.
- Creating sidecar files, `fs_nif.rs`, path handling and locking between processes: operating-system calls.
- Memory-allocation failures, lock poisoning and raw memory layout.
- `restore_count`, `delete_count` and `count_keys_page` of the Flow index, FIFO lane heads and the presence query of due keys.
- History records and their flags, `hint.rs`, `flow_physical_key.rs`, `cuckoo.rs`, `log.rs`.
- Composite index entries other than their tags and state keys (plain and covering bodies).
- ClaimChain.LeaseTokensNeverRepeat: writes other than claims are made outside this layer; that they do not lower the fencing token is a hypothesis on the run.
- IndexedHeap.V2IndexedHeap.New: the source's memory reservation for incoming elements is not modelled.
- DueMerge.MergeDue: for keys that are not history keys; the heap is kept as one optional head per key, so the layout of the binary heap is not modelled.
- PrefixMerge.ScanSource: the heap is kept as its rows in ascending order, so the layout of the binary heap is not modelled.
- FlowIndex.FlowOrderedIndex.Put: the ordered set is a sorted sequence, so the shape of the B-tree is not modelled; a stored minus zero reads back as zero.
- Cms.StageIncrements: sorting the staged counters is modelled by its result.
- BloomStage.Stage: sorting the touched offsets is modelled by its result.
- FlowRecord.RecordRoundTrip: the encoder's pushes into one buffer are a concatenation.
- WalSafety.StreamIntegrity: after a panic the bytes in flight stay lost; they remain part of the accounted stream as the lost part.
- WalDrain.Wal.BufferWrite: bounds what a producer may add; bytes put back after a failed drain may take the buffer beyond the limit.
