# Verification of the Distri-Inference-Sidecar

A Dafny model of three components of the sidecar and proofs of what they promise:

- **BPE tokenizer** (`BpeGreedy`, `BpeText`, `BpeLearning`, `BpeEncoding`, `BpeTokenizer`).
  `BpeTokenizer.Tokenizer` trains and encodes with the loops of the Rust code over mutable maps and
  word lists; the other modules define the greedy pass, the rule lists training can produce under any
  tie-breaking, and prove what follows. The central fact is locality: consecutive tokens of a
  segmented word are exactly what the same rules make of the substring they spell. From it follows
  that a new tokenizer never learns the same string twice, on which the one-to-one numbering, the
  reachability of every token and the round trip rest.
- **Batcher**, at two levels. `Fanout` and `Batcher` treat one flush: an id index whose lists are
  popped in place, proved to realise the pairing "k-th request of an id, k-th response entry of that
  id"; `FlushBatch` is split into methods along the phases of the Go function. `PythonBackend` adds the
  backend. `Protocol`, `ProtocolSafety`, `ProtocolCauses`, `ProtocolLiveness` and `ProtocolStop` treat the
  concurrent life of the batcher as a transition system; a schedule is any list of steps of clients,
  Stop, the main loop, flush goroutines, the QPS tracker and the breaker, and a step that is not
  enabled does nothing, so theorems over all schedules are theorems over all interleavings. In it one
  step is one lock or channel operation, one look at a flag or context, or one registration with the
  wait group. Taken together with the step they belong to are the metrics counters, which nothing in
  the batcher reads, and a flush's leaving the wait group, which goes with its last send.
  `FlushRefinement` and `FlushConverse` tie the two levels together, one in each direction.
- **VRAM guard** (`VramGuard`): the scan for the most utilised GPU, the hysteresis step as a method of
  the guard object, what a whole run of polls means, and how much utilisation must vary for the breaker
  to change state. Floating-point values are reals.

`dafny verify dfyconfig.toml` checks the project.

Where the code and its documentation differ, the model follows the code:

- `internal/vramguard/vramguard.go:57-58` says the breaker opens when usage exceeds the open threshold
  and closes below the close threshold; the code opens at or above and closes at or below
  (`internal/vramguard/vramguard.go:186`, `internal/vramguard/vramguard.go:195`).
- `internal/batcher/batcher.go:218-221` describes Stop as waiting for in-flight flushes and giving queued
  requests a terminal error. The main loop is not in the wait group, so Stop can return while an accepted
  request is still queued or about to be failed: `ProtocolStop.StopMayReturnEarly` and
  `ProtocolStop.StopMayReturnMidDrain` are such schedules. `ProtocolStop.StopReturnIsCompleteIff`,
  `ProtocolStop.GracefulStopIsCompleteIff` and `ProtocolStop.NothingIsPromisedToLateCallers` say exactly
  when it cannot, seen from the moment Stop has its lock, from a call after the RPC server has stopped, and
  from any other call. Exactly-once delivery is therefore stated at quiescence (main loop returned, all
  flushes finished).
- The same omission lets the main loop register a flush while Stop is already waiting, as
  `ProtocolStop.WaitGroupReuseIff` says; the Go documentation of `sync.WaitGroup` forbids that.
- `python_backend/main.py:72-76` promises that one model failure does not fail the siblings. It holds for
  exceptions, and `PythonBackend.FlushThroughBackend` is the exact condition. Three things fail the whole
  batch. An empty prompt is admitted, held as a nil slice and marshalled as null
  (`internal/batcher/batcher.go:301-326`), which the schema (`python_backend/main.py:44-46`) refuses with
  status 422. A reply whose `response` is a number, list or object is copied unchecked
  (`python_backend/main.py:93-94`), and the sidecar cannot decode the body. A `response` that Python can read
  but not write as JSON (NaN, text with a lone surrogate) makes the backend answer with status 500.
  `PythonBackend.EmptyPromptSpoilsTheBatch` and `PythonBackend.OneBadReplySpoilsTheBatch` are instances.
- Training a tokenizer that is not new is allowed by the code but documented as unsupported
  (`rust_ops/src/bpe_token.rs:37-39`). `Train` is specified for any contents;
  `BpeLearning.RetrainingBreaksIds` shows the numbering failing,
  `BpeLearning.RetrainKeepsBijectionIff` says exactly when it survives in terms of the rules learned, and
  `BpeLearning.DisjointCorpusIsSafe`, `BpeTokenizer.DryRunDecides` and
  `BpeLearning.EveryRetrainingIsSafeIff` give checks that can be made before the call.

## Model

| member | source | states |
|---|---|---|
| BpeGreedy.LoopPassIsPass | rust_ops/src/bpe_token.rs:89-97 | leaving the cursor on the merged token changes nothing: the loop computes one left-to-right, non-overlapping pass |
| BpeGreedy.MergedTokenIsRevisited | rust_ops/src/bpe_token.rs:122-130 | for a table entry equal to its left half the stationary cursor absorbs every right half that follows |
| BpeGreedy.RunKeepsSpelling | rust_ops/src/bpe_token.rs:112-131 | no list of rules changes the text a token list spells |
| BpeGreedy.Locality | rust_ops/src/bpe_token.rs:112-131 | consecutive tokens of a segmented word are what the same rules make of the substring they spell |
| BpeGreedy.PassLength | rust_ops/src/bpe_token.rs:88-98 | a pass removes exactly as many tokens as the pair has windows if its halves differ; otherwise r tokens with r <= windows <= 2r |
| BpeGreedy.PassClearsPair | rust_ops/src/bpe_token.rs:88-98 | after its own pass a pair is adjacent nowhere in the word |
| BpeGreedy.CountIsWindows | rust_ops/src/bpe_token.rs:66-70 | the frequency of a pair in a word is the number of places at which it stands, overlapping ones included |
| BpeGreedy.PassOnRepetition | rust_ops/src/bpe_token.rs:88-98 | a run of n equal tokens becomes n/2 merged ones, paired off from the left, and a leftover if n is odd |
| BpeGreedy.RunExtend | rust_ops/src/bpe_token.rs:117-131 | later rules run on the earlier segmentation and never add tokens |
| BpeGreedy.RunBarrier | rust_ops/src/bpe_token.rs:117-131 | a token no rule mentions separates the segmentations of its two sides |
| BpeText.WordsAreWords | rust_ops/src/bpe_token.rs:44 | every word is non-empty and free of whitespace |
| BpeText.WordsSpellText | rust_ops/src/bpe_token.rs:112 | the words, concatenated, are the text without its whitespace |
| BpeText.WordsJoin | rust_ops/src/bpe_token.rs:112 | joining texts by a whitespace character joins their word lists |
| BpeLearning.LearnedSpelling | rust_ops/src/bpe_token.rs:73-98 | when rule k is learned its string splits into exactly its two halves, and from then on it is one token |
| BpeLearning.MergesSpellDistinctStrings | rust_ops/src/bpe_token.rs:78-83 | whatever the tie-breaking, no two learned rules spell the same string and no pair is learned twice |
| BpeLearning.LearnedPairNeverReappears | rust_ops/src/bpe_token.rs:88-98 | a learned pair is adjacent in no word at any later stage of training or encoding |
| BpeLearning.FreshMerge | rust_ops/src/bpe_token.rs:85-86 | in a new tokenizer the merged string is absent from the vocabulary when it is inserted |
| BpeLearning.FreshIdsAreBijection | rust_ops/src/bpe_token.rs:56-86 | after training a new tokenizer the ids number the keys one-to-one from 0, and there are as many as distinct characters plus rules |
| BpeLearning.KnownCharKeepsId | rust_ops/src/bpe_token.rs:53-61 | adding characters changes no id that was there |
| BpeLearning.NewCharId | rust_ops/src/bpe_token.rs:58-61 | a new character gets the number of keys known before its first occurrence |
| BpeLearning.MergeIds | rust_ops/src/bpe_token.rs:85-86 | from any vocabulary a learned string keeps the id it got, the size of the vocabulary when it was learned |
| BpeLearning.OtherIdsStay | rust_ops/src/bpe_token.rs:85-86 | learning changes the id of no key that is not relearned |
| BpeLearning.FreshMergeIds | rust_ops/src/bpe_token.rs:56-86 | in a new tokenizer the k-th learned string has the id distinct characters + k |
| BpeLearning.VocabKeys | rust_ops/src/bpe_token.rs:50-86 | the keys are the old ones, the corpus characters and the merged strings, nothing else |
| BpeLearning.RetrainKeepsBijectionIff | rust_ops/src/bpe_token.rs:37-39 | retraining keeps the numbering one-to-one exactly when no relearned string was already a key |
| BpeLearning.DisjointCorpusIsSafe | rust_ops/src/bpe_token.rs:37-39 | if no key of two or more characters occurs inside a word of the corpus, retraining on it keeps the numbering under any tie-breaking |
| BpeLearning.ExhaustedTrainingLearnsWords | rust_ops/src/bpe_token.rs:63-76 | training that runs out of pairs has learned every corpus word of two or more characters as one token |
| BpeLearning.KeyAmongWordsIsLost | rust_ops/src/bpe_token.rs:85-86 | if such a word is already a key, training until no pair is left breaks the numbering |
| BpeLearning.EveryRetrainingIsSafeIff | rust_ops/src/bpe_token.rs:37-39 | retraining is safe under every tie-breaking and size exactly when no new tokenizer trained on the corpus can share such a key |
| BpeLearning.RetrainingBreaksIds | rust_ops/src/bpe_token.rs:85-86 | training twice on "ab" leaves an id unused |
| BpeLearning.CorpusShrinks | rust_ops/src/bpe_token.rs:64-98 | applying a rule of frequency f to the corpus removes f tokens, or between f/2 and f if its halves are equal |
| BpeLearning.LearnedShrinksMost | rust_ops/src/bpe_token.rs:73-98 | the greedy law: when a rule with distinct halves is learned no other rule would shrink the corpus more, and none more than twice as much if its halves are equal |
| BpeEncoding.EncodeJoin | rust_ops/src/bpe_token.rs:109-138 | encoding distributes over a join by whitespace |
| BpeEncoding.EncodeLength | rust_ops/src/bpe_token.rs:109-138 | word count <= ids <= characters that are not whitespace, and more rules never lengthen an encoding, for any tokenizer contents |
| BpeEncoding.UnlistedRuleIsSkipped | rust_ops/src/bpe_token.rs:117-121 | a rule without a table entry changes nothing, and the rules after it still apply |
| BpeEncoding.ListedRuleUsesTable | rust_ops/src/bpe_token.rs:118-126 | a listed rule puts the table's string in the place of its halves |
| BpeEncoding.ReplayIsRun | rust_ops/src/bpe_token.rs:117-131 | after training the skip branch is never taken and encoding replays the training passes |
| BpeEncoding.TrainingTextEncodesToSegmentation | rust_ops/src/bpe_token.rs:88-135 | encoding the training text gives the ids of the final training segmentation |
| BpeEncoding.SubstringReencodes | rust_ops/src/bpe_token.rs:109-138 | any run of tokens of an encoded word encodes, on its own, to the same ids |
| BpeEncoding.KeyEncodesToItself | rust_ops/src/bpe_token.rs:109-138 | every key of a trained vocabulary encodes to its own id alone, although all later rules are replayed over it |
| BpeEncoding.EncodeRoundTrip | rust_ops/src/bpe_token.rs:109-138 | if every character is known, mapping ids back to strings spells the text without whitespace |
| BpeEncoding.UnseenCharacterIsBarrier | rust_ops/src/bpe_token.rs:104-138 | an unseen character becomes the id 0 and separates the encodings of the text before and after it |
| BpeEncoding.FallbackOnlyForUnseen | rust_ops/src/bpe_token.rs:133-135 | a token outside the vocabulary is a single character of the word |
| BpeEncoding.TruncatedIdsDistinctIff | rust_ops/src/bpe_token.rs:59-85 | the 32-bit casts keep ids distinct exactly up to 2^32 tokens |
| BpeTokenizer.MergeInWord | rust_ops/src/bpe_token.rs:122-130 | the index-and-remove loop computes the in-place pass function |
| BpeTokenizer.CountPairs | rust_ops/src/bpe_token.rs:64-71 | the table holds exactly the pairs that occur, with their number of windows over all words |
| BpeTokenizer.MostFrequentPair | rust_ops/src/bpe_token.rs:73-76 | a pair no other exceeds in frequency is returned, or none if no pair is adjacent |
| BpeTokenizer.Tokenizer.constructor | rust_ops/src/bpe_token.rs:26-32 | a new tokenizer is empty |
| BpeTokenizer.Tokenizer.MissingCharacters | rust_ops/src/bpe_token.rs:50-57 | the corpus characters without an id, in order, repetitions included |
| BpeTokenizer.Tokenizer.AddCharacters | rust_ops/src/bpe_token.rs:50-61 | every corpus character has an id afterwards, old ids unchanged, new ones in order of first occurrence |
| BpeTokenizer.Tokenizer.MergeAll | rust_ops/src/bpe_token.rs:88-98 | one rule is applied to every word |
| BpeTokenizer.Tokenizer.Train | rust_ops/src/bpe_token.rs:42-100 | from any contents: the appended rules are a list training can produce, vocabulary, rule table and order follow from them, and training stops when large enough or without pairs and not later |
| BpeTokenizer.OneMoreRule | rust_ops/src/bpe_token.rs:78-98 | one round of the training loop keeps that description and strictly shrinks the corpus |
| BpeTokenizer.Tokenizer.EncodeOneWord | rust_ops/src/bpe_token.rs:113-131 | the tokens of a word are the replay of the rules over its characters |
| BpeTokenizer.Tokenizer.PushIds | rust_ops/src/bpe_token.rs:133-135 | appends one id per token, 0 for an unknown one |
| BpeTokenizer.Tokenizer.EncodeText | rust_ops/src/bpe_token.rs:109-138 | the result is the encoding function of the current contents, whatever they are |
| BpeTokenizer.DryRunDecides | rust_ops/src/bpe_token.rs:37-63 | a new tokenizer trained far enough on the same corpus without meeting a tie decides beforehand: retraining the old one up to vocabSize keeps its numbering exactly when the old one holds none of the strings learned within the room it has left |
| BpeTokenizer.TrainedSize | rust_ops/src/bpe_token.rs:34-35 | on exit the vocabulary has the requested size, or there were already that many characters, or no pair is left |
| BpeTokenizer.TrainThenEncode | rust_ops/src/lib.rs:58-62 | a new tokenizer trained on a text numbers its tokens one-to-one and encodes that text reversibly to the training segmentation |
| Fanout.RankIsPosition | internal/batcher/batcher.go:292-298 | a request stands in the list of its id at the place given by the earlier requests with that id |
| Fanout.EntryReachesRequest | internal/batcher/batcher.go:383-404 | a request receives the entry preceded by as many of its id as the request itself: its error if there is one, else its output with the flush's latency |
| Fanout.RequestWithoutEntry | internal/batcher/batcher.go:406-412 | a request preceded by as many of its id as there are entries gets the missing-result error |
| Fanout.LogStepAt | internal/batcher/batcher.go:383-404 | a response entry answers exactly the request whose rank is the number of earlier entries with its id |
| Fanout.LogMissingEnd | internal/batcher/batcher.go:406-412 | once all ids are settled, in any order, the channels hold the pairing |
| Fanout.OnlyPerIdOrderMatters | internal/batcher/batcher.go:381-404 | two responses deliver the same to every batch exactly if they agree on each id's own subsequence |
| Fanout.EntriesAreNotShared | internal/batcher/batcher.go:389-390 | requests with the same id never share a response entry |
| Fanout.PayloadIsLive | internal/batcher/batcher.go:277-317 | the payload consists of exactly the requests that are not cancelled, in batch order |
| Fanout.CancelledSiblingsDoNotMatter | internal/batcher/batcher.go:277-412 | a live request is in the payload and gets what it would get without the cancelled ones |
| Fanout.FailureByExchange | internal/batcher/batcher.go:277-379 | which error each kind of exchange gives a live request: transport failure and every status outside 200 to 299 unavailable; payload, request and decoding failures an invalid response; a decoded list the pairing; an ended context its own error |
| Fanout.SizeObservedIff | internal/batcher/batcher.go:288-352 | one batch size, the number of live requests, is observed exactly if the backend was called |
| Fanout.WinsAreSuccesses | internal/batcher/batcher.go:391-402 | the success counter grows by the number of requests that received a success |
| Fanout.LossesAreErrors | internal/batcher/batcher.go:391-410 | the error counter grows by the number of requests that received an error |
| PythonBackend.InputOrderIsOwnEntry | python_backend/main.py:140-142 | with one id-preserving entry per item in input order, request i receives entry i even when ids repeat |
| PythonBackend.EachItemGetsItsOwnOutcome | python_backend/main.py:79-142 | over one payload either every request receives the outcome of its own item, or all the same error |
| PythonBackend.FlushThroughBackend | python_backend/main.py:44-142 | a live request receives what the runtime says to its own decoded prompt under its own or the default model, siblings' exceptions contained, exactly if no live prompt is empty and every live reply is text, nothing or an exception; otherwise all live requests get the refusal, the server error or the decoding error |
| PythonBackend.EveryoneHearsItsOwnEcho | python_backend/main.py:79-93 | a runtime that echoes model and prompt shows each caller its own |
| PythonBackend.EmptyPromptSpoilsTheBatch | internal/batcher/batcher.go:301-370 | an empty prompt takes the good answer of its sibling with it |
| PythonBackend.OneBadReplySpoilsTheBatch | internal/batcher/batcher.go:361-379 | next to non-empty prompts so does a reply that cannot be written or is not text, while one without a response does not |
| Batcher.Request.Send | internal/batcher/batcher.go:64-68 | a send needs a free slot and puts exactly one result on the channel |
| Batcher.Batcher.FailRequest | internal/batcher/batcher.go:261-264 | counts one error and delivers it |
| Batcher.Batcher.FailBatch | internal/batcher/batcher.go:418-422 | delivers the same error to every request once |
| Batcher.Batcher.DrainQueueWithError | internal/batcher/batcher.go:249-258 | empties the queue and delivers the error to every request in it once |
| Batcher.Batcher.EndLoop | internal/batcher/batcher.go:187-204 | at the end of the main loop every queued request is told once that the batcher has stopped |
| Batcher.Batcher.BuildIndex | internal/batcher/batcher.go:295-298 | lists, for every id, all its requests in batch order |
| Batcher.Batcher.MatchOne | internal/batcher/batcher.go:384-403 | hands one entry to the first waiting request of its id, or to nobody, and pops the index |
| Batcher.Batcher.MatchResults | internal/batcher/batcher.go:383-404 | after all entries exactly the requests with enough entries are answered, each as paired |
| Batcher.Batcher.FailMissing | internal/batcher/batcher.go:407-412 | whatever the map order, the channels end up holding the pairing |
| Batcher.Batcher.FanOut | internal/batcher/batcher.go:381-412 | for any response the k-th request of an id receives the k-th entry of that id, or the missing-result error, exactly once; counters agree |
| Batcher.Batcher.DropCancelled | internal/batcher/batcher.go:277-290 | cancelled requests receive their context error, the others remain in order |
| Batcher.Batcher.Settle | internal/batcher/batcher.go:326-412 | every outcome of the exchange answers every live request once and counts it |
| Batcher.Batcher.FlushBatch | internal/batcher/batcher.go:271-415 | every request of any batch gets exactly one result, the specified one, and the outcome counters grow by the batch size |
| ProtocolSafety.LockKept | internal/batcher/batcher.go:151-171 | every step keeps: the write lock excludes submitters, and nobody is past the check once `stopped` is set |
| ProtocolSafety.AcceptKept | internal/batcher/batcher.go:144-171 | every step keeps: exactly the callers told so have been accepted, each once |
| ProtocolSafety.OnceKept | internal/batcher/batcher.go:186-264 | every step keeps: an accepted request is answered or pending in exactly one place |
| ProtocolSafety.FifoKept | internal/batcher/batcher.go:427-448 | every step keeps the acceptance order across batches, drain, main loop and queue |
| ProtocolSafety.ExactlyOnce | internal/batcher/batcher.go:137-264 | over all interleavings no channel gets two results, a rejected request none, and at quiescence every accepted one exactly one |
| ProtocolSafety.WaitersAreServed | internal/grpcserver/server.go:120-151 | at quiescence every client still waiting can receive its result |
| ProtocolSafety.FifoPartition | internal/batcher/batcher.go:197-258 | accepted requests = batches, drained, in the main loop's hand, queue, in order; batches hold 1 to MaxBatchSize requests, the queue at most 1000 |
| ProtocolSafety.NothingAcceptedAfterStop | internal/batcher/batcher.go:227-235 | after `stopped` is set nothing is accepted, and after the main loop returned the queue stays empty for ever |
| ProtocolSafety.PendingSlotIsFree | internal/grpcserver/server.go:108-110 | whoever is still to be answered has a free slot, client gone or not, so no send blocks |
| ProtocolSafety.ErrorsHaveCauses | internal/batcher/batcher.go:278-286 | context errors go only to ended contexts, drain errors only to drained requests |
| ProtocolSafety.OutcomesAreConserved | internal/batcher/batcher.go:351-421 | at quiescence successes + errors = accepted = batch sizes + unbuilt payloads + cancelled at flush + drained |
| ProtocolCauses.VerdictIff | internal/batcher/batcher.go:144-171 | in any run a caller is rejected for the breaker exactly if it read it open, as stopped exactly if it read the flag set, for a full queue exactly if it found 1000 requests, and accepted exactly if it found fewer |
| ProtocolCauses.OpenBreakerRejects | internal/batcher/batcher.go:147-150 | whoever reads the breaker while it is open is rejected for good, never accepted and never answered, whatever follows |
| ProtocolCauses.BreakerFollowsGuard | internal/batcher/batcher.go:147 | the breaker Submit reads stands as the guard last set it |
| ProtocolCauses.CancelledIff | internal/batcher/batcher.go:279-281 | a context has ended exactly if its client cancelled |
| ProtocolCauses.WaitEndIff | internal/grpcserver/server.go:120-151 | a client has left exactly if it chose to while its context had ended, and received exactly if it took a result sent to it |
| ProtocolCauses.SmallBatchesWereClosed | internal/batcher/batcher.go:427-448 | a batch below MaxBatchSize was closed by the deadline or by stopCh, never earlier |
| ProtocolCauses.CountersCountOutcomes | internal/batcher/batcher.go:261-410 | at every moment of a run the success counter is the number of successes sent and the error counter that of all other results, drain errors included |
| ProtocolStop.StopReturnIsCompleteIff | internal/batcher/batcher.go:227-235 | once Stop has the write lock, every continuation answers everyone before Stop returns exactly if nothing is queued and the main loop has nothing in hand |
| ProtocolStop.GracefulStopIsCompleteIff | cmd/sidecar/main.go:125-128 | called after the RPC server has stopped, Stop answers everyone before it returns exactly if at the call nothing is queued or in hand |
| ProtocolStop.NothingIsPromisedToLateCallers | internal/batcher/batcher.go:144-171 | called while callers may still arrive, Stop can always return with someone unanswered |
| ProtocolStop.StopMayReturnEarly | internal/batcher/batcher.go:175-235 | a schedule in which Stop returns while an accepted request is queued and unanswered |
| ProtocolStop.StopMayReturnMidDrain | internal/batcher/batcher.go:249-264 | a schedule in which Stop returns between the drain's receive and its send, the queue already empty |
| ProtocolStop.FinishFlushes | internal/batcher/batcher.go:211-214 | from any reachable state the spawned flushes can all finish with no help from main loop, clients or Stop |
| ProtocolStop.WaitGroupReuseIff | internal/batcher/batcher.go:175-234 | while Stop waits, a flush can be registered just after the tracker or a last flush has taken the counter to zero exactly if something was queued or in hand when Stop took the lock |
| ProtocolStop.StopCanReturn | internal/batcher/batcher.go:227-235 | from every reachable state Stop can be called, or carried on, and return with everything done and everyone answered |
| FlushRefinement.SingleFlushIsASchedule | internal/batcher/batcher.go:211-214 | from any reachable state a spawned flush can run alone to its end, sending each request the result of the single-flush model and moving all five counters as it says, the batch size included |
| FlushRefinement.FilterPrefix | internal/batcher/batcher.go:277-286 | filtering sends context errors to exactly the cancelled requests and keeps the others in order |
| FlushRefinement.AnswerPrefix | internal/batcher/batcher.go:381-412 | fan-out can answer the live requests one after the other without ever blocking |
| FlushConverse.WithinKept | internal/batcher/batcher.go:271-415 | every step keeps: a flush has pending only requests of its own batch |
| FlushConverse.FinishedFlushIsModelled | internal/batcher/batcher.go:271-415 | in any run a finished flush has sent every request of its batch one result, the one the single-flush model names for some contexts, ended only where the caller's had, and some exchange |
| ProtocolLiveness.WorkAfterStep | internal/batcher/batcher.go:186-258 | after stopCh is closed every step of main loop, flushes, tracker or Stop shrinks the work and nothing else changes it |
| ProtocolLiveness.Progress | internal/batcher/batcher.go:186-264 | until everything is done and Stop has returned such a step is enabled |
| ProtocolLiveness.ShutdownIsBounded | internal/batcher/batcher.go:227-258 | in any interleaving after the close the number of such steps is bounded by the work |
| ProtocolLiveness.ShutdownCompletes | internal/batcher/batcher.go:227-258 | from any state after the close such steps alone reach quiescence and Stop's return within that bound |
| VramGuard.HottestIsMaximal | internal/vramguard/vramguard.go:276-299 | the scan fails exactly if no GPU is usable, otherwise returns one with the highest ratio |
| VramGuard.NvmlReadingMeaning | internal/vramguard/vramguard.go:276-299 | in bytes: a reading exists exactly if some device answers with a positive size, and is that of the first device with the highest share, in MiB |
| VramGuard.SmiReadingMeaning | internal/vramguard/vramguard.go:348-371 | in lines: no reading exactly if a line is malformed or none has a positive total, otherwise the first line with the highest share |
| VramGuard.ReadUsageNvml | internal/vramguard/vramguard.go:276-299 | the loop over devices computes the scan |
| VramGuard.ParseSmiOutput | internal/vramguard/vramguard.go:348-371 | one malformed line fails the reading; otherwise the loop over lines computes the scan |
| VramGuard.Guard.constructor | internal/vramguard/vramguard.go:91-101 | a new guard is closed with zero usage |
| VramGuard.Guard.PollOnce | internal/vramguard/vramguard.go:154-201 | failed samples and non-positive totals change nothing; otherwise usage is stored and the breaker follows the thresholds |
| VramGuard.Guard.PollNvml | internal/vramguard/vramguard.go:154-299 | one tick over NVML devices is one step on the scanned reading |
| VramGuard.Guard.PollSmi | internal/vramguard/vramguard.go:313-371 | one tick over nvidia-smi output is one step on the parsed reading |
| VramGuard.Guard.Start | internal/vramguard/vramguard.go:117-139 | polling any list of device or nvidia-smi readings ends in the run's state, open exactly if some poll opened the breaker and none closed it later, with every failed poll counted |
| VramGuard.PollMeaning | internal/vramguard/vramguard.go:183-200 | a poll opens the breaker exactly if some usable GPU is at or above the open threshold, and closes it exactly if all usable ones are at or below the close threshold |
| VramGuard.PollByConfiguredThresholds | internal/vramguard/vramguard.go:173-200 | a poll in terms of the two configured numbers, with the default of five points below, at least zero, for a close threshold that is not positive |
| VramGuard.ValidatedPoll | internal/vramguard/vramguard.go:173-200 | with validated thresholds, in bytes: an open breaker stays open exactly if some device is above the configured close percentage, a closed one opens exactly if some is at or above the open one |
| VramGuard.UsageOnRecord | internal/vramguard/vramguard.go:154-171 | the stored usage is that of the last poll that gave a reading |
| VramGuard.UsageBeforeReadings | internal/vramguard/vramguard.go:99-100 | and zero before there is one |
| VramGuard.BreakerOpenIff | internal/vramguard/vramguard.go:148-201 | after any polls the breaker is open exactly if some poll opened it and no later one was closing |
| VramGuard.RunIsTracked | internal/vramguard/vramguard.go:154-201 | the run over polls and the run over readings agree |
| VramGuard.ChangesAreFlips | internal/vramguard/vramguard.go:186-200 | the counted changes are the readings before and after which the breaker differs |
| VramGuard.HysteresisBound | internal/vramguard/vramguard.go:173-200 | k state changes need a total variation of at least (k-1) times the band between the thresholds in effect, the configured ones if validated |
| VramGuard.HysteresisBoundIsTight | cmd/sidecar/main.go:235-245 | for validated thresholds the bound with the configured band is attained for every number of changes |

## Left out

- The FFI and CGo wrappers: pointer, NUL and UTF-8 conversion, panic containment, `i32` casts of counts. Text is a sequence of characters, counts are unbounded.
- Which characters are whitespace: a parameter of splitting, so every theorem holds for any choice.
- Ids are unbounded in the maps; the 32-bit cast is treated by `BpeEncoding.TruncatedIdsDistinctIff` alone.
- HTTP, JSON and base64 encoding, Ollama and asyncio internals: the exchange with the backend is a function of the payload returning a marshalling, request-building or transport failure, or a status with an optional decoded list.
- Transport failures and timeouts between sidecar and backend are a case of `Fanout.Exchange`, not of `PythonBackend.Serve`, which is the completed exchange. Prompts come from the RPC server, where an empty one is a nil slice.
- The panic Go raises when a wait group is reused: after the window of `ProtocolStop.WaitGroupReuseIff` the model's Stop goes on waiting.
- Error texts are kept as opaque strings; wrapping of an already wrapped error does not occur in the flush and is not modelled.
- Clocks: timers, tickers and the collection window are steps that may happen at any time; `dynamicWaitMs`, the request count that feeds it and latency values are parameters or absent.
- Submit, Start, Stop and collectBatch are modelled as protocol steps and not as methods, because their meaning is their interleaving.
- One caller of Stop; further callers only wait for the first.
- In the protocol the answer of a live request is success or error; which one it is comes from the single-flush model, by `FlushRefinement.SingleFlushIsASchedule`.
- Metrics are present: the nil checks around the guard's metrics are not modelled.
- The rejection counters (queue full, circuit open, token limit), latency histogram, logging and debug tokenization.
- gRPC status mapping, token admission before Submit, health checks.
- NVML and nvidia-smi calls, and parsing of a line into numbers: a device or line is given as unreadable, blank, malformed or a pair of numbers. NaN, infinities and rounding do not occur in the reals.
- Environment parsing; the validated threshold ordering appears as `VramGuard.Validated`.
