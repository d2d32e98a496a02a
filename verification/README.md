# Noctua: a model of its hardest algorithms, with proofs

Noctua is a message broker whose tree carries the libraries it is built with. This project models, in
Dafny, the parts of that tree whose correctness is hardest to see from the code, and proves what they
promise over every input, every run and every interleaving.

| file | what it models |
|---|---|
| `Words.dfy`, `Memory.dfy` | fixed-width words with every wrap-around written out, byte copies, inputs in pieces |
| `Xxh3Stripes.dfy`, `Xxh3Secret.dfy`, `Xxh3State.dfy` | the XXH3 stripe loop, its secrets, and the streaming state against the one-shot hash |
| `Xxh3History.dfy` | one XXH3 state over its whole life: resets, updates and digests in any order |
| `Xxh3Kernel.dfy` | the arithmetic below the stripes: scalar lanes, vector registers, NEON mix, 64 x 64 multiply |
| `XxhBlocks.dfy`, `Xxh32.dfy`, `Xxh64.dfy` | the two older hashes, streaming against one-shot, and their rounds in numbers |
| `XxhAnswers.dfy` | known answers of the two, some of them from the library's test vectors |
| `Topic.dfy` | push, read and remove of a topic as interleaved steps over locks, queues and the write-ahead log, each change of a queue or the log in one step |
| `TopicMemory.dfy` | the same calls with every load and store a step of its own: linked nodes, head, tail and size, and the log's stream buffer; a refinement of `Topic.dfy` |
| `TopicRuns.dfy` | what follows for every interleaving of the loads and stores |
| `TopicBatch.dfy` | how many concurrent removes a partition bears |
| `Delete.dfy` | what the session's OK to a delete says |
| `SharedMutex.dfy` | the reader/writer lock the partitions use, as it is implemented |
| `MessageQueue.dfy` | the linked queue of a partition |
| `Wire.dfy` | the wire protocol: client printer, session parser, responses, the internal request |
| `Barrier.dfy` | the benchmark barrier whose threads may leave for good |
| `Scheduler.dfy` | the benchmark run scheduler: repetitions in any order, family records |
| `Arguments.dfy`, `Ranges.dfy` | the odometer product and the ranges spaced by powers |
| `Transform.dfy` | the expansion of a docopt usage pattern into one Either |
| `Base64.dfy` | the Base64 codec, after section 4 of RFC 4648 |

How the parts are modelled:

* Code that changes an object step by step is a class or a method over arrays, proved against a
  reference function; concurrent code is a state machine whose labels are the steps, and a theorem
  about it speaks of every legal sequence of labels. In the topic and barrier modules the number of threads
  or calls is arbitrary, and so is their order.
* Integers are unbounded and carry their width in their types (`byte`, `u32`, `u64`), so that each
  wrap-around of the source is written where it happens. Exclusive or is taken byte
  by byte.
* The XXH3 streaming proof is generic in the two lane operations, in the final mixing and in the
  result type, so one theorem covers the 64-bit and the 128-bit digest and every vector form.
  `Xxh3Kernel` then shows that all vector forms are the same two lane operations.

## What the code does not promise

Where the code falls short of its documentation or of what a caller would expect, the model follows
the code, one lemma gives a concrete case, and another says exactly when the code is right.

* **The reader/writer lock admits a reader beside a writer** (`SharedMutex.ReaderBesideWriter`). The
  unlock of a writer hands the lock to the waiting readers one at a time and lets its internal mutex
  go in between; a writer that comes in the gap, after the readers admitted so far have left, gets the
  lock, and the loop then admits the next reader. `SharedMutex.AskIff` proves when a caller may ask for
  the write lock: as long as nobody else asks, readers and writers stay apart if and only if no unlock
  was between two of its grants at that moment.
* **Two removes of the last message can read the front of an empty queue** (`TopicBatch.RaceToEmpty`):
  both pass the first test; once the first has popped, the second follows a null pointer.
  `TopicRuns.MemoryBearsIff` proves that an idle partition bears k concurrent removes in every
  interleaving if and only if it holds at least k messages.
* **The session answers a delete with OK even when remove returned false** (`Delete.OkWithoutPop`;
  src/rpc/rpc-session.h:239-241 drops the result). `Delete.OkMeansPoppedIff` proves that the message
  was popped if and only if neither front read of that call met another message.
* **A message of 65536 bytes is stored as an empty one** (`MessageQueue.TooLongByOne`).
  `MessageQueue.ViewIsWhole` proves that a message survives if and only if it has at most 65535 bytes.
* **A family whose runs were all skipped makes the scheduler read the front of an empty list**
  (`Scheduler.OneSkippedFamily`; third-party/benchmark/src/benchmark.cc:507-508).
  `Scheduler.RunBenchmarks` proves that this is met if and only if some family's repetitions are all
  skipped, whatever the shuffle.
* **The Base64 decoder skips blanks, but not everywhere** (`Base64.BlankInPadding`): a blank in front of
  the last character of a group, behind a padding character, makes one byte too many come out.
  `Base64.BlanksInText` proves that a text decodes as without its blanks if and only if there is no such
  place, and that every such place costs one byte.

Two more things follow the code rather than a first guess. A log record is flushed before the queue
changes, so a queue may lag the log by one operation, and by no more (`TopicRuns.FileReplays`). The
iterator that push returns, like back, is that of the head (`MessageQueue.Queue.Push`).

## Model

| member | source | states |
|---|---|---|
| Xxh3State.HashPieces | third-party/xxhash/xxhash.h:6456-6595 | For every keying, every way of cutting an input below 2^64 bytes into pieces, and a digest after every piece, each digest is the one-shot hash of what was fed so far |
| Xxh3History.RunHistory | third-party/xxhash/xxhash.h:6324-6595 | Over every history of resets of all kinds, updates and digests on one state, each digest is the one-shot hash, under the mode of the last successful reset, of what was fed since then |
| Xxh3State.State.Update | third-party/xxhash/xxhash.h:6456-6533 | From a state that has absorbed data, an update leads to one that has absorbed data followed by the input: lanes and stripe counter of all consumed stripes, the unread tail, and the last 64 bytes kept at the end of the buffer |
| Xxh3State.State.DigestLong | third-party/xxhash/xxhash.h:6544-6577 | Above 240 bytes the buffered tail, or the bytes kept from before it, complete the lanes to exactly those of the flat loop over the whole input |
| Xxh3State.State.Digest | third-party/xxhash/xxhash.h:6580-6595 | A digest at any point is the reference hash of the absorbed data under the state's keying, and leaves the state alone |
| Xxh3State.State.CompleteBuffer | third-party/xxhash/xxhash.h:6490-6508 | A full buffer is consumed as the four stripes of the data that it holds, and the position in the block moves with it |
| Xxh3State.State.ReadStripes | third-party/xxhash/xxhash.h:6509-6519 | Whole stripes are read straight from the input; between 1 and 64 bytes stay unread, and the 64 bytes before them are kept |
| Xxh3State.State.KeepRest | third-party/xxhash/xxhash.h:6520-6530 | What is left after the stripes becomes the buffered tail of a state that has absorbed everything |
| Xxh3State.State.CurrentSecret | third-party/xxhash/xxhash.h:6580-6584 | The secret a digest uses is the one the keying asks for, external or derived |
| Xxh3State.State.Reset | third-party/xxhash/xxhash.h:6353-6358 | After a reset from any state, whatever was reset or fed before, the state has absorbed nothing under the default keying |
| Xxh3State.State.ResetWithSecret | third-party/xxhash/xxhash.h:6361-6369 | Succeeds exactly for a secret of at least 136 bytes, and then the state has absorbed nothing under that secret |
| Xxh3State.State.ResetWithSeed | third-party/xxhash/xxhash.h:6372-6381 | Skipping the derivation when the seed looks unchanged is harmless: the state has absorbed nothing under the seed, whatever calls came before |
| Xxh3State.State.ResetWithSecretAndSeed | third-party/xxhash/xxhash.h:6384-6393 | Succeeds exactly for a secret of at least 136 bytes; otherwise the state is untouched |
| Xxh3State.State.ResetInternal | third-party/xxhash/xxhash.h:6324-6349 | All counters start over, and block length and secret limit follow from the secret's size |
| Xxh3State.OneShot | third-party/xxhash/xxhash.h:6183-6215 | The four one-shot entry points compute the reference hash of their keying; seed zero is the default, and short inputs under secret and seed use the default secret |
| Xxh3State.Internal | third-party/xxhash/xxhash.h:6160-6180 | Up to 240 bytes the short hash of seed and secret, above that the long hash |
| Xxh3Stripes.HashLongLoop | third-party/xxhash/xxhash.h:5987-6018 | The block-wise loop computes the stripe-by-stripe reference, with a scramble just at every block end and the last 64 bytes under their own part of the secret |
| Xxh3Stripes.LongHashIsBlockForm | third-party/xxhash/xxhash.h:5987-6018 | For every kernel, secret and input, the long hash in slices and numbers: each full block of (secret size - 64) / 8 stripes is mixed under secret[8j..8j+64] and scrambled under the last 64 bytes of the secret; the last 64 bytes of the input are mixed under the 64 bytes that end 7 before the secret's end |
| Xxh3Stripes.ConsumeStripes | third-party/xxhash/xxhash.h:6412-6446 | From any position in a block, any number of stripes has the effect of feeding them one at a time, the position included |
| Xxh3Stripes.StripesSplit | third-party/xxhash/xxhash.h:6412-6446 | Feeding m + n stripes is feeding m and then n, across block ends |
| Xxh3Stripes.StripesMoved | third-party/xxhash/xxhash.h:6412-6446 | The effect of stripes depends on their bytes only, not on whether they lie in the buffer or in the input |
| Xxh3Stripes.AccumulateIsStripes | third-party/xxhash/xxhash.h:4894-4910 | Inside one block, stripe-wise feeding is the accumulate loop, with one scramble if it reaches the block's end |
| Xxh3Secret.InitCustomSecret | third-party/xxhash/xxhash.h:5858-5918 | The written secret is the default one with the seed added to, or subtracted from, its 64-bit words in turn |
| Xxh3Secret.WordsAreSecret | third-party/xxhash/xxhash.h:5905-5917 | 24 little-endian words fix all 192 bytes of the derived secret |
| Xxh3Secret.DerivedWords | third-party/xxhash/xxhash.h:5905-5917 | Read back as 64-bit words, the derived secret is the default one plus the seed and minus the seed in turn, modulo 2^64 |
| Xxh3Secret.SeedZero | third-party/xxhash/xxhash.h:6117-6135 | The secret derived from seed 0 is the default one, so skipping the derivation for it changes nothing |
| Xxh3Constants.InitAccOfPrimes | third-party/xxhash/xxhash.h:6064-6065 | The initial lanes, and the multiplier of the scramble, are the primes of XXH32 and XXH64 |
| Xxh3Kernel.ScalarAccumulate512 | third-party/xxhash/xxhash.h:5777-5816 | Eight sequential scalar rounds, each touching a lane and its neighbour, give the simultaneous lane update |
| Xxh3Kernel.LaneLaw | third-party/xxhash/xxhash.h:5777-5802 | In numbers: a lane gains its neighbour's word and the product of the low and the high half of its own word under the key, modulo 2^64 |
| Xxh3Kernel.ScrambleLaw | third-party/xxhash/xxhash.h:5825-5842 | In numbers: a lane is folded with its top 17 bits and the key word, and multiplied by the first 32-bit prime, modulo 2^64 |
| Xxh3Kernel.VectorAccumulate512 | third-party/xxhash/xxhash.h:5068-5100 | Registers of 2, 4 or 8 lanes give the same lanes as the scalar rounds |
| Xxh3Kernel.NeonAccumulate512 | third-party/xxhash/xxhash.h:5308-5433 | For every even split, scalar lanes first, then registers two at a time with their halves de-interleaved, then a last single register, give the same lanes again |
| Xxh3Kernel.NeonFour | third-party/xxhash/xxhash.h:5347-5409 | De-interleaving two registers into low and high halves and multiplying those gives four lanes their own products and their neighbours' data |
| Xxh3Kernel.AccumulateInPlace | third-party/xxhash/xxhash.h:4894-4910 | Whatever form is compiled in, the accumulate loop over any number of stripes is the one the streaming proof uses |
| Xxh3Kernel.VectorScramble | third-party/xxhash/xxhash.h:5103-5129 | The vector scramble, made of two 32-bit products, equals the scalar scramble in every lane |
| Xxh3Kernel.ScalarScramble | third-party/xxhash/xxhash.h:5825-5856 | The scalar loop scrambles every lane under its own word of the secret |
| Xxh3Kernel.ScrambleProducts | third-party/xxhash/xxhash.h:5119-5126 | Low product plus shifted high product is the product modulo 2^64 |
| Xxh3Kernel.Mult64to128 | third-party/xxhash/xxhash.h:4537-4551 | low64 + high64 * 2^64 is the exact product of any two 64-bit words |
| Xxh3Kernel.Mult64to128Exact | third-party/xxhash/xxhash.h:4537-4551 | Neither cross nor upper leaves 64 bits, for all inputs |
| Xxh3Kernel.OrDisjoint | third-party/xxhash/xxhash.h:4547-4547 | The bitwise or that joins the lower half is an addition, since the bits are disjoint |
| XxhBlocks.ConsumeLong | third-party/xxhash/xxhash.h:3017-3038 | The loop mixes exactly the whole blocks of the input and stops at what is shorter than a block |
| XxhBlocks.Feed | third-party/xxhash/xxhash.h:3231-3273 | After any input the lanes have mixed just the whole blocks of everything fed so far, and the buffer holds the rest |
| XxhBlocks.BlocksSplit | third-party/xxhash/xxhash.h:3536-3566 | Mixing m + n blocks is mixing m and then n |
| XxhBlocks.BlocksInOrder | third-party/xxhash/xxhash.h:3017-3038 | Block n is the n-th piece of the block's length, and it meets the lanes that the blocks before it left |
| Xxh32.HashPieces | third-party/xxhash/xxhash.h:3231-3291 | Any split of an input of any length, also beyond 2^32 bytes where the counter wraps, gives the one-shot hash after every piece |
| Xxh32.LengthCounter | third-party/xxhash/xxhash.h:3240-3241 | The flag is set exactly when the true total has reached 16, although the counter only knows the total modulo 2^32 |
| Xxh32.State.Update | third-party/xxhash/xxhash.h:3231-3273 | An update absorbs exactly its input, for every total length |
| Xxh32.State.Digest | third-party/xxhash/xxhash.h:3277-3291 | The digest is the reference hash of the absorbed data |
| Xxh32.OneShot | third-party/xxhash/xxhash.h:3156-3177 | The one-shot function is the reference hash |
| Xxh32.RoundLaw | third-party/xxhash/xxhash.h:2928-2932 | In numbers: add the product with the second prime, rotate by 13, multiply by the first prime, modulo 2^32 |
| Xxh32.AvalancheLaw | third-party/xxhash/xxhash.h:2985-2993 | In numbers: two folds by 15 and 13 bits, each followed by a product, and a fold by 16 |
| Xxh32.MergeLaw | third-party/xxhash/xxhash.h:3045-3055 | In numbers: the lanes rotated by 1, 7, 12 and 18 and added |
| Xxh32Answers.Empty | third-party/xxhash/cli/xsum_sanity_check.c:102-102 | The empty input under seed 0 hashes to 0x02CC5D05 |
| Xxh32Answers.SixteenZeros | third-party/xxhash/xxhash.h:3156-3177 | Sixteen zero bytes under seed 0 hash to 0x8E022B3A |
| Xxh32Answers.Vector21 | third-party/xxhash/xxhash.h:3156-3177 | The test buffer's first 21 bytes under seed 0x9E3779B1 hash to 0x9668CDAB: a block, a word and a byte |
| Xxh32.FinalizeLoop | third-party/xxhash/xxhash.h:3068-3096 | The rolled finalizer mixes the last bytes by fours and then one at a time |
| Xxh32.FinalizeJump | third-party/xxhash/xxhash.h:3097-3138 | The unrolled jump table computes the same as the rolled finalizer for all sixteen remainders |
| Xxh64.HashPieces | third-party/xxhash/xxhash.h:3727-3786 | Any split of an input below 2^64 bytes gives the one-shot hash after every piece |
| Xxh64.State.Update | third-party/xxhash/xxhash.h:3727-3768 | An update absorbs exactly its input; the low bits of the counter always give the buffered length |
| Xxh64.State.Digest | third-party/xxhash/xxhash.h:3772-3786 | The digest is the reference hash of the absorbed data |
| Xxh64.OneShot | third-party/xxhash/xxhash.h:3654-3674 | The one-shot function is the reference hash |
| Xxh64.RoundLaw | third-party/xxhash/xxhash.h:3469-3473 | In numbers: add the product with the second prime, rotate by 31, multiply by the first prime, modulo 2^64 |
| Xxh64.MergeRoundLaw | third-party/xxhash/xxhash.h:3494-3500 | In numbers: a lane is mixed in by an exclusive or with its own round, a product and a sum |
| Xxh64.Process8Law | third-party/xxhash/xxhash.h:3615-3621 | In numbers: eight bytes are mixed in by a round of their own, an exclusive or, a rotation by 27, a product and a sum |
| Xxh64.AvalancheLaw | third-party/xxhash/xxhash.h:3503-3511 | In numbers: two folds by 33 and 29 bits, each followed by a product, and a fold by 32 |
| Xxh64Answers.Empty | third-party/xxhash/cli/xsum_sanity_check.c:114-114 | The empty input under seed 0 hashes to 0xEF46DB3751D8E999 |
| Xxh64Answers.Vector45 | third-party/xxhash/xxhash.h:3654-3674 | The test buffer's first 45 bytes under seed 0x9E3779B1 hash to 0x66BDA694A1FD3023: a block, eight bytes, four and one |
| Xxh64.Finalize | third-party/xxhash/xxhash.h:3610-3641 | The finalizer mixes the last bytes by eights, then four, then one at a time |
| TopicMemory.Simulates | src/topic.h:55-116 | Every interleaving of the loads and stores of any number of pushes, reads and removes is, under the partition locks and the log mutex, a run in which whole queues and the whole log change at once |
| TopicMemory.Refines | src/messages/message-queue.h:138-165 | A load or store that is not the last of its operation changes nothing that another call can see, and the last one has the whole operation's effect |
| TopicMemory.StepKeeps | src/topic.h:55-116 | What a call has loaded stays what is in memory for as long as it holds its lock; a queue nobody is changing is a chain of live nodes from head to tail of the stated size; a log stream nobody holds is empty |
| TopicRuns.NoUseAfterFree | src/messages/message-queue.h:138-165 | No call ever reads, links or gives back a node that a pop has already given back |
| TopicRuns.Flow | src/topic.h:67-115 | In every interleaving the messages of the nodes given back, followed by those found by walking from head, are the messages pushed, in order |
| TopicRuns.WalkIsQueue | src/messages/message-queue.h:106-147 | While nobody changes a queue, following the links from head yields as many messages as the size says, and they are the queue |
| TopicRuns.RemoveOutcome | src/topic.h:87-116 | A remove that returned true gave back one node, which held its own message; one that returned false gave back none, having found another message at the front |
| TopicRuns.ReadOutcome | src/topic.h:76-85 | A read that has returned took its lock in one step and gave it back in a later one; in every state between the two the links of its partition held one queue, and the read returned the front of that, or nothing exactly if it was empty |
| TopicRuns.PushOutcome | src/topic.h:55-74 | A push that has returned linked one node, which holds its own message; a read or a remove links none |
| TopicRuns.FileReplays | src/topic.h:67-73 | The file replays to each queue, but for the one operation whose call has flushed its record and still holds the write lock; with no such call it replays to what the links hold |
| TopicRuns.FileIsWhole | src/wall/wall-writer.h:31-34 | No record is lost, doubled or torn by another call's store: the file is the stored records, in the order of the flushes |
| TopicRuns.AnsweredIsInFile | src/topic.h:55-116 | Once a push or a successful remove has returned, its record has a place of its own in the file |
| TopicRuns.FileGrows | src/wall/wall-writer.h:31-34 | No later step changes or drops a flushed record |
| TopicRuns.NeverStuck | src/topic.h:67-72 | Taking the partition lock before the log mutex never deadlocks: while a call is unfinished some call can step, or a remove stands before an empty queue |
| TopicRuns.MemoryCallBound | src/topic.h:55-116 | Every call returns within 22 loads, stores and lock operations of its own |
| TopicRuns.Realise | src/topic.h:55-116 | Conversely, every continuation of the coarse model is brought about by loads and stores, so what it shows to be possible is possible |
| TopicRuns.MemoryBearsIff | src/topic.h:91-105 | An idle partition bears a batch of k removes in every interleaving, none of them reading through a null pointer, if and only if its size is at least k |
| TopicBatch.BearsIff | src/topic.h:91-105 | With whole-queue steps, too, k concurrent removes on an idle partition never meet an empty front if and only if it holds at least k messages |
| TopicBatch.CoveredIsDefined | src/topic.h:93-105 | If removes are started only while their partition holds more messages than removes that may still pop, no front read ever meets an empty queue, also when the partition is never idle |
| TopicBatch.RaceToEmpty | src/topic.h:91-105 | The double check is not enough: a run in which two removes of the last message pass the first test, and the second front read of one meets an empty queue |
| Topic.Invariant | src/topic.h:55-116 | In every reachable state of the coarse model the log replays to each queue, or to that queue with the one operation performed whose call holds the write lock and has stored its record; locks exclude each other |
| Topic.Outcome | src/topic.h:87-116 | A push returns only after storing its record; a remove returns true exactly when it popped one message, equal to its own, and false only when it saw another at the front and changed nothing |
| Topic.RemoveFalse | src/topic.h:91-107 | A remove that returned false found, at one of its own steps, a different message at the front of its partition |
| Topic.SeenMeansFront | src/topic.h:92-105 | What a call saw really was at the front at that moment of the run |
| Topic.LogLossless | src/topic.h:67-73 | Cutting a run anywhere, the log's removes followed by the replayed queue are the log's pushes, in order |
| Delete.OkMeansPoppedIff | src/rpc/rpc-session.h:236-241 | An OK to a delete means that its message was popped if and only if neither front read of its remove met another message; otherwise the call popped nothing |
| Delete.FailedIsMet | src/topic.h:91-107 | A remove has failed exactly when one of its front reads met another message |
| Delete.OkWithoutPop | src/rpc/rpc-session.h:236-241 | A run in which a delete is answered with OK although its remove returned false and the partition holds what it held |
| SharedMutex.AskIff | src/common/fibers/sync-primitives/shared-mutex.h:16-173 | After a disciplined run, asking for the write lock leaves readers and writers apart in every continuation in which nobody else asks, if and only if no unlock is between two of its grants |
| SharedMutex.DisciplineIsSafe | src/common/fibers/sync-primitives/shared-mutex.h:16-173 | If nobody ever asks for the write lock while an unlock has not returned, readers and writers stay apart in all states and no waiter is forgotten |
| SharedMutex.LostWhileDraining | src/common/fibers/sync-primitives/shared-mutex.h:139-173 | A lock that is handing out with a writer active or queued is lost: readers alone can bring a reader beside the writer |
| SharedMutex.SafeIff | src/common/fibers/sync-primitives/shared-mutex.h:139-173 | A run keeps readers and writers apart in every state if and only if none of its steps is a grant that the loop makes while a writer is active |
| SharedMutex.ReaderBesideWriter | src/common/fibers/sync-primitives/shared-mutex.h:139-160 | A run that ends with one reader and one writer holding the lock |
| Barrier.Invariant | third-party/benchmark/src/mutex.h:104-150 | The counters always are the threads not removed and the threads waiting in the current phase; no waiter lags by more than one phase; no sleeper is forgotten |
| Barrier.CheckHolds | third-party/benchmark/src/mutex.h:133-133 | The check entered < running never fails, with threads entering and leaving in any order |
| Barrier.WakeupPending | third-party/benchmark/src/mutex.h:132-146 | A sleeper whose wake condition holds has a notification coming |
| Barrier.NoDeadlock | third-party/benchmark/src/mutex.h:104-118 | When all threads that are left are inside a call, one of them can step without a spurious wake-up |
| Barrier.Lockstep | third-party/benchmark/src/mutex.h:132-150 | A thread that is left has entered every phase before the current one, the current one just if it waits there, and has left all but the one it is in |
| Barrier.NobodyLeavesEarly | third-party/benchmark/src/mutex.h:129-131 | No thread leaves a phase before every thread that is not removed has entered it |
| Barrier.PhaseEnds | third-party/benchmark/src/mutex.h:146-149 | When a phase ends every other remaining thread waits in it |
| Barrier.OneTruePerPhase | third-party/benchmark/src/mutex.h:104-112 | Exactly one wait per phase returns true |
| MessageQueue.Queue.Push | src/messages/message-queue.h:138-150 | The contents grow by the message at the end, the chain stays acyclic and complete, exactly one node is made, and the iterator returned is the head's |
| MessageQueue.Queue.Pop | src/messages/message-queue.h:152-165 | The oldest message goes and its node is given back; nothing happens to an empty queue |
| MessageQueue.Queue.Destroy | src/messages/message-queue.h:96-104 | Afterwards every node ever made has been given back, and each exactly once |
| MessageQueue.Queue.Front | src/messages/message-queue.h:130-132 | Null exactly for the empty queue, otherwise the node of the oldest message |
| MessageQueue.Queue.Empty | src/messages/message-queue.h:171-173 | The size counter is zero exactly when there is no message |
| MessageQueue.Queue.Walk | src/messages/message-queue.h:106-120 | Iterating from begin to end visits the contents in order |
| MessageQueue.Replay | src/messages/message-queue.h:138-165 | Any mix of pushes and pops behaves like the same mix on a sequence |
| MessageQueue.ViewIsWhole | src/messages/message.h:60-75 | A message survives in a node if and only if its length fits 16 bits |
| MessageQueue.TooLongByOne | src/messages/message.h:60-75 | A message of 65536 bytes comes back empty |
| Wire.SessionRecovers | src/rpc/rpc-session.h:88-138 | From the encodings of any requests within the limits, whatever the session dispatches by its rules is exactly those requests, in order, with nothing left over |
| Wire.Conversation | src/rpc/rpc-session.h:88-138 | For any requests within the limits, printed by the client, read and answered by the session loop and read back in two steps, the client gets the answer to each request, in order |
| Wire.OneReading | src/rpc/rpc-session.h:94-132 | A byte stream is cut into requests in one way only |
| Wire.SendRequest | src/rpc/rpc-client.h:76-97 | For topic and message of at most 65535 bytes, the bytes sent are the encoding that the session's reading is proved against |
| Wire.RequestBytes | src/rpc/rpc-protocol.h:31-37 | A push of "bc" to partition 258 of topic "a", byte by byte |
| Wire.ReadRequest | src/rpc/rpc-session.h:91-132 | One round of the loop reads exactly one encoded request off the stream, or stops for a reason that the stream shows |
| Wire.HandleRequests | src/rpc/rpc-session.h:88-138 | The loop dispatches the longest beginning of the stream that consists of requests, writes one response for each in order, and one error response if it had to stop for bad input |
| Wire.FarewellBytes | src/rpc/rpc-session.h:103-114 | The bytes sent before the session closes: an internal error with "Invalid magic number" under the opcode of a push, or with "Data too large" under the request's own opcode; none when the stream just ends |
| Wire.ExplainsNoRequest | src/rpc/rpc-session.h:99-114 | Where the session stops, the stream does not start with a request within the limits |
| Wire.ReceiveAll | src/rpc/rpc-client.h:55-69 | Header first, then the announced data: the client recovers every response in order |
| Wire.CreateRequest | src/rpc/rpc-session.h:281-306 | The accessors of the internal request give back topic, partition and message |
| Wire.RequestFields | src/common/request.h:20-41 | Any buffer that starts with the three fields, topic and message is read back as those |
| Scheduler.EveryReportOnce | third-party/benchmark/src/benchmark.cc:465-513 | Under every shuffle each runner is reported exactly once and each family's complexity is computed exactly once |
| Scheduler.ReportedOnce | third-party/benchmark/src/benchmark.cc:482-512 | A runner's report comes with its last repetition, not before and not again |
| Scheduler.ComplexityOnce | third-party/benchmark/src/benchmark.cc:500-510 | A family's complexity is computed when all its repetitions are done, once |
| Scheduler.FamilyComplete | third-party/benchmark/src/benchmark.cc:501-502 | The family counters agree exactly when all runners of the family are done |
| Scheduler.ShuffleKeepsQuota | third-party/benchmark/src/benchmark.cc:465-480 | Any permutation of the filled list gives each runner exactly its repetitions |
| Scheduler.RunBenchmarks | third-party/benchmark/src/benchmark.cc:437-513 | Each repetition finds repeats remaining and its family's record not yet erased, gives back its runner's next reference result, and the reference events come out; a step is undefined if and only if all repetitions of some family are skipped, whatever the shuffle, and then it is the last repetition of such a family |
| Scheduler.KeepsNoneIff | third-party/benchmark/src/benchmark.cc:500-508 | A family keeps no run in some order if and only if each repetition of each of its instances is skipped, so the shuffle plays no part |
| Scheduler.OneSkippedFamily | third-party/benchmark/src/benchmark.cc:507-508 | A family of one benchmark whose only repetition is skipped meets the undefined step |
| Scheduler.KeptStays | third-party/benchmark/src/benchmark_runner.cc:556-561 | Once a family's repetitions are done, nothing is added to its kept runs |
| Scheduler.Runner.DoOneRepetition | third-party/benchmark/src/benchmark_runner.cc:486-566 | Repetition k is the k-th call after the one that settled the iteration count, with the settled count; counters and records move by exactly one |
| Scheduler.Runner.MeasureBatch | third-party/benchmark/src/benchmark_runner.cc:486-532 | Only the first repetition may grow the count, and it keeps the first batch that is long enough |
| Scheduler.Runner.RunWarmUp | third-party/benchmark/src/benchmark_runner.cc:422-456 | The warm-up ends, and leaves no trace but its flag and the calls it made |
| Scheduler.FirstRepetition | third-party/benchmark/src/benchmark_runner.cc:392-456 | The calls made for the warm-up and for the first repetition: every batch but the last is unskipped, no dry run, below 10^12 iterations, short of the minimum time and, unless timed by hand, of five times that in real time; the last one is not, and its call and iterations are the settled ones. An explicit count is taken as it is |
| Scheduler.UntilLongEnough | third-party/benchmark/src/benchmark_runner.cc:517-531 | The same for any minimum time and first count: each call asks for what the batch before it predicts, until one is long enough |
| Scheduler.SettlesAt | third-party/benchmark/src/benchmark_runner.cc:392-406 | With half a second asked for, 0.6 s for one iteration settle at once; with 0.1 s for one iteration the second call settles, with seven |
| Scheduler.PredictGrowth | third-party/benchmark/src/benchmark_runner.cc:368-390 | In exact arithmetic the count grows tenfold behind a batch of at most a tenth of the minimum time, and otherwise to 1.4 times the minimum time at the measured rate, to the nearest count; by one at least, never above the limit |
| Scheduler.ExpansionBound | third-party/benchmark/src/benchmark_runner.cc:371-379 | In exact arithmetic no batch is more than 14 times the one before it, as the comment in the source promises |
| Scheduler.Predict | third-party/benchmark/src/benchmark_runner.cc:368-390 | However the floating-point products and quotients are rounded, a batch that is not reported is followed by one with strictly more iterations, never above the limit |
| Arguments.TupleAt | third-party/benchmark/src/benchmark_register.cc:282-308 | The tuple at place i has at position p the argument number i / (product of the earlier lengths) % (length of list p) of list p |
| Arguments.TupleOccurs | third-party/benchmark/src/benchmark_register.cc:282-308 | Every way to take one argument from each list is among the appended tuples |
| Arguments.OnceIff | third-party/benchmark/src/benchmark_register.cc:282-308 | Unless a list is empty, no tuple is appended twice if and only if no list holds an argument twice |
| Arguments.TwoByTwo | third-party/benchmark/src/benchmark_register.cc:282-308 | [[1, 2], [3, 4]] gives [1, 3], [2, 3], [1, 4], [2, 4], in this order |
| Arguments.EveryTupleOnce | third-party/benchmark/src/benchmark_register.cc:282-308 | Every choice of one index per list is made at exactly one place of the product |
| Arguments.ProductArgsAt | third-party/benchmark/src/benchmark_register.cc:294-299 | The i-th tuple is the one with the digits of i in the mixed radix of the list lengths |
| Arguments.DigitAt | third-party/benchmark/src/benchmark_register.cc:301-304 | Position p shows i divided by the product of the earlier lengths, modulo its own length |
| Arguments.ComesRound | third-party/benchmark/src/benchmark_register.cc:301-305 | After the last tuple the odometer is back at all zeros |
| Arguments.Benchmark.ArgsProduct | third-party/benchmark/src/benchmark_register.cc:282-308 | Appends the whole product in odometer order, nothing when a list is empty, and leaves the counter at zero |
| Arguments.Advance | third-party/benchmark/src/benchmark_register.cc:301-304 | The carry loop stays in bounds and counts one up in the mixed radix |
| Ranges.AddRange | third-party/benchmark/src/benchmark_register.h:60-105 | For all values of the type, extremes included, the segment strictly increases from lo to hi and holds between them exactly zero and the powers of both signs; no step leaves the type |
| Ranges.AddPowers | third-party/benchmark/src/benchmark_register.h:16-38 | Appends exactly the powers in the closed interval, in increasing order |
| Ranges.AddNegatedPowers | third-party/benchmark/src/benchmark_register.h:40-58 | Appends exactly the negated powers in the closed interval, in increasing order, without negating a value that has no negation |
| Ranges.GuardIsExact | third-party/benchmark/src/benchmark_register.h:32-34 | The guard breaks the loop exactly when the multiplication would leave the type |
| Transform.Transform | third-party/fmt/support/docopt.py:72-96 | The worklist empties on every finite pattern, every case holds leaves only, and the cases, as a multiset of leaf multisets, are those of the recursive expansion |
| Transform.FourCases | third-party/fmt/support/docopt.py:75-75 | The example of the source: -a or -b, followed by -c or -d, has the cases -a -c, -a -d, -b -c and -b -d |
| Transform.Samples | third-party/fmt/support/docopt.py:75-95 | A repeated leaf counts twice, an optional one counts, two alternatives are a case each, and required leaves share one |
| Transform.Expand | third-party/fmt/support/docopt.py:84-94 | Replacing a group keeps the multiset of all cases, and makes the remaining work strictly smaller |
| Transform.EitherInPlace | third-party/fmt/support/docopt.py:88-90 | One group per alternative, moved to the front, has the cases of the group it came from |
| Transform.MoveToFront | third-party/fmt/support/docopt.py:91-94 | Putting a branch's children in front of the leaves that stood before it changes no case |
| Transform.LeavesInFront | third-party/fmt/support/docopt.py:86-94 | Leaves in front of a group belong to every one of its cases |
| Base64.RoundTrip | third-party/yaml-cpp/src/binary.cpp:9-99 | Decoding undoes encoding, for every byte string |
| Base64.EncodeBase64 | third-party/yaml-cpp/src/binary.cpp:9-45 | Shifts and masks give the six-bit digits of the 24-bit groups of RFC 4648, in exactly 4 * ceil(n / 3) characters, inside the buffer sized up front |
| Base64.Alphabet | third-party/yaml-cpp/src/binary.cpp:6-7 | The 64 letters are those of Table 1 in section 4 of RFC 4648, in its order |
| Base64.Foreign | third-party/yaml-cpp/src/binary.cpp:47-66 | The decoding table marks exactly what is neither in the alphabet nor the padding character, and the blanks are the six of the C locale |
| Base64.PlusAndSlash | third-party/yaml-cpp/src/binary.cpp:6-45 | The bytes FB FF BF are encoded as +/+/ |
| Base64.EncodedLength | third-party/yaml-cpp/src/binary.cpp:12-44 | The encoded text has exactly 4 * ceil(n / 3) characters |
| Base64.DecodeBase64 | third-party/yaml-cpp/src/binary.cpp:68-99 | Decodes every text to the bytes of its complete groups, over a 32-bit value that is never cleared and inside the buffer sized up front; a foreign character empties the result |
| Base64.OneBlank | third-party/yaml-cpp/src/binary.cpp:79-92 | A blank put in anywhere leaves the result alone if and only if it does not stand in front of the last character of a group behind a padding character; there, one byte too many comes out |
| Base64.BlanksInText | third-party/yaml-cpp/src/binary.cpp:79-92 | A whole text decodes to one byte more than without its blanks for every place where they stand between a padding character and the last character of a group, and to the same bytes if and only if there is no such place |
| Base64.BlankInPadding | third-party/yaml-cpp/src/binary.cpp:86-92 | The text QQ== decodes to one byte, and to two with a blank between the padding characters |
| Base64.BlanksBetweenGroups | third-party/yaml-cpp/src/binary.cpp:79-82 | Any number of blanks between complete groups changes nothing |

## Left out

- The short-input functions of XXH3 (up to 240 bytes) and the final mixing of its lanes are parameters of the streaming proof; both sides call the same ones.
- xxHash CPU detection, alignment paths, prefetch, inline assembly and hash quality; vector instructions are modelled by what they do to the lanes, and words are read little-endian.
- A null input pointer of an update is the empty input, and a state is allocated by its constructor.
- Xxh64.HashPieces: total length below 2^64 bytes, the range of the counter; the XXH32 theorem has no such bound.
- TopicMemory.Simulates: takes the partition lock to be an ordinary reader/writer lock; `SharedMutex` proves when the implementation is one. Loads and stores are sequentially consistent, node memory is not reused, and the write behind a flush is one step.
- TopicBatch.CoveredIsDefined: one direction only, for partitions that are never idle; `TopicBatch.BearsIff` has both for idle ones.
- The bytes of a log record, which are those of a struct with a pointer in it: the log is a sequence of record values, and a restart is the function that replays them.
- The hash that picks a partition for a push without one; the partition index is below the partition count (the session compares it with 3, not with the topic's own count).
- The registry of topics, and the request handlers but for the answer to a delete: the session loop is generic in the handler.
- Wire.SendRequest: says nothing when a length does not fit 16 bits, where the source writes past its buffer.
- Wire.CreateRequest: topic and message fit the 1024-byte scratch buffer, which the source does not look at.
- Sockets, the accept loop, signals, command lines and logging: a connection is its bytes.
- Packing of the node link into 47 bits and placement of the bytes behind a node: links are references.
- Move construction and assignment of the queue.
- The condition variable's and the mutex's own implementation; a notification reaches every sleeper, and a wake-up without one can happen.
- Timers, counters, reporters, statistics and the fit behind a complexity report; a benchmark is a function from call number and iterations to a result.
- Scheduler.Predict: takes rounding to be any function of the exact result; overflow, infinities and not-a-numbers are not part of it.
- Runs with fewer than one repetition.
- Transform.Transform: patterns are values, so sharing of list objects is not modelled; the source only changes lists it made itself. Leaves are equal when they print the same.
- The locale: isspace is that of the C locale.
- The rest of the tree: formatting, YAML parsing and emitting, release and build scripts.
