# Verified models of a C utility library

Dafny models of the parts of the library whose correctness rests on loops, on state changed in
place, on machine arithmetic or on the interleaving of threads: the 64-bit Mersenne Twister, the
blocking queue, the arithmetic of `java.util.Random` and the xorshift generators, the growable
bit set, the base-58 encoder, the decimal printers, and the Bitmessage varints, version message
and addresses. `dafny verify dfyconfig.toml` checks everything.

Each component is a function (or a transition relation) that says what the code computes, a method
that follows the code's loops and branches and is proved to compute it, and lemmas about the
function.

| component | modules |
|---|---|
| Mersenne Twister | `TwisterWords` (bit operations), `LaggedRecurrence` and `TablePasses` (the loops, for any word type), `MersenneTwister` (the stream), `TwisterNumbers` (its steps in numbers, and what single words contribute), `PassTheorems` and `KeySeeding` (what seeding keeps apart), `MersenneTwisterGenerator` (the generator object) |
| blocking queue | `BlockingQueue` (the linked list on the heap), `ThreadedQueue`, `ThreadedQueueProofs`, `ThreadedQueueTheorems` (all interleavings of its statements), `AtomicQueue` (what callers are promised), `QueueRefinement` (that the threads keep it), `QueueCompleteness` (that they can do all of it) |
| random numbers | `JavaRandom`, `Scramble`, `AffineMaps`, `Lcg`, `Orbits`, `XorShift` |
| bit set | `WordBits`, `BitSet` |
| radix conversion | `Radix`, `Base58`, `Base58Encoder`, `PrintInt`, `SignedNumerals` |
| wire formats | `Bytes`, `VarintCodec`, `Messages`, `PayloadBounds`, `Address` |
| shared | `Wrappers`, `DivMod`, `Bits`, `MachineIntegers` |

## How the code is read

- 64-bit and 32-bit words that are only shifted and masked are bit vectors. Other machine integers
  are integers with the range, the wrap-around or the conversion written out. Signed 32-bit overflow
  wraps in two's complement (the bound test of `nextIntWithBounds`, `24 + length` in
  `parse_message`, the negation of the least integer in `ltoa`); `1L << bitIndex` shifts by `bitIndex` modulo 64; signed division truncates.
- SHA-512 is a parameter: any function from bytes to 64 bytes. The time, the nonce, the two 26-byte
  address blocks and the random draws are parameters. The untyped pointers in the queue are integers.
- A queue event is one statement of one thread. `pthread_cond_wait` releases the mutex and waits in
  one event, and wakes by a signal or for no reason at all; `pthread_cond_signal` wakes at least one
  waiter if there is one, and may wake more (POSIX.1-2017, System Interfaces). Giving back the mutex and
  returning to the caller are two events, so other threads may run between them. Following a null or
  dangling pointer and freeing twice are an outcome of their own, `Fault`. Three fields of `Memory`
  (`chain`, `pushed`, `popped`) record history and are read by no step. What callers hand in and get
  back does not go through them: it is the label of an event, and `QueueRefinement` explains the labels
  of every run by a run of `AtomicQueue`. The contracts of `BlockingQueue.Queue.Push` and `PopReady`
  are that queue's two effects on its items (`AtomicQueue.EffectOnWaiting`).
- `init_genrand64` adds the constant 1 in every step, where the published generator adds the index.
  The model does what the code does. A generator that was never seeded counts as seeded with 5489.
- `snprintUInt64` stores at least one character, so a buffer length of 1 is excluded;
  `PrintInt.PrintsNeedTwo` shows that this is the only length it cannot handle, and
  `PrintInt.OneIsTooSmall` what would be stored. The character tables
  are given by the digit of each entry, as is the base-58 alphabet, in its six unbroken runs.
- A new bit set records eight words whatever it allocates. `BitSet.BitSet.SetStaysInside` says whether
  `bitset_set` and the check at its end touch allocated words only; it holds of every bit exactly from
  449 bits on. For 0 bits the word count wraps around to 2^58, an allocation that cannot be had, so
  that set has no words. What `realloc` leaves between the allocated and the recorded words is arbitrary.
- `init_by_array64` with key length 0 reads the first word of the key all the same.
- `parseVersionMessage` never looks at the payload's length. `None` stands for a read past the payload;
  `PayloadBounds` follows the reads through the memory behind it and shows that the two agree.
- The loops of `encodeAddress0` over leading zeros look one byte past an all-zero ripe;
  `Address.ScanStops` excludes those calls and nothing else. In the branch for versions 2 and 3 the count of zeros is
  not used, so the ripe keeps its length there.
- Block copies (`memcpy`, `memset`, `realloc`) are one step.

Properties that hold only in part are stated with their exact condition and, where the condition does
not name it already, an input that fails: `Messages.ParseStaysInside` (`OverrunExample`),
`PayloadBounds.ParseStaysInsideIff` (`ReadsPastExample`), `Address.UntruncatedIff`
(`TruncatedExample`), `SignedNumerals.ReadBackIff` (`UnreadableExample`), `PrintInt.PrintsNeedTwo`
(`OneIsTooSmall`), `KeySeeding.KeysDifferIff` (`LongKeyCollides`) and `BitSet.BitSet.New2`.

## Model

| member | source | states |
|---|---|---|
| LaggedRecurrence.Regenerate | src/random.c:95-107 | the three in-place segments, which read words already overwritten, leave exactly the next 312 words of the recurrence |
| LaggedRecurrence.ReadIsRecurrence | src/random.c:87-112 | over any number of regenerations, the n-th word read is word n of the recurrence counted from the start |
| LaggedRecurrence.WindowShift | src/random.c:95-107 | the recurrence restarted from any 312 consecutive words continues unchanged |
| LaggedRecurrence.Restart | src/random.c:87-112 | a generator given the 312 words read from some point reads on like the original |
| TwisterWords.TemperBijective | src/random.c:114-117 | tempering is a bijection on 64-bit words, with an explicit two-sided inverse |
| TwisterWords.TemperLinear | src/random.c:114-117 | tempering distributes over exclusive or |
| TwisterWords.TwistLinear | src/random.c:97-98 | the twist, selection by the lowest bit included, distributes over exclusive or |
| TwisterWords.TwistInjective | src/random.c:97-98 | the twist determines the upper bits of its first word and the lower bits of its second |
| MersenneTwister.DrawIsRecurrence | src/random.c:81-120 | output n from any state is the tempered recurrence word n places further on |
| TwisterNumbers.RecurrenceInNumbers | src/random.c:95-107 | word k + 312 from words k + 156, k and k + 1, with the masks, the shift and the matrix word written out |
| TwisterNumbers.SingleWordResponse | src/random.c:95-107 | from a table with one word that is not zero: word 156 enters the first new word unchanged, words 0 and 1 as their upper and lower bits halved, the latter with the matrix word if odd, all others not at all |
| TwisterNumbers.DrawInNumbers | src/random.c:112-119 | an output from its recurrence word by the four shifts and masks, written out |
| TwisterNumbers.SeedInNumbers | src/random.c:26-35 | the seed is word 0 and each word makes the next, with the multiplier, the shift and the added 1 written out |
| TwisterNumbers.KeyMixInNumbers | src/random.c:46-49 | a step of the first pass, written out |
| TwisterNumbers.IndexMixInNumbers | src/random.c:64-67 | a step of the second pass, written out |
| TwisterNumbers.KeyTableInNumbers | src/random.c:37-78 | the passes start from the table of seed 19650218 and take max(312, key length) and 311 steps, and word 0 ends as 2^63 |
| MersenneTwister.RecoverIsWindow | src/random.c:112-119 | untempering 312 consecutive outputs gives the table of those words |
| MersenneTwister.OutputsDetermineRest | src/random.c:81-120 | any 312 consecutive outputs, aligned to a table or not, determine every later one |
| MersenneTwister.AgreeBackwards | src/random.c:95-107 | sequences that agree from some word on agree back to the start, but for the lower 31 bits of word 0 |
| MersenneTwister.StreamsEqualIff | src/random.c:87-119 | tables that differ only in the lower 31 bits of word 0 give the same stream, and tables with the same first 312 outputs differ in nothing else |
| MersenneTwister.DrawsLinear | src/random.c:87-119 | every output from the exclusive or of two tables is the exclusive or of their outputs |
| MersenneTwister.StuckIff | src/random.c:81-120 | 312 zero outputs in a row, anywhere in the stream, happen exactly for the all-zero table (lower 31 bits of word 0 aside) |
| MersenneTwister.SeededNeverStuck | src/random.c:26-35 | no seed leads to that table |
| MersenneTwister.KeyedNeverStuck | src/random.c:37-78 | no non-empty key array does either, because the top bit of word 0 is set last |
| TablePasses.FillChain | src/random.c:26-35 | seeding fills the table with the iterates of the seeding step |
| TablePasses.MixKey | src/random.c:44-61 | the first pass stays inside both arrays, key length 0 included, and makes the table of `KeyPass`, which `PassTheorems.WholePass` describes |
| TablePasses.MixIndex | src/random.c:62-75 | the second pass of 311 steps makes the table of `IndexPass`, which `PassTheorems.IndexPassInjective` shows to lose nothing |
| PassTheorems.FirstRound | src/random.c:44-61 | after m steps the first m words are those of the round, each mixed from the word before it and the next word of the key, and the rest is untouched |
| PassTheorems.WholePass | src/random.c:44-61 | after 312 steps the round is complete, word 0 is a copy of the last word and word 1 has been mixed a second time |
| PassTheorems.IndexPassInjective | src/random.c:62-75 | tables that are equal after any number of steps of the second pass, but for word 0, were equal before |
| PassTheorems.ShortKeyShows | src/random.c:44-61 | keys of one length of at most 310 that give the same table after the first pass are the same |
| KeySeeding.SeedsDiffer | src/random.c:26-35 | different seeds give different streams, within 312 draws |
| KeySeeding.ShortKeysDiffer | src/random.c:37-78 | different keys of one length of at most 310 words give different streams, within 312 draws |
| KeySeeding.LongKeyCollides | src/random.c:37-78 | every longer key has another one of its length that gives the same table |
| KeySeeding.KeysDifferIff | src/random.c:37-78 | keys of length n are kept apart exactly when n is at most 310 |
| MersenneTwisterGenerator.Generator.InitGenrand64 | src/random.c:26-35 | the table is the seed table of the argument, all used up |
| MersenneTwisterGenerator.Generator.InitByArray64 | src/random.c:37-78 | the table is the key table of the words that are read, also for key length 0, and the key array is untouched |
| MersenneTwisterGenerator.Generator.Genrand64Int64 | src/random.c:81-120 | the result is draw 0 of the state before, and the state after is one step on, the default seeding included |
| MersenneTwisterGenerator.Generator.Genrand64Int63 | src/random.c:123 | the same with the lowest bit dropped |
| BlockingQueue.Queue.constructor | src/bm_queue.c:7-13 | an empty queue that is not shut down |
| BlockingQueue.Queue.Push | src/bm_queue.c:30-48 | one new node at the end: the contents grow by the item, all old nodes stay in their order |
| BlockingQueue.Queue.PopReady | src/bm_queue.c:60-77 | takes the first item, and refuses exactly when the queue is empty (which then is shut down) |
| BlockingQueue.Queue.IsEmpty | src/bm_queue.c:55-70 | head is null exactly when tail is, and exactly when there are no items |
| ThreadedQueueProofs.MutualExclusionKept | src/bm_queue.c:30-78 | after every statement of every thread, the mutex owner is the one thread inside a critical section |
| ThreadedQueueProofs.SoundKept | src/bm_queue.c:30-78 | no statement follows a null or dangling pointer or frees twice; the chain from head stays acyclic and ends at tail, pushed items stay the popped ones followed by the contents, and every node outside the queue has exactly one thread that knows it |
| ThreadedQueueProofs.NeverRefusesKept | src/bm_queue.c:50-78 | no thread reaches the refusing branch, and a thread that passed the wait loop finds an item |
| ThreadedQueueProofs.NoLostWakeupKept | src/bm_queue.c:30-78 | while anyone waits, there are at most as many items as woken consumers and producers still to signal |
| ThreadedQueueProofs.InvKept | src/bm_queue.c:30-78 | every event keeps the four invariants together |
| ThreadedQueueProofs.StartInv | src/bm_queue.c:7-13 | the initialised queue with any number of idle threads meets them |
| ThreadedQueueTheorems.RunIsFifo | src/bm_queue.c:7-78 | for any number of threads and any run: no fault; the data linked so far are the data taken so far followed by the contents; head is null exactly when tail is while the mutex is free; no pop refuses; no node leaks |
| QueueRefinement.StepRefines | src/bm_queue.c:30-78 | every event is a step of the atomic queue with the same label: a call starts with its argument, takes effect when it links or unlinks a node, returns with its result |
| QueueRefinement.RunIsLinearizable | src/bm_queue.c:7-78 | for any number of threads and any run, what queue_push was called with and queue_pop handed out, thread by thread, is explained by a run in which each call takes effect in one step and items leave in the order in which they entered (`QueueCompleteness.SeenIffPromised` is the converse) |
| QueueCompleteness.StepHappens | src/bm_queue.c:30-78 | whenever the mutex is free, every step of the atomic queue is made by some events of the threads, after which it is free again |
| QueueCompleteness.SeenIffPromised | src/bm_queue.c:7-78 | for any number of threads, what callers can see of the threads is exactly what the atomic queue promises, no more and no less |
| QueueCompleteness.CallsAreFree | src/bm_queue.c:30-52 | a thread outside a call can start a push or a pop in every state, whatever the queue holds |
| QueueCompleteness.WakeupsAreFree | src/bm_queue.c:46-58 | a waiter can wake for no reason, and a signal can wake any set of waiters that is not empty while anyone waits |
| QueueCompleteness.StatementsAreFree | src/bm_queue.c:30-78 | every other statement can run exactly when it does not need a mutex that is taken |
| QueueCompleteness.WaitsIffEmpty | src/bm_queue.c:55-58 | a consumer waits, giving the mutex back, exactly when it finds the queue empty |
| QueueRefinement.RunConservesItems | src/bm_queue.c:7-78 | the arguments of all pushes are the linked data and those in nodes still to be linked; the data taken are the results of all pops and those about to be returned |
| QueueRefinement.IdleHoldsTheRest | src/bm_queue.c:7-78 | when no call is under way, what was pushed is what was returned and what the queue holds |
| QueueRefinement.HoldsWhatWaits | src/bm_queue.c:30-78 | the contents of the linked list are the items that have entered the atomic queue and not left it |
| AtomicQueue.ExplainedConserves | src/bm_queue.c:30-78 | in every run of the atomic queue nothing is lost, doubled or made up, and what has left is the front of what has entered |
| AtomicQueue.EffectOnWaiting | src/bm_queue.c:30-78 | an effect of the atomic queue adds the argument at the end or takes the result from the front, as one call does in the heap |
| ThreadedQueueTheorems.RunLosesNoWakeup | src/bm_queue.c:30-78 | in every reachable state with the mutex free and someone waiting, the items are at most as many as the woken consumers |
| ThreadedQueueTheorems.AdvanceDecreases | src/bm_queue.c:30-78 | every statement lowers a natural number, so running calls come nearer to their end under every schedule |
| ThreadedQueueTheorems.RunsAreBounded | src/bm_queue.c:30-78 | without new calls and spurious wakeups no schedule is longer than that number |
| ThreadedQueueTheorems.StopsIffQuiescent | src/bm_queue.c:30-78 | there is no deadlock: no statement can run exactly when each thread is idle or waiting |
| ThreadedQueueTheorems.StoppedMeansServed | src/bm_queue.c:30-78 | when the threads have stopped, nobody waits while there is an item |
| ThreadedQueueTheorems.Settle | src/bm_queue.c:30-78 | from every reachable state some schedule drives the running calls to such a state |
| ThreadedQueueTheorems.EveryStopServes | src/bm_queue.c:30-78 | and every run that stops, whatever its schedule, stops in one |
| JavaRandom.Source.NextIntWithBounds | src/java_random.c:33-53 | the result is the place of the draw used: the part of the range it lies in for a power of two, otherwise its place in its block of bound draws; all earlier draws lie past the complete blocks, no later one is used, and a bound that is not positive gives 0 without a draw |
| JavaRandom.AcceptedIff | src/java_random.c:48-49 | with 32-bit wrap-around the loop accepts a draw u exactly when u < bound * floor(2^31 / bound) |
| JavaRandom.ResultPlaces | src/java_random.c:42-51 | a draw is rejected exactly when it lies past the complete blocks, and otherwise its result is its place |
| JavaRandom.MostAccepted | src/java_random.c:33-53 | more than half of the 2^31 draws are accepted |
| JavaRandom.Uniform | src/java_random.c:57-77 | every result below the bound has exactly floor(2^31 / bound) draws that give it, on both paths |
| JavaRandom.UniformScaled | src/java_random.c:42-45 | the power-of-two path, found by the mask test, is exactly uniform |
| Bits.AndPredecessor | src/java_random.c:42 | the mask test recognises exactly the powers of two |
| Scramble.ScrambleTwice | src/java_random.c:8 | scrambling twice leaves the low 48 bits of the seed |
| Scramble.SameStateIff | src/java_random.c:8 | two seeds give one state exactly when they agree in those bits |
| Scramble.ScrambleDifference | src/java_random.c:8 | zero becomes the multiplier and differences in the low 48 bits are kept |
| Lcg.StepIsAffine | src/java_random.c:92 | one step in 64-bit arithmetic is multiplication and addition modulo 2^48, whatever the upper bits |
| Lcg.StepInNumbers | src/java_random.c:92-97 | one step with its multiplier and addend written out |
| Lcg.StepThenBack | src/java_random.c:92-97 | a step and a step back, in either order, leave the seed modulo 2^48 |
| Lcg.StepsThenBack | src/java_random.c:92-97 | the same for n steps and n steps back |
| Lcg.StepsCollapse | src/java_random.c:92 | modulo 2^48 n steps are one multiplication and one addition, for every n, and from the first step on the state is below 2^48 |
| Lcg.JumpForward | src/internal_random.h:10-15 | the DOUBLE and TRIPLE constants are two and three steps |
| Lcg.JumpBack | src/internal_random.h:12-16 | their inverse multipliers are two and three steps back |
| AffineMaps.FullPeriod | src/java_random.c:92 | a map x -> ax + c with a = 1 modulo 4 and c odd returns to its start modulo 2^bits exactly after the multiples of 2^bits steps |
| Lcg.PeriodIs48Bits | src/java_random.c:92 | from every 48-bit state, n steps return to it exactly when 2^48 divides n |
| Lcg.VisitsEveryState | src/java_random.c:92 | every 48-bit state is reached from every other within 2^48 steps |
| XorShift.Xorshift32Bijective | src/xorshift.c:7-13 | a bijection on 32-bit words with an explicit inverse |
| XorShift.XorshiftInNumbers | src/xorshift.c:7-13 | the three shifts in their order |
| XorShift.Xorshift64InNumbers | src/xorshift.c:15-21 | the three shifts in their order |
| XorShift.Xorshift64Bijective | src/xorshift.c:15-21 | a bijection on 64-bit words with an explicit inverse |
| XorShift.ZeroOnlyFromZero | src/xorshift.c:7-21 | a run is zero at some point exactly when its seed is |
| XorShift.Xorshift32Cycles | src/xorshift.c:7-13 | every run comes back to its seed within 2^32 - 1 steps |
| XorShift.Xorshift64Cycles | src/xorshift.c:15-21 | every run comes back to its seed within 2^64 - 1 steps |
| Orbits.Returns | src/xorshift.c:7-21 | an injective step whose run takes at most n values comes back to its start within n steps |
| BitSet.BitSet.New2 | src/bitset.c:55-76 | every bit can be set within the allocation exactly when at least 449 bits are asked for; otherwise setting bit 64 times the allocated words is outside it; the set is then, and only then, a valid empty one |
| BitSet.BitSet.New | src/bitset.c:55-68 | the default set records more words than it holds, and setting bit 64 is outside the allocation |
| BitSet.BitSet.EnsureCapacity | src/bitset.c:29-43 | the exact new length; growth keeps every allocated word, zero-fills the new ones and clears the sticky flag exactly when it happens |
| BitSet.BitSet.ExpandTo | src/bitset.c:45-53 | the exact length, allocation and words in use afterwards; for a valid set all words newly in use are zero |
| BitSet.BitSet.Set | src/bitset.c:163-170 | stays inside the allocation under `SetStaysInside` alone; adds exactly that number to a valid set and keeps the three invariants |
| BitSet.BitSet.ValidStaysInside | src/bitset.c:163-170 | a valid set can take every bit |
| BitSet.BitSet.Get | src/bitset.c:78-83 | true exactly for the members |
| BitSet.BitSet.TrimToSize | src/bitset.c:119-130 | drops the words out of use; the set stays the same |
| BitSet.BitSet.Clone | src/bitset.c:132-152 | an equal set with words, length and sticky flag of the original, and words of its own; the original stays the same set, is not touched at all if it is sticky, and is trimmed if not |
| WordBits.SetBitSetsOne | src/bitset.c:167 | the word operation sets that bit and no other, the shift being modulo 64 |
| WordBits.HasBitIs | src/bitset.c:82 | bit k is the lowest bit of the word shifted right by k modulo 64 |
| Base58.EncodingIsExact | src/changebase.c:104-157 | the text's base-58 value is the bytes' base-256 value, and it starts with exactly one '1' per leading zero byte |
| Base58.LettersInOrder | src/changebase.c:13 | the letters are the 58 of the alphabet in its order |
| Base58.DecodeEncode | src/changebase.c:104-157 | the bytes are recovered, length and leading zeros included |
| Base58.EncodingInjective | src/changebase.c:104-157 | equal texts come from equal bytes |
| Base58Encoder.Divmod58 | src/changebase.c:16-34 | the in-place long division: the old value is 58 times the new one plus the remainder, bytes before the start are untouched |
| Base58Encoder.OneDivision | src/changebase.c:122-131 | a byte position takes at most two divisions, so the loop ends |
| Base58Encoder.FillDigits | src/changebase.c:116-131 | the digits of the value are written from the end of the buffer, and the write index stays at or above twice the zero count |
| Base58Encoder.Base58encode | src/changebase.c:104-157 | the whole function computes the encoding, or null for null or empty input, within its buffer of twice the length |
| PrintInt.StringSize | src/printint.c:17-31 | the number of decimal digits, without overflow of the power of ten that decides it |
| PrintInt.MultiplyAndShift | src/printint.c:79 | for all i < 65536 the product with 52429 fits 32 bits and shifted by 19 is i / 10 |
| PrintInt.Rest100Exact | src/printint.c:59-71 | the shifted sums in modular arithmetic give the remainder by 100 |
| PrintInt.PrintHigh | src/printint.c:57-65 | the 64-bit phase leaves a 31-bit number whose digits are still to be stored |
| PrintInt.PrintMiddle | src/printint.c:66-75 | the 32-bit phase leaves a 16-bit number |
| PrintInt.PrintLow | src/printint.c:77-88 | the last phase ends at position 0 with the whole numeral stored |
| PrintInt.SnprintUInt64 | src/printint.c:36-90 | stores exactly the first min(n - 1, digits) characters of the numeral and a terminator, changes nothing else, returns that count |
| PrintInt.PrintsNeedTwo | src/printint.c:48-88 | the digits still to print fit the buffer exactly when n is at least 2 |
| PrintInt.OneIsTooSmall | src/printint.c:48-88 | with n equal to 1 a zero is left to print and there is no room for it |
| PrintInt.DecimalMeaning | src/printint.c:36-90 | the numeral has the number's value and no leading zero |
| PrintInt.TextMeans | src/printint.c:10-88 | the characters are the digits 0 to 9, and their codes less that of 0 are the base-ten digits of the number |
| SignedNumerals.Reverse | src/printint.c:102-116 | reverses the characters from 0 to the given index, that index included, and no others |
| SignedNumerals.Ltoa | src/printint.c:118-193 | for either width and every value, the least one included, writes the rendered number and a terminator, and nothing after it |
| SignedNumerals.ReadBackIff | src/printint.c:118-193 | the text reads back as the number exactly when the number is not negative, or the radix is ten and it is not the least one |
| SignedNumerals.NegativeMeans | src/printint.c:140-145 | in another radix than ten each character of a negative number is as far below 0 as its digit says |
| SignedNumerals.LettersInOrder | src/printint.c:144 | digits from ten on are the letters from a to z in order |
| SignedNumerals.UnreadableExample | src/printint.c:140-145 | -1 in radix 16 comes out as a slash |
| SignedNumerals.RenderedInjective | src/printint.c:118-193 | in every radix and for all values of a width, the text determines the number |
| SignedNumerals.RenderedFits | src/printint.c:118-193 | 64 characters and the terminator always suffice |
| VarintCodec.VarintRoundTrip | src/bm_sonota.c:74-113 | decoding an encoding gives the value and exactly its length, whatever follows |
| VarintCodec.VarintBytes | src/bm_sonota.c:85-106 | the bytes of the four forms: the value, or a tag and 2, 4 or 8 bytes with the most significant first |
| VarintCodec.DecodedBytes | src/bm_protocol.c:325-363 | what is decoded from any bytes, the shortest form or not |
| VarintCodec.VarintPrefixFree | src/bm_sonota.c:74-113 | no encoding is the start of another |
| VarintCodec.VarintIsShortest | src/bm_protocol.c:325-363 | of all strings that decode to a value, the encoder's is the shortest, and the only one of its length |
| VarintCodec.EncodeVarint | src/bm_sonota.c:74-113 | writes exactly the encoding at its place; null in, null out |
| VarintCodec.EncodeVarStr | src/bm_sonota.c:121-132 | writes exactly the length and the bytes before the terminator |
| VarintCodec.ListSize | src/bm_protocol.c:411-420 | the announced size is the encoded size |
| VarintCodec.EncodeList | src/bm_protocol.c:422-437 | fills exactly that many bytes with the count and the items |
| VarintCodec.VarintsRoundTrip | src/bm_protocol.c:404-408 | the items read back, with exactly their bytes consumed |
| VarintCodec.DecodeStep | src/bm_protocol.c:404-408 | the first integer comes first in the list, and the others are those of the data after it |
| VarintCodec.VarintsNext | src/bm_protocol.c:430-435 | each integer of the list goes behind those before it |
| VarintCodec.ListRoundTrip | src/bm_protocol.c:394-437 | a whole list reads back with exactly its bytes consumed |
| VarintCodec.ListPrefixFree | src/bm_protocol.c:422-437 | two byte strings that start with encoded lists and are equal have the same list and the same rest |
| Bytes.BigEndianRoundTrip | src/bm_protocol.c:460-481 | a field in network order reads back as its value |
| Bytes.BigEndianByte | src/bm_protocol.c:460-481 | byte i of an n-byte field is the one of weight 256^(n - 1 - i) |
| Messages.ThresholdCases | src/bm_protocol.c:31-32 | what 24 + length becomes in signed 32-bit arithmetic and as a size, for each range of declared lengths |
| Messages.ParseStaysInside | src/bm_protocol.c:31-69 | the parser reads past the data exactly when the declared length is at least 2^32 - 24 and the data is not that long |
| Messages.OverrunExample | src/bm_protocol.c:31-69 | an input of that kind |
| Messages.AcceptedIff | src/bm_protocol.c:22-82 | the exact condition for accepting a message; bytes after the payload do not matter |
| Messages.AcceptedFields | src/bm_protocol.c:44-58 | every field of every accepted message, of whatever command, is read from its place |
| Messages.MessageRoundTrip | src/bm_protocol.c:22-82 | a payload of less than 2^31 - 24 bytes wrapped with any magic and command is accepted with them and unchanged, whatever follows |
| Messages.PayloadRoundTrip | src/bm_protocol.c:365-409 | every field of a version payload is recovered, for any user agent and any list of streams |
| Messages.ParsedFields | src/bm_protocol.c:365-409 | every field of any payload that can be parsed is read from its place |
| Messages.TerminatedString | src/bm_protocol.c:384-391 | the parsed user agent, read as a C string, is the one sent |
| Messages.VersionPayloadLength | src/bm_protocol.c:439-449 | the announced payload size is the size written |
| Messages.CreateVersionPayload | src/bm_protocol.c:451-492 | fills exactly the payload's bytes at its place |
| Messages.NewVersionMessage | src/bm_protocol.c:494-509 | the message has the announced size and is the header and the payload |
| Messages.SentBytes | src/bm_protocol.c:17-509 | the bytes of the sent message: the magic, the padded command, the length, the checksum and every field of the payload at its place |
| Messages.ParseVersionMessage | src/bm_protocol.c:365-409 | the field-by-field reader with its offsets and its stream loop computes the payload parse, and gives None where it would read past the payload |
| PayloadBounds.ParseStaysInsideIff | src/bm_protocol.c:365-409 | on any memory that starts with the payload, the unchecked reads end inside the payload exactly when the parse is not None |
| PayloadBounds.CheckBeforehand | src/bm_protocol.c:365-409 | whether they do does not depend on the bytes behind the payload, so following the lengths with zeros there decides it |
| PayloadBounds.ReadsPastExample | src/bm_protocol.c:380-394 | a payload that ends after its 80 fixed bytes is read past its end |
| Messages.VersionMessageRoundTrip | src/bm_protocol.c:22-509 | what is sent is accepted and every field comes back, the user agent as a C string and the streams as [1] |
| Address.RipeRestored | src/bm_sonota.c:139-181 | padding with zeros on the left recovers the ripe that was trimmed |
| Address.WorkRipeDrops | src/bm_sonota.c:139-181 | exactly which leading zeros of the ripe are dropped, by version and `max` |
| Address.BodyInjective | src/bm_sonota.c:181-188 | the stored varints and trimmed ripe determine version, stream and ripe |
| Address.AddressInjective | src/bm_sonota.c:134-221 | with one `max`, equal untruncated addresses have equal version, stream and ripe |
| Address.AddressReads | src/bm_sonota.c:181-221 | a receiver of an untruncated address finds the prefix, bytes whose last four are those of the doubly hashed rest, and in the rest version, stream and the ripe without its dropped zeros |
| Address.AddressInParts | src/bm_sonota.c:181-221 | the address from its parts, whole up to 44 characters and cut to 44 beyond |
| Address.BufferBounds | src/bm_sonota.c:207-209 | 256^30 < 58^41, and 41 characters just miss the 31-byte values that can occur |
| Address.ShortEncoding | src/bm_sonota.c:207-209 | at most 30 bytes give at most 41 characters |
| Address.UntruncatedIff | src/bm_sonota.c:181-209 | the 45-byte buffer holds the whole address exactly when at most 30 bytes are stored |
| Address.TruncatedExample | src/bm_sonota.c:181-209 | version and stream 65536 and a ripe without zeros are truncated |
| Address.SmallNumbersFit | src/bm_sonota.c:181-209 | in particular when the two varints take at most 6 bytes |
| Address.ClientAddressesFit | src/bm_sonota.c:235-248 | and for the version 3 and 4 addresses that the wrappers make |
| Address.EncodeAddress0 | src/bm_sonota.c:134-221 | computes the address, or null for a ripe that is not 20 bytes long |

## Left out

- Foreign calls: sockets, epoll, SQLite, XML-RPC, iconv, OpenSSL, `mrand48_r`.
- Allocation failure, leaks, and sizes beyond the address space (`2 * length`, `malloc` arguments).
- `queue_destroy`, and `shutdown`, which no function sets.
- Fairness of the scheduler: the queue theorems bound the number of statements, they do not say which thread runs.
- `encodeNetworkAddress`, whose 26 bytes are parameters; `createVersionPayload`, an unused older copy; `process_command` and the printing functions; `parseAddrMessage` and `parseInventoryMessage`, which only add loops like the one over streams.
- Messages.ParseVersionMessage: the values it would make of bytes behind the payload, and sizes that overflow 64 bits; `PayloadBounds.ParseStaysInsideIff` says when it reads such bytes.
- MersenneTwisterGenerator.Generator.InitByArray64: a key array without a readable first word.
- Floating point (`nextDouble`, `nextFloat`, `genrand64_real`, `nextDoubleXor`) and the xorshift stubs of 96 and 128 bits.
- SignedNumerals.Ltoa: radices outside 2 to 36, whose digits have no characters or whose loop does not end.
- PrintInt.SnprintUInt64: n equal to 1 with a buffer, which writes before it (`PrintInt.OneIsTooSmall`).
- Base58Encoder.Base58encode: the buffers are fresh arrays and the result is a string; freeing them is not modelled.
- JavaRandom.Source.NextIntWithBounds: draws come from a finite supply, so that "the loop has not ended yet" is a result; termination with probability one is not stated, only `JavaRandom.MostAccepted`.
- `getNLZ`, `numberOfLeadingZeros`, `strjoin`, `string_array_split` and the EPSP parser, which do not compute their evident intent.
- `shuffle`, `base64encode`, `parseHex`, `base32decode`, `string_list`, key formats and `encodeWIF`: easier members of the same kinds.
