# Formal model of the service node firmware

The firmware of the service node answers requests over USB and runs on a ChibiOS tree. This project models seven of
its components in Dafny, byte swapping along with the SCSI target, and proves what they are for.
`dafny verify dfyconfig.toml` checks all of it.

- **Software CRC driver** (`Words`, `Polynomials`, `Crc*`). Registers are rows of 32 bits, least significant
  first. `CrcDriver.Driver` is the driver object with both engines. The proofs go from the loops to a division
  over GF(2), show that the table engine is the bitwise engine seen in a mirror, that the 512 literal table
  entries are right, and which errors a checksum cannot miss.
- **Interrupt storm test** (`Storm*`). A chain of any number of worker threads with bounded mailboxes is a system of
  atomic steps, in which a worker holds a message between fetch and post, and a failed post and the store to the
  flag are two steps. Message numbers are history variables: the program has none. `StormTest.Storm` is the code, cut
  at those points; each piece is proved to be one step. The theorems are about all reachable states.
- **Memory tester** (`Generators`, `FaultyMemory`, `MemTest`). The memory under test has faults: several elements
  may share a cell, and what is read may be any function of the element and what was written. What each test
  detects is stated exactly.
- **SCSI target over a RAM disk** (`Bswap`, `Endian`, `RamDisk`, `Scsi`, `ScsiTarget`, `ScsiRuns`, `ScsiAnswers`). `Scsi.Exec` says
  what a command does; `ScsiTarget.Driver` does it in place on the sense, mode and block buffers and the storage
  array. A transport may take only part of what it is given.
- **Triple buffer** (`Tribuf`, `TribufRuns`). The handler with its semaphore, and a producer with any number of
  consumers that take tokens, wait, time out and swap in any order.
- **Communication thread** (`CStrings`, `Strtok`, `Protocol`, `CommThread`, `Exchange`). `CommThread.Node` holds the
  two static buffers; `strtok_r` cuts the read buffer in place. `Protocol` gives the meaning of a request on texts.

Some properties turned out not to hold as one would first put them; the members named say exactly when they do.
The storm test's flag can be raised by a message lost before it was cleared (`StormRuns.StaleReport`,
`StormRuns.ClearingTrusted`). READ(10) and WRITE(10) report success also to a host that takes or delivers too little
(`ScsiRuns.ReadSends`, `ScsiRuns.WriteStores`). The 32-bit range check of the disk is right exactly when the sum does
not wrap into the accepted range (`RamDisk.OverflowExact`). A triple buffer consumer that waits and swaps in separate
critical sections can be handed an old frame (`TribufRuns.CarelessRun`, `TribufRuns.IncreasingExact`). A report about
a 64-bit element can show two equal values (`MemTest.ShownExact`, `MemTest.ShownAlike`).

The repository's own README describes a `readThread` and a `writeThread` with other functions; the source has one
communication thread, and the model follows the source. `tribuf.h` promises that the ready test reports whether there
is a new front buffer; the code also says yes while a thread waits, and no while a thread has taken the token and not
yet swapped (`TribufRuns.IsReadyExact`).

Parameters stand for what lies outside: the PWM width computation is any function, `rand` any deterministic source,
the steps that timers and workers take during a storm or a pause any sequence, and how much the SCSI host takes of a
transmission any function.

## Model

| member | source | states |
|---|---|---|
| CrcDriver.Driver.Reset | src/chibios182/community/os/various/crcsw.c:269-271 | The register is the configured initial value. |
| CrcDriver.Driver.Reflect | src/chibios182/community/os/various/crcsw.c:189-204 | The bit loop yields the word whose bit i is bit nBits-1-i of the data, and zeros above. |
| CrcDriver.Driver.Calc | src/chibios182/community/os/various/crcsw.c:282-334 | Whichever engine runs, the register becomes the fold of that engine's byte step over the buffer, and the result is the reported value of that register. |
| CrcDriver.Driver.LookUp | src/chibios182/community/os/various/crcsw.c:286-293 | The table loop folds the table step over the buffer. |
| CrcDriver.Driver.Divide | src/chibios182/community/os/various/crcsw.c:301-323 | The byte loop of the bitwise engine folds the eight-step division over the buffer. |
| CrcDriver.Driver.DivideBits | src/chibios182/community/os/various/crcsw.c:314-322 | The inner loop makes one division step per bit; the mask test is the top bit of the polynomial size. |
| CrcEngines.Streaming | src/chibios182/community/os/various/crcsw.c:269-334 | A calculation on a and then on b after one reset reports what one calculation on their concatenation does, for either engine. |
| CrcEngines.HighBitsIrrelevant | src/chibios182/community/os/various/crcsw.c:297-333 | Register bits above the polynomial size never reach a result, now or after further data, and no result has a bit there. |
| CrcEngines.ByteInStep | src/chibios182/community/os/various/crcsw.c:286-323 | One byte keeps the table register equal to the reflection of the bitwise register's low bits. |
| CrcEngines.TableByteIsSteps | src/chibios182/community/os/various/crcsw.c:288-290 | A table access is eight reflected division steps, when entry b is eight steps from b. |
| CrcEngines.EnginesAgree | src/chibios182/community/os/various/crcsw.c:286-329 | For every message, generator, size 8 to 32 and initial value, with both reflections on, the two engines report the same checksum when the table engine starts from the mirrored initial value. |
| CrcEngines.TableDecides | src/chibios182/community/os/various/crcsw.c:286-329 | With a table neither the polynomial nor the reflection flags make a difference to any checksum. |
| CrcEngines.SameStartExact | src/chibios182/community/os/various/crcsw.c:286-329 | With one initial value for both they agree on every message if and only if that value is its own mirror image in the polynomial size. |
| CrcRemainder.FeedDivides | src/chibios182/community/os/various/crcsw.c:314-322 | Feeding message bits is long division over GF(2): start value and message equal quotient times generator plus register. |
| CrcRemainder.ByteFeeds | src/chibios182/community/os/various/crcsw.c:304-323 | The shift-and-xor of one byte feeds its eight bits, in the configured order, one at a time. |
| CrcRemainder.RegisterIsRemainder | src/chibios182/community/os/various/crcsw.c:302-323 | A polynomial is the remainder of initial value times x^n plus message times x^size, divided by the generator with its implicit top bit, if and only if it is the register cut to the size. |
| CrcRemainder.ChecksumIsRemainder | src/chibios182/community/os/various/crcsw.c:301-333 | Taking the final exclusive-or and the mirroring back from a checksum leaves the remainder of initial value times x^n plus message bits times x^size, each bit of each byte in its configured place, and nothing else does. |
| Polynomials.RemainderUnique | src/chibios182/community/os/various/crcsw.c:314-322 | Division by the generator has one remainder below its degree. |
| Polynomials.OddDividesNoBurst | src/chibios182/community/os/various/crcsw.c:314-322 | A generator with constant term divides no shifted difference shorter than itself. |
| CrcBursts.BurstChangesRegister | src/chibios182/community/os/various/crcsw.c:286-323 | Bit strings that differ inside a window of the register's size leave different registers, when the generator has a constant term. |
| CrcBursts.EvenMissesBurst | src/chibios182/community/os/various/crcsw.c:286-323 | Without a constant term there is such a pair of different strings with equal registers: the condition on the generator is needed. |
| CrcBursts.OutputInjective | src/chibios182/community/os/various/crcsw.c:327-333 | Reflection, final xor and mask lose no register bit below the size. |
| CrcBursts.BitBurstDetected | src/chibios182/community/os/various/crcsw.c:282-334 | Messages whose fed bits differ only inside as many consecutive places as the polynomial size never have the same checksum, for every odd generator. |
| CrcBursts.BurstDetected | src/chibios182/community/os/various/crcsw.c:282-334 | In particular equal-length messages that differ only inside size/8 consecutive bytes. |
| CrcTables.LiteralTables | src/chibios182/community/os/various/crcsw.c:42-144 | Each of the 256 literal entries of both tables is eight reflected division steps from its index, for the generator of its configuration. |
| CrcTables.ShippedChecksums | src/chibios182/community/os/various/crcsw.c:157-177 | The two shipped table configurations compute what the bitwise engine computes with the same parameters, on every message. |
| CrcShipped.Crc32InNumbers | src/chibios182/community/os/various/crcsw.c:157-165 | Bit 31-i of the shipped CRC-32 (section 8 of RFC 1952) is the negation of coefficient i of the remainder of 0xFFFFFFFF times x^(8n) plus the message, low bits first, times x^32, divided by x^32 + 0x04C11DB7. |
| CrcShipped.Crc16InNumbers | src/chibios182/community/os/various/crcsw.c:169-177 | Bit 15-i of the shipped CRC-16 is coefficient i of the remainder of the message, low bits first, times x^16, divided by x^16 + 0x8005; higher bits are zero. |
| CrcTables.Crc32BitBursts | src/chibios182/community/os/various/crcsw.c:157-165 | The shipped CRC-32 (section 8 of RFC 1952) detects every error confined to 32 consecutive bits. |
| CrcTables.Crc16BitBursts | src/chibios182/community/os/various/crcsw.c:169-177 | The shipped CRC-16 detects every error confined to 16 consecutive bits. |
| CrcTables.Crc32Bursts | src/chibios182/community/os/various/crcsw.c:157-165 | The shipped CRC-32 detects every error confined to 4 consecutive bytes. |
| CrcTables.Crc16Bursts | src/chibios182/community/os/various/crcsw.c:169-177 | The shipped CRC-16 detects every error confined to 2 consecutive bytes. |
| StormTest.TargetIsNext | src/chibios182/testhal/common/irq_storm.c:119-124 | The unsigned target is a worker exactly when the message has a next worker in its direction, and then it is that worker; the wrap of me - 1 included. |
| StormTest.Storm.constructor | src/chibios182/testhal/common/irq_storm.c:190-197 | The chain starts empty. |
| StormTest.Storm.MailboxPost | src/chibios182/os/common/oslib/src/chmboxes.c:243-269 | A post to a full mailbox is refused and changes nothing; otherwise the message is last in the queue. |
| StormTest.Storm.Gpt1Callback | src/chibios182/testhal/common/irq_storm.c:144-153 | The callback is the right-going injection step of the system. |
| StormTest.Storm.Gpt2Callback | src/chibios182/testhal/common/irq_storm.c:158-167 | The callback is the left-going injection step. |
| StormTest.Storm.WorkerFetch | src/chibios182/testhal/common/irq_storm.c:98-98 | Fetching is the step that takes the oldest message of the worker's own mailbox into its hand. |
| StormTest.Storm.WorkerPost | src/chibios182/testhal/common/irq_storm.c:119-138 | Posting is the step that moves the message one worker on, drops it at a full mailbox, or lets it leave at the far end. |
| StormTest.Storm.WorkerFlag | src/chibios182/testhal/common/irq_storm.c:128-129 | The store after a failed post is a step of its own. |
| StormTest.Storm.ClearFlag | src/chibios182/testhal/common/irq_storm.c:232-232 | Clearing the flag is a step that can come between a failed post and its store. |
| StormOrder.StepEffect | src/chibios182/testhal/common/irq_storm.c:95-167 | Seen from one direction every step does nothing, appends the injected message to the line, refuses it, or removes one message from the line. |
| StormRuns.StepKeepsInv | src/chibios182/testhal/common/irq_storm.c:95-167 | Every step keeps the line of each direction in injection order, the conservation of messages and the bookkeeping of the flag. |
| StormRuns.RunKeepsInv | src/chibios182/testhal/common/irq_storm.c:95-167 | So does every run, for every number of workers and every mailbox size. |
| StormRuns.NoOvertaking | src/chibios182/testhal/common/irq_storm.c:95-167 | In every reachable state the messages of a direction that left did so in injection order, before all that are still on the way, and left + on the way + dropped = injected. |
| StormRuns.DrainedInOrder | src/chibios182/testhal/common/irq_storm.c:95-167 | When the chain has drained and no message of a direction was dropped, what came out is exactly what went in, in that order. |
| StormRuns.FlagRight | src/chibios182/testhal/common/irq_storm.c:127-129 | In every reachable state the flag is up exactly when more messages were lost since the clearing, counting workers about to store then, than workers are still about to store. |
| StormRuns.LossExact | src/chibios182/testhal/common/irq_storm.c:119-166 | A step loses its message exactly when the mailbox it posts to holds as many messages as it has room for, and every interrupt injects one message. |
| StormRuns.LossesCounted | src/chibios182/testhal/common/irq_storm.c:95-167 | Over any run exactly as many messages are lost as steps met a full mailbox, and none is found again. |
| StormRuns.FlagSince | src/chibios182/testhal/common/irq_storm.c:124-165 | After any run from a clearing the flag is up exactly when the full mailboxes met since, with the workers about to store then, outnumber the workers now about to store; a message was lost exactly when one was met. |
| StormRuns.ClearingTrusted | src/chibios182/testhal/common/irq_storm.c:232-232 | No run up to the next clearing raises the flag without a lost message, if and only if no worker is between a failed post and its store when the flag is cleared. |
| StormRuns.FlagExact | src/chibios182/testhal/common/irq_storm.c:127-129 | With no worker between a failed post and its store, now or at the clearing, the flag is up exactly when a message of either direction was lost since, that is when some step met a full mailbox. |
| StormRuns.StaleReport | src/chibios182/testhal/common/irq_storm.c:232-232 | A worker caught there raises the flag after the clearing although no message was lost since. |
| StormRuns.FailingOccurs | src/chibios182/testhal/common/irq_storm.c:124-130 | Such a state is reachable, with two workers and mailboxes of one message. |
| StormProgress.WorkDecreases | src/chibios182/testhal/common/irq_storm.c:95-138 | Every step of a worker strictly decreases the sum of remaining work, three units per worker still to pass. |
| StormProgress.BoundedDraining | src/chibios182/testhal/common/irq_storm.c:95-138 | With injection stopped the workers take at most that many steps, however they are scheduled. |
| StormProgress.StuckIsDrained | src/chibios182/testhal/common/irq_storm.c:95-138 | No worker can step if and only if the chain is empty: there is no deadlock. |
| StormProgress.Drains | src/chibios182/testhal/common/irq_storm.c:260-261 | Every run of the workers alone extends to one that empties the chain, within the bound. |
| StormHandling.HandledInOrder | src/chibios182/testhal/common/irq_storm.c:95-138 | Each worker handles the messages of a direction in injection order, hence each at most once. |
| StormHandling.HandledExact | src/chibios182/testhal/common/irq_storm.c:95-138 | A message that was not lost has been handled by a worker on its way if and only if it is not still to come there; so one that left was handled by every worker. |
| StormTest.IntervalsShrink | src/chibios182/testhal/common/irq_storm.c:237-237 | The interval sequence is strictly decreasing, so the sweep ends. |
| StormTest.IntervalLaw | src/chibios182/testhal/common/irq_storm.c:237-237 | The first interval is 2000, and each is nine tenths of the one before, rounded down. |
| StormTest.RoundsBounded | src/chibios182/testhal/common/irq_storm.c:237-259 | So a sweep has at most 55 rounds, and exactly 55 when no storm shows the flag. |
| StormTest.Sweep | src/chibios182/testhal/common/irq_storm.c:232-259 | The flag is cleared and the chain driven through the storms of the interval sequence; the threshold is the interval of the first storm after which the flag is up, and 0 if and only if there is none, and the sweep stops there. |
| StormTest.Search | src/chibios182/testhal/common/irq_storm.c:228-265 | Each iteration is the sweep from the state that the one before it and its pause leave, and the worst threshold is their maximum. |
| StormTest.Storm.Storming | src/chibios182/testhal/common/irq_storm.c:144-244 | Any sequence of timer and worker steps drives the mailboxes and workers as the system of steps says. |
| StormTest.ThresholdIsFirstFailure | src/chibios182/testhal/common/irq_storm.c:232-257 | When no worker is about to store at the clearing nor at any look the sweep takes at the flag, a sweep finds an interval if and only if it is the first at which a message was lost. |
| StormTest.SaturatesMeansFails | src/chibios182/testhal/common/irq_storm.c:251-257 | Cleared while no worker was about to store, the flag goes up only after a message was lost, and shows every loss when no worker is about to store. |
| StormTest.PausesKeepThresholds | src/chibios182/testhal/common/irq_storm.c:228-264 | When every pause between iterations lets the workers finish their stores, every threshold of the search is the first interval of its sweep at which a message was lost, provided no worker is about to store at its looks at the flag. |
| StormTest.FlagsSettle | src/chibios182/testhal/common/irq_storm.c:260-261 | There are such pauses, for any number of workers. |
| Generators.Replay | src/chibios182/community/os/various/memtest.cpp:46-60 | Two generators that agree on what their kind looks at make the same elements for ever, whatever else their fields hold. |
| Generators.WalkingForm | src/chibios182/community/os/various/memtest.cpp:65-79 | After i calls the walking pattern is the single bit i mod width. |
| Generators.OwnAddressForm | src/chibios182/community/os/various/memtest.cpp:86-91 | After i calls the own-address pattern is i, cut to the width. |
| Generators.MovingForm | src/chibios182/community/os/various/memtest.cpp:102-107 | After i calls the pattern is the seed for even i and its complement for odd i. |
| Generators.RandForm | src/chibios182/community/os/various/memtest.cpp:117-159 | Element 2k of the random kind is draw k+1 cut to 31 bits and the width, for 64 bits draws 2k+1 and 2k+2 side by side; element 2k+1 is its complement. |
| Generators.GetFits | src/chibios182/community/os/various/memtest.cpp:46-159 | Every element and every generator field stays within the element width. |
| MemTest.Generator.constructor | src/chibios182/community/os/various/memtest.cpp:32-32 | A fresh generator is valid for its kind and width. |
| MemTest.Generator.Reset | src/chibios182/community/os/various/memtest.cpp:35-37 | init sets the pattern, or for the random kind seeds the source and clears step and prev. |
| MemTest.Generator.Next | src/chibios182/community/os/various/memtest.cpp:46-159 | get of each kind returns the element of the specification and advances to the next state, with complements and wraps in the element width. |
| MemTest.ResetReplays | src/chibios182/community/os/various/memtest.cpp:172-181 | After init(seed) a used generator makes, element by element and type by type, what a fresh one makes: the comparison pass replays the fill pass, also for the random kind. |
| FaultyMemory.FilledAt | src/chibios182/community/os/various/memtest.cpp:172-175 | After the fill a cell holds what was written through its last alias. |
| FaultyMemory.FilledElsewhere | src/chibios182/community/os/various/memtest.cpp:172-175 | Cells of no element under test keep what they held. |
| FaultyMemory.FaithfulSilent | src/chibios182/community/os/various/memtest.cpp:164-187 | A memory without aliases and distortion is never reported, by any generator, seed, width or size. |
| FaultyMemory.FirstBadExact | src/chibios182/community/os/various/memtest.cpp:179-186 | An index is the one reported if and only if it mismatches and no smaller one does. |
| MemTest.Tester.Fill | src/chibios182/community/os/various/memtest.cpp:172-175 | The fill loop writes element i of the seeded sequence to address i, through the aliasing. |
| MemTest.Tester.Compare | src/chibios182/community/os/various/memtest.cpp:177-186 | The comparison loop reports the first mismatch and stops, or reports nothing; without a callback it reports nothing. |
| MemTest.Tester.Sequential | src/chibios182/community/os/various/memtest.cpp:165-187 | One pass adds at most one report, with the smallest bad index, the low 32 bits of the value read and of the value that was written there, and the type of the test; the area is left filled. |
| MemTest.OutcomeExact | src/chibios182/community/os/various/memtest.cpp:182-185 | A pass is silent exactly when nobody listens or every element reads as written; a report names the first that does not, its width in bytes and its two values. |
| MemTest.Tester.StepsExact | src/chibios182/community/os/various/memtest.cpp:166-166 | The passes go over exactly the elements that lie wholly inside the area of size bytes. |
| MemTest.Tester.TypesNamed | src/chibios182/community/os/various/memtest.cpp:46-158 | Every report names the type of its test. |
| MemTest.ShownExact | src/chibios182/community/os/various/memtest.cpp:182-183 | The two values in a report differ if and only if the value read and the value written differ in one of their low 32 bits. |
| MemTest.LoneFaultShown | src/chibios182/community/os/various/memtest.cpp:182-183 | A report of a lone stuck bit, of any width, names its element and shows two different values if and only if the bit is one of the low 32. |
| MemTest.ShownApart | src/chibios182/community/os/various/memtest.cpp:182-183 | So for elements of up to 32 bits the two values always differ. |
| MemTest.ShownAlike | src/chibios182/community/os/various/memtest.cpp:182-183 | For 64 bits they need not: a stuck bit 32 is reported as zero instead of zero. |
| FaultyMemory.OwnAddressBlames | src/chibios182/community/os/various/memtest.cpp:86-91 | With any aliasing and any size, own_address blames an element exactly when its last alias differs from it modulo 2^width. |
| FaultyMemory.OwnAddressDetects | src/chibios182/community/os/various/memtest.cpp:202-205 | On at most 2^width elements it reports exactly when the index-to-cell map is not injective, at the smallest index that has a later alias. |
| MemTest.Tester.OwnAddressReports | src/chibios182/community/os/various/memtest.cpp:165-205 | On an area of at most 2^width elements that read as stored, the test reports exactly when two elements wholly inside it share a cell, and then at the smallest index with a later twin. |
| MemTest.Tester.OwnAddressTest | src/chibios182/community/os/various/memtest.cpp:202-205 | The test reports the outcome of one own-address pass with seed 0: on an area of at most 2^width elements that read as stored, something if and only if two elements share a cell. |
| FaultyMemory.MovingInversionDetects | src/chibios182/community/os/various/memtest.cpp:208-225 | The two passes detect every bit stuck at 0 or 1 in every element, for every seed, size and width, whatever else is wrong with the memory. |
| FaultyMemory.MovingInversionExact | src/chibios182/community/os/various/memtest.cpp:208-225 | Without aliases both passes are silent if and only if every element holds both the seed and its complement. |
| MemTest.BothPassesDetect | src/chibios182/community/os/various/memtest.cpp:208-225 | With someone listening the zero and the 55AA test each report a stuck bit at or before its element, and only under their own type. |
| MemTest.Tester.StuckIsReported | src/chibios182/community/os/various/memtest.cpp:208-225 | In an area of any size a stuck bit of any element that lies wholly inside it is reported, at or before that element, by the zero test and by the 55AA test, each under its own type. |
| FaultyMemory.FivesBits | src/chibios182/community/os/various/memtest.cpp:220-221 | The seed of the 55AA test has the even bits of every byte set and no others. |
| MemTest.Tester.MovingInversionZeroTest | src/chibios182/community/os/various/memtest.cpp:208-215 | Reports the outcomes of a pass with 0 and a pass with all ones: with someone listening, every stuck bit in the area. |
| MemTest.Tester.MovingInversion55AATest | src/chibios182/community/os/various/memtest.cpp:218-225 | Reports the outcomes of a pass with 0x55 bytes and a pass with 0xAA bytes: with someone listening, every stuck bit in the area. |
| FaultyMemory.MovingTypes | src/chibios182/community/os/various/memtest.cpp:109-114 | get_type names the zero test for seeds 0 and all ones and the 55AA test for the other two, at every element. |
| FaultyMemory.OnlyStuckExact | src/chibios182/community/os/various/memtest.cpp:179-186 | Any test finds a lone stuck bit if and only if the pattern at its element has the other value, and then at that element. |
| FaultyMemory.WalkingDetects | src/chibios182/community/os/various/memtest.cpp:190-199 | walking_one finds a lone stuck bit exactly when it is the walking bit of its element and stuck at 0 or another bit and stuck at 1; walking_zero finds exactly the others. |
| MemTest.Tester.WalkingReports | src/chibios182/community/os/various/memtest.cpp:165-199 | The same of the reports about an area of any size, under the test's own type. |
| MemTest.Tester.WalkingOneTest | src/chibios182/community/os/various/memtest.cpp:190-193 | Reports the outcome of a walking-one pass from 1. |
| MemTest.Tester.WalkingZeroTest | src/chibios182/community/os/various/memtest.cpp:196-199 | Reports the outcome of a walking-zero pass from 1. |
| MemTest.Tester.MovingInversionRandTest | src/chibios182/community/os/various/memtest.cpp:228-233 | The seed counter advances in 32 bits and the pass runs on its low bits. |
| Bswap.Masks16 | src/chibios182/community/os/various/bswap.h:33-35 | The mask and shift form reverses the bytes of a 16-bit word in memory. |
| Bswap.Masks32 | src/chibios182/community/os/various/bswap.h:36-40 | The same for 32 bits. |
| Bswap.Masks64 | src/chibios182/community/os/various/bswap.h:41-49 | The same for 64 bits. |
| Bswap.FormsAgree | src/chibios182/community/os/various/bswap.h:33-49 | Reading a word back from its reversed memory is the mask and shift form, and that form is its own inverse, at 2, 4 and 8 bytes. |
| Bswap.Bswap16 | src/chibios182/community/os/various/bswap.h:113-126 | The union form computes the mask and shift form. |
| Bswap.Bswap32 | src/chibios182/community/os/various/bswap.h:134-150 | The union form computes the mask and shift form. |
| Bswap.Bswap64 | src/chibios182/community/os/various/bswap.h:158-180 | The union form computes the mask and shift form. |
| Bswap.BswapN | src/chibios182/community/os/various/bswap.h:185-193 | The in-place loop reverses the first len bytes of any buffer and leaves the rest. |
| Endian.BigEndianRound | src/chibios182/community/os/various/lib_scsi.c:65-78 | Reading the big-endian encoding of a number that fits gives it back. |
| Endian.BeNumberRound | src/chibios182/community/os/various/lib_scsi.c:65-78 | Encoding what was read gives the bytes back. |
| Endian.BigEndianLoad32 | src/chibios182/community/os/various/bswap.h:85-85 | be32_to_cpu of four bytes in memory is the number they encode high byte first. |
| Endian.BigEndianStore32 | src/chibios182/community/os/various/bswap.h:91-91 | The memory of cpu_to_be32 of a number is its big-endian encoding. |
| ScsiTarget.DecodeDataRequest | src/chibios182/community/os/various/lib_scsi.c:65-78 | Copying, swapping and reading as words yields the numbers in bytes 2 to 5 and 7 to 8. |
| Scsi.DecodeInvertsEncode | src/chibios182/community/os/various/lib_scsi.c:65-78 | Decoding inverts the encoding of every 32-bit address and 16-bit count. |
| Scsi.EncodeInvertsDecode | src/chibios182/community/os/various/lib_scsi.c:65-78 | Encoding what was decoded gives back the two fields of any command block. |
| ScsiAnswers.DecodeReads | src/chibios182/community/os/various/lib_scsi.c:65-78 | The first block is bytes 2 to 5 and the number of blocks bytes 7 and 8, high byte first, written out. |
| Endian.Of32Value | src/chibios182/community/os/various/bswap.h:91-91 | Every number below 2^32 is the value of its word. |
| RamDisk.OverflowExact | src/chibios182/community/os/various/ramdisk.c:50-52 | The 32-bit range check is right if and only if the sum does not wrap into the accepted range. |
| RamDisk.OverflowWraps | src/chibios182/community/os/various/ramdisk.c:50-52 | The largest address with one block is accepted by every disk, although it is beyond all of them. |
| RamDisk.Device.Start | src/chibios182/community/os/various/ramdisk.c:184-198 | Starting sets geometry, storage and flag and makes the disk ready. |
| RamDisk.Device.Connect | src/chibios182/community/os/various/ramdisk.c:69-75 | Only a stopped disk becomes ready; contents are kept. |
| RamDisk.Device.Disconnect | src/chibios182/community/os/various/ramdisk.c:77-83 | The disk is stopped; contents are kept. |
| RamDisk.Device.Read | src/chibios182/community/os/various/ramdisk.c:85-98 | Succeeds exactly for ranges on the disk, and then the buffer starts with those blocks; otherwise nothing changes. |
| RamDisk.Device.Write | src/chibios182/community/os/various/ramdisk.c:100-112 | Succeeds exactly for ranges on the disk, and then those blocks are the buffer's; the read-only flag plays no part. |
| RamDisk.Device.GetInfo | src/chibios182/community/os/various/ramdisk.c:125-136 | Succeeds exactly when the disk is ready. |
| RamDisk.WriteThenRead | src/chibios182/community/os/various/ramdisk.c:85-112 | Blocks read back as written. |
| RamDisk.WriteKeeps | src/chibios182/community/os/various/ramdisk.c:100-112 | A block outside the written range keeps its contents. |
| ScsiTarget.Driver.constructor | src/chibios182/community/os/various/lib_scsi.c:499-519 | Initialised and started, the sense data are zero and the residue is zero. |
| ScsiTarget.Driver.SetSense | src/chibios182/community/os/various/lib_scsi.c:90-101 | The 18 bytes get the fixed-format layout (section 4.5.3 of SPC-4, with byte 7 always 8) and nothing else changes. |
| ScsiTarget.Driver.TransmitData | src/chibios182/community/os/various/lib_scsi.c:127-139 | A short transmission sets the residue and fails; a full one leaves it. |
| ScsiTarget.Driver.Inquiry | src/chibios182/community/os/various/lib_scsi.c:175-192 | Serial number, refusal or standard data by the page bits and code. |
| ScsiTarget.Driver.RequestSense | src/chibios182/community/os/various/lib_scsi.c:204-216 | The sense data are sent for an 18-byte request without descriptor format, others are refused. |
| ScsiTarget.Driver.ModeSense6 | src/chibios182/community/os/various/lib_scsi.c:228-243 | The four mode bytes report write protection, also of a disk that is not ready. |
| ScsiTarget.Driver.ReadFormatCapacities | src/chibios182/community/os/various/lib_scsi.c:255-288 | A zero allocation length sends nothing; otherwise block count and truncated block length are sent, behind three header bytes the code never sets. |
| ScsiTarget.Driver.ReadCapacity10 | src/chibios182/community/os/various/lib_scsi.c:300-312 | On success the host has eight bytes more: the address of the last block and the block length, high byte first. |
| ScsiTarget.Driver.DataOverflow | src/chibios182/community/os/various/lib_scsi.c:326-340 | A refused range sets the sense data and nothing else. |
| ScsiTarget.Driver.TransferBlocks | src/chibios182/community/os/various/lib_scsi.c:367-379 | The block loop moves the blocks one by one through the block buffer. |
| ScsiTarget.Driver.DataReadWrite10 | src/chibios182/community/os/various/lib_scsi.c:352-382 | Decoding, check and loop together are the transfer of the specification. |
| ScsiTarget.Driver.ExecCmd | src/chibios182/community/os/various/lib_scsi.c:425-490 | Dispatch and the final sense update are the execution of the specification, for all commands. |
| Scsi.InnerCallsSucceed | src/chibios182/community/os/various/lib_scsi.c:326-379 | The outer check lets every inner one-block call succeed, so ignoring their status loses nothing. |
| ScsiRuns.WriteStores | src/chibios182/community/os/various/lib_scsi.c:352-382 | WRITE(10) of an accepted range always reports success. Its blocks become what the block buffer held after each receive, whatever the host delivers: the delivered bytes if and only if there are enough. |
| ScsiRuns.LateBlockRepeats | src/chibios182/community/os/various/lib_scsi.c:374-377 | A block for which nothing arrives any more repeats the block before it, the first one the old buffer. |
| ScsiRuns.ShortDeliveryUnnoticed | src/chibios182/community/os/various/lib_scsi.c:374-377 | With one byte for two blocks the status is good and the byte is in both. |
| ScsiRuns.ReadSends | src/chibios182/community/os/various/lib_scsi.c:352-382 | READ(10) of an accepted range always reports success and leaves the disk. The host gets exactly its blocks, in order, if and only if it takes each of them in full; otherwise bytes are missing. |
| ScsiRuns.CarriedExact | src/chibios182/community/os/various/lib_scsi.c:368-372 | Of the blocks of a transfer no more is carried than there is, and all of it exactly when every block was taken in full. |
| ScsiRuns.SlowHostUnnoticed | src/chibios182/community/os/various/lib_scsi.c:371-372 | When the host takes nothing, status and sense data are good, the residue is zero and nothing was sent. |
| ScsiRuns.WriteThenReadBack | src/chibios182/community/os/various/lib_scsi.c:352-382 | WRITE(10) and then READ(10) of a range sends back the stored bytes if and only if the host takes each block in full; they are the delivered bytes when there are enough. |
| ScsiRuns.WriteLeavesOtherBlocks | src/chibios182/community/os/various/lib_scsi.c:352-382 | All blocks outside the range keep their contents, even when the host delivers too little. |
| ScsiRuns.AcceptedAsAdvertised | src/chibios182/community/os/various/lib_scsi.c:300-340 | On a disk with blocks a non-empty, non-wrapping request is accepted exactly when all its blocks are at most the last address READ CAPACITY sends. |
| ScsiRuns.EmptyDiskRefuses | src/chibios182/community/os/various/lib_scsi.c:308-331 | On a disk without blocks this fails: the advertised address wraps to the largest, and every request is refused. |
| ScsiAnswers.ExecSends | src/chibios182/community/os/various/lib_scsi.c:124-312 | A command that is no transfer sends what the host takes of its response, or nothing when it is refused, and changes neither disk nor block buffer. |
| ScsiAnswers.CapacityRead | src/chibios182/community/os/various/lib_scsi.c:300-312 | From READ CAPACITY a host that takes all reads the last block address and the block length; address plus one times length is the size of the storage. |
| ScsiAnswers.ModeRead | src/chibios182/community/os/various/lib_scsi.c:228-243 | From MODE SENSE it reads how many bytes follow the first and the write protection, which is off exactly on a disk that is ready and not read-only. |
| ScsiAnswers.FormatRead | src/chibios182/community/os/various/lib_scsi.c:255-288 | From READ FORMAT CAPACITIES it reads the list length, the block count and the block length, right if and only if that is below 65536. |
| ScsiAnswers.FormatOfNothing | src/chibios182/community/os/various/lib_scsi.c:263-267 | With an allocation length of zero the command succeeds and sends nothing. |
| ScsiAnswers.InquiryRead | src/chibios182/community/os/various/lib_scsi.c:170-191 | INQUIRY sends the serial number page, the standard answer, or is refused without an answer. |
| ScsiAnswers.SenseReads | src/chibios182/community/os/various/lib_scsi.c:90-102 | The sense bytes after a success, after an unsupported command and after a field that is not accepted, for literal operation codes. |
| ScsiAnswers.TransferSenseReads | src/chibios182/community/os/various/lib_scsi.c:326-382 | A transfer succeeds exactly when all its blocks are on the disk; otherwise key 5 and code 0x21 are set and nothing moves. |
| ScsiRuns.ExecOutcome | src/chibios182/community/os/various/lib_scsi.c:425-490 | Status, sense data and residue after a command follow from its outcome: done, refused with key and code, or sent short. |
| ScsiRuns.RunFolds | src/chibios182/community/os/various/lib_scsi.c:425-490 | After any sequence of commands sense data and residue are folds over the outcomes. |
| ScsiRuns.LastWordSenses | src/chibios182/community/os/various/lib_scsi.c:486-487 | The sense data are decided by the last command that was not sent short. |
| ScsiRuns.RequestSenseClears | src/chibios182/community/os/various/lib_scsi.c:204-216 | REQUEST SENSE sends the sense data from before itself, and clears them exactly when all 18 bytes were taken. |
| ScsiRuns.RunKeepsGeometry | src/chibios182/community/os/various/lib_scsi.c:425-490 | No command changes the geometry or the state of the disk. |
| Tribuf.Buffers.constructor | src/chibios182/community/os/various/tribuf.c:62-72 | The handler starts with the given buffers and no token. |
| Tribuf.Buffers.SwapFront | src/chibios182/community/os/various/tribuf.c:107-116 | Front and orphan change places. |
| Tribuf.Buffers.SwapBack | src/chibios182/community/os/various/tribuf.c:172-188 | Back and orphan change places, and a signal is given unless there is a token already. |
| Tribuf.Buffers.SemSignal | src/chibios182/os/rt/src/chsem.c:319-334 | The counter goes up by one and the first waiting thread, if there is one, is woken. |
| Tribuf.Buffers.WaitReady | src/chibios182/community/os/various/tribuf.h:110-116 | The token is taken, the thread queued, or turned away with the counter restored. |
| Tribuf.Buffers.TimeOut | src/chibios182/os/rt/src/chschd.c:333-334 | A thread that gives up is counted back in and leaves the queue. |
| Tribuf.WithoutOne | src/chibios182/os/rt/src/chschd.c:333-334 | The thread that gave up is taken out of the queue and all others stay, in their order. |
| TribufRuns.StartInv | src/chibios182/community/os/various/tribuf.c:62-72 | Three different buffers without frames satisfy the invariant. |
| TribufRuns.StepKeepsInv | src/chibios182/community/os/various/tribuf.c:107-188 | Every critical section keeps the three buffers a permutation, the counter at most one and equal to minus the waiting threads below zero, and the ledger of frames. |
| TribufRuns.RunKeepsInv | src/chibios182/community/os/various/tribuf.c:107-188 | So does every interleaving. |
| TribufRuns.FreshIsEven | src/chibios182/community/os/various/tribuf.c:107-188 | In every reachable state the orphan is newer than the front if and only if a frame was published and an even number of front swaps came since. |
| TribufRuns.WokenInOrder | src/chibios182/os/rt/src/chsem.c:319-334 | Over any run threads are woken in the order in which they started to wait, but for those that gave up. |
| TribufRuns.IncreasingExact | src/chibios182/community/os/various/tribuf.c:93-116 | Over any run the consumers' frames grow strictly if and only if every front swap is the first after a publication; then each is the newest frame there is. |
| TribufRuns.CarefulFresh | src/chibios182/community/os/various/tribuf.c:99-101 | When no frame is published between taking a token and swapping, that always holds, and the counter is one exactly when the orphan is newer than the front and nobody holds the token. |
| TribufRuns.CarelessRun | src/chibios182/community/os/various/tribuf.c:99-101 | A publication in between leaves a token behind whose swap brings back an old frame. |
| TribufRuns.IsReadyExact | src/chibios182/community/os/various/tribuf.h:85-94 | In a careful run the test says yes exactly when there is an unclaimed new front or a waiting thread. So it tells whether there is a new front if and only if there is neither a waiting thread nor one that holds the token, or there are both. |
| TribufRuns.WaitingLooksReady | src/chibios182/community/os/various/tribuf.h:85-94 | With a waiting thread it says yes before anything was published. |
| TribufRuns.ClaimedLooksStale | src/chibios182/community/os/various/tribuf.h:85-94 | With a thread that has taken the token and not yet swapped it says no although there is a new front. |
| TribufRuns.CarelessLooksReady | src/chibios182/community/os/various/tribuf.h:85-94 | After a publication between token and swap it says yes with nobody waiting, nobody holding a token and nothing new. |
| CStrings.AtoiOfDecimal | src/source/communicationThread.c:80-80 | Reading a printed number gives it back. |
| CStrings.AtoiReads | src/source/communicationThread.c:80-80 | So does a number with blanks and a sign in front and anything but a digit behind; a minus negates it. |
| CStrings.NoNumber | src/source/communicationThread.c:80-80 | A text that starts with none of these reads as zero. |
| Exchange.ContainsExact | src/source/communicationThread.c:102-102 | strstr finds a text exactly where it stands between two others. |
| Exchange.LeadingDelimiters | src/source/communicationThread.c:78-79 | strtok_r skips delimiters in front of a token and finds none in a text of nothing but delimiters. |
| CStrings.DecimalLength | src/source/communicationThread.c:170-170 | A number below 10^k prints in at most k digits. |
| Strtok.StrtokR | src/source/communicationThread.c:78-79 | The in-place scan skips delimiters, ends the token with a NUL and saves the place behind it, exactly as the text's next token demands. |
| CommThread.CutKeepsEarlier | src/source/communicationThread.c:183-187 | A later cut leaves the tokens before it as they were. |
| CommThread.Node.constructor | src/source/communicationThread.c:20-21 | Both buffers start as zeros. |
| CommThread.Node.ProcessCommand | src/source/communicationThread.c:94-128 | The if-else chain sets the output of the first keyword that occurs in the sensor text, to a level or a width, and fails without change if none occurs. |
| CommThread.Node.SendMessage | src/source/communicationThread.c:167-173 | The decimal length, a colon, the text of the write buffer and a semicolon are sent; they fit the temporary buffer. |
| CommThread.Node.ThreeTokens | src/source/communicationThread.c:183-187 | Three scans of the shared buffer yield the three fields of the payload, and the first two survive the later scans. |
| CommThread.Node.Dispatch | src/source/communicationThread.c:190-204 | The branch for the command leaves the answer of the specification in the write buffer, within 200 characters. |
| CommThread.Node.DecodeNetstring | src/source/communicationThread.c:180-208 | The payload is handled and its framed answer sent. |
| CommThread.Node.DecodeMessage | src/source/communicationThread.c:65-85 | The frame is taken apart in place, and its payload handled if the length test passes; a frame that fails it is ignored, even without a payload. |
| CommThread.Node.Round | src/source/communicationThread.c:53-62 | A round does what the bytes just read ask for, and restores the loop-head state: write buffer all zero, read buffer zero from index 3 on. |
| CommThread.Node.Sense | src/source/communicationThread.c:139-148 | Samples and sensor lines are what they are when the round begins; nothing else changes. |
| CommThread.ReceivedText | src/source/communicationThread.c:55-59 | What is decoded depends on nothing but the bytes read. |
| CommThread.StatusFits | src/source/communicationThread.c:135-159 | The status text for any 16-bit samples fits the write buffer. |
| CommThread.KeywordOrder | src/source/communicationThread.c:102-125 | The search for the first keyword is the order of the if-else chain. |
| Protocol.FirstKeyword | src/source/communicationThread.c:102-125 | Nothing before the index found occurs in the sensor text, and the keyword found does. |
| Exchange.FrameRoundTrip | src/source/communicationThread.c:167-173 | Taking a frame apart gives the length, the payload and a passed length test back if and only if the payload is not empty and has no end mark. |
| Exchange.SetRequest | src/source/communicationThread.c:180-208 | A well-formed set request is answered by its three fields and ACK or NACK, correctly framed; ACK exactly when some keyword occurs in the sensor field, and then only the first such keyword's output changes, to the requested level. |
| Exchange.TargetInWords | src/source/communicationThread.c:102-125 | The seventeen names and their outputs. |
| Exchange.LevelsWritten | src/source/communicationThread.c:94-125 | A line gets 0 for the value 0 and 1 for any other; a PWM channel the width its driver has for the value. |
| Protocol.ChannelsApart | src/source/communicationThread.c:114-123 | No two outputs share a PWM channel, so one request cannot change two of them. |
| Exchange.FrameReceived | src/source/communicationThread.c:55-58 | A frame without a NUL is decoded as it was sent. |
| Exchange.RoundAnswersSet | src/source/communicationThread.c:53-62 | A round that reads the frame of a well-formed set request, of fewer than 128 bytes, sends its fields with ACK or NACK in a frame and leaves that board. |
| Exchange.RoundAnswersGet | src/source/communicationThread.c:53-62 | The same for a get request: the board stays and the status is sent. |
| Exchange.RoundAnswersOther | src/source/communicationThread.c:53-62 | The same for any other command: the board stays and 0:; is sent. |
| Exchange.ShortReadIgnored | src/source/communicationThread.c:56-56 | A read of up to three bytes is ignored. |
| Exchange.LengthDecides | src/source/communicationThread.c:80-84 | A request whose number is not below the count of bytes read is ignored; otherwise its payload is handled and answered. |
| Exchange.GetRequest | src/source/communicationThread.c:197-200 | A get request is answered by the framed status, which fits both buffers, and changes nothing. |
| Exchange.StatusReads | src/source/communicationThread.c:135-159 | Taken apart by its frame and its bars, the status answer holds the six averages of four samples each and the three sensor lines under their names. |
| Exchange.OtherRequest | src/source/communicationThread.c:201-207 | Any other command is answered by exactly 0:; and changes nothing. |
| Exchange.ServeAll | src/source/communicationThread.c:48-63 | The thread over any sequence of reads, with samples and sensor lines changing between them, is the fold of its rounds, and always returns to the loop-head state. |
| Exchange.LastRequestWins | src/source/communicationThread.c:48-63 | After any such run every output has the level of the last request that switched it, or its initial level. |

## Left out

- The CRC driver's configuration asserts, `start` and `stop`, and builds without the programmable engine or without the tables.
- CrcDriver.Driver.Reflect: the C function works on 32-bit words and a narrower value is widened with zeros; shifts by 32 do not occur for the polynomial sizes 8 to 32 that the model admits.
- The storm test's visual-feedback counter, its console output, delays, real timing and the shutdown of its threads.
- StormTest.Sweep: which steps happen in a one-second storm of a given interval is any sequence, because real time is not modelled.
- MemTest.Generator.Next: the wrap of the random kind's step counter is not modelled; it does not change the counter's parity.
- The dispatch of the memory tests by type and width masks, and the quality of `rand`.
- RamDisk.Device.Read: requires a storage as large as the geometry says, below 2^32 bytes, and a sum that does not wrap into the accepted range; outside that the behaviour of the C code is undefined.
- RamDisk.Device.Write: the same, and write protection is only reported, because the code does not enforce it.
- `ramdiskStop`, which only drops the storage pointer, and `sync`.
- ScsiTarget.Driver.ExecCmd: commands that ask for the geometry require a ready disk, because the behaviour of the C code is otherwise undefined; the refusal of TEST UNIT READY for a missing medium is not modelled, because the RAM disk is always inserted.
- ScsiTarget.Driver.DataOverflow: requires a ready disk, because the code otherwise uses a geometry it was not given.
- ScsiTarget.Driver.ReadCapacity10: the same.
- ScsiTarget.Driver.DataReadWrite10: the same, and the sum must not wrap into the accepted range.
- ScsiTarget.Driver.ReadFormatCapacities: the same for a nonzero allocation length; the three header bytes that the code leaves unset are a parameter.
- `scsiStop` and `scsiResidue`; other block devices and transports.
- TribufRuns.CarefulFresh: stated for the build with the semaphore; in the other build nothing clears the ready flag.
- Tribuf.Buffers.WaitReady: threads are numbers in a queue served in order of arrival, without priorities.
- CommThread.Node.Round: reads that fill all 128 bytes, requests with missing fields and numbers that do not fit an int are excluded, because the behaviour of the C code is then undefined.
- USB descriptors and events, CAN, the ADC and PWM registers, the LED threads and all kernel configuration.
- `bitmap.c`, `evtimer.c`, `syscalls.c`, `i2c_helpers.h` and the Python tools: single-bit access, thin wrappers and file rewriting.
