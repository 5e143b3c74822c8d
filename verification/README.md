# FreeBSD kernel cores: models and proofs

This project models ten pieces of logic of the FreeBSD kernel (`sys/kern`) in
Dafny and proves what they promise. C structures that are updated in place are
classes whose methods take the branches of the C functions; code that runs
under a lock is one atomic step; threads that interleave are a class with a
method `Step` for any enabled step and a method `Run` for any sequence of them,
which also returns what every step did (`Did`, `Traced`).

| files | what they model |
|---|---|
| `Common` | what several models need |
| `Bits`, `Canonical`, `HuftPrepare`, `HuftSizes`, `HuftTables`, `HuftWalk`, `HuftOpen`, `HuftFill`, `HuftBuilder` | `huft_build` of inflate.c: from code lengths to linked look-up tables, against bit-by-bit canonical decoding (section 3.2.2 of RFC 1951) |
| `Deflate`, `SlidingWindow`, `Inflate` | a reference decoder for DEFLATE over the bits of the whole input and an unbounded history; the 32K circular window; the bit buffer and all routines of inflate.c up to `xinflate` |
| `LookAhead`, `FixedBlocks`, `Frugality`, `LateStream` | which bits the look-ups of inflate.c ask for before they know the code, and which valid streams it therefore cannot finish |
| `Alphabets` | what the symbols of the coded data stand for, said without the tables of inflate.c |
| `Alq` | the ring buffer of kern_alq.c, with early wrap and a flush that gives up the lock |
| `Descriptors`, `FgetUnlocked` | the descriptor bitmap and table of kern_descrip.c; its lock-free look-up against installs, closes, growth and recycling of files |
| `Kqueue` | knotes, queue, scan markers and sleepers of kern_event.c |
| `Cpuset` | the reference-counted tree of CPU sets of kern_cpuset.c |
| `Sysinit` | the sort, run and merge loop of init_main.c |
| `Hardclock` | the tick compare-and-set protocol and the watchdog of kern_clock.c |
| `FailPoint` | printer and parser of fail points of kern_fail.c |
| `Acct` | the integer to binary32 encodings of kern_acct.c (section 3.4 of IEEE 754-2008) |
| `ImageWriter` | the image writer of imgact_gzip.c, fed in pieces |

How the C is read:

- A table of `huft_build` is named by its index in a list of tables, a pointer
  to it is that index. Local C arrays (`c`, `v`, `x`, `l`, `u`, `ll`) are
  sequences updated one element at a time. The bit buffer `b`, `k` and the
  window position `w`, which the C keeps in locals and copies back, are fields.
- What C leaves undefined (a look-up in no table, a value computed from memory
  never written or beyond the end of a list) is a value of its own, `Undefined`
  or `Stuck`, so that no theorem relies on it. `garbage` is what an
  uninitialised array happens to hold.
- The initial contents of the window count as history, because that is what the
  C copies from when a distance reaches before the start of the output. No
  theorem has a condition on distances. `FinalWord` then shows that a valid
  stream decodes to the same bytes whatever the window held.
- The output routine is an arbitrary function `sink` from the number of the call
  to its return code.
- `Failed(code, atEnd)` is an error return; `atEnd` only tells the 1 of
  `NEEDBITS` from the other error returns.
- Descriptor bitmaps are arrays of 64-bit words; a Dafny `Word` is the sequence
  of its bits. Process-wide counters (`ticks`, `watchdog_ticks`) wrap around at
  32 bits as `int` does.
- The filter `f_event` of a knote, a failing `copyout`, sleeping or timing out
  are arbitrary booleans. Privilege checks of CPU sets are parameters.
- Reference counts that other code may take or give back (`handles`, `others`)
  are multisets of the references held outside the modelled structures.

Where the code does not do what its comments, or a reader, would expect, the
code is modelled and the difference is stated exactly:

- inflate.c lines 340-343 and 545-546: the look-ups were meant not to ask for
  more bits than the stream has. That of end-of-block asks for exactly its own
  bits (`HuftSizes.AskedEnd`); that of another symbol can ask for up to 8 bits
  beyond its code (`HuftSizes.AskRange`) and so reach beyond a following
  end-of-block. A valid stream is decoded if and only if every look-up on the
  way is fed (`LookAhead.StreamFed`, `Inflate.Inflater.Xinflate`). Seven further
  bits of input are always enough (`LookAhead.StreamWithSpare`), so one further
  byte is; six are not: `LateStream.Late` is a valid stream of 18 bytes that ends
  with six bits of its last byte left, and `LateStream.GivesUp` shows that
  inflate.c fails on it. Blocks with fixed codes and stored blocks need nothing
  further (`FixedBlocks.NeverStarves`), and for each pair of code sets
  `Frugality.FrugalExactly` says exactly when all valid blocks need nothing.
- inflate.c lines 525-546: the limit on the size of a table is exceeded, by one
  bit at most unless the present code alone needs more, exactly under the
  condition of `HuftSizes.SizeIsFixed`; `HuftSizes.LimitExceeded` is a set of two
  codes where it is.
- inflate.c lines 944-958: with `PKZIP_BUG_WORKAROUND` the routine goes on after
  an over-subscribed set of distance lengths, with a dangling `td`. The model
  goes on as well, and is `Stuck` if a match is decoded.
- kern_descrip.c lines 204-226: `fd_last_used` looks at a whole word too many
  when the size is a multiple of the word size (`Descriptors.LastUsedAsPromised`,
  with the instance `Descriptors.LastUsedTooFar`). Its only caller never sees the
  difference (`Descriptors.CallerKeepsTo`).
- kern_event.c line 1284: KN_DISABLED is set without the lock of the kqueue. If
  the knote has been queued between the read and the write of the status, the
  queue and its count are wrong from then on, and only then
  (`Kqueue.Kqueue.StoreStatus`; `Kqueue.LostActivation` is such a run).
- kern_cpuset.c lines 356-390: `cpuset_modify` accepts an empty mask, and tests
  the mask against the parent's before it takes cpuset_lock. The tree stays in
  order exactly when the mask is not empty and lies inside the mask the parent
  has when the lock is held (`Cpuset.Cpusets.Modify`, `Cpuset.OutgrownParent`).
- kern_cpuset.c lines 262-275: so with the overlap tested by `_cpuset_create`
  (`Cpuset.Cpusets.Insert`, `Cpuset.CreatedEmpty`).
- kern_cpuset.c lines 550-616: `cpuset_setproc` checks all threads before it moves
  any, but a set can shrink between the two. It is all or nothing if and only if
  at the time of the moves all threads can move or the first one cannot
  (`Cpuset.Cpusets.MoveProc`, `Cpuset.HalfMoved`).
- kern_fail.c lines 319-322 and 501-523: a process number is printed after any
  argument but read only after an argument in parentheses, which is printed only
  when it is not zero (`FailPoint.RoundTrip`, `FailPoint.UnreadableReachable`).
- kern_acct.c lines 518-541: `encode_long` is right below 2^32 and only there
  (`Acct.LongExact`).
- imgact_gzip.c lines 331-383: the C takes minima of unsigned 32-bit quantities;
  pieces are copied whole exactly when offset and end are less than 2^32 apart
  (`ImageWriter.CopiesAll`; `ImageWriter.HugeDoesNotFit` is an accepted header
  for which they are not), which the resource limits imply when they add up to
  less than that (`ImageWriter.LimitsFit`).

## Model

| member | source | states |
|---|---|---|
| Canonical.CodeInjective | sys/kern/inflate.c:504-514 | the canonical codes of two different symbols are different bit strings |
| Canonical.CodeIsStart | sys/kern/inflate.c:504-514 | bits are the canonical code of a symbol if and only if they stand where its length and its rank among symbols of that length put it, counted from the shortest codes on |
| Canonical.KraftIsBase | sys/kern/inflate.c:480-486 | the room the counted codes take up is the Kraft sum of the lengths |
| HuftPrepare.CountLengths | sys/kern/inflate.c:447-460 | counts the symbols of every length |
| HuftPrepare.FindMinMax | sys/kern/inflate.c:466-478 | the shortest and the longest length in use |
| HuftPrepare.SpareCodes | sys/kern/inflate.c:480-486 | stops with "over-subscribed" if and only if the codes need more than all patterns; otherwise returns exactly the number of unused patterns |
| HuftPrepare.Offsets | sys/kern/inflate.c:488-494 | the offset of each length is the number of shorter codes |
| HuftPrepare.SortSymbols | sys/kern/inflate.c:496-502 | the value table lists the symbols by length, then by number |
| HuftOpen.ChooseBits | sys/kern/inflate.c:525-546 | the size of a table is the smallest that the codes to come fill, or the limit, cut so that the end-of-block code ends with a table |
| HuftSizes.SizeIsFixed | sys/kern/inflate.c:525-546 | this determines the size; it exceeds the limit if and only if the present code alone needs more, or needs just the limit and leaves the table unfilled |
| HuftSizes.LimitExceeded | sys/kern/inflate.c:525-546 | for codes of 7 and 8 bits with a limit of 6 the table has 8 bits |
| HuftSizes.AskedBound | sys/kern/inflate.c:525-546 | in tables of any code set with a limit of at most 9 a look-up asks for at least its code and at most 8 bits more |
| HuftSizes.AskedEnd | sys/kern/inflate.c:545-546 | that of a code as long as end-of-block asks for exactly the code |
| HuftSizes.AskRange | sys/kern/inflate.c:525-546 | so the bits a symbol asks for lie between its length and 8 more, and end-of-block asks for its length |
| HuftOpen.OpenedInv | sys/kern/inflate.c:551-576 | opening and linking a table keeps the invariant of the builder: every cell before the current code is final, the open tables are a chain of links along the code |
| HuftFill.MakeTables | sys/kern/inflate.c:522-576 | opens tables along the current code until one decides all its bits, and keeps the invariant |
| HuftFill.MakeTable | sys/kern/inflate.c:524-576 | opens one table of the chosen size at the prefix of the current code |
| HuftFill.FillEvery | sys/kern/inflate.c:594-597 | stores the entry in every cell whose low bits are the code, and in no other |
| HuftFill.BackIncrement | sys/kern/inflate.c:599-602 | the bit-reversed code becomes that of the next code |
| HuftBuilder.Backup | sys/kern/inflate.c:604-606 | leaves exactly the tables that are not on the path of the next code |
| HuftBuilder.PlaceCode | sys/kern/inflate.c:516-607 | placing one code makes its whole interval of patterns final |
| HuftBuilder.BuildTables | sys/kern/inflate.c:504-611 | in the end every cell of every table is final |
| HuftBuilder.ReturnRight | sys/kern/inflate.c:613-614 | the value returned is 2 exactly for a Kraft sum above 1, 1 exactly for one below 1 with some length set and some length above 1, else 0 |
| HuftBuilder.HuftBuild | sys/kern/inflate.c:414-615 | for every list of lengths up to 16: the right return code; no tables exactly for over-subscribed or empty sets; otherwise tables that decode every bit string as canonical decoding does, asking for exactly the bits AsksOf says and failing short only with fewer |
| HuftWalk.WalkFrom | sys/kern/inflate.c:661-671 | from any table, the look-up loop ends in the entry of the code the bits start with, after asking for the bits its last table ends with |
| HuftWalk.NoTableBelow | sys/kern/inflate.c:545-546 | no table lies on or below the end of a code |
| HuftWalk.DecodeOfSlot | sys/kern/inflate.c:661-671 | the slot found is the symbol of canonical decoding, and an unused pattern if and only if no code matches |
| HuftWalk.TablesDecode | sys/kern/inflate.c:661-671 | for every bit string the look-up dumps exactly the code of the symbol, yields its entry, and asks for exactly the bits determined by the code set; it runs short exactly with fewer |
| SlidingWindow.Window.Back | sys/kern/inflate.c:700-703 | the byte any distance up to 32768 back in the history is where the window index says |
| SlidingWindow.Window.Flush | sys/kern/inflate.c:672-677 | hands the bytes before the index to the output routine |
| SlidingWindow.Window.Put | sys/kern/inflate.c:672-677 | appends a byte to the history; flushes exactly when the window is full, and fails only with the code of the output routine |
| SlidingWindow.Window.CopyRun | sys/kern/inflate.c:704-716 | one run of a copy, overlapping or not, is that many steps of copying byte by byte |
| SlidingWindow.Window.CopyMatch | sys/kern/inflate.c:700-721 | the copy across wraps of source and destination is copying byte by byte from the unbounded history; when the output routine refuses, a prefix of it |
| SlidingWindow.Window.FlushRest | sys/kern/inflate.c:1034-1035 | after the last flush all of the history has been output |
| Inflate.Reader.NeedBits | sys/kern/inflate.c:353-361 | succeeds if and only if the input has that many bits, and takes in exactly the bytes that hold them |
| Inflate.Reader.DumpBits | sys/kern/inflate.c:363 | moves on by the bits dumped |
| Inflate.Reader.Peek | sys/kern/inflate.c:359-363 | the low bits of the buffer are the next bits of the input |
| Inflate.Reader.GetBits | sys/kern/inflate.c:683-686 | reads a number whose first bit is least significant, or fails at the end of the input |
| Inflate.Reader.DecodeEntry | sys/kern/inflate.c:661-671 | the loop over the bit buffer is the look-up over the bits of the input, moves on by the bits used and takes in exactly the bytes asked for |
| Inflate.Inflater.ReadDistance | sys/kern/inflate.c:688-698 | a distance is that of the reference decoder and lies in 1..32768 |
| Inflate.Inflater.ReadMatch | sys/kern/inflate.c:683-698 | length and distance of a match are those of the reference decoder, whose symbols stand for what module Alphabets says |
| Inflate.Inflater.TakeMatch | sys/kern/inflate.c:683-721 | a match takes the history where the reference decoder takes it |
| Inflate.Inflater.OneToken | sys/kern/inflate.c:661-723 | one turn of the loop is one element of the reference decoder; at end-of-block no byte beyond the one that ends its code has been taken in |
| Inflate.Inflater.InflateCodes | sys/kern/inflate.c:640-732 | on every exit the history is that of the reference decoder as far as it goes; all of it on success; it succeeds on valid data exactly if every look-up is fed, and on a failure not for want of input the reference decoder fails after the same bytes |
| Inflate.Inflater.StoredLength | sys/kern/inflate.c:749-760 | the length of a stored block is read, and accepted exactly with its complement |
| Inflate.Inflater.StoredRun | sys/kern/inflate.c:762-770 | copies the stored bytes, or those there are |
| Inflate.Inflater.InflateStored | sys/kern/inflate.c:736-777 | a stored block, byte aligned with its length checked, as the reference decoder has it, with the same bytes before any failure; a refusal is the code of the output routine |
| Inflate.FixedLengths | sys/kern/inflate.c:792-800 | the four loops make the fixed lengths of section 3.2.6 of RFC 1951 |
| Inflate.FixedSets | sys/kern/inflate.c:792-812 | the fixed literal code is complete, the fixed distance code is not |
| Inflate.Inflater.InflateFixed | sys/kern/inflate.c:783-821 | a block with the fixed codes agrees with the reference decoder, tables built or kept; a refusal of the output routine comes back as 1 |
| Inflate.Inflater.ReadCodeLengthCode | sys/kern/inflate.c:872-878 | the lengths sent go where the order of sending says and the others are zero, whatever the array held |
| Inflate.Inflater.LookupOnce | sys/kern/inflate.c:892-895 | a single look-up is the whole look-up, because the tables for code lengths have one level |
| Inflate.Inflater.ReadLengths | sys/kern/inflate.c:888-925 | the code lengths with their repeats are those of the reference decoder, or the list is bad or too long for it too |
| Inflate.Inflater.ReadSets | sys/kern/inflate.c:871-932 | the two sets of lengths of a dynamic block |
| Inflate.Inflater.ReadHeader | sys/kern/inflate.c:854-932 | the header of a dynamic block is read, or rejected, as the reference decoder does |
| Inflate.Inflater.InflateDynamic | sys/kern/inflate.c:825-967 | a dynamic block agrees with the reference decoder on every exit; a refusal of the output routine comes back as 1 |
| Inflate.Inflater.InflateBlock | sys/kern/inflate.c:971-1004 | block type and last-block bit, and the block agrees with the reference decoder; a refusal comes back as the kind of block has it |
| Inflate.Inflater.InflateBlocks | sys/kern/inflate.c:1026-1032 | any sequence of blocks agrees with the reference decoder |
| Inflate.Inflater.Xinflate | sys/kern/inflate.c:1010-1039 | for every input, output routine, window and garbage: what has been output is always a prefix of what the reference decoder makes of the input, and all of it on success, with a flush for each full window and one at the end; a failure not for want of input means an invalid stream; unless the output routine refuses, a valid stream is decoded if and only if every look-up is fed, which seven further bits of input guarantee; a refusal comes back as 1 or as the code of the output routine |
| Inflate.FinalWord | sys/kern/inflate.c:1010-1039 | this does not depend on what the window held: for a valid stream it holds against a decoder with an empty history |
| LookAhead.StreamWithSpare | sys/kern/inflate.c:340-343 | a valid stream with seven further bits of input feeds every look-up |
| LookAhead.FedWithSpare | sys/kern/inflate.c:661-698 | the coded data of a valid block feed every look-up if one bit less follows them than a look-up can ask for beyond its code |
| FixedBlocks.FixedModest | sys/kern/inflate.c:792-812 | no look-up in the fixed codes asks for more than its code |
| FixedBlocks.NeverStarves | sys/kern/inflate.c:736-821 | a valid stored block, or one with the fixed codes, feeds every look-up whatever follows it |
| Frugality.FrugalExactly | sys/kern/inflate.c:340-343 | for any two code sets, all valid blocks feed every look-up whatever follows them if and only if no look-up asks for more than the shortest rest of a block still has |
| LateStream.LengthsReadBack | sys/kern/inflate.c:888-925 | code lengths sent with any code length code are read back |
| LateStream.AsksForTen | sys/kern/inflate.c:525-546 | for one code of each length up to 10 with end-of-block the shortest, the look-up of the two-bit code asks for ten bits |
| LateStream.LimitReached | sys/kern/inflate.c:525-546 | the reason: the second table is as large as the limit allows |
| LateStream.LateIsValid | sys/kern/inflate.c:340-343 | a stream of 144 bits that is valid and ends after 138 |
| LateStream.LateIsNotFed | sys/kern/inflate.c:340-343 | a look-up of it is not fed |
| LateStream.LookUpFails | sys/kern/inflate.c:661-671 | in any tables huft_build makes for its code set the look-up runs short on nine bits that hold a code, end-of-block and six more |
| LateStream.GivesUp | sys/kern/inflate.c:1010-1039 | inflate.c reports an error for this valid stream |
| Deflate.CodesAfter | sys/kern/inflate.c:700-721 | what a valid block decodes to does not depend on older history |
| Deflate.InflatedAfter | sys/kern/inflate.c:1010-1039 | the same for a whole stream |
| Alphabets.LengthTables | sys/kern/inflate.c:301-308 | length symbols start at 3, each range where the one before ends, the first eight without extra bits and then one bit more for every four, up to 258; symbol 285 is 258 again |
| Alphabets.LengthSent | sys/kern/inflate.c:683-686 | every length from 3 to 258 is that of some symbol and extra bits, and is read back |
| Alphabets.LengthOrder | sys/kern/inflate.c:683-686 | greater symbols stand for greater lengths, but for the two that stand for 258 |
| Alphabets.DistanceTables | sys/kern/inflate.c:310-318 | distance symbols start at 1, each range where the one before ends, the first two without extra bits and then one bit more for every two, up to 32768 |
| Alphabets.DistanceSent | sys/kern/inflate.c:688-698 | every distance from 1 to 32768 is that of some symbol and extra bits, and is read back |
| Alphabets.BorderOrder | sys/kern/inflate.c:298-299 | the order in which the lengths of the code length code are sent |
| Alphabets.RepeatsSent | sys/kern/inflate.c:900-925 | symbol 16 stands for 3 to 6 more of the last length, 17 for 3 to 10 zeros, 18 for 11 to 138 |
| Alphabets.FixedCodes | sys/kern/inflate.c:792-812 | the fixed codes are those of the table in section 3.2.6 of RFC 1951 |
| Alphabets.RunsOut | sys/kern/inflate.c:640-732 | a whole stream, bit by bit: a literal and a match of length 3 at distance 1 are four times the literal |
| Alphabets.RunsDecoded | sys/kern/inflate.c:1010-1039 | inflate.c decodes it to that |
| Alq.StoredPending | sys/kern/kern_alq.c:605-637 | a message stored straight or around the end follows all that is pending |
| Alq.ContiguousMost | sys/kern/kern_alq.c:684-697 | the contiguous bytes are all that a message can use at the head |
| Alq.GrantsAll | sys/kern/kern_alq.c:684-717 | a grant is possible if and only if somewhere in the buffer as many bytes in a row are neither pending nor in the hole |
| Alq.OccupiedIsPending | sys/kern/kern_alq.c:684-717 | what is pending depends on the other bytes alone |
| Alq.WrappedEarlyPending | sys/kern/kern_alq.c:695-717 | an early wrap leaves what is pending as it is: the hole is not part of it |
| Alq.TakenIsFront | sys/kern/kern_alq.c:325-352 | the extents a flush writes are the front of what is pending |
| Alq.FlushedPending | sys/kern/kern_alq.c:381-401 | what remains after the settlement of a flush, whatever was added meanwhile, is what was pending less what was written |
| Alq.FlushedWhole | sys/kern/kern_alq.c:381-401 | a flush that nothing was added to leaves the empty queue in its first state |
| Alq.LongerInFlight | sys/kern/kern_alq.c:605-637 | a message added during a flush keeps the state the settlement relies on |
| Alq.StoredKeepsTaken | sys/kern/kern_alq.c:605-637 | and does not touch the bytes being written |
| Alq.Grown | sys/kern/kern_alq.c:605-637 | behind any number of bytes written, a stored message extends exactly what is pending |
| Alq.Alq.constructor | sys/kern/kern_alq.c:462-470 | a new queue is empty and consistent |
| Alq.Alq.Writen | sys/kern/kern_alq.c:509-660 | posts the whole message if and only if the queue is open, has room, and no earlier writer of an ordered queue waits; otherwise changes no byte, and sleeps for its turn or for room exactly as stated |
| Alq.Alq.ResumeWriten | sys/kern/kern_alq.c:560-603 | a writer woken up posts if and only if the queue is open and has room, and sleeps again if it is open and has none |
| Alq.Alq.CopyMessage | sys/kern/kern_alq.c:609-637 | one or two copies put the message around the ring |
| Alq.Alq.Getn | sys/kern/kern_alq.c:675-815 | grants contiguous room if and only if the queue is open and has it behind the data or, when they lie straight, before them; wraps early exactly when the room behind does not do and that before does or the caller may wait; sleeps exactly as stated |
| Alq.Alq.ResumeGetn | sys/kern/kern_alq.c:756-783 | the same after a wake-up, without an early wrap |
| Alq.Alq.WrapEarly | sys/kern/kern_alq.c:701-717 | the early wrap and its hole |
| Alq.Alq.FillGranted | sys/kern/kern_alq.c:801-812 | the holder of a grant writes only its own bytes and nothing pending |
| Alq.Alq.Post | sys/kern/kern_alq.c:828-870 | posts the used part of the grant, which may be nothing |
| Alq.Alq.FlushBegin | sys/kern/kern_alq.c:308-355 | the extents of a flush |
| Alq.Alq.FlushByte | sys/kern/kern_alq.c:355-379 | a byte written while the lock is not held is the next one pending |
| Alq.Alq.FlushEnd | sys/kern/kern_alq.c:381-410 | settles the flush and loses and repeats nothing |
| Alq.Alq.Shutdown | sys/kern/kern_alq.c:260-290 | a queue being shut down is marked for the daemon if it holds anything |
| Alq.Alq.Step | sys/kern/kern_alq.c:308-870 | what each step does to every part of the queue; it posts a message or nothing and only adds to the file |
| Alq.Alq.Run | sys/kern/kern_alq.c:308-870 | in any interleaving of writers, grants and the parts of flushes, the file followed by what is pending is exactly the posted messages in order; the trace shows every possible step taken |
| Alq.Alq.Drain | sys/kern/kern_alq.c:308-410 | a flush that runs to its end writes all that was posted |
| Descriptors.UsedOr | sys/kern/kern_descrip.c:251-261 | setting a bit of a word adds one descriptor to the set and nothing else |
| Descriptors.UsedAndNot | sys/kern/kern_descrip.c:267-283 | clearing one removes one |
| Descriptors.LastUsedAsPromised | sys/kern/kern_descrip.c:204-226 | what fd_last_used returns is the last descriptor below its size if and only if the size is no multiple of 64 or the next 64 are unused |
| Descriptors.LastUsedTooFar | sys/kern/kern_descrip.c:204-226 | with descriptor 64 in use and size 64 it returns 64 |
| Descriptors.CallerKeepsTo | sys/kern/kern_descrip.c:267-283 | fdunused gets the greatest descriptor still in use from it |
| Descriptors.Filedesc.constructor | sys/kern/kern_descrip.c:1863-1908 | a new table is empty and its caches agree with the bitmap |
| Descriptors.Filedesc.FirstFree | sys/kern/kern_descrip.c:182-203 | the least unused descriptor from a start on |
| Descriptors.Filedesc.LastUsed | sys/kern/kern_descrip.c:209-226 | the greatest used descriptor in the words looked at, or -1 |
| Descriptors.Filedesc.MarkUsed | sys/kern/kern_descrip.c:251-261 | adds a descriptor; fd_freefile stays the least unused and fd_lastfile the greatest used |
| Descriptors.Filedesc.MarkUnused | sys/kern/kern_descrip.c:267-283 | removes one, with the same promise |
| Descriptors.Filedesc.GrowTable | sys/kern/kern_descrip.c:1537-1620 | grows to whole words, keeps every entry and the set, never shrinks |
| Descriptors.Filedesc.GrowTableExp | sys/kern/kern_descrip.c:1521-1530 | grows to the size wanted or to twice the size |
| Descriptors.Filedesc.Alloc | sys/kern/kern_descrip.c:1631-1690 | the least unused descriptor not below the minimum, or EMFILE exactly when there is none below the limit |
| Descriptors.Filedesc.AllocN | sys/kern/kern_descrip.c:1696-1715 | succeeds if and only if enough descriptors are unused, each the least then unused; a failure leaves the set as it was |
| Descriptors.Filedesc.Finstall | sys/kern/kern_descrip.c:1756-1855 | installs a file at the least unused descriptor and changes no other entry |
| Descriptors.Filedesc.Close | sys/kern/kern_descrip.c:1222-1240 | removes the entry and its descriptor, or fails |
| Descriptors.Filedesc.DupFixed | sys/kern/kern_descrip.c:809-932 | dup2: the new descriptor refers to the file of the old one and the file it replaces is handed back |
| Descriptors.Filedesc.Copy | sys/kern/kern_descrip.c:1977-2008 | the copy holds exactly the entries that may be passed on, with right caches |
| FgetUnlocked.StoredInformed | sys/kern/kern_descrip.c:2505-2562 | a store into the current table keeps what each look-up has seen true |
| FgetUnlocked.GrownInformed | sys/kern/kern_descrip.c:1574-1617 | so does the exchange of the table for a larger one while old ones are still read |
| FgetUnlocked.Process.Install | sys/kern/kern_descrip.c:1775-1785 | a file in use gets one more count and one more slot |
| FgetUnlocked.Process.Close | sys/kern/kern_descrip.c:1222-1240 | the reference of a slot passes to the closer |
| FgetUnlocked.Process.Dup | sys/kern/kern_descrip.c:809-932 | the reference of the replaced file passes to the caller |
| FgetUnlocked.Process.Grow | sys/kern/kern_descrip.c:1574-1617 | references follow the slots to the new table |
| FgetUnlocked.Process.Falloc | sys/kern/kern_descrip.c:1756-1785 | only a file with count zero is used again, with count one |
| FgetUnlocked.Process.Drop | sys/kern/kern_descrip.c:2876-2889 | drops one reference; the file is freed exactly when no slot and nobody refers to it |
| FgetUnlocked.Process.Call | sys/kern/kern_descrip.c:2493-2496 | a call starts at the current table or is out of range |
| FgetUnlocked.Process.Refresh | sys/kern/kern_descrip.c:2540-2549 | the table pointer is read again |
| FgetUnlocked.Process.TryHold | sys/kern/kern_descrip.c:2547 | the compare-and-set raises the count by one if it is still what was read, and never from zero |
| FgetUnlocked.Process.Abandon | sys/kern/kern_descrip.c:2558-2562 | the reference to a file that left its slot is given back |
| FgetUnlocked.Process.Advance | sys/kern/kern_descrip.c:2505-2562 | any one step of a look-up goes where the code says; it succeeds only with a counted file that was in its slot during the call, and finds none only where there was none |
| FgetUnlocked.Process.LookupAlone | sys/kern/kern_descrip.c:2478-2571 | a call that nothing disturbs returns the file in the slot with one more reference, or fails exactly if there is none |
| FgetUnlocked.Process.FinishAlone | sys/kern/kern_descrip.c:2505-2562 | from any point, however stale its table, a call that is not disturbed any more ends after at most 13 memory accesses |
| FgetUnlocked.LeftLess | sys/kern/kern_descrip.c:2505-2562 | each memory access brings an undisturbed call nearer to its end |
| FgetUnlocked.Process.ReferencedBy | sys/kern/kern_descrip.c:2558-2571 | a file held by a look-up has a count above zero |
| FgetUnlocked.Process.Step | sys/kern/kern_descrip.c:2478-2571 | every step keeps each count equal to slots of the current table plus references held; no count rises from zero but by allocation; a returned file was in that slot at some moment of the call, and a call fails only if at some moment the slot was empty or beyond the table |
| FgetUnlocked.Process.Run | sys/kern/kern_descrip.c:2478-2571 | so does every interleaving, and the log says of each action what it did: every file returned was live then and in its slot at some moment of the call, every failed call had no file there at some moment, and no count rose from zero but by an allocation |
| Kqueue.Kqueue.constructor | sys/kern/kern_event.c:1467-1512 | the empty queue |
| Kqueue.Kqueue.Wakeup | sys/kern/kern_event.c:1893-1900 | no thread stays asleep after a wake-up |
| Kqueue.Kqueue.Enqueue | sys/kern/kern_event.c:2342-2353 | at the tail, counted, and nobody sleeps on |
| Kqueue.Kqueue.Dequeue | sys/kern/kern_event.c:2356-2366 | off the queue and off the count |
| Kqueue.Kqueue.Activate | sys/kern/kern_event.c:197-207 | active, and queued unless disabled |
| Kqueue.Kqueue.KnoteEvent | sys/kern/kern_event.c:1922-1975 | an event activates a knote unless it is in flux without a scan of its filter |
| Kqueue.Kqueue.RegisterNew | sys/kern/kern_event.c:1195-1235 | a new knote in flux |
| Kqueue.Kqueue.RegisterOld | sys/kern/kern_event.c:1253-1264 | an existing one is taken in flux, and forced once if so asked |
| Kqueue.Kqueue.LoadStatus | sys/kern/kern_event.c:1284 | the read of the status without the lock of the kqueue |
| Kqueue.Kqueue.StoreStatus | sys/kern/kern_event.c:1284 | the write; every promise holds afterwards if and only if nobody has queued the knote in between |
| Kqueue.LostActivation | sys/kern/kern_event.c:1284 | a run that loses an activation: the knote is on the list but no longer marked as queued |
| Kqueue.Kqueue.RegisterEnd | sys/kern/kern_event.c:1287-1303 | takes the event over, ends the flux and enables: queued exactly if it was, if an event has come while it was enabled, or if it is enabled while active |
| Kqueue.Kqueue.Doom | sys/kern/kern_event.c:1244-1251 | a knote to be dropped is taken for good |
| Kqueue.Kqueue.Drop | sys/kern/kern_event.c:2309-2339 | it leaves queue, count and list |
| Kqueue.Kqueue.FluxWakeup | sys/kern/kern_event.c:211-220 | those who wait for flux to end go on |
| Kqueue.Kqueue.ScanRetry | sys/kern/kern_event.c:1510-1528 | a scan of an empty queue sleeps or ends, else its marker goes to the tail |
| Kqueue.Kqueue.ScanNext | sys/kern/kern_event.c:1532-1597 | what a scan does with the head of the queue, in all cases: queue, knote, count and where the scan goes |
| Kqueue.Kqueue.ScanEvent | sys/kern/kern_event.c:1598-1652 | the knote is returned exactly if its filter said yes; it is queued again, last and counted, exactly if moreover neither EV_CLEAR nor EV_DISPATCH is set, and otherwise off the queue, inactive and not counted; it is newly disabled exactly for an event with EV_DISPATCH |
| Kqueue.QuietStays | sys/kern/kern_event.c:1080-1665 | no action but an activation puts back on the queue a knote that is off it |
| Kqueue.ClearedStaysOff | sys/kern/kern_event.c:1617-1634 | in any run a knote with EV_CLEAR or EV_DISPATCH that has been returned stays off the queue, and no scan takes it, until it is activated again |
| Kqueue.Kqueue.ScanDrop | sys/kern/kern_event.c:1563-1591 | a one-shot or dropped knote is gone, and returned if it was an event |
| Kqueue.Kqueue.Copyout | sys/kern/kern_event.c:1643-1648 | with a full buffer the scan gives up the lock to copy it out, and otherwise goes on |
| Kqueue.Kqueue.CopiedOut | sys/kern/kern_event.c:1648-1654 | after the copy it goes on with an empty buffer, or ends, its marker gone, if the copy failed |
| Kqueue.TakenScan | sys/kern/kern_event.c:1548-1594 | a knote at the head has not been returned by the scan that takes it |
| Kqueue.DeliveredRight | sys/kern/kern_event.c:1617-1641 | a knote returned is behind the marker of the scan or off the queue |
| Kqueue.Kqueue.Run | sys/kern/kern_event.c:1080-1665 | in every state reachable without a write of line 1284 that undoes an activation: kq_count is the number of queued knotes; a knote is on the list exactly when it is queued and no scan holds it; active, enabled, undoomed knotes are queued; nobody sleeps while the count is above zero; every scan that has ended left no marker, returned no knote twice and no more than it was asked for; the trace shows every possible action taken and what it did |
| Kqueue.Kqueue.NotesPromise | sys/kern/kern_event.c:2342-2366 | the promises about knotes hold in every valid state |
| Kqueue.Kqueue.ScanPromise | sys/kern/kern_event.c:1510-1665 | the promises about ended scans do |
| Cpuset.PartlyAll | sys/kern/kern_cpuset.c:338-348 | restricting every child one after another restricts every descendant, once |
| Cpuset.FirstFitAll | sys/kern/kern_cpuset.c:311-333 | the children that fit one after another all fit |
| Cpuset.UpdatedHealthy | sys/kern/kern_cpuset.c:356-390 | after an accepted change every mask in use is non-empty and within that of its parent if and only if the new mask is |
| Cpuset.LiveShape | sys/kern/kern_cpuset.c:192-203 | the sets in use are a tree of their own: no set waiting for its release has children |
| Cpuset.BootReference | sys/kern/kern_cpuset.c:192-215 | a set without a parent is never freed |
| Cpuset.Cpusets.constructor | sys/kern/kern_cpuset.c:258-279 | the first set and its count |
| Cpuset.Cpusets.TestUpdate | sys/kern/kern_cpuset.c:311-333 | succeeds exactly when no set of the subtree is read-only and the update would leave none empty |
| Cpuset.Cpusets.UpdateMasks | sys/kern/kern_cpuset.c:338-348 | intersects the masks of the whole subtree and of no other set |
| Cpuset.Cpusets.MayModify | sys/kern/kern_cpuset.c:361-379 | the checks made before the lock is taken |
| Cpuset.Cpusets.Modify | sys/kern/kern_cpuset.c:380-387 | under the lock: the exact condition of success; a failure changes nothing; the tree stays in order if and only if it fails or the mask is not empty and inside the mask the parent has by then |
| Cpuset.Cpusets.ModifyAlone | sys/kern/kern_cpuset.c:356-390 | with nothing in between the tree stays in order exactly unless an empty mask was accepted |
| Cpuset.OutgrownParent | sys/kern/kern_cpuset.c:378-385 | a parent shrunk in between leaves a child with a CPU its parent does not have |
| Cpuset.Cpusets.Insert | sys/kern/kern_cpuset.c:268-275 | under the lock: a child with the common part of the masks, counted; the tree stays in order if and only if that is not empty |
| Cpuset.CreatedEmpty | sys/kern/kern_cpuset.c:262-269 | a parent shrunk in between gives a new set without a CPU |
| Cpuset.Cpusets.Create | sys/kern/kern_cpuset.c:258-278 | with nothing in between, a child with the common part of the masks or nothing when that is empty |
| Cpuset.Cpusets.Ref | sys/kern/kern_cpuset.c:126 | one more reference |
| Cpuset.Cpusets.Fork | sys/kern/sched_ule.c:2101 | a new thread has a counted reference to the set of its creator |
| Cpuset.Cpusets.RelDefer | sys/kern/kern_cpuset.c:192-203 | one less; the last one takes the set out of the tree and onto the list |
| Cpuset.Cpusets.Free | sys/kern/kern_cpuset.c:210-215 | frees any one of the sets waiting and hands on the reference to its parent |
| Cpuset.Cpusets.Rel | sys/kern/kern_cpuset.c:169-185 | the set goes exactly with its last reference; none but ancestors can go with it, and no set that stays is changed |
| Cpuset.Cpusets.Shadow | sys/kern/kern_cpuset.c:488-499 | an anonymous set below the base, exactly for a non-empty mask within that of the base |
| Cpuset.Cpusets.SetThread | sys/kern/kern_cpuset.c:693-722 | the thread gets the shadow of the base of its set or nothing changes; counts stay right |
| Cpuset.Cpusets.TestProc | sys/kern/kern_cpuset.c:555-580 | the check passes exactly when every thread may move |
| Cpuset.Cpusets.TestThread | sys/kern/kern_cpuset.c:557-579 | when one thread may move |
| Cpuset.Cpusets.MoveThread | sys/kern/kern_cpuset.c:586-616 | one thread gets the stated set exactly when it can at its turn; else nothing changes |
| Cpuset.Cpusets.MoveAll | sys/kern/kern_cpuset.c:586-616 | the second pass stops at the first thread that cannot move; those before it have moved and no other |
| Cpuset.Cpusets.MoveProc | sys/kern/kern_cpuset.c:586-626 | the same with the release of the sets given up: all or nothing if and only if all threads can move or the first cannot |
| Cpuset.HalfMoved | sys/kern/kern_cpuset.c:550-616 | a set shrunk between check and moves leaves one thread of two moved and the call failed |
| Cpuset.Cpusets.SetProc | sys/kern/kern_cpuset.c:515-626 | with nothing in between, all or nothing for any number of threads, with the exact condition of success and the stated set for each; every count is children plus threads plus handles; no other set is disturbed |
| Cpuset.Cpusets.Step | sys/kern/kern_cpuset.c:122-627 | what each piece run under the lock does; it keeps the tree and all counts in order unless it is an update or insertion the earlier checks no longer cover |
| Cpuset.Cpusets.Run | sys/kern/kern_cpuset.c:122-627 | in any interleaving up to such a piece: every count is exact, only sets without references wait for release, every set in use has a CPU, lies inside its parent and has a parent in use, and every thread has a CPU inside its base; the trace shows every possible action taken and what it did |
| Cpuset.Cpusets.SetPromise | sys/kern/kern_cpuset.c:122-627 | the promises about sets hold in every sound state |
| Cpuset.Cpusets.ThreadPromise | sys/kern/kern_cpuset.c:122-627 | so do those about threads |
| Sysinit.RunOnce | sys/kern/init_main.c:253-307 | in a run in order no task runs twice |
| Sysinit.RunsBefore | sys/kern/init_main.c:229-239 | a task registered before another of greater subsystem, or of the same subsystem and greater order, runs has run before it |
| Sysinit.RunsInOrder | sys/kern/init_main.c:229-239 | so tasks registered at the start run by subsystem, and within one by order |
| Sysinit.NextMayRun | sys/kern/init_main.c:253-307 | the next task of the sorted table is least among the registered tasks not yet run |
| Sysinit.Compared | sys/kern/init_main.c:229-239 | an exchange keeps the sorted part and makes the present place least so far |
| Sysinit.Boot.Add | sys/kern/init_main.c:144-172 | later registrations go behind the table or behind earlier ones |
| Sysinit.Boot.Sort | sys/kern/init_main.c:229-239 | in place: the table in order, the same tasks |
| Sysinit.Boot.MiStartup | sys/kern/init_main.c:204-312 | each task run is least by (subsystem, order) among those registered by then and not run, none runs twice, and in the end all registered ones but the dummies have run |
| Hardclock.Advanced | sys/kern/kern_clock.c:509-519 | adding the difference modulo 2^32 reaches the time wanted |
| Hardclock.FiresOnCrossing | sys/kern/kern_clock.c:563-569 | the test on the wrapped counter is true exactly when the sum of ticks passes the limit, or passes it again a multiple of 2^32 later |
| Hardclock.Clock.LoadTicks | sys/kern/kern_clock.c:509-519 | a CPU with nothing to add leaves, one that fell behind catches up |
| Hardclock.Clock.CompareAndSet | sys/kern/kern_clock.c:509-519 | wins a positive number of ticks or starts again |
| Hardclock.Clock.Watchdog | sys/kern/kern_clock.c:563-569 | fires exactly in the call that brings the sum to the limit or beyond |
| Hardclock.Clock.Act | sys/kern/kern_clock.c:495-573 | what each memory access does to every part of the state |
| Hardclock.Clock.Run | sys/kern/kern_clock.c:495-573 | in any interleaving ticks advances by exactly the sum of the ticks won, which never shrinks, and the watchdog fires once if that sum reached the limit and otherwise not; the trace shows what each action did |
| FailPoint.ReadNumber | sys/kern/kern_fail.c:529-566 | the loop over a number with a fraction computes the function ParseNumber, with rounding after the fourth digit |
| FailPoint.FractionRounds | sys/kern/kern_fail.c:541-562 | the fraction is exact up to four digits and otherwise the nearest to the first five, halves upwards |
| FailPoint.ReadPrefixes | sys/kern/kern_fail.c:471-492 | the loop over probabilities and counts computes ParsePrefixes |
| FailPoint.ReadType | sys/kern/kern_fail.c:572-585 | the first type whose name the text starts with |
| FailPoint.ReadTerm | sys/kern/kern_fail.c:454-523 | one term is read as ParseTerm says |
| FailPoint.ReadList | sys/kern/kern_fail.c:432-447 | terms joined by arrows, to the end of the text |
| FailPoint.PercentReads | sys/kern/kern_fail.c:302-315 | every probability up to 1000000 in a million is printed so that it is read back |
| FailPoint.TermReads | sys/kern/kern_fail.c:454-523 | a printed entry is read back, with what follows it left |
| FailPoint.PidAloneStops | sys/kern/kern_fail.c:501-523 | a printed process number without an argument stops the parser |
| FailPoint.ListReads | sys/kern/kern_fail.c:432-447 | a printed list is read back if every process number comes with an argument, and otherwise rejected |
| FailPoint.RoundTrip | sys/kern/kern_fail.c:295-376 | printing and setting restores the list if and only if every process number comes with an argument |
| FailPoint.OffReads | sys/kern/kern_fail.c:337-376 | the text of the empty list is read as the empty list |
| FailPoint.UnreadableReachable | sys/kern/kern_fail.c:295-376 | a list that can be set and is printed as a text that cannot |
| FailPoint.TrailingOffs | sys/kern/kern_fail.c:363-366 | what is dropped at the end of a list is exactly its longest run of "off" entries |
| FailPoint.FiringParts | sys/kern/kern_fail.c:357-361 | an entry is dropped from anywhere exactly if its probability is zero, and the others keep their order |
| FailPoint.Printed | sys/kern/kern_fail.c:295-330 | one list with every type and every suffix, and the empty list, as they are printed |
| FailPoint.FailPoint.Get | sys/kern/kern_fail.c:295-330 | the loop prints the list |
| FailPoint.FailPoint.Set | sys/kern/kern_fail.c:337-376 | sets the list read, less silent entries and a final off, or leaves it as it is |
| FailPoint.Restore | sys/kern/kern_fail.c:295-376 | one fail point printed and set in another |
| Acct.FloatStep | sys/kern/kern_acct.c:468-511 | binary32 values grow with their bits |
| Acct.PackFloor | sys/kern/kern_acct.c:500-511 | shifting and masking yields the greatest binary32 value not above |
| Acct.TimevalFloor | sys/kern/kern_acct.c:468-511 | for all times below 2^31 seconds the greatest binary32 value not above the microseconds |
| Acct.TimevalMonotone | sys/kern/kern_acct.c:468-511 | later times have no smaller encoding |
| Acct.TimevalError | sys/kern/kern_acct.c:468-511 | the relative error is below 2^-23 |
| Acct.LongFloor | sys/kern/kern_acct.c:518-541 | the same as TimevalFloor for values below 2^32 |
| Acct.LongExact | sys/kern/kern_acct.c:518-541 | encode_long yields the greatest binary32 value not above if and only if its argument, when not negative, is below 2^32 |
| Acct.LongNegative | sys/kern/kern_acct.c:518-541 | every negative value is encoded as the largest value below 2^32 |
| ImageWriter.HeaderSensible | sys/kern/imgact_gzip.c:154-290 | a header is accepted only with offsets in order and within limits |
| ImageWriter.HeaderExactly | sys/kern/imgact_gzip.c:154-224 | exactly the headers without magic number, with an entry point outside the text, with sizes that are no whole pages or over the limits, are refused; a ZMAGIC header without text always is; the others get the stated offsets |
| ImageWriter.CopiesAll | sys/kern/imgact_gzip.c:331-383 | the 32-bit minimum copies every piece whole if and only if start and end are less than 2^32 apart |
| ImageWriter.HugeDoesNotFit | sys/kern/imgact_gzip.c:331-383 | a header that is accepted and for which it does not |
| ImageWriter.LimitsFit | sys/kern/imgact_gzip.c:193-225 | limits that add up to less than 2^32 guarantee that |
| ImageWriter.ImageMore | sys/kern/imgact_gzip.c:372-380 | a piece within the file part extends the image where it belongs |
| ImageWriter.ImageSame | sys/kern/imgact_gzip.c:364-381 | a piece outside leaves it |
| ImageWriter.Writer.Flush | sys/kern/imgact_gzip.c:331-383 | refuses exactly the headers described, by their bytes; else every byte in memory is the byte of the file that belongs there, file page 1 on at address 0 for ZMAGIC in host byte order and the whole file at page 1 otherwise, and if text and data are below 2^32 none is missing |
| ImageWriter.FlushAll | sys/kern/imgact_gzip.c:331-383 | for every way of cutting the stream the same verdict, and the same memory of the whole stream |

## Left out

- Alq.Alq.FlushByte: the write to the file is taken to succeed, as the source does not look at its result.
- Descriptors.Filedesc.AllocN: the source ignores its minimum, so the model has none; a failure may leave the table larger.
- FgetUnlocked.Process.Call: the two reads at the start of the call are one action, and memory is taken to be sequentially consistent.
- Sysinit.Boot.MiStartup: the tasks a task registers are a fixed finite list.
- inflate.c: failure of malloc, huft_free and the count of hufts; the generic `inflate` entry point.
- kern_alq.c: sleeping and waking of threads beyond what they may do next, alq_flush at the same time as the daemon, alq_getn on ordered queues (its room is not computed again after the sleep at line 745), opening and closing of files.
- kern_descrip.c: the CAPABILITIES look-up, resource accounting, other modes of dup and fcntl, locks, signals, export of information.
- kern_event.c: KNF_NOKQLOCK callers, individual filters, closing and draining a kqueue, select and SIGIO, look-up of a knote by its key, registering threads waiting for flux to end.
- Cpuset.Cpusets.MoveAll: which threads move is stated for moves with nothing in between them; that counts and masks stay in order is stated for any interleaving (Cpuset.Cpusets.Run).
- kern_cpuset.c: giving back the last reference and leaving the lists are one step; numbers of sets and their look-up, jails, interrupts, exit of threads, the allocation loop of cpuset_setproc.
- init_main.c: verbose output and memory of the replaced table.
- kern_clock.c: tc_ticktock, profiling and virtual timers, device polling.
- kern_fail.c: evaluation of a fail point, which depends on randomness and sleeping; strtol and its overflow (strtol is not part of this model and is taken as ISO C states it), the widths of count and argument.
- kern_acct.c: everything but the two encodings.
- imgact_gzip.c: reading the compressed file, mapping and copying failures.
- Accessors and wrappers of inflate.c, kern_alq.c, kern_descrip.c, kern_event.c, kern_cpuset.c, init_main.c, kern_clock.c, kern_fail.c, kern_acct.c and imgact_gzip.c would add nothing.
