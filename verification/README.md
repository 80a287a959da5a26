# Verified models of the Nut/OS C runtime and drivers

This project models eight components of Nut/OS in Dafny and proves what they promise. Each component has value-level
functions that describe what its code does, step by step, with the code's own branches, constants and error returns;
methods and classes in the form of the C code, each proved to do exactly what those functions say (or to meet its
promise directly); and lemmas that say what that means for every input, every call sequence or every interleaving.

| files | component |
|---|---|
| `NetBuf*.dfy` | reference-counted network buffers, `dev/netbuf.c` |
| `Environ*.dfy` | environment variables: sorted list, image in non-volatile memory, `crt/setenv.c`, `crt/environ.c`, `crt/getenv.c` |
| `NicTransmit.dfy`, `NicMulticast.dfy`, `NicCrc.dfy` | DM9000 transmit queue, multicast filter and checksum, `dev/dm9000.c` |
| `Calendar.dfy`, `LocalTime.dfy` | `gmtime_r`, `localtime_r` and daylight saving time, `crt/gmtime.c`, `crt/localtim.c`, `crt/tzset.c` |
| `Printf.dfy`, `Scanf.dfy`, `PrintScan*.dfy` | formatted output and input, `crt/putf.c`, `crt/getf.c` and their string back ends |
| `Jtag*.dfy` | JTAG TAP driver and its GPIO cable, `dev/jtag_tap.c`, `dev/jtag_gpio0.c` |
| `DataFlash.dfy` | configuration area in DataFlash, `dev/nvmem_at45d.c`, `dev/spi_at45d.c` |
| `Chat.dfy`, `Tokenizer.dfy` | stream matcher of `dev/chat.c`, in-place tokenizer of `crt/strtok_r.c` |
| `Machine.dfy` | types and limits that several of them share |

How memory and the outside world enter. The network buffers live in an explicit heap of addresses, so that freed memory,
dangling pointers and address reuse are visible: an operation that touches memory which is not allocated is a fault, and
the runs are proved to have none. The environment is a list of objects linked in both directions. The outcomes of
allocations, of writes to memory and of transfers are parameters, or are left open where only the result code matters.
Interrupts, the receive thread and any number of senders of the network driver are steps that may come in any order.

## Where the code does less than one would expect

These are results about the code as it is. Each has a lemma or method that shows the case and, where the property can be
saved, the exact condition under which it holds.

- Resizing a buffer part that a clone borrows leaves the clone with a dangling part, or, if the allocator hands out the
  block just freed, with the new contents of that block. Whatever the allocator answers, the heap and the bytes of all
  other buffers survive if and only if nobody else lives on the block (`NetBufAlloc.AllocKeepsInvIff`). One clone is
  enough to get there (`NetBufRuns.UnsafeResizeIsReachable`); a buffer without references is always safe.
- Merging a queue into its first buffer releases the payload of that buffer in the same way, and copies it into the new
  block without a look at the size. It works if and only if the payload fits and nobody else lives on it once the other
  buffers have been merged (`NetBufQueue.CollectIff`, `NetBufQueue.UnsafeCollectHarms`).
- Unsetting the last environment variable does not last: nothing is saved for an empty list and the next lookup loads
  the old image again (`EnvironRuns.UnsetTakesEffectIff`).
- `save_env` returns 0 when the very first write, that of the magic number, fails (`EnvironImage.SaveMeans`).
- An empty variable name ends the stored image early and makes `nextenv` start over for ever
  (`EnvironImage.RoundTripIff`, `Environ.EnumerationIff`, `Environ.EmptyRepeats`).
- `setenv` stores names and values of any length, but loading them again stays within the buffer of `findenv` if and
  only if none has more than 65 characters, one more than `MAX_ENVIRON_ITEM_SIZE` (`EnvironImage.InBoundsIff`,
  `EnvironRuns.LongItemOverruns`).
- A frame whose 16 bit length comes out as zero, queued behind another one, is never sent, and until the chip is reset
  nothing else is: the queue stays occupied while the chip stays idle (`NicTransmit.EmptyPacketBlocks`,
  `NicTransmit.PutPacketKeepsIff`, and `NicTransmit.EmptyPacketArrives` for a run that gets there).
- `DmOutput` tries again for ever with a frame that fails the size check, as long as the chip works and has room, and
  returns 0 with any other frame (`NicTransmit.NeverEndsIff`).
- The size check looks at 16 bits. It refuses every payload from 1501 to 65535 bytes, but of the larger ones it lets
  those pass whose size modulo 65536 is at most 1500: these are reported as sent, although only that many bytes and the
  link header have been requested (`NicTransmit.OversizedIff`, `NicTransmit.ReportedIff`,
  `NicTransmit.LargeFrameIsSent`).
- In 16 bit mode every part of a frame is written in whole words, while the length is rounded once: the two agree if
  and only if the sizes, each taken as 16 bits, add up to less than 65535 and at most one of them is odd
  (`NicTransmit.WrittenMatchesIff`).
- The last byte of the multicast filter is never written to the chip. A listed group whose hash lies there is received
  only if the chip happened to hold its bit when it was started (`NicMulticast.ChipAcceptsIff`).
- `gmtime_r` treats the year 2100 as a leap year. Of all 32 bit times it is right exactly until the end of
  February 2100 (`Calendar.GmDateAgreesIff`).
- The GPIO cable clocks out one stale byte whenever the pending TMS bits fill whole bytes. A run without target resets
  reaches the target as it would over an ideal cable if and only if no transfer meets that case and the buffer never
  fills up (`JtagDriver.RunRefinesIff`). In particular a transfer that follows another one in the shift state starts
  from wherever the first byte of the buffer leads (`JtagDriver.RepeatedStartsAt`). After the first transfer that is
  Capture-DR, so that one data bit is lost before driver and controller agree again (`JtagDriver.SecondTransfer`);
  after a pause it may be Shift-DR (`JtagDriver.TransferAfterPause`).
- A buffer of 256 bytes that fills up while bits are packed is flushed with bits from behind its end in the midst of the
  path (`JtagChannel.PutExtends`, `JtagDriver.FullBufferIff`).
- A transfer marked last without any bit leaves the driver one state ahead of the controller
  (`JtagTap.TransferKeepsStepIff`).
- Two entries of the path table are not the shortest: from Exit1 back to Shift of the same register the table goes
  through Update and Capture (`JtagPaths.RescanTakesDetour`).
- `SpiAt45dPageWrite` documents that the rest of a page that is not filled becomes 0xFF. The last page of a longer write
  ends with the data of the page before, at the same offsets; a single page keeps what the RAM buffer of the chip held
  (`DataFlash.ShortPageTail`). A first page that does not exist is not refused (`DataFlash.Chip.PageWrite`).
- The matcher of `dev/chat.c` misses some occurrences: it finds the first occurrence in every input if and only if a
  prefix of the pattern never ends with a shorter prefix that goes on with another character (`Chat.ReliableIff`).
- `strsep_r` documents that the pointer becomes NULL at the end of the string. The code leaves it at the terminating NUL,
  so that an empty field behind the last delimiter is not returned (`Tokenizer.TokenCount`).
- Numbers of 2^31 and above that `%u`, `%x` or `%o` print come back through the scanner as 2^31-1, because `strtol`
  saturates: a list of numbers comes back if and only if it holds none of them (`PrintScan.RoundTripIff`,
  `PrintScan.UnsignedReadsBack`). More than 255 fields are all read, but counted modulo 256
  (`PrintScan.PrintThenScan`).
- A number other than zero that `%d` prints with any flags, width and precision is read back by `%d` if and only if its
  sign, zeros and digits fit the 15 characters the scanner takes; zero is, unless its precision is zero
  (`PrintScanFields.DecimalReadsBackIff`). For `%u`, `%o`, `%x` and `%X` the number has to be below 2^31 as well, and
  there must be no zeros in front of a hexadecimal prefix; `%x` shows a zero whatever its precision
  (`PrintScanFields.UnsignedReadsBackIff`).
- `%#x` puts the zeros that fill up a width or a precision in front of the prefix. The scanner takes the x of a prefix
  behind a single zero only, so that it reads such a number as 0 (`PrintScanFields.ZeroFilledScans`).

## Model

| member | source | states |
|---|---|---|
| NetBuf.IncrementCarriesOnlyWhenFull | dev/netbuf.c:333 | `nb_flags++` adds one reference and leaves the ownership bits alone if and only if the count is below seven |
| NetBuf.DecrementBorrowsOnlyWhenEmpty | dev/netbuf.c:368-369 | `nb_flags--` takes one reference away and leaves the other bits alone if and only if the count is not zero |
| NetBufRelease.FreeKeepsInv | dev/netbuf.c:364-388 | releasing a held handle never touches freed memory, pays exactly one reference, keeps the heap invariant, and every surviving buffer shows the same bytes |
| NetBufRelease.FreeFrame | dev/netbuf.c:364-388 | structures and blocks added beside the heap do not change what a release does |
| NetBufAlloc.AllocKeepsInv | dev/netbuf.c:173-239 | allocating or safely resizing a part faults nowhere, keeps counts, owners and borrowers consistent, and keeps every other buffer's bytes |
| NetBufAlloc.AllocGivesSize | dev/netbuf.c:205-236 | a successful allocation gives a part of exactly the requested size, marked as owned |
| NetBufAlloc.AllocKeepsInvIff | dev/netbuf.c:205-236 | whatever the allocator answers, the block just freed included: a resize keeps the heap consistent and the bytes of every other buffer, for every content of the new block, if and only if nobody else lives on the block it outgrows |
| NetBufAlloc.UnsafeResizeHarms | dev/netbuf.c:205-236 | otherwise some other live buffer shows a block that has been freed, or the new contents of that block |
| NetBufAlloc.UnsharedResizeIsSafe | dev/netbuf.c:205-222 | a buffer without references may always be resized |
| NetBufClone.RollbackRestores | dev/netbuf.c:327-330 | releasing the half-built clone gives back exactly the heap as it was before |
| NetBufClone.CloneKeepsInv | dev/netbuf.c:255-337 | cloning faults nowhere and keeps the invariant; a clone that fails changes nothing, and no other buffer changes its bytes |
| NetBufClone.CloneCopiesBytes | dev/netbuf.c:261-326 | the clone shows exactly the bytes of its source and owns exactly the non-empty parts it was asked to copy, or all of them when the source has no reference left to give |
| NetBufRuns.RunsAreSafe | dev/netbuf.c:173-428 | no run of allocations, clones, releases, links between buffers and collects ever faults, and all keep the heap invariant |
| NetBufRuns.UnsafeResizeIsReachable | dev/netbuf.c:205-236 | allocating a buffer and cloning it without copies leads to a state in which growing it is not safe |
| NetBufRuns.CountsAlwaysMatch | dev/netbuf.c:331-428 | in every reachable state count + 1 of a live buffer equals its held handle plus its live clones, and the count fits its three bits |
| NetBufRuns.RunsKeepBytes | dev/netbuf.c:173-428 | whatever is done to other buffers, to clones or to origins, collects of other queues included, a held buffer goes on showing the same bytes |
| NetBufRuns.HeldBuffersCollect | dev/netbuf.c:397-428 | from every reachable state any held buffers can be linked and collected, if no clone lives on the payload of the first one and the block has room for it: then it holds, in order, the bytes of as many as fit, and the queue as a whole still shows all bytes |
| NetBufRuns.NothingLivesUnheld | dev/netbuf.c:364-388 | no buffer can be alive when no handle is held |
| NetBufRuns.NoLeak | dev/netbuf.c:364-428 | once all handles are released or collected, every structure and every payload has been given back |
| NetBufQueue.LoopGathers | dev/netbuf.c:410-417 | the merge loop takes exactly the longest prefix that fits, releases it, and gathers its bytes in order |
| NetBufQueue.CollectKeepsBytes | dev/netbuf.c:397-428 | collecting loses and reorders no byte of the queue, puts the longest fitting prefix into the head, links the rest behind it, returns the number released, and changes nothing if the allocation fails; every other buffer that is left shows what it showed |
| NetBufQueue.CollectIff | dev/netbuf.c:397-428 | for every queue of held buffers, collecting stays within its memory and does all of that, without harm to any other buffer, if and only if the bytes of the head fit and nobody else lives on them after the loop |
| NetBufQueue.UnsafeCollectHarms | dev/netbuf.c:419-420 | otherwise some buffer that is left shows a block that has been freed |
| NetBufDriver.Memory.NutNetBufFree | dev/netbuf.c:364-388 | the recursive release in place does what the release function says |
| NetBufDriver.Memory.NutNetBufAlloc | dev/netbuf.c:173-239 | the allocation in place does what the allocation function says |
| NetBufDriver.Memory.NutNetBufClonePart | dev/netbuf.c:255-337 | the clone in place does what the clone function says |
| NetBufDriver.Memory.NutNetBufCollect | dev/netbuf.c:397-428 | the merge in place does what the collect function says |
| Environ.SetKeepsSorted | crt/setenv.c:96-153 | setenv keeps the list strictly sorted by name, whichever allocations fail |
| Environ.UnsetKeepsSorted | crt/setenv.c:167-190 | so does unsetenv |
| Environ.SetRefinesMap | crt/setenv.c:96-153 | setenv on the sorted list is the update of a map, which leaves an existing value alone unless forced |
| Environ.UnsetRefinesMap | crt/setenv.c:167-190 | unsetenv removes exactly the name from the map |
| Environ.SortedIsUnique | crt/setenv.c:112-133 | there is only one sorted list for a map |
| Environ.EmptyRepeats | crt/getenv.c:68-81 | with an empty name in the list, that name is the answer however often nextenv is asked |
| Environ.EnumerationIff | crt/getenv.c:68-81 | asking nextenv again and again gives every name once, in order, and then the end, if and only if no name is empty |
| EnvironImage.SaveMeans | crt/setenv.c:47-84 | save_env has written the whole image, and nothing else, if and only if it returns 0 and its first write went through |
| EnvironImage.FirstPassCovers | crt/environ.c:99-107 | the first pass over a saved image finds a length that no item exceeds |
| EnvironImage.SecondPassReads | crt/environ.c:111-133 | the second pass reads a saved list back, as far as the heap has room |
| EnvironImage.InBoundsIff | crt/environ.c:48-71 | loading a saved list writes nothing outside its buffer and the copies it makes if and only if no item before the first empty name has more than 65 characters |
| EnvironImage.RoundTripIff | crt/environ.c:90-137 | loading stays in bounds and gives back a saved list, absent values as empty strings, if and only if no name is empty and no item has more than 65 characters |
| EnvironImage.SaveThenLoad | crt/setenv.c:47-84 | saving any list and loading it from an empty list rebuilds it in bounds under exactly the same condition |
| EnvironRuns.RunRefinesMap | crt/setenv.c:96-217 | over every run in which no list has to be loaded again, the list stays the sorted enumeration of the map the calls describe and getenv answers from that map, however many writes fail |
| EnvironRuns.RunSurvivesRestarts | crt/environ.c:81-144 | with enough memory, items of at most 65 characters, and as long as the last variable stays, the same holds across any number of restarts, and loading stays in bounds |
| EnvironRuns.LongItemOverruns | crt/setenv.c:96-153 | a name or value of more than 65 characters is stored and reported as success, and the next load overruns its buffer |
| EnvironRuns.StepDurable | crt/setenv.c:96-217 | every call leaves the memory holding exactly the list it has made |
| EnvironRuns.UnsetTakesEffectIff | crt/setenv.c:195-217 | after unsetenv the variable is gone if and only if another one remains; the last one comes back |
| EnvironList.Environment.SetEnv | crt/setenv.c:96-153 | relinking the nodes in place has the specified effect, and next and prev stay inverse to each other |
| EnvironList.Environment.UnsetEnv | crt/setenv.c:167-190 | so does unlinking a node |
| EnvironList.Environment.LinkIn | crt/setenv.c:112-133 | the search loop puts a new node before the first greater name |
| EnvironList.Environment.FindEnv | crt/environ.c:81-144 | finds the first node of a name, after loading an empty list from memory |
| EnvironList.Environment.Fetch | crt/environ.c:48-71 | reads up to one byte more than the size it is given, and stops after a zero or at the end of the memory; the buffer holds the text and a zero, and tells whether it was long enough for them |
| EnvironList.Environment.LoadEnv | crt/environ.c:90-137 | the two passes build the list that the load function describes, and stay in bounds exactly when the bounds predicate says so |
| EnvironList.Environment.Save | crt/setenv.c:47-84 | the save loop writes what the save function describes |
| EnvironList.Environment.GetEnv | crt/getenv.c:45-56 | the value of the first entry of that name, empty if it is absent |
| EnvironList.Environment.NextEnv | crt/getenv.c:68-81 | the name after the given one; an empty argument asks for the first |
| NicTransmit.TxInterruptKeeps | dev/dm9000.c:448-461 | a transmit interrupt takes one packet off and keeps the queue consistent |
| NicTransmit.PutPacketKeepsIff | dev/dm9000.c:697-731 | with room in the queue, loading a packet keeps it consistent if and only if its length is not zero or the chip is free |
| NicTransmit.EmptyPacketDooms | dev/dm9000.c:714-724 | loading a packet of length zero behind another one leads to a doomed state |
| NicTransmit.EmptyPacketArrives | dev/dm9000.c:714-724 | a run of two senders that gets there: a packet is in the chip, and the second sender, whose frame is empty, has found room |
| NicTransmit.EmptyPacketBlocks | dev/dm9000.c:448-461 | from there on, over every sequence of events without a reset of the chip, no request is made and the queue stays occupied; once the chip is idle it stays idle |
| NicTransmit.NeverEndsIff | dev/dm9000.c:938-961 | with room in the queue and a working chip, a sender is back where it was after any number of rounds if its frame fails the size check; otherwise it has returned 0 with the frame loaded |
| NicTransmit.OversizedIff | dev/dm9000.c:685 | the check refuses exactly the payloads above 1500 bytes, but for those of 65536 and more that are within the limit modulo 65536 |
| NicTransmit.ReportedIff | dev/dm9000.c:685-687 | a frame can be reported as sent, in some sequence of events from the start of the driver, if and only if its payload modulo 65536 is at most 1500 |
| NicTransmit.OversizedNotSent | dev/dm9000.c:685-687 | whatever happens from any state in which it is still on its way, a frame that fails the 16 bit check is not reported as sent |
| NicTransmit.LargeFrameIsSent | dev/dm9000.c:685-721 | 65508 bytes of data with headers of 20 and 8 bytes: 65550 bytes are written, 14 requested, and 0 is returned |
| NicTransmit.LengthZeroIff | dev/dm9000.c:685-691 | which frames have length zero; a frame within the limits of Ethernet has not |
| NicTransmit.WrittenMatchesIff | dev/dm9000.c:497-507 | for every frame the request covers the bytes written in 16 bit mode if and only if the 16 bit sizes of the parts add up to less than 65535 and at most one is odd |
| NicTransmit.StepKeeps | dev/dm9000.c:928-969 | every step of a sender, interrupt, overflow or restart keeps the queue invariant and the mutual exclusion of senders |
| NicTransmit.QueueIsConsistent | dev/dm9000.c:673-741 | in every interleaving, whenever the chip is sane outside the three stores of a restart: at most two packets, a length waiting exactly if there are two, the chip occupied exactly if there is one, and the k-th request carries the length of the k-th packet |
| NicTransmit.Controller.NicInterrupt | dev/dm9000.c:433-476 | the interrupt routine does what the transmit interrupt function says |
| NicTransmit.Controller.NicPutPacket | dev/dm9000.c:673-741 | loads a frame or returns -1 for an oversized frame or an insane chip |
| NicMulticast.AddKeepsInv | dev/dm9000.c:1049-1085 | adding a group makes the filter accept its hash and nothing else new but the broadcast bit |
| NicMulticast.DeleteKeepsInv | dev/dm9000.c:1087-1141 | deleting a group leaves exactly the other groups, and below byte 7 exactly their hashes |
| NicMulticast.RunKeepsInv | dev/dm9000.c:1029-1150 | over every run listed groups are distinct, bytes 0 to 6 accept exactly their hashes, byte 7 exactly the hashes ever added, and every listed group is accepted |
| NicMulticast.ChipAcceptsIff | dev/dm9000.c:748-759 | in every run from the start of the chip its first seven bytes accept exactly the listed hashes, and a listed group of byte 7 is accepted if and only if the chip held its bit at its last start |
| NicMulticast.Interface.AddMulti | dev/dm9000.c:1049-1085 | the list and the filter bytes after an add |
| NicMulticast.Interface.DelMulti | dev/dm9000.c:1087-1141 | the list and the filter bytes after a delete |
| NicMulticast.Interface.UpdateMCHardware | dev/dm9000.c:748-759 | sets the broadcast bit and copies seven of the eight bytes to the chip |
| NicCrc.EtherCrc32Le | dev/dm9000.c:314-329 | the loop computes the checksum of the buffer |
| NicCrc.NibbleIsFourShifts | dev/dm9000.c:307-312 | one look at the table is four steps of the bit-serial division |
| NicCrc.ShiftDivides | dev/dm9000.c:307-312 | a step on a word is a step of the division by the IEEE 802.3 generator on the polynomial whose leading coefficient is in bit 0 |
| NicCrc.ChecksumIsRemainder | dev/dm9000.c:314-329 | for every buffer the checksum, with the coefficient of x^31 in bit 0, is the remainder that section 3.2.9 of IEEE 802.3 defines, without the final complement |
| Calendar.GmDateIsGregorian | crt/gmtime.c:111-162 | from 1970 to the end of February 2100 the computed date is the one a day-by-day Gregorian calendar gives |
| Calendar.GmDateAgreesIff | crt/gmtime.c:111-162 | of all 32 bit times it agrees with that calendar exactly until then |
| Calendar.DateOfCounts | crt/gmtime.c:140-165 | the day-by-day calendar yields valid dates that count back to the same day |
| Calendar.NumberDetermines | crt/gmtime.c:140-165 | different valid dates have different day numbers |
| Calendar.BreakingRoundTrip | crt/gmtime.c:100-176 | the fields are in range, agree with the calendar, and count back to the same second |
| Calendar.GmtimeR | crt/gmtime.c:100-176 | gmtime_r stores those fields, and returns -1 for a null pointer |
| LocalTime.TransitionDayIsNth | crt/tzset.c:86-116 | for every year to 2099, month, week and day of the week, cvtdate finds the day the rule means |
| LocalTime.BetweenIsInDst | crt/tzset.c:193-224 | the comparisons of day and millisecond are the rule "from the last Sunday of March, 02:00, to the last Sunday of October, 02:00 daylight time" |
| LocalTime.TimeZone.CvtDate | crt/tzset.c:77-162 | sets one transition, carrying the bias across midnight |
| LocalTime.TimeZone.IsInDst | crt/tzset.c:165-226 | whatever an earlier call has cached, the answer is the rule's |
| LocalTime.CarriedDenotes | crt/localtim.c:112-178 | the direct branch gives in-range fields for the time less the zone, also on 31 December 1969 |
| LocalTime.BranchesAgree | crt/localtim.c:88-178 | both branches of localtime_r give the same fields wherever both could be taken |
| LocalTime.BeforeTheEpoch | crt/localtim.c:163-174 | local times before the epoch are on Wednesday, 31 December 1969 |
| LocalTime.TimeZone.LocaltimeR | crt/localtim.c:84-180 | for every time from 0 to 2^31-1, every zone and bias under 24 hours, the fields are in range and denote the time less the zone, and less the bias exactly when daylight saving time is in force |
| Printf.FieldWidth | crt/putf.c:530-561 | a field is as wide as asked for, or as its sign, zeros and digits need |
| PrintScanFields.FieldShape | crt/putf.c:534-554 | exactly one of blanks before, zeros after the sign, and blanks behind takes up the padding |
| Printf.Sink.PutField | crt/putf.c:530-561 | what is added to the return value is the length of what has been put out |
| Printf.Sink.PutPad | crt/putf.c:149-157 | the padding loop puts out exactly the characters asked for, never an empty chunk |
| Printf.PutDigits | crt/putf.c:354-379 | the digits of any 32 bit number in base 8, 10 or 16 are written into the 16 byte buffer with room for a prefix |
| Printf.ConvertArg | crt/putf.c:289-525 | the switch converts an argument as specified |
| Printf.Putf | crt/putf.c:178-564 | the return value equals the number of characters put out, and no chunk is empty |
| Printf.Vsprintf | crt/vsprintf.c:83-93 | the buffer holds what was formatted |
| Scanf.Scanner.Getf | crt/getf.c:119-422 | the scanner does what the scan function says, directive by directive |
| Scanf.Scanner.LexNumber | crt/getf.c:308-362 | the integer lexer with its flags and its one character look-ahead |
| PrintScan.NumeralValue | crt/putf.c:354-362 | a numeral has the value it was made from |
| PrintScan.LexDigits | crt/getf.c:314-362 | the lexer takes all digits of a number and stops at the space behind it |
| PrintScan.NumberConverts | crt/getf.c:270-378 | a conversion reads exactly the printed number, whether its first character is ready or not |
| PrintScan.ListPrints | crt/putf.c:178-564 | printing a list of numbers with a format of conversions joined by spaces |
| PrintScan.ListScans | crt/getf.c:119-422 | scanning any such list gives the numbers back, those above 2^31-1 as that |
| PrintScan.PrintThenScan | crt/vsscanf.c:67-101 | what scanning stores for any printed list of numbers joined by spaces: `%d` and `%u` through `%d`, `%u` and `%i`, `%x`, `%X` and `%o` through their own conversions, with `#` through `%i` as well |
| PrintScan.RoundTripIff | crt/getf.c:364-372 | the words stored are those printed if and only if none of them is above 2^31-1 |
| PrintScan.UnsignedReadsBack | crt/getf.c:364-372 | `%u`, `%#x`, `%#X` and `%#o` of any 32 bit number: what comes back is the number or 2^31-1 |
| PrintScanFields.DecimalReadsBackIff | crt/putf.c:337-365 | whatever flags, width and precision a format `%d` has, `%d` reads the number back if and only if it shows digits and they fit the scanner's field with their sign, or is zero |
| PrintScanFields.UnsignedReadsBackIff | crt/putf.c:337-412 | whatever flags, width and precision a format `%u`, `%o`, `%x` or `%X` has, the word is read back by the scanner's own conversion if and only if it is zero and shows a digit, or is at most 2^31-1 and its zeros and digits fit the scanner's field, or, with a hexadecimal prefix, have no zeros in front of it |
| PrintScanFields.ZeroFilledScans | crt/getf.c:314-347 | zeros in front of a hexadecimal prefix are all that is read |
| PrintScan.WordPrintsAndScans | crt/getf.c:280-303 | a word printed by `%s` is read back by `%s` |
| PrintScan.PrintAndScan | crt/vsprintf.c:83-93 | the same round trip through the code of vsprintf and vsscanf |
| JtagPaths.PathLeadsTo | dev/jtag_tap.c:58-91 | all 256 table entries lead from their state to the requested state of the IEEE 1149.1 controller |
| JtagPaths.PathIsShortest | dev/jtag_tap.c:58-91 | every entry is a shortest path, but for the two that start a new scan of the same register |
| JtagPaths.RescanTakesDetour | dev/jtag_tap.c:58-91 | those two go through Update, although a shorter way through Pause exists |
| JtagTap.WalkKeepsStep | dev/jtag_tap.c:152-168 | a walk ends in the requested state, from an unknown state as well |
| JtagTap.TransferKeepsStepIff | dev/jtag_tap.c:195-202 | over an ideal cable a transfer keeps the driver in step with the controller if and only if it is not both marked last and empty |
| JtagTap.StepKeepsStepIff | dev/jtag_tap.c:135-220 | the same for every operation |
| JtagTap.DriverNeverMistaken | dev/jtag_tap.c:135-220 | after every sequence of operations, changes of the instruction size included, tap_state is unknown or is the state that all TMS bits sent have led to |
| JtagChannel.PutExtends | dev/jtag_gpio0.c:304-335 | packing appends exactly the given bits to the stream; when they fill the buffer up, bits from behind the buffer come in between |
| JtagChannel.FlushSends | dev/jtag_gpio0.c:214-255 | flushing sends the pending bits, and nothing else if and only if they do not fill whole bytes |
| JtagCable.GpioCable.TmsPut | dev/jtag_gpio0.c:304-335 | the nested loops pack bit by bit as the channel says, the flush of a full buffer included |
| JtagCable.GpioCable.TmsFlush | dev/jtag_gpio0.c:214-255 | the loops send byte by byte what the channel says, also from a full buffer |
| JtagCable.GpioCable.TransferData | dev/jtag_gpio0.c:354-393 | after the flush TMS is high on the last bit only, TDI shows the source bit by bit, and what is read back is stored bit by bit |
| JtagDriver.StepRefinesIff | dev/jtag_tap.c:135-220 | an operation over the GPIO cable does to the target what it would over an ideal one if and only if it does not fill the buffer and a transfer does not flush whole bytes |
| JtagDriver.RunRefinesIff | dev/jtag_tap.c:135-220 | the same for every run without target resets |
| JtagDriver.DriverStaysInStep | dev/jtag_tap.c:135-220 | after every run of such operations tap_state is unknown or the state of the controller |
| JtagDriver.DataBitsShift | dev/jtag_tap.c:195-220 | and every transfer clocks its data bits in the shift state |
| JtagDriver.DataStartsAt | dev/jtag_gpio0.c:214-255 | any transfer starts from wherever the stale byte leads from the shift state |
| JtagDriver.TransferKeepsStepIff | dev/jtag_gpio0.c:354-393 | exactly when it leaves the driver in step |
| JtagDriver.RepeatedStartsAt | dev/jtag_gpio0.c:214-255 | a transfer in the shift state with nothing pending starts from wherever the first byte of the buffer leads |
| JtagDriver.FilledStream | dev/jtag_gpio0.c:326-332 | what a walk that fills the buffer up sends, synchronizing or not: its bits, with those from behind the buffer where it became full |
| JtagDriver.FullBufferIff | dev/jtag_gpio0.c:326-332 | exactly when any walk that fills the buffer up leaves the driver in step |
| JtagDriver.UnknownIsEmpty | dev/jtag_tap.c:135-220 | in every run nothing is pending while tap_state is unknown, so that only walks from a known state fill the buffer up |
| JtagDriver.SecondTransfer | dev/jtag_gpio0.c:214-255 | after opening the driver or a reset, the second of two transfers in a row starts in Capture-DR, and the driver is in step again if and only if it carries a bit |
| JtagDriver.TransferAfterPause | dev/jtag_gpio0.c:214-255 | after a pause the stale byte leads back to Shift-DR |
| JtagDriver.Tap.TapStateWalk | dev/jtag_tap.c:152-164 | the walk in place |
| JtagDriver.Tap.TapData | dev/jtag_tap.c:195-202 | the data transfer in place, with the bits on TDI and the bytes read back |
| JtagDriver.Tap.TapInstruction | dev/jtag_tap.c:213-220 | the instruction transfer in place |
| DataFlash.KnownAreSound | dev/spi_at45d_info.c:52-69 | all sixteen types of chips in the driver's table have pages that fit their shift and addresses of at most 24 bits |
| DataFlash.PageArrives | dev/spi_at45d.c:111-117 | the three address bytes identify the page for every geometry that fits 24 bits |
| DataFlash.ShortPageTail | dev/spi_at45d.c:382-409 | after any number of rounds the page written last holds its data followed by what the page before held at the same offsets, or, if it is the only one, by the previous contents of the RAM buffer |
| DataFlash.Chip.PageRead | dev/spi_at45d.c:320-341 | reads from the start of a page on, wrapping after the last page; -1 for a page that does not exist |
| DataFlash.Chip.PageWrite | dev/spi_at45d.c:360-411 | programs page after page; the return value counts the bytes that were confirmed; from a first page that does not exist at most one round is made, which may change any page |
| DataFlash.Config.WritePart | dev/nvmem_at45d.c:208-227 | one round of read, compare and write changes exactly its bytes of one page |
| DataFlash.Config.Write | dev/nvmem_at45d.c:187-241 | 0 means exactly the given bytes have been replaced; on failure only a first part up to a page boundary has been, and nothing outside |
| DataFlash.Config.Read | dev/nvmem_at45d.c:157-176 | 0 means the bytes of the area at that position |
| DataFlash.Config.WriteThenRead | dev/nvmem_at45d.c:157-241 | a read after a successful write returns what was written |
| Chat.MatchedIsRead | dev/chat.c:175-184 | what the matcher counts as matched is what has just been read |
| Chat.ReliableIfConsistent | dev/chat.c:175-202 | for a self-consistent pattern the match comes at the first occurrence |
| Chat.ReliableIff | dev/chat.c:175-202 | the match comes at the first occurrence in every input if and only if the pattern is self-consistent |
| Chat.MissedUnmatched | dev/chat.c:175-184 | the input that a pattern that is not self-consistent misses |
| Chat.NoRecurrenceSuffices | dev/chat.c:175-184 | a pattern whose first character does not come again is self-consistent |
| Chat.MissesAab | dev/chat.c:175-184 | the pattern aab is missed in aaab |
| Chat.NutChat.CheckAborts | dev/chat.c:187-202 | reports the first abort string that is complete with this character |
| Chat.NutChat.ExpectString | dev/chat.c:131-202 | 0 only if the characters just read end with the expected string and no abort string is complete; i + 4 only if the session ends with abort string i; 3 only after everything that arrived |
| Tokenizer.JoinSplit | crt/strtok_r.c:73-139 | the tokens and their separators put together are the original string |
| Tokenizer.SplitIsClean | crt/strtok_r.c:82-97 | no token holds a delimiter, and only the last one can have no separator |
| Tokenizer.TokenCount | crt/strtok_r.c:73-139 | one token for each delimiter, and one more unless the string ends with a delimiter |
| Tokenizer.EndTok | crt/strtok_r.c:73-102 | cuts off the first token in place |
| Tokenizer.StrsepRs | crt/strtok_r.c:112-139 | token, pointer for the next call and separator in every case |
| Tokenizer.Tokenize | crt/strtok_r.c:112-139 | calling it until NULL ends, yields those tokens, and overwrites nothing but delimiters |

## Left out

- NetBuf: parts that the protocol stack points into other parts by hand are not modelled; every part is empty, owned, or borrowed by cloning. A fresh block holds an arbitrary fill byte, and `depth` is an auxiliary number of clone steps that the code does not store.
- NutNetBufClone is `NutNetBufClonePart` with all parts copied and has no member of its own.
- EnvironRuns.RunSurvivesRestarts: names and values are at most 65 characters long, because loading longer ones overruns a buffer, after which nothing is said.
- EnvironList.Environment.Fetch: a write behind the end of the buffer is reported and not carried out; what it would destroy is not modelled. Writes to the memory that fail leave it as it was, and reads fail only beyond its end.
- `putenv`, which splits its argument and calls setenv.
- NicTransmit: an interrupt and each interrupt-free section of the driver is one step. Timeouts of waiting threads may happen at any time. That a packet could be sent completely before the interrupt routine acknowledges the previous one is not considered.
- DM9000 receive path, register setup, delays and the PHY.
- LocalTime.TimeZone: `_dstbias` does not change once transitions are cached, as a cached end of daylight saving time keeps the old bias. Absolute transition dates (datetype 2) are never requested and not modelled.
- `mktime`, the static result buffers of gmtime and localtime, and times before 1970 as input.
- Printf: floating point conversions and `%P`. Widths and precisions are unbounded integers, and an argument that was not passed reads as zero.
- Scanf: floating point conversions. Arguments are the values stored, in order, and not pointers.
- JtagTap.DriverNeverMistaken: over an ideal cable; what the GPIO cable adds to that is the subject of `JtagDriver`.
- JtagCable.GpioCable.TmsPut: the byte behind the buffer, which is part of the index that follows it in memory, may have any value.
- DataFlash: the SPI transfer is atomic. A flash command that fails is not carried out, a buffer write that fails may leave anything in the RAM buffer. Probing the chip at registration is not modelled.
- DataFlash.Chip.PageWrite: which page the chip takes for an address beyond its last page is left open.
- Chat: report strings, tracing, sending, and the scripts of `NutChat`. After an abort string has been found the session ends, as its match index is no longer up to date.
- Chat.NutChat.ExpectString: abort strings have fewer than 256 characters, because the match index is eight bits wide.
- Tokenizer: `strtok_r` of ICCAVR and the wrapper `strsep_r`.
