# Unbound in Dafny

A model of parts of the Unbound DNS resolver, with proofs. Each module models one component of the C
sources and proves what that component is for, over all inputs or all runs.

- **Fast reload** (`FastReload`, `FastReloadSafety`, `FastReloadGrace`, `FastReloadLiveness`): the handshake between
  the reload thread, the main thread and any number of other workers, as a step relation over program
  counters and channel contents. In pause mode it is a double barrier around the swap of the
  configuration; in nopause mode it is a grace period between the swap and the deletion.
- **Deleted auth zones** (`AuthHandover`): how the workers hand over and remove the transfer structure of
  a zone that a reload deleted, under two locks.
- **Output queue** (`PrintQueue`): the text that streams to the control client through two lists, a current
  item and partial writes.
- **SHA-512** (`Fips180`, `Sha512`): the streaming implementation, on either byte order, against sections
  5.1.2 and 6.4.2 of FIPS 180-4, for updates of any length: the bit count is added to a block at a time.
- **Addresses** (`Numerals`, `InetText`, `InetRoundTrip`, `InetGrammar`, `InetCase`, `InetRfc`, `InetNtop`,
  `InetPton`): the IPv6 and IPv4 printer and parser, exactly which texts the parser accepts, and which of them are texts of
  RFC 1884.
- **Calendar** (`GmTime`): the conversion of a time to Gregorian fields.
- **Formatting** (`Formatting`, `FormatMeaning`, `Snprintf`): bounded formatting as a cut of unbounded formatting, and
  what the text of each conversion means.
- **Random numbers** (`Arc4Random`): what becomes of each byte of the keystream.
- **External cache** (`CacheDbKeys`, `CacheDb`, `RedisThrottle`): cachedb against a plain map with expiry
  times, and the throttle on connections to the server.
- **Cache dump** (`CacheDump`): a hash-table walk that lets go of the table between batches.
- **Restarts** (`DaemonLifecycle`, `PortShuffle`): allocators and caches over restarts that may keep them,
  and the shuffled list of ports.

`dafny verify dfyconfig.toml` checks everything; Dafny 4.11.

## What is assumed

- Fast reload: channels are reliable and FIFO, and nobody asks the reload thread to exit during the
  handshake. Other commands, such as those for statistics, may be in the pipes when it begins, and main may
  send more of them whenever it is in its event loop. Progress is for fair runs: query callbacks return, and a
  thread that can go on all the time does so. That the reader of a channel finds what it expects is proved,
  not assumed.
- Output queue: the socket accepts any number of the bytes offered, or none, or fails.
- External cache: SHA-256 has no collisions; the answer code and the RRsets of a DNS message that can be
  encoded are parsed as they were, its TTL is computed anew and its security status is lost; nobody else
  writes to the backend, which may drop keys at any time; times and TTLs are below 2^62.
- Throttle: calls are serialised and the clock does not go back.
- Cache dump: the table changes in any way between batches, but not its size; while a batch runs, its lock
  keeps it as it is.
- ChaCha: the block function is not modelled; a byte of output is known by its key and its place.
- Random choices, clocks, entropy, kernel answers and floating point digits are parameters.

## Where the code does not do what is said of it

- `compat/inet_pton.c:136` says that `::` in a full address is ignored. The loop at lines 213-216 copies
  each byte to itself and then clears it, so that everything behind `::` is read as zeros. For every text that
  is accepted with an empty field, `InetRfc.DoubleColon` proves that the bytes behind `::` are read as such if
  and only if fewer than 16 bytes are given or they are all zero. `InetRfc.FullAddressLoses` is at the text
  `1:2:3:4::5:6:7:8`.
- `compat/inet_pton.c:133` says that only addresses in the form of section 2.2 of RFC 1884 are accepted.
  `InetRfc.RfcTexts` proves that the accepted texts are of that form if and only if they have no single colon
  at the end, no group of more than four digits, and no `::` that stands for nothing; and that every text of
  the form is accepted. `InetRfc.AcceptedBeyondRfc` is at the text `::1:`.
- `compat/gmtime_r.c` divides leap years with truncation, which before a year below 1 counts a leap day too
  many unless the year comes after a leap year. The loop ends for a day if and only if it is not the first day of
  a year below 1 two years after a leap year (`GmTime.EndsIff`; `NeverDone` is at 1 January of the year -2). Where
  it ends, the date is right from the year 1 on and in every year after a leap year, and otherwise it is that of
  the day before, with the right day of the week (`GmTime.GmtimeR`, both directions; `YearZeroIsOff` is at
  31 December of the year 0). Only on the first day of a year below 1 after a leap year does it depend on the
  guesses which of the two comes out, and both do (`GmTime.EitherFirstDay`).
- `compat/snprintf.c:62` lists `%n` as supported; the code ignores it (`Formatting.CountIgnored`).
- `daemon/remote.c:7870-7924` can leave the transfer structure of a deleted zone in the tree for good.
  `AuthHandover.RemovedIff` proves that, once every worker has handled the item, the structure is out of the
  tree and freed if and only if, at the last time that its tasks became free, thread 0 had still to look or
  some worker was on its second visit. The condition fails when the last task is let go of outside of the
  hand-over after thread 0 has looked, as when the timer of a task cannot be allocated
  (`services/authzone.c:7417-7424`); `AuthHandover.LastTaskLost` is such a run.

## Model

| member | source | states |
|---|---|---|
| FastReloadSafety.NextKeeps | daemon/remote.c:6904-7082 | every step of any thread, and every other command that main sends, keeps the invariant that ties program counters, channels, ack senders and picked-up configurations together |
| FastReload.OthersAtAnyTime | daemon/remote.c:7677-7708 | whatever the state of the handshake, main in its event loop or in a query may send any worker another command |
| FastReloadSafety.FullRound | daemon/remote.c:7677-7708 | as many acks as there are other workers are acks of all of them, none left in the stream |
| FastReloadSafety.RunInv | daemon/remote.c:8229-8320 | the invariant holds in every state of every run, for any number of workers |
| FastReloadSafety.SwapIsExclusive | daemon/remote.c:6965-7060 | at the swap in pause mode every other worker is parked between its stop ack and reload_start, and main waits for reload_start |
| FastReloadSafety.DeleteIsSafe | daemon/remote.c:7060-7082 | when old structures are deleted, in either mode, no thread is in a callback that began before the swap and all have picked up the new ones |
| FastReloadGrace.GracePeriod | daemon/remote.c:7060-7082 | over every run: between any moment before the swap and any moment from the deletion on, each thread was outside of its query callback |
| FastReloadGrace.PickedUpAfterSwap | daemon/remote.c:7060-7082 | by the deletion each thread has picked up the new configuration in a step after the swap |
| FastReloadSafety.RoundAcks | daemon/remote.c:7677-7708 | the acks of a round come from different workers in the same phase; when all are counted they are all the other workers |
| FastReloadSafety.NothingUnexpected | daemon/remote.c:4650-4706 | no thread reads a notification or command it does not expect, and polling for a quit before a send swallows no ack |
| FastReloadLiveness.NoDeadlock | daemon/remote.c:6904-6981 | in every reachable unfinished state the reload thread or main has a protocol step, or a worker that main waits for |
| FastReloadLiveness.MissingAck | daemon/worker.c:418-450 | while acks are missing some worker that owes one can go on |
| FastReloadLiveness.StepDrops | daemon/remote.c:8229-8297 | each protocol step lowers what the reload thread and main have to do, or keeps that and lowers what the workers have to do |
| FastReloadLiveness.NextDropsOrKeeps | daemon/worker.c:452-538 | every other step, also a command that main sends besides, keeps what the reload thread and main have to do and that they are ready |
| FastReloadLiveness.RoundDropsOrKeeps | daemon/remote.c:7677-7708 | while main counts acks every other step keeps what there is to do and who is ready |
| FastReloadLiveness.EveryFairRunEnds | daemon/remote.c:7713-7762 | every fair run, however many other commands main sends, ends with the reload thread joined after the swap and the deletion, nothing of the handshake in any channel and all workers in their event loop or a query with the new configuration |
| AuthHandover.NextKeeps | services/authzone.c:3954-3984 | every step of any worker keeps the locks exclusive and whoever removes the structure alone with it |
| AuthHandover.LocksAreExclusive | services/authzone.c:3954-3984 | the lock of the structure has one holder, and who holds the tree for writing has it alone |
| AuthHandover.RemovalIsSafe | daemon/remote.c:7831-7924 | the structure is freed at most once, no task is owned by anybody once it has left the tree, and no other worker then holds or awaits its lock |
| AuthHandover.SecondVisit | daemon/remote.c:7870-7924 | no worker but thread 0 comes for a second visit without having given up a task under the lock on the first |
| AuthHandover.RemovedIff | daemon/remote.c:7870-7924 | once every worker has handled the item it is out of the tree and freed once if and only if, at the last time that the tasks became free, thread 0 had still to look or some worker was on its second visit; otherwise it stays |
| AuthHandover.RemovedInTheEnd | daemon/remote.c:7870-7924 | so it is always removed when tasks outside of the hand-over are handed on |
| AuthHandover.LastTaskLost | daemon/remote.c:7902-7924 | a run where no task is taken, the last one is dropped outside of the hand-over, and the structure stays: the condition is needed |
| PrintQueue.Queue.OutputText | daemon/remote.c:4709-4725 | the line is appended to what is produced and to the output list |
| PrintQueue.Queue.PerformPrintout | daemon/remote.c:7630-7672 | the output list moves behind the client's list, or is dropped without a client |
| PrintQueue.Queue.PickupNextItem | daemon/remote.c:8533-8560 | the first line becomes the current item; what is left to write is the same text |
| PrintQueue.Queue.SendItem | daemon/remote.c:8505-8530 | exactly the bytes that the socket took are sent; an error removes the queue |
| PrintQueue.Queue.WriteItem | daemon/remote.c:8599-8613 | a turn sends what the socket accepts of the item, and drops it when it is written to the end |
| PrintQueue.Queue.ClientCallback | daemon/remote.c:8562-8628 | exactly the bytes that the socket accepts turn by turn are sent, the rest stays in order, and the queue waits, breaks or is deleted accordingly |
| PrintQueue.Queue.Remove | daemon/remote.c:8722-8732 | nothing is left in the queue, and it counts as failed if and only if the connection broke |
| PrintQueue.Queue.Desetup | daemon/remote.c:7512-7553 | at the end of the thread its lines are taken over, and the queue is deleted if nothing is left to write and otherwise kept on the list |
| PrintQueue.DrainKeeps | daemon/remote.c:8562-8628 | what the socket accepts is the start of the queue, and what stays is the rest of it |
| PrintQueue.RunOk | daemon/remote.c:7630-7672 | in every run what was sent, what is queued and what waits make up what was produced, until the connection breaks |
| PrintQueue.AnyRun | daemon/remote.c:7630-7672 | for every interleaving the lines produced are those up to the end of the thread, and what is sent is what the socket accepted: a prefix of these lines in order, and all of them once both lists and the item are empty or the queue is deleted, unless the connection broke |
| Sha512.SwapLoad | compat/sha512.c:112-130 | loading and REVERSE64 give the big-endian word on a host of either byte order |
| Sha512.StoreSwap | compat/sha512.c:112-130 | REVERSE64 and storing give the big-endian bytes |
| Sha512.UpperSigma0 | compat/sha512.c:194 | the macro Sigma0_512 is the function of section 4.1.3 of FIPS 180-4 |
| Sha512.UpperSigma1 | compat/sha512.c:195 | the macro Sigma1_512 is, too |
| Sha512.LowerSigma0 | compat/sha512.c:196 | the macro sigma0_512 is, too |
| Sha512.LowerSigma1 | compat/sha512.c:197 | the macro sigma1_512 is, too |
| Sha512.Context.CopyWord | compat/sha512.c:287-309 | a word of the block enters the window, and the words still to be read are intact even where block and window are the same memory |
| Sha512.Context.ExpandWord | compat/sha512.c:311-332 | the window of sixteen words, indices mod 16, makes the next word of the 80-word schedule |
| Sha512.Context.Transform | compat/sha512.c:271-346 | the in-place transform, also on its own buffer, is the compression of section 6.4.2 of FIPS 180-4 |
| Sha512.Context.constructor | compat/sha512.c:262-269 | a new context stands for the empty message |
| Sha512.Context.AddInc128 | compat/sha512.c:136-141 | the two words count modulo 2^128, with the carry |
| Sha512.UsedSpace | compat/sha512.c:348-365 | the low word of the bit count tells the used part of the buffer, also after it wrapped |
| Sha512.HashAppend | compat/sha512.c:381-387 | hashing whole blocks is a chain: one more block is one more compression |
| Sha512.Context.Update | compat/sha512.c:348-395 | after any update the context stands for the message with the data appended |
| Sha512.Context.PadTail | compat/sha512.c:397-429 | the three padding cases give the padding of section 5.1.2 up to the length |
| Fips180.BinaryDigits | compat/sha512.c:431-434 | the words that hold the length have the binary digits of their number |
| Sha512.Context.Last | compat/sha512.c:397-438 | the chain has run over the padded message with its 128-bit length |
| Sha512.Context.Final | compat/sha512.c:440-467 | the digest bytes are those of the last chain value, and nothing stays in the context |
| Sha512.HashPieces | compat/sha512.c:469-477 | for every split into updates, on either byte order, the digest is SHA-512 of the concatenation |
| InetRoundTrip.RoundTrip4 | compat/inet_pton.c:91-127 | the parser reads every dotted quad back as its four bytes |
| InetRoundTrip.RoundTrip | compat/inet_pton.c:143-223 | every address is read back from its text, with any run of zeros shortened and with embedded IPv4 addresses |
| InetGrammar.Parse4Is | compat/inet_pton.c:91-127 | exactly four decimal fields up to 255 are accepted, for their values |
| InetGrammar.Parse6Is | compat/inet_pton.c:143-223 | exactly the texts are accepted whose fields are words, at most one of them empty, with an IPv4 address or nothing last, and of the right length |
| InetGrammar.TrailingColon | compat/inet_pton.c:175-190 | after a word a single colon at the end changes nothing |
| InetCase.HexValueIs | compat/inet_pton.c:145-170 | a character has the value of its place in the small or in the capital digits, and that value only |
| InetCase.NoHexValue | compat/inet_pton.c:145-170 | exactly the characters in neither of the two have none |
| InetCase.Parse6Lowered | compat/inet_pton.c:143-223 | every text is read as it is with its capital letters made small |
| InetRfc.DoubleColon | compat/inet_pton.c:205-218 | in every accepted text with an empty field the bytes around the double colon are read with zeros between them if and only if fewer than 16 are given or those behind it are zero |
| InetRfc.FullAddressLoses | compat/inet_pton.c:205-218 | a full address is accepted and read with zeros for all that follows the double colon |
| InetRfc.RfcTexts | compat/inet_pton.c:129-142 | the texts of RFC 1884 are exactly the accepted ones without a single colon at the end, a group of more than four digits or a double colon that stands for nothing |
| InetRfc.PlainMeaning | compat/inet_pton.c:129-142 | such a text of eight groups is read as its bytes |
| InetRfc.ShortMeaning | compat/inet_pton.c:129-142 | such a text with a double colon is read as the bytes around it and zeros between them |
| InetRfc.ColonAppended | compat/inet_pton.c:175-190 | a colon after another character makes no text of the RFC |
| InetRfc.AcceptedBeyondRfc | compat/inet_pton.c:175-190 | a text with a single colon at the end is accepted |
| Numerals.DecMeans | compat/snprintf.c:106-119 | decimal digits mean their number, without leading zeros |
| Numerals.HexMeans | compat/snprintf.c:157-171 | hexadecimal digits mean their number, without leading zeros |
| InetText.ShortenedOnce | compat/inet_ntop.c:137-160 | section 4.2 of RFC 5952 picks one run |
| InetNtop.ReadWords | compat/inet_ntop.c:134-136 | the words are the bytes in network order |
| InetNtop.FindRun | compat/inet_ntop.c:137-160 | the run found is the leftmost of the longest with at least two words, or there is none |
| InetNtop.Format | compat/inet_ntop.c:165-205 | the loop writes the text of the address and never runs out of its buffer |
| InetNtop.InetNtop6 | compat/inet_ntop.c:113-216 | success exactly when text and NUL fit, with the text that reads back as the address; otherwise the destination is untouched |
| InetNtop.InetNtop4 | compat/inet_ntop.c:91-104 | the same for IPv4 |
| InetPton.InetPton4 | compat/inet_pton.c:91-127 | the loop computes what the quad grammar accepts, and its bytes |
| InetPton.ShiftToEnd | compat/inet_pton.c:205-218 | the in-place shift inserts zeros at the double colon; in a full address it clears what follows |
| InetPton.InetPton6 | compat/inet_pton.c:143-223 | the loop with its buffer computes what the scanner that the round trip is proved for does |
| GmTime.Unique | compat/gmtime_r.c:45-95 | a time has only one set of valid Gregorian fields, in any year |
| GmTime.FromMarch | compat/gmtime_r.c:34-38 | the months begin as in the calendar: 153 days for every five months from March on, with January and February at the end of the year before |
| GmTime.Forward | compat/gmtime_r.c:77-87 | a step forward that can overshoot lowers the measure, in any year, but from the first day of a year below 1 two years after a leap year |
| GmTime.Backward | compat/gmtime_r.c:77-87 | a step back lowers the measure, in any year |
| GmTime.DaysBeforeIs | compat/gmtime_r.c:76-86 | the leap days counted by truncating division are those of the calendar, and one more before a year below 1 that does not come after a leap year |
| GmTime.FoundIs | compat/gmtime_r.c:75-89 | where the loop ends it has found the day itself from year 1 on and in years after a leap year, and otherwise the day before; on the first day of such a year either |
| GmTime.EndsIff | compat/gmtime_r.c:75-89 | the loop ends if and only if the day is not the first of a year below 1 two years after a leap year |
| GmTime.YearOf | compat/gmtime_r.c:75-89 | the year-guess loop ends for every other day, with the year and the day in it of the day or of the day before, and when it is which |
| GmTime.MonthOf | compat/gmtime_r.c:89-93 | month and day of the month for the day of the year |
| GmTime.SplitDays | compat/gmtime_r.c:53-63 | whole days and seconds of the day for any time and offset |
| GmTime.WeekDay | compat/gmtime_r.c:72-74 | the day of the week, also before 1970 |
| GmTime.TimeSub | compat/gmtime_r.c:45-95 | for every time of such a day the fields are those of the calendar for the time or for a day earlier, with the right day of the week and the year cut to an int |
| GmTime.GmtimeR | compat/gmtime_r.c:100-104 | but for the first day of a year below 1 after a leap year: the fields represent the time, and are the only ones, if and only if the year fits an int and is at least 1 or comes after a leap year; in the other years they are a day early |
| GmTime.YearZeroIsOff | compat/gmtime_r.c:76-87 | the day before year 1 ends as 30 December |
| GmTime.EitherFirstDay | compat/gmtime_r.c:76-87 | on the first day of a year below 1 after a leap year both outcomes arise |
| GmTime.NeverDone | compat/gmtime_r.c:76-87 | for 1 January of year -2 no iteration ends the loop |
| Formatting.NumFieldLength | compat/snprintf.c:238-292 | an integer field is as long as the width, or sign and precision-padded digits if that is more |
| Formatting.StrFieldLength | compat/snprintf.c:583-598 | a string field is as long as the width, or the string cut to the precision if that is more |
| Formatting.InRange | compat/snprintf.c:750-790 | a number that fits the type of its conversion is printed as what it is |
| Formatting.CountIgnored | compat/snprintf.c:800-805 | a designation with %n outputs nothing and uses no argument |
| FormatMeaning.SignedMeaning | compat/snprintf.c:752-763 | %d and %i print spaces, sign, zeros, digits and spaces: the digits mean the argument as a number of the type, the sign is its sign, zeros come from the precision or the 0 flag, spaces fill the width on the side that the flags say |
| FormatMeaning.UnsignedMeaning | compat/snprintf.c:764-777 | the same for %u and an unsigned number |
| FormatMeaning.HexMeaning | compat/snprintf.c:778-791 | the same for %x in hexadecimal digits |
| FormatMeaning.PointerMeaning | compat/snprintf.c:425-455 | %p prints 0x and digits that mean the pointer, or (nil), or nothing for a null pointer with precision 0 |
| FormatMeaning.StringMeaning | compat/snprintf.c:572-609 | %s prints the text cut to the precision, with spaces up to the width on the side that the flags say |
| FormatMeaning.OtherMeaning | compat/snprintf.c:747-828 | %m prints the error text, cut and filled like %s, and %% a percent sign |
| FormatMeaning.CharMeaning | compat/snprintf.c:796-799 | %c prints the character whose code is the lowest byte of the argument, in its field |
| FormatMeaning.StarMeaning | compat/snprintf.c:706-730 | a width or precision given as `*` is the next argument as an int; a negative width is its size and left-adjusts, a negative precision is 0 |
| FormatMeaning.ArgsTaken | compat/snprintf.c:747-828 | exactly the conversions that have an argument use one |
| FormatMeaning.FlagsMeaning | compat/snprintf.c:683-745 | a flag is set if and only if its character is among the flag characters |
| FormatMeaning.NumberMeaning | compat/snprintf.c:683-745 | a width or precision is what its digits mean |
| Snprintf.Writer.Put | compat/snprintf.c:638-645 | one character is counted always and written when it fits |
| Snprintf.Writer.PrintPad | compat/snprintf.c:79-88 | padding of the output, of whatever length |
| Snprintf.Writer.SpoolStrRev | compat/snprintf.c:210-221 | a reversed buffer is output in order |
| Snprintf.Writer.SpoolStr | compat/snprintf.c:224-235 | a string is output |
| Snprintf.RightField | compat/snprintf.c:267-291 | the width arithmetic of a right-adjusted number comes to spaces, sign, zeros and digits of the field |
| Snprintf.Writer.PrintNum | compat/snprintf.c:238-292 | a number is output as its field, in every combination of flags |
| Snprintf.Writer.PrintPointer | compat/snprintf.c:425-455 | a pointer is output in hexadecimal with 0x, or as (nil) |
| Snprintf.Writer.PrintStr | compat/snprintf.c:572-609 | a string is cut to the precision and adjusted in its field |
| Snprintf.Writer.PrintField | compat/snprintf.c:747-828 | each conversion outputs its field |
| Snprintf.PrintDec | compat/snprintf.c:106-152 | the reversed decimal digits, which always fit |
| Snprintf.PrintHex | compat/snprintf.c:157-207 | the reversed hexadecimal digits, which always fit |
| Snprintf.ParseDesignation | compat/snprintf.c:683-745 | flags, width, precision, length and conversion are read as the format says |
| Snprintf.Vsnprintf | compat/snprintf.c:630-835 | the length of the unbounded output is returned, and the buffer holds its first characters as far as they fit and a NUL; nothing is written for size 0 |
| Arc4Random.ChaCha.Advance | compat/chacha_private.h:185-189 | the two counter words count modulo 2^64 |
| Arc4Random.ChaCha.Encrypt | compat/chacha_private.h:88-222 | the output is consecutive keystream and the counter moves past every block begun |
| Arc4Random.Generator.Rekey | compat/arc4random.c:242-262 | the first 40 bytes of the keystream are logged as made into the next key and nonce, the rest becomes the buffer, and the consumed part is zero |
| Arc4Random.Generator.Stir | compat/arc4random.c:183-217 | another key, logged with what it was made of, an empty zeroed buffer, and a reseed interval from the first four bytes of the new key, which are logged too |
| Arc4Random.Generator.StirIfNeeded | compat/arc4random.c:220-239 | a stir happens exactly on the first use, after a fork or when the bytes till reseed do not last, and the request is charged; after a fork the log has a new interval before the request, and a later key is in force |
| Arc4Random.Generator.Take | compat/arc4random.c:274-283 | the next bytes of the keystream are handed out and logged, and cleared in the buffer; every consumed position is zero |
| Arc4Random.Generator.RandomBuf | compat/arc4random.c:265-287 | every request is served in full with the next bytes of the keystream |
| Arc4Random.Generator.RandomU32 | compat/arc4random.c:289-300 | the same for four bytes; leftovers are thrown away |
| Arc4Random.AnyRun | compat/arc4random.c:302-319 | in every run the requests are served in full and no keystream byte is used twice; the log shows what every key was made of, that every stir sets one, and that between stirs less than 2*REKEY_BASE is asked for unless it is one request; the first request after a fork comes after a stir of its own, and no byte for it or a later one has a key of a byte handed out before |
| CacheDbKeys.ClearInjective | cachedb/cachedb.c:332-354 | different questions have different hash inputs, also when the secret fits only one of them |
| CacheDbKeys.SameKey | cachedb/cachedb.c:332-377 | two questions have the same key if and only if they differ in the case of the name only |
| CacheDbKeys.SameKeyLetters | cachedb/cachedb.c:332-377 | two questions have the same key if and only if type, class and length are the same and each byte of the names is the same or the two cases of one letter |
| CacheDbKeys.SecretMatters | cachedb/cachedb.c:332-354 | where the secrets fit, the same question has the same key if and only if the secrets are the same |
| CacheDbKeys.SecretLeftOut | cachedb/cachedb.c:355-358 | a secret has no effect if and only if it is empty or does not fit into the buffer |
| CacheDbKeys.HexTextAt | cachedb/cachedb.c:368-377 | the key has two capital hexadecimal digits for each byte of the hash |
| CacheDbKeys.NetworkRoundTrip | cachedb/cachedb.c:432-446 | a time is read from a record as it was written |
| CacheDb.RecordParts | cachedb/cachedb.c:543-563 | answer code, RRsets, time stamp and expiry are read from a record as they were stored |
| CacheDb.CreateMsg | util/data/msgreply.c:526-552 | a parsed message gets the lowest TTL of its RRsets, limited, or five seconds without any, and is unchecked |
| CacheDb.RRsetSubtract | cachedb/cachedb.c:478-493 | every TTL t becomes t - d for d seconds passed if that is positive, else 0, and nothing else changes |
| CacheDb.AdjustMsgTtl | cachedb/cachedb.c:497-511 | the same for the message, its RRsets and all their records |
| CacheDb.LimitNsecTtl | iterator/iter_utils.c:1657-1698 | the TTLs of NSEC and NSEC3 RRsets become the smaller of theirs and that of the first SOA; nothing else changes, and nothing at all without a SOA |
| CacheDb.Cache.PrepData | cachedb/cachedb.c:381-448 | a record is made if and only if the message may be stored and fits |
| CacheDb.Cache.Store | cachedb/cachedb.c:681-695 | the message becomes what the map has for the question, or nothing changes |
| CacheDb.Cache.Remove | cachedb/cachedb.c:1045-1062 | the question has no record any more, with either way of removing |
| CacheDb.Cache.GoodExpiry | cachedb/cachedb.c:452-473 | a record is usable if it is current or may be served expired |
| CacheDb.Cache.ParseData | cachedb/cachedb.c:543-645 | the stored message as it is read back, with the time that passed taken off, and whether it expired |
| CacheDb.Cache.ExtLookup | cachedb/cachedb.c:652-675 | a lookup succeeds if and only if the backend has the last message stored and it is usable |
| CacheDb.Cache.HandleQuery | cachedb/cachedb.c:800-895 | an answer is marked as from cachedb if and only if the backend has the last message stored, neither it nor an RRset in it has expired, and nothing forbids it; its TTL is positive and makes up, with the seconds since it was stored, the lowest TTL stored |
| CacheDb.AnyRun | cachedb/cachedb.c:932-979 | after every run of stores, removes, evictions and clock steps a lookup answers if and only if a plain map has a current message for the question, with that message: its TTL and the seconds passed make up the lowest stored, and each record has what is left of its own |
| RedisThrottle.SmallerIsAtMost | util/timeval_func.c:99-113 | the comparison is at most, not less |
| RedisThrottle.Add | util/timeval_func.c:60-71 | the sum of times, normalised |
| RedisThrottle.Throttle.Connect | cachedb/redis.c:133-247 | an attempt is made unless it is throttled, and a success ends the throttling |
| RedisThrottle.AtMostFour | cachedb/redis.c:155-175 | from any state, in a time T without a success there are at most 4 + T/interval attempts |
| RedisThrottle.FirstFourTry | cachedb/redis.c:99-101 | after a success the first four calls all try |
| RedisThrottle.TriesAgain | cachedb/redis.c:155-175 | after any calls, a call more than an interval after every failed attempt tries again |
| CacheDump.Batch | daemon/cachedump.c:159-208 | a batch visits whole bins until it has at least two entries, with fewer before the last bin, and the hash value it leaves maps back to the first bin not visited |
| CacheDump.DumpLruHash | daemon/cachedump.c:147-231 | it ends, visits no entry twice, and every entry that is there throughout |
| CacheDump.DumpSlabHash | daemon/cachedump.c:234-250 | the same over all tables of a cache |
| DaemonLifecycle.NextIsNew | util/alloc.c:101-118 | the next id of an allocator was given out by none |
| DaemonLifecycle.Daemon.ClearAllocs | daemon/daemon.c:788-803 | every allocator is freed once, and no other |
| DaemonLifecycle.Daemon.ApplyCfg | daemon/daemon.c:1329-1384 | allocators and both caches are kept together, unchanged, if and only if threads and sizes are as before; otherwise all are cleared |
| DaemonLifecycle.Daemon.OpenSharedPorts | daemon/daemon.c:617-690 | ports are opened anew for another port number only, and allocators that were kept still fit the number of threads |
| DaemonLifecycle.Daemon.CreateWorkers | daemon/daemon.c:813-882 | there are exactly as many allocators as workers, kept or new, with ids from the start of each thread's range |
| DaemonLifecycle.Daemon.GetId | util/alloc.c:195-211 | the id is in no cache; when ids run out the caches are cleared first |
| DaemonLifecycle.Daemon.StoreRRset | daemon/worker.c:2400-2407 | a worker stores under an id that no cached RRset or message has; everything cached goes when its ids start again |
| DaemonLifecycle.Daemon.Cleanup | daemon/daemon.c:1176-1224 | without reuse both caches and the allocators are emptied together |
| DaemonLifecycle.RunDaemon | daemon/unbound.c:681-729 | the rounds that run are those up to the first stop or ports that cannot be opened; the workers of each are as many as configured, one for none, and at least one for each port where they have one each; they go on with the allocators and caches of the round before if and only if it kept them and threads and sizes are the same, else with nothing cached; there are as many allocators as workers, and they gave out every cached id |
| PortShuffle.ShuffleIsPermutation | daemon/daemon.c:771-777 | the shuffle keeps the ports |
| PortShuffle.ShuffleInjective | daemon/daemon.c:771-777 | different random choices give different orders |
| PortShuffle.ShuffleSurjective | daemon/daemon.c:771-777 | every order comes from some choices |
| PortShuffle.ExactlyOne | daemon/daemon.c:771-777 | each order arises from exactly one sequence of choices |
| PortShuffle.CollectPorts | daemon/daemon.c:761-766 | exactly the permitted ports, ascending |
| PortShuffle.KnuthShuffle | daemon/daemon.c:770-778 | the loop on the array does the shuffle |
| PortShuffle.GetShufport | daemon/daemon.c:757-779 | fatal if no port is permitted; else every permitted port once, in the order that the choices stand for |

## Left out

- The exit and quit paths of fast reload, and its IPC error paths, which log and carry on.
- Transfers of added and changed auth zones, which need most of the auth zone code.
- Everything that fast reload does to build, compare and move the configuration itself.
- Sockets, TLS, events, signals, file reading, and the Windows and libevent variants.
- DNS message encoding and parsing, with the limits on the TTLs of single records, SHA-256 and the ChaCha block function.
- The initial value and the round constants of sha512.c, which the model shares with the standard.
- What workers answer to the other commands of main during a fast reload.
- The internal message cache that cachedb looks into first and stores to, and serving expired answers from it; these are outcomes of a call.
- The prefetch and serve-expired TTL fields of a message, which follow from its TTL.
- RRsets that several messages share: TTL loops work on values, so that the model has no aliasing between messages.
- Growth of a hash table during a dump, where the walk promises nothing.
- Floating point digits in formats; the field around them is modelled.
- Formats whose width or precision overflows an int, and outputs longer than INT_MAX.
- Names longer than 255 bytes as cachedb keys, and label lengths of 64 and more.
- More than 65536 worker threads, where the shift of a thread number into an id overflows 64 bits.
- Sizes above INT_MAX in inet_ntop4, where the cast makes every call fail.
- Two processes that go on with the same keystream after a fork until the next request notices it.
- GmtimeR: on the first day of a year below 1 after a leap year it states one direction only, because the outcome depends on the whole path of the guesses, as a lemma with both outcomes shows; days for which the loop does not end have no result.
