# A verified model of the client's protocols and stores

This project models the self-contained algorithms of a C game client and proves what they
are for.  `dafny verify dfyconfig.toml` checks everything.

| part | files | what is modelled |
|---|---|---|
| checksums | `Crc32`, `CrcPolynomial` | the slicing-by-16 CRC-32 (the one of section 8 of RFC 1952) against the bit-at-a-time loop, both as loops over a byte array, and both against long division of polynomials |
| commands | `Netchan`, `ReliableChannel`, `ClientConnection`, `LossyNetwork`, `CommandMessage` | numbered commands in rings of 128 slots, resent until acknowledged, with bodies keyed by the last acknowledged command; two peers over a network that loses, repeats and reorders |
| messages | `Message`, `WireFormat` | bits and bytes interleaved in one buffer, with reader and writer; the bytes of commands and gamestates written out |
| configstrings | `GameState`, `ConfigStrings`, `GameStateMessage`, `GameStateParser`, `StaleStrings`, `ServerCommands`, `CommandHandler`, `HeapText`, `ConfigStringHistory`, `Playback`, `SpilledRun` | two packed string heaps with offsets: rebuilt on update, recorded, parsed and merged with constants, and set by commands whole or in pieces; what they hold over whole games, and what a record of that plays back |
| command lines | `CommandText`, `CommandLine`, `Tokenizer` | splitting and printing of command lines; the nested tokenizer on its two shared pools |
| variables | `Cvar`, `CvarRegistry` | domains, latching and write protection; three string slots that share interned, counted strings |
| downloads | `DownloadX`, `Downloader`, `LegacyDownload`, `Framing` | the checked and resumable download, the block download, and message framing on a byte stream |
| lookups and queues | `FileNames`, `PakIndex`, `Filter`, `EventRing` | sanitized file names, the archive index, wildcard filters and the ring of system events |
| shared | `Common`, `Arithmetic` | C strings, options, parts put together and a few facts of arithmetic |

Where the program updates state in place, a class holds its arrays and counters, and the
contract of each method ties the new state to a function of the old one; the lemmas are about
those functions.  An aborted connection (`Com_Error`) is a failed outcome.  The server is the
mirror image of the client.  File contents, the transport, the clock, what the system delivers
and whether a file can be created are parameters or fields.

Some promises hold only under a condition; each of these is stated with the exact condition:

* `CL_AddReliableCommand` tests for more than 128 outstanding commands before it adds one, so
  the ring loses a command when exactly 128 are outstanding (`GuardIsOneTooWide`), and the key
  is lost one command earlier (`KeySurvivesIff`); queueing without an answer gets there
  (`GuardFails`, `KeyFails`).  The channel theorems assume a caller that keeps one slot free,
  sends no empty command and does not overflow the counter.
* Two slots with the same string are the same key exactly when the string is not empty
  (`TextIsKeyIff`); an empty command leaves stale bytes in the sender's slot (`EmptyCommandKeyIff`,
  `EmptyCommandFails`).
* A record with a configstring of 8191 characters is refused, and no other is
  (`GameRecordsAndPlays`).  No gamestate that is accepted and no server command brings such a string
  into the tables; but a gamestate that is refused for its length leaves it in the second heap,
  where a later game may read it (`RecordIsRefused`).
* The extended gamestate resets only the data count of the second table, so an index missing from
  the message may read other strings, or its old one (`MissingReads`); it is always empty exactly
  for two old offsets (`AlwaysEmptyIff`).
* A reliable message whose four length bytes do not arrive together stalls the receiver for good
  (`AllDispatchedIff`).
* The final check of a download reads 255 chunks of two mebibytes, and so checks whole files
  exactly up to that length (`WholeFileCheckedIff`).
* Announcing a file does not reset the count, so the books are right exactly when it was zero
  (`StartsConsistentIff`); over whole sessions it always is (`OnlyVerifiedIsInstalled`).
* Over any leftover of an earlier attempt an obedient server gets the file installed, exactly
  unless the leftover has the last segment of a file of whole segments and a further one behind it
  (`CompletesIff`, `LongLeftoverDrops`).
* A colon compares equal to a slash but hashes differently, so a lookup may miss
  (`LookupAgreesIff`, `LookupMisses`).

## Model

| member | source | states |
|---|---|---|
| Crc32.Crc32SixteenBytes | src/crc.c:655-723 | for every buffer, length and starting value the 64-byte unrolled slicing-by-16 loop with its byte tail returns the checksum the bit-at-a-time loop defines, for any table built from the recurrence |
| Crc32.BlockChecksumKey32 | src/common.c:1493-1512 | the nested bit loop computes that same checksum function over the first `length` bytes |
| Crc32.BuildLookup | src/crc.c:70-82 | the recurrence yields sixteen slices of 256 entries that satisfy the lookup-table predicate the fast loop relies on |
| Crc32.TableByte | src/crc.c:72-76 | the multiply-free form of one table entry equals eight bit shifts of the byte |
| Crc32.ShiftLinear | src/common.c:1503-1509 | shifting the register by any number of bytes distributes over exclusive or |
| Crc32.ShiftByteSplits | src/crc.c:720-720 | a byte shift is the looked-up low byte combined with the remaining bytes moved down |
| Crc32.SliceIsShift | src/crc.c:78-82 | slice `s` of a recurrence table holds what a byte becomes after `s + 1` byte shifts |
| Crc32.FeedWord | src/crc.c:691-694 | four bytes fed one by one equal one little-endian word fed at once |
| Crc32.SliceStepFeeds | src/crc.c:695-710 | the sixteen lookups of one unrolled step equal four words fed one after the other |
| Crc32.FeedSixteen | src/crc.c:667-712 | one pass of the unrolled loop advances the checksum by exactly the next sixteen bytes |
| Crc32.ChecksumConcat | src/cl_main.c:6234-6246 | the checksum of a concatenation is the checksum of the second part continued from that of the first |
| Crc32.FeedInjective | src/crc.c:717-722 | the same bytes never bring two different registers together |
| Crc32.BurstIsDetected | src/crc.c:655-723 | changing any four consecutive bytes of a buffer always changes its checksum |
| CrcPolynomial.ChecksumIsRemainder | src/crc.c:655-723 | for every buffer the checksum is the complement of the remainder of the preset and shifted message on division by the generator given by its exponents, lowest bit first; the statement names neither the register nor the constant |
| CrcPolynomial.ContinuedIsRemainder | src/crc.c:655-662 | the same for a carried checksum, which is taken as the preset |
| CrcPolynomial.PolynomialIsGenerator | src/crc.c:56-56 | the constant of the loops is that generator without its leading term, lowest bit first |
| CrcPolynomial.CheckValue | src/common.c:1493-1512 | the digits one to nine have the checksum 0xCBF43926 |
| Netchan.Transform | src/cl_netchan.c:14-70 | the in-place loop of both directions applies the keystream to exactly the first `length` bytes and leaves the others |
| Netchan.TransformedTwice | src/cl_netchan.c:14-70 | the transform is its own inverse for every key slot, seed and data, because the keystream never looks at the data |
| Netchan.KeyStartsWithText | src/cl_netchan.c:22-37 | what is mixed into the first byte is the seed and the first character of the key string |
| Netchan.KeyStepsThroughText | src/cl_netchan.c:24-37 | what is mixed into a further byte is what was mixed into the one before and the next character of the key string, walked again and again and doubled at odd places |
| Netchan.CursorCycles | src/cl_netchan.c:24-37 | for a nonempty key string the walk over it is the position modulo its length |
| Netchan.TransformedDependsOnText | src/cl_netchan.c:24-37 | two slots with the same nonempty string give the same result whatever stands behind the terminator |
| Netchan.TextIsKeyIff | src/cl_netchan.c:24-37 | all slots with the same string give the same result, whatever the seed and the data, if and only if that string is not empty |
| Netchan.StaleKeyIff | src/cl_netchan.c:27-36 | a slot with an empty string keys like an empty slot if and only if the stale bytes behind its terminator are zero or lost by the shift of the walk |
| ReliableChannel.QueueKeepsSlots | src/cl_main.c:6931-6933 | queueing any command, the empty one included, keeps the last 128 commands in their ring slots |
| ReliableChannel.OutstandingAsQueued | src/cl_main.c:4301-4313 | what the packet writer finds in the ring is what was queued under those numbers, while at most 128 are outstanding |
| ReliableChannel.AcceptRun | src/cl_main.c:7235-7254 | a run of commands that starts no later than the next expected one extends what was delivered in order, each once |
| ReliableChannel.AcceptedText | src/cl_main.c:7235-7254 | a new command is written to the slot of its number, cut to 1023 characters, and every other slot is kept; a command seen before changes nothing |
| ReliableChannel.AcknowledgeTaken | src/cl_main.c:3410-3416 | an acknowledgement is taken if and only if it is at most 128 commands behind, and otherwise everything counts as acknowledged |
| ReliableChannel.WriteReliableCommand | src/msg.c:2705-2731 | the copying loop leaves the cleaned command, cut to the slot and terminated, over what the slot held |
| ReliableChannel.Stored | src/msg.c:2713-2724 | as many characters as fit, each at its own place: a typographic apostrophe as a plain one, a percent sign as a dot, any other as it was |
| ReliableChannel.IntactIff | src/cl_main.c:6923-6934 | a further command leaves every unacknowledged one sendable if and only if fewer than 128 are outstanding |
| ReliableChannel.GuardIsOneTooWide | src/cl_main.c:6926-6930 | the guard, which tests for more than 128 before incrementing, keeps that promise if and only if the window is not exactly full |
| ReliableChannel.KeySurvivesIff | src/cl_netchan.c:20-20 | the acknowledged command, which is the key, survives any further command if and only if one more slot is kept free |
| ReliableChannel.GuardFails | src/cl_main.c:6926-6933 | 128 calls without an answer all pass the guard and reach the full window, from which one more call that passes loses a command |
| ReliableChannel.KeyFails | src/cl_netchan.c:20-20 | 127 calls without an answer reach the window from which one more call overwrites the key |
| ReliableChannel.EmptyCommandKeyIff | src/msg.c:2705-2731 | after an empty command the slot of the sender and the padded slot of the receiver key alike if and only if the first stale bytes of the overwritten slot are lost in the walk |
| ReliableChannel.EmptyCommandFails | src/cl_main.c:6926-6933 | an empty command behind 128 unanswered longer ones passes the guard, and its slot is another key than the slot of the receiver |
| ReliableChannel.FetchedAsQueued | src/cl_main.c:9129-9149 | a server command can be fetched exactly while it is among the last 128 received, and is then the one that was queued |
| LossyNetwork.KeysAgree | src/cl_netchan.c:14-70 | while fewer than 128 commands are outstanding, sender and receiver transform under the same key although their ring slots differ behind the terminator |
| LossyNetwork.ReceiveDecodes | src/cl_main.c:3405-3420 | a packet that is looked at decodes to exactly the commands its sender put in |
| LossyNetwork.StepKeepsInv | src/cl_main.c:3405-3420 | queueing, sending and delivering in either direction keep the invariant that links both peers and every packet ever sent |
| LossyNetwork.DeliveredInOrder | src/cl_main.c:7235-7254 | in every reachable state, over any loss, duplication and reordering, what one side executed is a prefix of what the other queued, and acknowledgements never run ahead |
| LossyNetwork.DeliveredAsAsked | src/cl_main.c:6923-6934 | in every reachable state what one side executed is, one by one and in order, what the other was asked to send: the same characters when the commands are clean and fit, and else cut and cleaned character by character |
| LossyNetwork.NeverResynchronises | src/cl_main.c:3412-3427 | in every reachable state a packet is dropped as old or processed, never taken for a lost connection or an illegible message |
| LossyNetwork.RoundTripAdvances | src/cl_main.c:4301-4313 | however few commands a packet carries, once it arrives and any packet comes back the acknowledgement has advanced by at least as many, and nothing else of the sender changes |
| LossyNetwork.RoundTripsDrain | src/cl_main.c:4301-4313 | from every reachable state, with any losses, repetitions and new commands in between: as many round trips of packets that had room for one command as commands were outstanding get everything queued executed and acknowledged |
| CommandMessage.FittingBounds | src/cl_main.c:4301-4305 | the packet writer gets in at least one command if there is one and room for it, never more than there are, and stops at the reserve of 2000 bytes |
| CommandMessage.CommandSize | src/cl_main.c:4310-4312 | one command takes the open bit byte or one more, four bytes of number and the text with its terminator, and leaves the bit position three on |
| LossyNetwork.ProgramDelivers | src/cl_main.c:4301-4313 | the same guarantees with the message format of the program, without an assumption about bodies |
| CommandMessage.FormatRoundTrips | src/cl_main.c:4301-4313 | commands written as operation, number and string, with an end mark, parse back to the same list |
| CommandMessage.CommandReadsBack | src/cl_main.c:4310-4312 | one written command takes the parser over exactly its own bits and bytes |
| ClientConnection.Connection.AddReliableCommand | src/cl_main.c:6923-6934 | on the real ring and counters: aborts when the guard says so, else copies the cleaned and cut command over what the slot held |
| ClientConnection.Connection.TakeAcknowledge | src/cl_main.c:3410-3416 | the counter takes the acknowledgement, or is reset when it is older than the window |
| ClientConnection.Connection.ParseCommandString | src/cl_main.c:7235-7254 | unless its number was seen before a command is handed over for execution and stored in its slot, cut to the slot size |
| ClientConnection.Connection.Decode | src/cl_netchan.c:14-39 | the body is transformed in place under the last acknowledged own command, whatever number was acknowledged |
| ClientConnection.Connection.Encode | src/cl_netchan.c:48-70 | the body is transformed in place under the last server command |
| ClientConnection.Connection.WriteCommands | src/cl_main.c:4301-4313 | the loop writes a first part of the outstanding commands with the message writer, as many as fit, never exceeds the packet and stops only for lack of room |
| ClientConnection.Connection.NeedsServerCommand | src/cl_main.c:9129-9149 | fetching by number: the number is noted when the command is there; a command that is gone is an error except in a demo, one not received always |
| ClientConnection.Connection.ExecuteNewServerCommands | src/cl_main.c:9240-9257 | succeeds exactly when all commands up to the target arrived and the oldest is still in the ring or a demo is played, and executes those still in the ring in order, each once |
| Message.BitReadsBack | src/msg.c:298-329 | one bit reads back, and bits written earlier into the same byte stay settled |
| Message.BitsReadBack | src/msg.c:332-358 | a field of `n` bits reads back any number below the power of two |
| Message.NumberReadsBack | src/msg.c:556-581 | a nonnegative number below half the range of its width reads back |
| Message.StringReadsBack | src/msg.c:618-646 | a string that fits reads back with its format characters replaced, and reading stands behind its terminator |
| Message.StringIsCut | src/msg.c:618-646 | a string of any length is cut to the buffer, of which one character is stored at least, and reading stands behind its terminator |
| Message.SignedReadsBack | src/msg.c:556-581 | a number of either sign reads back from the bytes of its remainder |
| WireFormat.CommandBytes | src/cl_main.c:4301-4313 | a message of one command, byte by byte: the operation and the end mark in the three and three lowest bits of one byte, the number lowest byte first, the text and a zero |
| WireFormat.LongBytes | src/msg.c:556-581 | a long takes four bytes, the lowest first |
| WireFormat.IntoOpenByte | src/msg.c:298-358 | a number of `n` bits that still fits goes into the open byte, that many bits up as are taken |
| GameState.PutGet | src/cl_main.c:8206-8207 | appending a string to the packed heap is a map update: its index reads it back, every other index is unchanged |
| GameState.PackedReads | src/cl_main.c:7331-7349 | packing any list of strings loses none of them |
| GameState.PackedValid | src/cl_main.c:7324-7349 | the packed heap stays terminated and its data count is exactly one plus length plus one for each nonempty string |
| GameState.PackedDisjoint | src/cl_main.c:7331-7349 | nonempty strings occupy disjoint terminated ranges, in index order |
| ConfigStrings.ModifiedGets | src/cl_main.c:7293-7349 | changing one configstring updates that index and no other index of either table |
| ConfigStrings.PartlyGets | src/cl_main.c:7333-7343 | of a table that does not fit, the strings before the first that has no room are there, the others are empty |
| ConfigStrings.ClientState.ConfigstringModified | src/cl_main.c:7293-7349 | the rebuild in place clears the heap and gives the packed tables with one string replaced; it changes nothing when the string is the same, and fails exactly when the packed size exceeds the heap, leaving the strings before the first that does not fit |
| ConfigStrings.ClientState.GetConfigString | src/cl_main.c:6884-6905 | reads the addressed table through its offset; fails exactly on an index outside both tables |
| ConfigStrings.Rebuild | src/cl_main.c:7324-7349 | the loop over all indices rebuilds a table in place from the snapshot, or stops at the first string that does not fit |
| ConfigStrings.TableStore.Append | src/cl_main.c:7345-7348 | the copy into the heap is `Put` on the table the arrays stand for |
| GameStateMessage.MergeOverrides | src/cl_main.c:8182-8218 | the single-pass merge with the ascending constants is a map override |
| GameStateMessage.NextMerges | src/cl_main.c:8182-8195 | copying constants below an index and dropping the equal one is the first step of putting the merged list |
| GameStateMessage.IndexReadsBack | src/cl_main.c:8744-8752 | the one-bit or thirteen-bit index code, and the long index of the extended format, read back |
| WireFormat.LegacyBytes | src/cl_main.c:8727-8754 | the bytes of two recorded strings in the legacy format: the index codes of both begin in one byte |
| WireFormat.ExtendedBytes | src/cl_main.c:8804-8833 | the bytes of two recorded strings in the extended format, with long count and indices |
| GameStateMessage.EntriesReadBack | src/cl_main.c:8158-8208 | the parser reads exactly the recorded entries, or stops at the first unreadable one |
| GameStateMessage.RecordThenParse | src/cl_main.c:8727-8754 | recording then parsing succeeds if and only if no string has the one length that is written but refused, and gives the constants overridden by what was recorded |
| HeapText.AppendHolds | src/msg.c:618-646 | a string written behind a terminator adds only itself and its endings to what can be read anywhere in a heap |
| HeapText.PartWritable | src/cl_main.c:8322-8416 | whatever a gamestate part holds, accepted or refused: nothing longer than before can be read anywhere in the heaps, unless a string was refused for its length, and no format characters |
| ConfigStringHistory.HandleChanges | src/cl_main.c:9129-9225 | a server command, whole or in pieces, leaves each table as it was or lays out its strings afresh, changed only to short ones |
| ConfigStringHistory.LeadsStored | src/cl_main.c:8270-8416 | over all runs of gamestates, complete or refused, and server commands, on heaps that keep their characters: what can be read anywhere stays within the length, and within the accepted length unless a string was spilled |
| Playback.GameRecordsAndPlays | src/cl_main.c:8727-8833 | after any game, played back on any client: the record is accepted if and only if no string has the length that is recorded and refused, every string is then shown as it was, and every index that is not recorded as stated; always so unless a string was spilled |
| SpilledRun.RecordIsRefused | src/cl_main.c:8365-8392 | a run of three gamestates, the second refused for the length of a string, after which the game goes on and its record is refused |
| StaleStrings.MissingReads | src/cl_main.c:8293-8294 | with only the data count reset, an index missing from the message reads out of the new strings at its old offset as far as they reach, and else its old string |
| StaleStrings.ParsedReads | src/cl_main.c:8322-8394 | the same after a parsed extended gamestate with its constants merged in |
| StaleStrings.AlwaysEmptyIff | src/cl_main.c:8293-8294 | a missing index reads as empty whatever strings arrive if and only if its old offset was zero or the last character of the heap |
| GameStateMessage.RecordGameState | src/cl_main.c:8804-8833 | the counting and writing loops of both formats produce the recorded message |
| GameStateParser.PartAgrees | src/cl_main.c:8322-8416 | apart from what is left of a refused message, what the parser leaves is its result |
| GameStateParser.ParseConfigstrings | src/cl_main.c:8322-8416 | the parsing loop in place on both tables, with its constant table and error exits, leaves what the parse function says, a refused string included, over the memory there was |
| GameStateParser.ParseOne | src/cl_main.c:8335-8394 | one turn stores the constants below the index and the string, or leaves what the error exit does |
| GameStateParser.ClearTables | src/cl_main.c:8270-8294 | the first table is cleared, of the second only the data count is reset, and that by the extended format alone |
| CommandText.PrintThenTokenize | src/cmd.c:404-426 | tokenizing a printed argument list returns it, for nonempty arguments without quotes, comment marks and, outside quotes, whitespace |
| CommandText.JoinReadsBack | src/cmd.c:231-336 | the same wherever the printed text stands in a longer one, with the argument limit taken into account |
| CommandText.ShownIsToken | src/cmd.c:280-334 | one printed argument is scanned to exactly its end, quoted or not |
| CommandLine.LineSplits | src/cmd.c:231-336 | a line of arguments, plain or in quotes, with any blanks and comments between them splits into exactly these arguments, whatever comment stands behind them |
| CommandLine.LastTakesRest | src/cmd.c:248-262 | with one argument left, it is the rest of the line behind its blanks, quotes and comments included |
| Tokenizer.PushedAllEffect | src/cmd.c:208-219 | writing through the saturating cursor never touches what is below it, keeps the text as far as it fits, and puts the last character over the rest |
| Tokenizer.PushKeeps | src/cmd.c:340-350 | a further tokenization changes no books, pointers or text of any outer frame |
| Tokenizer.PopTotals | src/cmd.c:365-374 | a frame's own books say exactly what it took from both pools |
| Tokenizer.ArgumentReads | src/cmd.c:192-198 | the pointers of every live frame lead to its arguments, each cut exactly where the text pool was full |
| Tokenizer.SeenInFull | src/cmd.c:208-219 | nothing is cut when the text fits, the last terminator excepted |
| Tokenizer.Args.TokenizeString | src/cmd.c:340-361 | pushes a frame holding the arguments of the text and keeps every other frame, with totals that are the sums over live frames |
| Tokenizer.Args.EndTokenizedString | src/cmd.c:365-400 | pops the last frame and restores both totals; does nothing when none is live |
| Tokenizer.Args.TokenizeInternal | src/cmd.c:231-336 | the scanning and copying loops store exactly the arguments the text splits into |
| Tokenizer.Args.WriteChar | src/cmd.c:208-219 | one character is written inside the pool even when it is saturated |
| Tokenizer.Args.Argv | src/cmd.c:192-198 | returns the argument by number as far as the text pool held it, or the empty string beyond the last |
| Tokenizer.Args.Argsv | src/cmd.c:404-426 | prints the arguments, as the text pool holds them, from a number on, cut to the buffer and never past it |
| Tokenizer.StrCat | src/qshared.c:334-342 | bounded concatenation keeps the buffer a cut of the whole text |
| ServerCommands.FragmentsAreDirect | src/cl_main.c:9173-9213 | a configstring in x, y and z pieces, with any other commands in between, has the effect of one direct command executed behind those others if it fits the buffer, and otherwise, and only then, aborts for its length |
| ServerCommands.FragmentsReassemble | src/cl_main.c:9173-9213 | afterwards the configstring the index reads as is the parts put together without leading whitespace, and every other one is what the interleaved commands left |
| ServerCommands.PiecesCollect | src/cl_main.c:9185-9205 | from any buffer content on, pieces collect behind it and the last one executes the whole |
| ServerCommands.DirectSplits | src/cmd.c:248-262 | a direct command splits into name, index and the rest of the line, blanks and quotes included |
| ServerCommands.AtoiOfDecimal | src/cl_main.c:7302-7302 | a number written with decimal digits, behind any blanks and a sign, is read as that number |
| ServerCommands.AtoiOfOther | src/cl_main.c:7302-7302 | behind blanks and a sign, anything but a digit is read as zero, and so is nothing |
| ServerCommands.DirectSetsIndex | src/cl_main.c:9207-9213 | `d` with the decimal digits of `k` and a text sets the configstring `k` to that text and no other; it fails exactly when `k` is no index or the strings do not fit |
| ServerCommands.PiecesSetIndex | src/cl_main.c:9173-9213 | after x, y and z pieces with the decimal digits of `k` the configstring `k` is the parts put together, every other one what the interleaved commands left |
| ServerCommands.OtherCommands | src/cl_main.c:9151-9236 | any other command changes neither buffer nor tables: `w` drops the connection, an empty one does nothing, the others are for the game |
| CommandHandler.HandledInFull | src/cl_main.c:9151-9236 | a command whose arguments fit the text pool is handled as the command function says |
| CommandHandler.Handler.Execute | src/cl_main.c:9151-9236 | handling a command on the real buffer, pools and tables has the effect of the command function on the arguments as the text pool holds them, and leaves no frame behind |
| CommandHandler.Handler.Direct | src/cl_main.c:9207-9213 | tokenizing with limit three, setting the configstring and ending the tokenization |
| Cvar.CurrentAfterSet | src/cvar.c:1537-1583 | a set moves the current value exactly when the variable has a name, the value aimed at is in the domain and no protection applies to its source |
| Cvar.AfterSetIs | src/cvar.c:1506-1583 | the whole outcome of a set, with the bits of the flags written out: the value aimed at goes to the latched value if it is valid and current already or not protected from its source, to the current value as well unless it has to wait, and only a moved current value counts as modified |
| Cvar.NumberSet | src/cvar.c:1260-1280 | an integer, a switch or an enum takes a number from inside exactly when it is in its range; an enum takes its reset value else |
| Cvar.VectorSet | src/cvar.c:1281-1305 | a vector is taken exactly when every component is in the range, and has one to four of them |
| Cvar.SetAims | src/cvar.c:1537-1548 | an invalid enum value acts as the reset value, with one further turn and no more |
| Cvar.SetKeepsOk | src/cvar.c:1506-1583 | a set keeps kind, flags, limits and reset value, and keeps all three values in the domain if they were |
| Cvar.LatchedIsTakenOver | src/cvar.c:1551-1568 | an outside set of a latched variable that is neither read-only nor write-protected, nor a cheat without cheats, waits in the latched value, and setting that from inside installs it |
| Cvar.ChoicesKeepOk | src/cvar.c:781-819 | after new choices every value names one of them, and values that still do are kept |
| Cvar.ProtectedKeepsCurrent | src/cvar.c:1321-1365 | over any run, sets from outside never change the current value of a read-only, write-protected or latched variable |
| Cvar.DomainIsKept | src/cvar.c:1260-1305 | over any run, a variable registered in its domain stays in it |
| Cvar.HeldReplaced | src/cvar.c:1369-1503 | replacing one variable changes the held strings by exactly the difference of what it holds |
| Cvar.HeldCountsHolders | src/cvar.c:1369-1503 | a string is held as often as there are variables that show it in a slot or own it as their name |
| CvarRegistry.ReferencesAreHolders | src/common.c:1446-1491 | the reference count of every string is what others hold plus the number of variables that hold it: nothing held is freed and nothing leaks |
| CvarRegistry.UpdateMoves | src/cvar.c:1434-1475 | one reference taken and up to two given back amount to the difference of what is held, in all cases of equal slots |
| CvarRegistry.LatchMoves | src/cvar.c:1477-1503 | the same for latching |
| CvarRegistry.WaitsIff | src/cvar.c:1551-1568 | a set leaves a waiting value exactly when it comes from outside, may change the variable, the variable is latched and the value is not current |
| CvarRegistry.Registry.UpdateValue | src/cvar.c:1434-1475 | installs a value in the current and the latched slot and moves exactly the references that come with it |
| CvarRegistry.Registry.SetLatchedValue | src/cvar.c:1477-1503 | installs a value in the latched slot, with the pointer comparison that skips the work |
| CvarRegistry.Registry.AssignString | src/cvar.c:1391-1425 | shares the string of another slot or takes one new reference |
| CvarRegistry.Registry.SetVariant | src/cvar.c:1506-1583 | the recursive setter terminates, has the effect of one step, keeps every reference accounted for, and notes modified flags and waiting values exactly when they arise |
| CvarRegistry.Registry.RegisterNew | src/cvar.c:1057-1118 | adds a variable whose three slots share one reference, and one for the name if it is copied; fails exactly when the registry is full |
| CvarRegistry.Registry.RegisterEnum | src/cvar.c:350-372 | counts the choices and registers a default that names one of them |
| CvarRegistry.Registry.ApplyNewEnumDomain | src/cvar.c:781-819 | the clamping sequence has the effect of the step that gives new choices |
| DownloadX.VerifiedIff | src/cl_main.c:6223-6258 | the chunked check passes exactly when the checksum of the first 255 chunks is the announced one; for files up to that size, of the whole file |
| DownloadX.WholeFileCheckedIff | src/cl_main.c:6236-6258 | for all files of a length the check is that of the whole file if and only if the length is at most 255 chunks |
| DownloadX.DamageIsUnseen | src/cl_main.c:6236-6258 | in any longer file damage to the last byte changes the checksum but never the verdict |
| DownloadX.ChunksAreOne | src/cl_main.c:6236-6246 | chunk by chunk or in one go the checksum is the same |
| DownloadX.OnlyVerifiedIsInstalled | src/cl_main.c:6336-6478 | over whole sessions of many files, from any state and whatever arrives, only nonempty files that pass the check are installed; from a regular state, such as before the first file, they have the announced length |
| DownloadX.StepInstallsVerified | src/cl_main.c:6336-6478 | each message, even with wrong books, installs nothing but a file counted in full that passes the check, and otherwise leaves the final file alone |
| DownloadX.StepKeepsBooks | src/cl_main.c:6336-6478 | each message keeps written and counted bytes equal while a file is open, and what it installs has the announced length |
| DownloadX.AfterInstalls | src/cl_main.c:5640-5769 | asking for the next file, clearing the names behind the last one and leaving the server keep the session regular |
| DownloadX.StartsConsistentIff | src/cl_main.c:6347-6389 | starting a file does not reset the count: the books are right afterwards if and only if the count was zero |
| DownloadX.AnnouncedAgain | src/cl_main.c:6261-6296 | announced again with the count of an installed file, a file is dropped, waited for or asked from the old count on, into an empty file |
| DownloadX.CacheTaken | src/cl_main.c:6164-6202 | all whole segments of an interrupted attempt are taken over |
| DownloadX.StartResumes | src/cl_main.c:6261-6296 | starting over asks the server for exactly the bytes the kept segments do not cover |
| DownloadX.DownloadCompletes | src/cl_main.c:6336-6478 | fresh or resumed, and however the missing part is cut into blocks, exactly this file is installed, complete |
| DownloadX.CompletesIff | src/cl_main.c:6164-6478 | over any leftover of an earlier attempt, damaged or of another file, a server that sends what it is asked for, however cut, gets exactly this file installed, complete and once, if and only if the leftover does not go on by a segment behind a file of whole segments whose last one it has; else nothing is installed |
| DownloadX.LongLeftoverDrops | src/cl_main.c:6164-6296 | a leftover that holds such a file and goes on by a segment makes the announcement itself drop the connection |
| DownloadX.CorruptIsAskedAgain | src/cl_main.c:6452-6478 | a file that fails the final check is asked for again, with count zero, and not installed |
| DownloadX.AnnouncementRefused | src/cl_main.c:6347-6410 | which announcements are refused, stop the download or drop the connection; none of them asks for anything or touches the final file |
| DownloadX.BlockWritten | src/cl_main.c:6411-6451 | a block is written at its own position when that is where the file ends and it does not exceed the announced length; any other drops the connection and leaves both files |
| Downloader.Receiver.VerifyFinal | src/cl_main.c:6223-6258 | the reading loop with the table-driven checksum decides as the check demands |
| Downloader.Receiver.GetNextSegment | src/cl_main.c:6261-6296 | the cache loop copies good segments, and stops at a bad or missing one with the right request |
| Downloader.Receiver.ParseFileInit | src/cl_main.c:6347-6410 | the announcement with its error exits, the move to the cache file and the first request |
| Downloader.Receiver.ParseBlock | src/cl_main.c:6411-6478 | a block is appended at the counted position or drops the connection; an empty one reads on or finishes |
| LegacyDownload.WrittenInOrder | src/cl_main.c:6015-6126 | for any arrivals the written file is the blocks before the expected one, each once, and it gets its name exactly when the empty block is taken |
| LegacyDownload.FinishedIff | src/cl_main.c:6048-6126 | a file is finished if and only if its blocks and the empty one occur in order among the arrivals |
| LegacyDownload.AnswersName | src/cl_main.c:6057-6126 | in every reached state: a block above the expected one is answered by asking for the first missing block, with exactly the blocks before it in the file; the expected block by naming it; an earlier one by nothing |
| LegacyDownload.Recovers | src/cl_main.c:6057-6126 | after any losses, a sender that goes on where it is asked to, or with the block behind the one named, finishes the file with the blocks that are missing and at most the one block or the repetitions it was ahead or behind |
| LegacyDownload.Recovery | src/cl_main.c:6057-6126 | such a continuation exists from every reached state and every block the sender stands at |
| LegacyDownload.MessageRefused | src/cl_main.c:6015-6099 | exactly which messages are errors, stop the download or point to the web; none of them, nor an old or early block, changes file or counters |
| LegacyDownload.Receiver.ParseDownload | src/cl_main.c:6015-6126 | one message on the real counters and files: the reply, with the missing block in a request to send again, the error exits and the new state |
| Framing.PollDispatches | src/cl_main.c:3273-3330 | one poll dispatches exactly the complete messages at hand and keeps the remaining bytes |
| Framing.DispatchedIsPrefix | src/cl_main.c:3273-3330 | however the stream is cut, the dispatched messages are the first ones, in order and none twice, up to the first chopped header |
| Framing.AllDispatchedIff | src/cl_main.c:3273-3330 | all messages get through if and only if every header arrives whole |
| Framing.ChoppedStalls | src/cl_main.c:3287-3303 | a receiver that took one to three bytes of a header never gets on |
| Framing.SizeOfHeader | src/cl_main.c:3334-3344 | the length the sender puts in front reads back |
| Framing.HeaderIs | src/cl_main.c:3334-3344 | the four bytes of a header are the length, lowest first |
| Framing.SizeIs | src/cl_main.c:3287-3303 | four bytes are read as a signed number, lowest first |
| Framing.BadLength | src/cl_main.c:3287-3330 | an impossible length dispatches nothing, takes four bytes, and ends the connection if it is positive |
| Framing.Connection.ReceiveReliableMessages | src/cl_main.c:3273-3330 | the polling loop on the real buffer computes one poll |
| Filter.Passes | src/common.c:1766-1852 | for filters of literals and stars the loop without backtracking accepts exactly the names that match |
| Filter.LeftmostDecides | src/common.c:1781-1788 | behind the leftmost place of a run the filter matches if it matches anywhere |
| Filter.EarlierIsEnough | src/common.c:1772-1789 | an earlier rest of the name matches whatever a later rest matches |
| Filter.SameIs | src/common.c:1720-1728 | two characters match if they are equal or, unless case matters, the two cases of one letter |
| Filter.WithoutWildcards | src/common.c:1766-1852 | a filter of literals matches exactly the names that begin with it, one star in front of it those that contain it |
| Filter.StringContains | src/common.c:1712-1733 | finds the leftmost place, or none exactly when there is none |
| PakIndex.SameHash | src/files.c:2838-2862 | names that compare equal and have their colons at the same places in front of the extension have the same hash for every table size |
| PakIndex.ExtensionIsLeftOut | src/files.c:2843-2847 | names that differ in the extension alone have the same hash |
| PakIndex.ShortNameHashes | src/files.c:2838-2862 | the hash of a name of two letters, with weights and reduction worked out |
| PakIndex.LookupAgreesIff | src/files.c:3274-3326 | the chain walk finds what a scan of all entries finds if and only if the scan finds nothing or an entry with the hash of the name |
| PakIndex.LookupMisses | src/files.c:3245-3262 | an archive of one file in which the scan finds a sanitized name and the lookup does not, because a colon compares equal to a slash |
| PakIndex.LookupAgrees | src/files.c:3274-3326 | the chain walk finds what the scan finds for every name with the colons of that entry |
| PakIndex.Pack.Find | src/files.c:3274-3326 | for all names, the chain walk finds the last entry that compares equal and hashes alike |
| PakIndex.Pack.constructor | src/files.c:2919-2966 | indexing the entries in archive order leaves every chain complete, newest entry first |
| PakIndex.Pack.TableSize | src/files.c:2919-2925 | the table size is the smallest power of two above the number of files, up to 2048 |
| PakIndex.ChainedMore | src/files.c:2952-2966 | putting an entry in front of its chain keeps all chains complete |
| PakIndex.FilenameCompare | src/files.c:3159-3186 | the loop decides equality up to case and separators |
| PakIndex.ComparedIs | src/files.c:3164-3180 | two characters compare equal if they are equal, both separators, or the two cases of one letter |
| PakIndex.HashFileName | src/files.c:2838-2862 | the loop computes the hash up to the extension |
| FileNames.Sanitize | src/files.c:3003-3058 | the loops compute the cleaned name, or refuse it |
| FileNames.SanitizedIff | src/files.c:2987-3058 | a name is refused if and only if two dots or two colons stand in it or it is too long, and a cleaned name never steps up, has no backslash and no dot in front of a slash or at the end |
| FileNames.SanitizedIs | src/files.c:3020-3057 | what passes is exactly the characters that stay, in order, with slashes as separators: a separator stays behind another character, a dot unless it stands alone, and every other character |
| FileNames.BackupStands | src/files.c:2987-2999 | a name steps up exactly when two dots or two colons stand side by side in it |
| FileNames.SanitizedKeepsIff | src/files.c:3003-3058 | exactly the safe names without leading or doubled separators pass unchanged |
| EventRing.Ring.QueueEvent | src/common.c:299-329 | queues an event at the end, and drops exactly the oldest one when 256 wait |
| EventRing.Ring.GetEvent | src/common.c:338-384 | returns the oldest waiting event, or the first the system delivers when asked, or an empty one |
| EventRing.QueuedWaits | src/common.c:299-329 | the waiting events are the last 256 of what waited and the new one |
| EventRing.BlocksConserved | src/common.c:299-384 | every block queued was handed out, or freed, or still waits, and none is counted twice |
| EventRing.NeverBoth | src/common.c:299-384 | a block queued once is never both freed and handed out |

## Left out

- Netchan.Transform: the byte order of the host and the choice of another codec through the function pointers are not modelled.
- LossyNetwork.DeliveredInOrder: user commands and snapshots in the same packets, fragments and what the game does with an executed command are not modelled; sequence numbers stay below 2^31.
- LossyNetwork.NeverResynchronises: after an illegible message the source restores the old acknowledgement but keeps effects already executed; that case is shown not to arise.
- Message.BitsReadBack: the overflow flag of a full write buffer and split messages are not modelled.
- GameStateParser.ParseConfigstrings: requires that what is stored fits the heaps, because the source writes behind them otherwise; side effects of particular strings (map centre, fallback version) and the baselines in the same message are not modelled.
- Playback.GameRecordsAndPlays: the recorded strings and the constants must have room in the heaps of the client that plays them; constant strings are taken to be shorter than 8191 characters and without format characters.
- StaleStrings.AlwaysEmptyIff: speaks of the merged list, constants included, and of strings of any length the parser accepts.
- ConfigStrings.ClientState.ConfigstringModified: the reaction to index 1 (system info) is not modelled.
- CommandHandler.Handler.Execute: requires that one more command line can be tokenized (see TokenizeString).  A y or z command without a blank after its index, which reads behind the terminator, counts as empty.
- ServerCommands.AtoiOfDecimal: numbers beyond the width of an `int`, which the C library leaves open, are read as they stand.
- Tokenizer.Args.TokenizeString: nesting and the pointer pool are bounded by requirement, because the source does not check them.
- Cvar.DomainIsKept: floating-point values are reals, so not-a-number and rounding are not modelled; type conversion, re-registration of flags and unregistration are not part of this model.
- CvarRegistry.Registry.SetVariant: the interning table is a multiset of texts; its hash structure, log output and the name lookup chains are not modelled.
- DownloadX.OnlyVerifiedIsInstalled: a cache file with more than 256 segments makes the source read behind its array of checksums; the model ends the connection there.  Web downloads are not modelled; the next file on the list is part of the event, and is begun only between two files.
- DownloadX.CompletesIff: a leftover in which a damaged segment has the announced checksum is excluded; the client cannot tell such a segment from a good one.
- LegacyDownload.WrittenInOrder: what a web download does once it is pointed to, and the check for update file names beyond whether it passes, are not modelled.
- Framing.PollDispatches: the execution of a message may itself change the client state; it is taken as a list of dispatched messages.
- Filter.Passes: filters with `?` or `[` are not modelled, because `?` may step over the end of the name.
- PakIndex.Pack.Find: pure-server checks, file handles and the search path around one archive are not modelled; names are ASCII and shorter than 256.
- EventRing.Ring.QueueEvent: counters do not wrap around, and critical sections are not modelled.
- Drawing, sound, input, sockets, web downloads, encryption, entity and snapshot deltas, Huffman coding and the literal CRC tables are not modelled.
