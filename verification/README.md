# Verified models of the tools libraries

Dafny models of seven self-contained pieces of stateful C and C++ code under `tools/`, with proofs
of what each is for. `dafny verify dfyconfig.toml` checks everything.

- **cJSON.** `CJson` gives printer and parser as functions on text; `CJsonRoundTrip` proves that parsing undoes
  either printer, `CJsonMinify` that the minifier turns one print mode into the other, `CJsonMinifyAny` that it
  leaves the meaning of any text the parser accepts, `CJsonPieces` what it makes of any text at all.
  `CJsonNumerals`, `CJsonFaults` and `CJsonLayout` say which number a numeral gives, where the error pointer is,
  by where a text goes wrong, and where the printer puts blanks. `CJsonPrint` and `CJsonParse` are the buffer-
  filling printer, with its size accounting, and the cursor-moving parser, proved against these functions;
  `CJsonPipeline` runs printer, in-place minifier and parser one after the other. `CJsonTree` has the linked
  children and the recursive copy on the heap.
- **jsoncpp.** `JsonCpp` describes texts as tokens with white space between them. `JsonCppWriter` and
  `JsonCppStyled` are the two writers, and `JsonCppLayout` says where the second puts blanks. `JsonCppLex`,
  `JsonCppUnicode` and `JsonCppGrammar` say what the reader makes of any text, `JsonCppReader` is the reader with
  its cursor, error list and node stack, `JsonCppComments` says which documents with comments and odd separators
  it takes, `JsonCppOrder` what becomes of names in any order. `JsonCppTokens` says what each token looks like,
  `JsonCppAccepts` exactly which texts are read without a fault and as what, `JsonCppFaults` and `JsonCppProblems` which fault all
  others give, and `JsonCppRoundTrip` puts writers and reader together. `BatchAllocator` is the pool.
- **cJSON and jsoncpp.** `CrossDecode` compares their string decoders, `CrossWrite` has the one read what the other
  writes, `JsonEscapes` has what both write for a string.
- **eloop.** `EloopSpec` is the timeout scheduler as a transition system over a monotone clock, `Eloop`
  the event loop on the circular list of `DlList` refining it, `EloopSignals` the signal counters under
  every interleaving with deliveries, `RelTime` the time arithmetic.
- **MD5.** `Md5`: streaming with a 64-byte buffer and a split bit counter, against the one-shot digest
  of RFC 1321.
- **NMEA.** `Nmea` and `NmeaParser`: framing, resynchronisation, checksums and the packet queue.
- **Escape codecs.** `Codecs`: printf_encode and printf_decode, utf8_escape and utf8_unescape; `CodecPieces` says
  what any text is decoded to.
- **Command history.** `HistorySpec` is the move-to-front list with its navigation cursor, `EditorSpec` the keys
  that edit the line, `EditorKeys` what each of them does position by position, `History` all of it on the linked list
  and the two line buffers.

`Bits`, `Utf8`, `CBuffer` and `Options` hold what they share: C's bit operations, decimals and the UTF-8
encoding, C strings in buffers, and values that may be absent.

One `char` is one byte. Code that works by changing things in place is modelled by methods on arrays
and linked objects, each proved against a function; what the code is for is proved about that function.

## What the code does against its own words

- readArray reports "Missing ',' or ']' in array declaration" for a token that is a comma and a closing
  bracket at once (`json_reader.cpp:563-570`), so it never does: any separator but the bracket is taken
  (`JsonCppGrammar.AnySeparator`), and `[1:3]` is read as `[1,3]` (`JsonCppComments.ColonArray`). parse does not
  look behind the value.
- readObject takes any token after a comment behind a member for a comma (`json_reader.cpp:519-531`), skips
  comments before names and behind members even where they are disallowed, and accepts `{"":1,}` because it
  asks whether the last name is empty rather than whether there was one. `JsonCppComments.DressedParsed` says
  which documents pass, of those made of printable values, comments and separators of any kind at any depth;
  `ColonBehindComment`, `ColonAlone`, `OddBehindComment`, `CommentBeforeName` and `TrailingComma` show it, and
  `JsonCppAccepts.ParsesExactly` has the grammar of all texts that pass.
- The reader takes the widest few integers of each type for doubles (`JsonCppLex.NumberReadsBack` gives
  the exact range), and a lone `-` for 0 (`JsonCppLex.MinusAlone`).
- cJSON and jsoncpp decode `\u` escapes differently as soon as one is zero or not part of a proper pair
  (`CrossDecode.SameExactly`).
- nmea_printf returns the full length when the frame fills the buffer exactly although its last byte is
  then cut (`NmeaParser.Printf`, `Nmea.FrameCut`), writes behind the buffer when the payload alone is longer
  (`NmeaParser.Printf`), and gives a payload with an odd number of bytes above 127 a negative checksum of eight
  digits, which nmea_find_tail never accepts (`Nmea.FrameFound`). It does accept a blank or a sign among the two
  digits, as strtol does (`Nmea.OddDigits`).
- deplete and replenish compare the request without normalising it. deplete is right below one million
  microseconds, replenish up to one million (`EloopSpec.RearmsRightlyIff`), and `EloopSpec.DepletePostpones` is a
  timeout that deplete moves later.
- The pool's page-full test is an equality, so allocations stay inside their page if and only if the allocation
  size divides the page size (`BatchAllocator.StaysInside`, `AllocateMany`); pairs on pages of the default
  size do not (`PairsRunOver`).
- eloop_register_signal reallocates the table before it assigns it, so a signal that arrives in between bumps the
  old table and its handler is not called (`EloopSignals.NoSignalLost` has the exact condition,
  `TerminationMissed` a lost SIGINT).
- The minifier takes a star for the end of the comment that it begins, so `/*/` is a whole comment
  (`CJsonPieces.MinifyIs`), and runs past the end of a string that never closes, which cJSON_Parse accepts as a document
  (`CJsonMinifyAny.MinifyKeepsMeaning`).
- MD5Update adds 63 to the position in 32 bits, so an update of nearly 2^32 bytes behind buffered ones reads
  past its input (`Md5.Context.Update` has the exact bound, `LargestDoesNotFit` an input).

## Model

| member | source | states |
|---|---|---|
| CJsonRoundTrip.RoundTrip | tools/cJSON/cJSON.c:96-507 | main theorem: at every depth, in both print modes and whatever text follows, parsing what was printed gives the tree back and stops exactly behind it (a number must not be followed by a character that continues it) |
| CJsonRoundTrip.ParsePrint | tools/cJSON/cJSON.c:264-284 | cJSON_ParseWithOpts on the text of either printer uses up all of it and gives the equal tree, with or without require_null_terminated |
| CJsonRoundTrip.RoundTripArray | tools/cJSON/cJSON.c:320-403 | an array's text is parsed back, the empty one included |
| CJsonRoundTrip.RoundTripObject | tools/cJSON/cJSON.c:406-507 | the same for objects, the empty one included |
| CJsonRoundTrip.UnescapeEscape | tools/cJSON/cJSON.c:155-248 | the loop of parse_string undoes the escaping of print_string_ptr on every NUL-free string and stops behind the closing quote |
| CJsonRoundTrip.ParsePrintInt | tools/cJSON/cJSON.c:96-137 | every printed integer is parsed back as mantissa with exponent 0, up to the first character that cannot continue a number |
| CJsonMinify.MinifyPrint | tools/cJSON/cJSON.c:581-596 | minifying the text of either print mode gives the unformatted text, byte for byte |
| CJsonMinify.MinifyValue | tools/cJSON/cJSON.c:581-596 | the same at any depth and with any text behind, which is what the minifier's loop needs |
| CJsonMinify.MinifyQuote | tools/cJSON/cJSON.c:581-596 | string literals pass through the minifier unchanged, blanks, slashes and escapes in them included |
| CJsonMinify.MinifyInPlace | tools/cJSON/cJSON.c:581-596 | in place, the buffer ends up holding the minified text, which CJsonPieces.MinifyIs describes for every text, and its terminator; the write position never passes the read position; bytes behind the text stay; failure is reported exactly for texts whose string or comment would be read past the terminator |
| CJsonPieces.MinifyIs | tools/cJSON/cJSON.c:581-596 | main theorem on every text: it is made of blanks, comments of both kinds, string literals and other characters, whatever their order; the literals and other characters stay, in order, all else goes; and the minifier runs past the end exactly if a literal or a comment is left open |
| CJsonPieces.CommentsMinified | tools/cJSON/cJSON.c:264-596 | a text that cJSON_Parse accepts, dressed with comments and blanks between its pieces, is minified to a text of the same value |
| CJsonPieces.LineCommentGoes | tools/cJSON/cJSON.c:590 | an example: what is left of 1, a line comment and a newline is 1 |
| CJsonMinifyAny.MinifyKeepsMeaning | tools/cJSON/cJSON.c:264-596 | main theorem on texts of any origin: whatever text cJSON_ParseWithOpts accepts up to its end, the minifier runs past the terminator if and only if the text is a string that never closes; otherwise what is left is accepted too, wholly, with the same value |
| CJsonMinifyAny.KeepsValue | tools/cJSON/cJSON.c:287-299 | inside such a text: what a value's characters are minified to is parsed to that value in front of anything that may follow a value |
| CJsonMinifyAny.CopyKeeps | tools/cJSON/cJSON.c:155-212 | a string literal that is decoded is copied by the minifier character by character, broken surrogates and non-hexadecimal escapes included, and decodes the same in front of any text |
| CJsonMinifyAny.NumberTail | tools/cJSON/cJSON.c:96-115 | the characters parse_number takes are those of a number alone, and it takes exactly them in front of anything that may follow a value |
| CJsonPipeline.PrintMinifyParse | tools/cJSON/cJSON.c:264-596 | formatted print, in-place minify and parse in a row on one buffer give the tree back, consume every byte, and leave in the buffer what the unformatted printer writes |
| CJsonPrint.PrintString | tools/cJSON/cJSON.c:215-248 | the precomputed length is the escaped length plus quotes and terminator, exactly, and the second pass fills it exactly |
| JsonEscapes.CJsonShortest | tools/cJSON/cJSON.c:215-248 | what is written for a string spells it as section 7 of RFC 8259 has it, and no spelling of that string is shorter |
| CJsonPrint.EscapedLength | tools/cJSON/cJSON.c:218-223 | the first pass counts the bytes of the escaped string |
| CJsonPrint.PrintNumber | tools/cJSON/cJSON.c:118-137 | an int always fits the 21 characters allocated |
| CJsonPrint.PrintArray | tools/cJSON/cJSON.c:348-403 | the buffer holds the array's text; everything written, terminator included, fits the length summed up from the element texts |
| CJsonPrint.ComposeArray | tools/cJSON/cJSON.c:376-402 | the allocated length exceeds the text by the number of elements, four, and one more when formatted |
| CJsonPrint.PrintObject | tools/cJSON/cJSON.c:442-507 | the buffer holds the object's text; a non-empty object's allocation exceeds the text by six |
| CJsonPrint.PrintEmptyObject | tools/cJSON/cJSON.c:450-461 | the empty object fits depth + 4 characters when formatted and 3 otherwise, at depth 0 too |
| CJsonPrint.PrintValue | tools/cJSON/cJSON.c:302-317 | whatever the tree, depth and format, the returned buffer is large enough and holds the text as a C string |
| CJsonPrint.ItemsLength | tools/cJSON/cJSON.c:362-376 | the length that print_array adds up covers the joined element texts and separators |
| CJsonPrint.MembersLength | tools/cJSON/cJSON.c:466-487 | the length that print_object adds up covers the joined member lines |
| CJsonPrint.PrintNulFree | tools/cJSON/cJSON.c:302-317 | no printed text contains a NUL, so its C string is all of it |
| CJsonLayout.FormattedIsSpread | tools/cJSON/cJSON.c:348-507 | the formatted text is the unformatted one with blanks put in by a rule on single marks: each member line begins with one tab for each level, the closing brace with one less, a tab follows each colon and a blank each comma between elements |
| CJsonParse.ParseText | tools/cJSON/cJSON.c:264-278 | the cursor-moving parser gives the value, end position or error position of the recursive specification, for every text in which each unicode escape has its four characters before the next quote, backslash or terminator; otherwise it says so |
| CJsonFaults.FaultParsed | tools/cJSON/cJSON.c:264-439 | where a text stops being one: at a value, an element, a name, a colon, or where a comma or closing bracket should stand, behind anything that is in order, the error pointer is exactly there, under either setting of the end test |
| CJsonFaults.BehindValue | tools/cJSON/cJSON.c:275 | what follows a whole value is where the error pointer is, if the text has to end there |
| CJsonParse.ParseValueAt | tools/cJSON/cJSON.c:287-299 | dispatch on the first characters in the source's order, and progress on success |
| CJsonParse.ParseArrayAt | tools/cJSON/cJSON.c:320-345 | the loop over elements refines the specification, errors included |
| CJsonParse.ParseObjectAt | tools/cJSON/cJSON.c:406-439 | the loop over members refines the specification, errors included |
| CJsonParse.ParseNumberAt | tools/cJSON/cJSON.c:96-115 | sign, leading zero, digits, fraction and exponent as the loops take them, for every text |
| CJsonNumerals.NumeralRead | tools/cJSON/cJSON.c:96-115 | the value read for a decimal numeral with sign, fraction and exponent is the number it writes, in front of anything that does not continue it |
| CJsonNumerals.MinusQuarter | tools/cJSON/cJSON.c:96-115 | an example with a fraction and a negative exponent |
| CJsonParse.ParseStringAt | tools/cJSON/cJSON.c:155-212 | both passes: the buffer sized by the first is never overrun by the second, and the decoded bytes and end are those of the specification; a complete escape whose four characters are not hexadecimal counts as code 0 and is dropped |
| CJsonParse.ScanBoundsUnescape | tools/cJSON/cJSON.c:159-212 | the first pass's count bounds the decoded length whenever decoding succeeds |
| CJsonParse.PutCodePoint | tools/cJSON/cJSON.c:190-206 | the fall-through switch that writes a code point backwards with or and and masks writes the encoding of section 3 of RFC 3629 |
| CJsonParse.Surrogates | tools/cJSON/cJSON.c:179-187 | the shifts and masks on a surrogate pair give the code point of RFC 8259 section 7 |
| CJsonTree.AddItemToArray | tools/cJSON/cJSON.c:515-520 | on the linked children: appends the item and everything its next links lead to; the result is a chain with matching next and prev links if and only if the list was not empty or the item did not point back |
| CJsonTree.DetachItemFromArray | tools/cJSON/cJSON.c:525-526 | removes at a position (negative counts as 0, too large changes nothing), unlinks the item and repairs both neighbours |
| CJsonTree.ReplaceItemInArray | tools/cJSON/cJSON.c:532-534 | replaces at a position and repairs the links of both neighbours and the parent |
| CJsonTree.GetArrayItem | tools/cJSON/cJSON.c:511 | the k-th child, or null behind the end; negative positions mean the first |
| CJsonTree.GetArraySize | tools/cJSON/cJSON.c:510 | the number of children |
| CJsonTree.ApplyEdits | tools/cJSON/cJSON.c:510-535 | after any sequence of appends, detaches, replaces, and putting detached items back at the end or in another's place, the chain is sound, the items put aside are linked to nothing, and both hold what these edits make of the abstract sequences |
| CJsonTree.Duplicate | tools/cJSON/cJSON.c:554-579 | recursive copy: an equal tree in which every item is new and linked soundly; without recursion, the item alone |
| CJsonTree.Apart | tools/cJSON/cJSON.c:554-579 | a freshly copied tree and a chain share no item, which is what keeps linking sound |
| CrossDecode.ReadersAgree | tools/jsoncpp/json_reader.cpp:658-702 | on every literal made of raw bytes, short escapes, non-zero non-surrogate units and surrogate pairs, cJSON's parse_string and jsoncpp's decodeString give the same bytes, those of section 3 of RFC 3629, and cJSON's first pass bounds them |
| CrossDecode.Pieces | tools/jsoncpp/json_reader.cpp:658-757 | every literal without quotes, terminators and broken escapes is made of such pieces |
| CrossDecode.PiecesUnbroken | tools/jsoncpp/json_reader.cpp:658-757 | and only such a literal is |
| CrossDecode.SameExactly | tools/jsoncpp/json_reader.cpp:658-757 | main theorem: on every literal of raw bytes, short escapes and complete units, surrogates in any order, the two decoders give the same bytes if and only if no unit is zero or a lone surrogate and every high surrogate is followed by a low one |
| CrossDecode.Compared | tools/jsoncpp/json_reader.cpp:658-757 | where jsoncpp accepts a literal that is not well-formed, cJSON gives fewer bytes |
| CrossDecode.CJsonDecodes | tools/cJSON/cJSON.c:155-212 | cJSON's side on all such literals: the bytes, with the text behind the literal left over |
| CrossDecode.JsonCppDecodes | tools/jsoncpp/json_reader.cpp:658-757 | jsoncpp's side: the bytes, or an error exactly if some high surrogate has no unit behind it |
| CrossDecode.LoneSurrogateDiffers | tools/jsoncpp/json_reader.cpp:704-731 | an input outside the condition: a lone low surrogate vanishes in cJSON and becomes three bytes in jsoncpp |
| JsonCppUnicode.CodePointIsEncoded | tools/jsoncpp/json_reader.cpp:70-104 | the marker and mask arithmetic of codePointToUTF8 is the encoding of section 3 of RFC 3629, for every code point |
| JsonCppUnicode.PairValue | tools/jsoncpp/json_reader.cpp:714-724 | masks and shift on two units give the supplementary code point |
| EloopSpec.RunIsSafe | tools/wifi_wpa_cli/eloop.c:604-661 | over every run, whatever handlers register or cancel: no timeout fires early, none fires twice, fired deadlines never decrease, equal deadlines fire in registration order, and registered = fired + queued + cancelled as multisets; that due timeouts do fire is EloopSpec.NoStarvation |
| EloopSpec.RunKeeps | tools/wifi_wpa_cli/eloop.c:604-790 | the scheduler invariant behind it survives every run |
| EloopSpec.FireFires | tools/wifi_wpa_cli/eloop.c:947-962 | the check fires exactly the head of the queue, with its reading of the clock, if the queue is not empty and the head is due, leaves the rest, and otherwise fires nothing |
| EloopSpec.DueAllFire | tools/wifi_wpa_cli/eloop.c:912-962 | as many turns without handler calls as timeouts are due fire every one of them, in deadline order, and no other |
| EloopSpec.NoStarvation | tools/wifi_wpa_cli/eloop.c:912-962 | whatever handlers register, cancel or rearm meanwhile, a timeout that is due with n others in front of it has been fired or cancelled after n + 1 checks |
| EloopSpec.InsertOrdered | tools/wifi_wpa_cli/eloop.c:642-650 | inserting before the first later deadline keeps the queue ordered by deadline and registration |
| EloopSpec.RegisterAdds | tools/wifi_wpa_cli/eloop.c:604-652 | registering adds one timeout, due at the reading plus the request in microseconds, with an identity of its own, and touches no other |
| EloopSpec.KeptOrDropped | tools/wifi_wpa_cli/eloop.c:664-683 | cancelling splits the queue into exactly the matches, wildcards included, and the others |
| EloopSpec.CancelLeaves | tools/wifi_wpa_cli/eloop.c:664-683 | cancelling takes out exactly the timeouts of that handler whose data are given or left open |
| EloopSpec.CancelOneLeaves | tools/wifi_wpa_cli/eloop.c:686-710 | cancelling one takes out the first exact match and no other |
| EloopSpec.KeptOrdered | tools/wifi_wpa_cli/eloop.c:664-683 | the timeouts left by a cancellation keep their order |
| EloopSpec.RearmReplaces | tools/wifi_wpa_cli/eloop.c:729-790 | when deplete or replenish rearm, exactly one match remains and it is due at the requested time, the rest is kept and ordered; otherwise the queue is unchanged |
| EloopSpec.RequestCompares | tools/wifi_wpa_cli/eloop.c:729-790 | on the left of os_reltime_before the unnormalised request is compared as the duration it means, against every normalised time, exactly if its microseconds are below one million; on the right, exactly if they are at most one million |
| EloopSpec.RearmsRightlyIff | tools/wifi_wpa_cli/eloop.c:729-790 | in every state with a match, deplete rearms just when the request is nearer than the deadline if and only if its microseconds are below one million; replenish just when it is farther if and only if they are at most one million |
| EloopSpec.MovesRightlyIff | tools/wifi_wpa_cli/eloop.c:729-790 | in every state with a match, the deadline afterwards is the earlier (deplete) or later (replenish) of old deadline and request, if and only if the microseconds are at most one million |
| EloopSpec.DepletePostpones | tools/wifi_wpa_cli/eloop.c:729-758 | a state and a request on which deplete moves the deadline from one second to five |
| Eloop.EventLoop.RegisterTimeout | tools/wifi_wpa_cli/eloop.c:604-652 | on the circular list: the new node is linked before the first later deadline, and the queue is the specification's |
| Eloop.EventLoop.CancelTimeout | tools/wifi_wpa_cli/eloop.c:664-683 | on the circular list: exactly the matches are unlinked during the traversal, their number is returned, the others keep their order |
| Eloop.EventLoop.CancelTimeoutOne | tools/wifi_wpa_cli/eloop.c:686-710 | only the first exact match goes; the time it had left is reported, zero if overdue or absent |
| Eloop.EventLoop.IsRegistered | tools/wifi_wpa_cli/eloop.c:713-726 | true exactly if some queued timeout matches exactly, without wildcards |
| Eloop.EventLoop.Rearm | tools/wifi_wpa_cli/eloop.c:729-790 | both operations, with the three return values told apart by what the queue held |
| Eloop.EventLoop.FireDue | tools/wifi_wpa_cli/eloop.c:947-962 | a handler is called if and only if the queue is not empty and its head's deadline in microseconds is at most the reading's; it is the head's, which leaves the list first |
| Eloop.EventLoop.Wait | tools/wifi_wpa_cli/eloop.c:919-931 | select is left to sleep exactly up to the first deadline, not at all if it has passed, and for good without timeouts |
| Eloop.EventLoop.Handle | tools/wifi_wpa_cli/eloop.c:964-970 | any sequence of calls a handler makes moves the list as the specification moves the queue |
| Eloop.EventLoop.EventLoopRun | tools/wifi_wpa_cli/eloop.c:898-979 | the loop is a run of the transition system, so its safety carries over; the handlers it calls are, turn by turn, those of the heads that are due; it makes every turn up to the first before which termination was asked for, select failed with another error than EINTR, or nothing was left to wait for, and no other |
| Eloop.CalledIsFired | tools/wifi_wpa_cli/eloop.c:898-979 | the timeouts whose handlers are called are those the transition system fires, in order |
| Eloop.EventLoop.LinkTimeout | tools/wifi_wpa_cli/eloop.c:642-652 | the search and the splice, against insertion into the sequence |
| Eloop.RunConcat | tools/wifi_wpa_cli/eloop.c:898-979 | runs compose |
| EloopSignals.NoSignalLost | tools/wifi_wpa_cli/eloop.c:804-874 | main theorem: in every interleaving of deliveries with the single accesses of the pass and of registrations, the deliveries for an entry are on record after every step if and only if none comes between the reallocation and the assignment of a table that has moved, for an entry copied with nothing pending; on record means flag set, index still ahead, or handler about to be called |
| EloopSignals.NextKeeps | tools/wifi_wpa_cli/eloop.c:804-874 | the invariant behind it holds after every atomic step, those of a registration included |
| EloopSignals.RecordKept | tools/wifi_wpa_cli/eloop.c:804-874 | one step: what is on record stays on record exactly unless the step is such a delivery |
| EloopSignals.SearchStaysInside | tools/wifi_wpa_cli/eloop.c:804-874 | the handler's search of the table finds an entry before the end of the memory in every reachable state, even where signal_count is already raised and the table not yet assigned |
| EloopSignals.SettleHandles | tools/wifi_wpa_cli/eloop.c:829-874 | once deliveries stop, finitely many further steps finish the registration under way, reset every counter, call off the alarm, and call the handler of every pending signal that is on record and of no other |
| EloopSignals.TerminationMissed | tools/wifi_wpa_cli/eloop.c:855-884 | a run that misses one: SIGINT comes while SIGTERM is being registered, its handler is never called and the alarm is called off all the same |
| EloopSignals.AlarmCalledOff | tools/wifi_wpa_cli/eloop.c:804-852 | in every interleaving the alarm that kills the process is set exactly while a termination is pending, up to the access that forgets it, and is off when the main thread has nothing to do |
| EloopSignals.TerminationArms | tools/wifi_wpa_cli/eloop.c:806-817 | in every interleaving SIGINT and SIGTERM set it, but between the two accesses that call it off, and no other signal changes it |
| EloopSignals.SignalTable.HandleSignal | tools/wifi_wpa_cli/eloop.c:806-827 | wherever it interrupts the main thread: the first SIGINT or SIGTERM sets the alarm; the table search bumps the first entry for the signal and the flag, nothing else |
| DlList.Init | tools/wifi_wpa_cli/list.h:22-26 | an empty ring |
| DlList.Add | tools/wifi_wpa_cli/list.h:28-34 | splices a node behind any position of the ring; next and prev stay inverse |
| DlList.Del | tools/wifi_wpa_cli/list.h:41-47 | takes exactly that node out of the ring |
| DlList.Len | tools/wifi_wpa_cli/list.h:54-62 | the number of entries |
| RelTime.BeforeMicros | tools/wifi_wpa_cli/os.h:69-75 | on normalised times, os_reltime_before is the order of the microseconds meant |
| RelTime.Sub | tools/wifi_wpa_cli/os.h:77-86 | on normalised times the difference is normalised and exact |
| RelTime.Deadline | tools/wifi_wpa_cli/eloop.c:614-628 | adding a request of any size to a normalised time gives the normalised deadline, by the source's loop |
| Md5.Hash | tools/md5/md5.c:103-189 | for every way of cutting a message into update calls, the sixteen bytes are the digest of the concatenation, described byte by byte (Md5.DigestIs), by sections 3.1 to 3.5 of RFC 1321, if and only if no call wraps the 32-bit sum of the index and its length |
| Md5.Context.Update | tools/md5/md5.c:119-160 | whatever was absorbed before, the input is absorbed after it: state, buffered tail and two-word bit count together; this fails exactly if bytes are buffered and they and the input make 2^32 or more, because the loop test adds 63 in 32 bits |
| Md5.LargestDoesNotFit | tools/md5/md5.c:146 | an update that fails: the largest behind one byte, with the loop test still true at the end of the input |
| Md5.Context.Final | tools/md5/md5.c:165-187 | pads, appends the length, returns the digest of all that was absorbed, described byte by byte, and clears the context |
| Md5.PaddedIs | tools/md5/md5.c:165-187 | the padded message byte by byte: the message, 0x80, zeros, and eight bytes that read from the low end are its length in bits modulo 2^64; a whole number of blocks, and the fewest |
| Md5.DigestIs | tools/md5/md5.c:165-187 | sixteen bytes are the digest if and only if each group of four, read from its low end, is the word of the state that the compression leaves for such a padded message |
| Md5.InitialBytes | tools/md5/md5.c:103-117 | the state starts with the bytes of section 3.3 |
| Md5.PaddingShape | tools/md5/md5.c:165-187 | the padded message is a whole number of blocks, and the padding is the shortest that leaves room for the length |
| Md5.CountStep | tools/md5/md5.c:129-135 | the two 32-bit words with carry count bits modulo 2^64 exactly |
| Md5.CountIndex | tools/md5/md5.c:129-178 | the buffer index and the two length words can be read off the counter |
| Md5.BlocksWhole | tools/md5/md5.c:137-153 | the state depends on the whole blocks only |
| Md5.Encode | tools/md5/md5.c:286-299 | words to bytes, low-order byte first |
| Md5.Decode | tools/md5/md5.c:304-314 | bytes to words is the inverse of encoding, on every input |
| JsonCppStyled.StyledWriter.Write | tools/jsoncpp/json_writer.cpp:277-288 | the styled text, blanks and line breaks included, is the recursive layout of the value, despite the shared childValues_ list; its tokens are the value's, and erasing white space outside strings gives the fast text |
| JsonCppStyled.LayoutRenders | tools/jsoncpp/json_writer.cpp:291-402 | the layout stands for its value wherever it is put: tokens and white space, nothing else |
| JsonCppLayout.StyledIsSpread | tools/jsoncpp/json_writer.cpp:291-433 | the styled text is the fast one with blanks put in by a rule on single marks: members and the elements of long arrays begin a line with three blanks for each level, short arrays stay on one line, and an array is long if it has 25 elements, a container with something in it, or a line of 74 characters |
| JsonCppStyled.StyledWriter.WriteValue | tools/jsoncpp/json_writer.cpp:291-349 | in both modes: the layout at the current indentation goes to the document, or one text is appended to the list and the document is untouched; indentation is restored |
| JsonCppStyled.StyledWriter.WriteArrayValue | tools/jsoncpp/json_writer.cpp:352-402 | an array's text is its layout, whichever branch writes it |
| JsonCppStyled.StyledWriter.WriteLines | tools/jsoncpp/json_writer.cpp:360-386 | one element a line, indented one level deeper, whether the elements are taken from the list or written by recursion, which overwrites the list |
| JsonCppStyled.StyledWriter.WriteOneLine | tools/jsoncpp/json_writer.cpp:387-400 | all elements on one line between blanks, from the list alone |
| JsonCppStyled.StyledWriter.IsMultilineArray | tools/jsoncpp/json_writer.cpp:405-433 | decides exactly by the three rules (74 columns, 3 per element, nested containers); the list ends up empty or with the texts of exactly these elements, whatever it held before |
| JsonCppStyled.SpacedIsFast | tools/jsoncpp/json_writer.cpp:199-254 | any text made of a value's tokens and white space is the fast text once the white space is erased |
| JsonCppStyled.ConcatTokens | tools/jsoncpp/json_writer.cpp:208-254 | the fast text is the tokens with nothing between them |
| JsonCppStyled.TokensSolid | tools/jsoncpp/json_writer.cpp:112-173 | no token of a value contains erasable white space or runs into the next |
| JsonCppWriter.FastWriter.Write | tools/jsoncpp/json_writer.cpp:198-205 | the document built by appending is the value's text and a newline |
| JsonCppWriter.FastRenders | tools/jsoncpp/json_writer.cpp:208-254 | the fast text stands for its value wherever it is put |
| JsonCppWriter.ValueToQuotedString | tools/jsoncpp/json_writer.cpp:112-173 | the shortcut without escapes and the escaping loop give the same literal |
| JsonEscapes.JsonCppShortest | tools/jsoncpp/json_writer.cpp:112-173 | the literal spells the string as section 7 of RFC 8259 has it, and no spelling is shorter |
| JsonCppWriter.UintToString | tools/jsoncpp/json_writer.cpp:31-40 | digits written from the back are the decimal numeral |
| JsonCppReader.Reader.Parse | tools/jsoncpp/json_reader.cpp:151-192 | for every text the faults recorded and the value left are those of the grammar functions, of which JsonCppAccepts.ParsesExactly and JsonCppFaults.FaultExplained say what they are |
| JsonCppAccepts.ParsesExactly | tools/jsoncpp/json_reader.cpp:151-579 | main theorem on all texts: parse records no fault if and only if the text begins with tokens that derive from a lenient grammar given without the reader, and the value is what that grammar gives them; under strictRoot it is a container or null |
| JsonCppFaults.FaultExplained | tools/jsoncpp/json_reader.cpp:195-579 | main theorem on faults: whatever fault is recorded, the text is in order up to the token named, and the problem is the one that the table of places gives for such a token there |
| JsonCppFaults.FaultParsed | tools/jsoncpp/json_reader.cpp:195-579 | and wherever a text in order comes to a token with a problem, that is the fault recorded; what was read before it stays in the value, and reading resumes behind the closing bracket of each container around it |
| JsonCppFaults.RecoverFound | tools/jsoncpp/json_reader.cpp:774-788 | recovery stops behind the first token of the kind it looks for, or at the end |
| JsonCppFaults.WrongColon | tools/jsoncpp/json_reader.cpp:502-508 | any token but a colon behind a name is reported as a missing colon, at that token, for every name and token |
| JsonCppFaults.CommaForColon | tools/jsoncpp/json_reader.cpp:502-508 | an example: a comma behind the name |
| JsonCppProblems.ProblemIs | tools/jsoncpp/json_reader.cpp:658-757 | behind pieces of a literal that are in order, an escape that is none gives just the problem it has: empty, unknown letter, fewer than four digits, no hexadecimal digit, no room for a second unit, or no second unit |
| JsonCppProblems.ProblemFound | tools/jsoncpp/json_reader.cpp:658-757 | and no literal without terminator in it fails for another reason |
| JsonCppReader.Reader.ReadValue | tools/jsoncpp/json_reader.cpp:195-243 | value built, text left and error reported are the specification's; success changes no error, failure adds exactly one; the node stack is as before but for the value filled |
| JsonCppReader.Reader.ReadObject | tools/jsoncpp/json_reader.cpp:480-536 | the loop over members and its recovery follow the grammar functions on every text, so only a colon separates a name from its value (JsonCppFaults.WrongColon) |
| JsonCppReader.Reader.ReadArray | tools/jsoncpp/json_reader.cpp:539-579 | the same for arrays |
| JsonCppReader.Reader.ReadMember | tools/jsoncpp/json_reader.cpp:497-530 | one member: its decoded name up to a NUL finds or makes the place its value is stored in, also when the value is broken; what is no colon behind the name is reported at that token |
| JsonCppReader.Reader.ReadMemberValue | tools/jsoncpp/json_reader.cpp:513-516 | the child pushed for a member is read over the value already there and put back; nothing below it on the stack changes |
| JsonCppReader.Reader.ReadToken | tools/jsoncpp/json_reader.cpp:274-346 | for every text, exactly the lexeme at the cursor behind white space |
| JsonCppTokens.TokenIs | tools/jsoncpp/json_reader.cpp:274-476 | a text begins with a token of a kind if and only if it begins with a spelling of that kind, given without the reader: brackets, words, numbers as long as they go, literals up to their closing quote, comments up to their end |
| JsonCppReader.Reader.ReadString | tools/jsoncpp/json_reader.cpp:464-476 | stops behind the first unescaped quote, or at the end without success |
| JsonCppReader.Reader.ReadComment | tools/jsoncpp/json_reader.cpp:378-450 | block and line comments up to their ends, and failure on any other second character |
| JsonCppReader.Reader.Match | tools/jsoncpp/json_reader.cpp:363-374 | advances over the pattern exactly if it is there |
| JsonCppReader.Reader.DecodeNumber | tools/jsoncpp/json_reader.cpp:582-617 | value or error for every number token, with the overflow thresholds and the turn to double as the source has them |
| JsonCppReader.Reader.DecodeString | tools/jsoncpp/json_reader.cpp:658-702 | the decoded bytes, or the first error and its kind, for every token text |
| JsonCppReader.Reader.DecodeUnicodeCodePoint | tools/jsoncpp/json_reader.cpp:704-731 | one unit or a pair, with the source's four error cases |
| JsonCppReader.Reader.RecoverFromError | tools/jsoncpp/json_reader.cpp:774-788 | terminates, adds no error, and leaves the text behind the next such token |
| JsonCppGrammar.ValueRead | tools/jsoncpp/json_reader.cpp:195-243 | any text with a printable value's tokens, with any white space, is read as that value and leaves what follows, whatever value was there before |
| JsonCppGrammar.ReadValue | tools/jsoncpp/json_reader.cpp:195-243 | success takes something from the text; a failure names a token inside it; the message about a bad separator in an array is never given, for any text |
| JsonCppGrammar.ItemsRead | tools/jsoncpp/json_reader.cpp:539-579 | elements are read one by one in order, behind those already there |
| JsonCppGrammar.MembersRead | tools/jsoncpp/json_reader.cpp:480-536 | members in any order and with names twice are read one by one; each is stored where its name belongs, over one of the same name |
| JsonCppGrammar.AnySeparator | tools/jsoncpp/json_reader.cpp:563-570 | two or more elements are read as such if and only if what separates them is not the closing bracket: a colon, a name or an opening bracket is taken for a comma |
| JsonCppComments.DressedParsed | tools/jsoncpp/json_reader.cpp:151-192 | main theorem on documents of any depth with comments in any place and separators of any kind, numbers and error tokens included: they are accepted if and only if at every level no comment stands before a colon or in an empty array, none before a value unless allowed, each separator of an object is a comma or stands behind a comment, and one before a bracket comes only in an object after an empty name; then exactly the value is read |
| JsonCppComments.PartsRead | tools/jsoncpp/json_reader.cpp:539-579 | the same for the loop over elements, from any state of it |
| JsonCppComments.EntriesRead | tools/jsoncpp/json_reader.cpp:480-536 | the same for the loop over members, from any state of it |
| JsonCppComments.DocBehind | tools/jsoncpp/json_reader.cpp:247-261 | comments before a value are passed over where comments are allowed and make it fail where not |
| JsonCppComments.BlockComment | tools/jsoncpp/json_reader.cpp:427-435 | every block comment without its end mark inside is one token, whatever follows |
| JsonCppComments.LineComment | tools/jsoncpp/json_reader.cpp:440-449 | every line comment, ended by a newline or a carriage return, is one token, whatever follows |
| JsonCppComments.WholeStands | tools/jsoncpp/json_reader.cpp:274-346 | every token the writers write can be a separator that the theorem speaks of, numbers where none follows |
| JsonCppComments.OddStands | tools/jsoncpp/json_reader.cpp:274-346 | so can every character that starts no token: it is an error token |
| JsonCppComments.ColonBehindComment | tools/jsoncpp/json_reader.cpp:519-531 | a document with a colon between two members behind a comment is accepted |
| JsonCppComments.ColonAlone | tools/jsoncpp/json_reader.cpp:519-531 | the same document without the comment is not |
| JsonCppComments.OddBehindComment | tools/jsoncpp/json_reader.cpp:519-531 | with a character that is no token behind the comment instead, the document is accepted as well |
| JsonCppComments.TrailingComma | tools/jsoncpp/json_reader.cpp:488-496 | `{"":1,}` is accepted |
| JsonCppComments.CommentBeforeName | tools/jsoncpp/json_reader.cpp:488-496 | a comment before a name is accepted whatever the configuration |
| JsonCppComments.ColonArray | tools/jsoncpp/json_reader.cpp:539-579 | `[1:3]` as a document is parsed without error, as 1 and 3 |
| JsonCppLex.NextToken | tools/jsoncpp/json_reader.cpp:274-346 | the lexer finds a written token exactly where the writer put it |
| JsonCppLex.NumberReadsBack | tools/jsoncpp/json_reader.cpp:582-617 | an integer's text is read back as an integer if and only if it lies strictly within ten times the thresholds (-2147483639 to 4294967289), and as a double otherwise |
| JsonCppLex.NumberIs | tools/jsoncpp/json_reader.cpp:582-655 | what any number token is: digits, with or without a minus, are the integer they write as long as it is strictly within ten times the thresholds, unsigned above the signed range; all others are the real that sscanf takes them for, or no number |
| JsonCppLex.MinusAlone | tools/jsoncpp/json_reader.cpp:582-617 | of the number tokens that start with a minus and have no digit, the minus alone, and only it, is read as the integer 0 |
| JsonCppLex.AccumulateDecimal | tools/jsoncpp/json_reader.cpp:601-610 | the accumulation loop stops exactly at ten times the threshold |
| JsonCppLex.DecodeEscape | tools/jsoncpp/json_reader.cpp:658-702 | decoding undoes valueToQuotedString's escaping |
| JsonCppLex.StoreLast | tools/jsoncpp/json_reader.cpp:513-516 | a name behind all others is stored at the end |
| JsonCppOrder.StoreAllKeeps | tools/jsoncpp/json_reader.cpp:513-516 | whatever the order of the members and however often a name occurs, the object is in order, holds nothing else, and has for each name the value of its last member |
| JsonCppOrder.StoreAllInOrder | tools/jsoncpp/json_reader.cpp:513-516 | members in order stay as they are, so a written object keeps its order |
| JsonCppOrder.CanonInOrder | tools/jsoncpp/json_reader.cpp:480-536 | so what the reader leaves of a printable value is printable and in order at every depth |
| JsonCppRoundTrip.ReadBack | tools/jsoncpp/json_reader.cpp:151-261 | main theorem: a printable value written by either writer is read back as itself, with its members in order and the last of each name kept, up to the type of unsigned integers that fit the signed one; under strictRoot exactly containers and null are accepted |
| CrossWrite.WrittenParsed | tools/jsoncpp/json_writer.cpp:198-402 | cJSON_Parse reads what either writer of jsoncpp writes, to its end, as the same tree |
| CrossWrite.WriteAndParse | tools/jsoncpp/json_writer.cpp:198-402 | the two programs composed, with either writer |
| JsonCppRoundTrip.ParseSpaced | tools/jsoncpp/json_reader.cpp:151-192 | the same for any text that starts with the value's tokens: parse never looks at what follows the value |
| JsonCppRoundTrip.CanonIsStable | tools/jsoncpp/json_reader.cpp:611-617 | on values in order that change of type happens once and does not show in the text |
| BatchAllocator.Allocator.Allocate | tools/jsoncpp/json_batchallocator.h:53-77 | for any allocation size: never hands out a live slot, takes from the free list or at the position of the next bump, and keeps slots partitioned into live, free-listed and never used; inside its page if the size divides the page size |
| BatchAllocator.Allocator.Release | tools/jsoncpp/json_batchallocator.h:81-86 | the slot goes from live to the head of the free list, which stays acyclic |
| BatchAllocator.Allocator.NextBatch | tools/jsoncpp/json_batchallocator.h:61-73 | the search for a page with room always ends in a new page, because every page but the current one is full |
| BatchAllocator.Serve | tools/jsoncpp/json_batchallocator.h:53-86 | after every run of allocations and releases the slots held are exactly those the requests leave, pairwise different, and exactly the live ones of the allocator; all are inside their pages if the allocation size divides the page size |
| BatchAllocator.StaysInside | tools/jsoncpp/json_batchallocator.h:53-106 | every allocation of every run lies inside the memory of its page if and only if the allocation size divides the page size; otherwise the one whose number is the page size does not |
| BatchAllocator.AllocateMany | tools/jsoncpp/json_batchallocator.h:53-106 | the allocator itself, on any number of allocations beyond a page: all inside their memory if and only if the sizes divide |
| BatchAllocator.MarkStaysInside | tools/jsoncpp/json_batchallocator.h:61-76 | where they divide, the mark of a page is a multiple of the allocation size and never passes the end |
| BatchAllocator.MarkRunsOver | tools/jsoncpp/json_batchallocator.h:61-76 | where they do not, used_ never equals end_ again after the first page, so it grows without end |
| BatchAllocator.PairsRunOver | tools/jsoncpp/json_batchallocator.h:30-38 | a failing run: pairs on pages of the default 255 |
| BatchAllocator.Rethread | tools/jsoncpp/json_batchallocator.h:81-86 | writing the head into a released object extends the free list without a cycle |
| Nmea.ChunksDoNotMatter | tools/nmealib_for_bd/parser.c:120-269 | however long a stream is and however it is cut, queue, residual buffer and total consumed are the same, as long as no single push reaches the limit with what the ones before it left |
| Nmea.ChunksAreDrained | tools/nmealib_for_bd/parser.c:120-269 | they are what draining the whole stream gives, the buffer's old content in front |
| Nmea.ShortStream | tools/nmealib_for_bd/parser.c:120-269 | a stream shorter than the buffer has room however it is cut, and can be pushed in one piece |
| Nmea.PushSplit | tools/nmealib_for_bd/parser.c:120-269 | the two-chunk case, from any state |
| Nmea.PushFull | tools/nmealib_for_bd/parser.c:120-140 | a chunk that reaches the limit with what is buffered takes its place |
| Nmea.DrainConcat | tools/nmealib_for_bd/parser.c:142-267 | draining a + b is draining a, then what it left with b |
| Nmea.ScanStable | tools/nmealib_for_bd/parse.c:138-180 | a non-zero nmea_find_tail result never changes when bytes are added |
| Nmea.ScanChecked | tools/nmealib_for_bd/parse.c:138-180 | an accepted sentence ends in star, two digits, CR and LF within the bytes |
| Nmea.FrameFound | tools/nmealib_for_bd/parse.c:138-180 | a frame built by nmea_printf is found with its exact length and checksum if the checksum's sign bit is clear, and never found otherwise |
| Nmea.DigitsDecide | tools/nmealib_for_bd/parse.c:138-180 | whatever two hexadecimal digits follow the star: the sentence is accepted if and only if they are its checksum, with the sign bit clear, and otherwise skipped as a whole |
| Nmea.OddDigits | tools/nmealib_for_bd/parse.c:138-180 | and whatever else strtol takes there: blanks, signs, one digit or none |
| Nmea.WrongDigitsSkipped | tools/nmealib_for_bd/parser.c:142-267 | a sentence with wrong digits adds nothing, and what follows is read as if it had not been there |
| Nmea.FrameCut | tools/nmealib_for_bd/tok.c:82-112 | a frame cut by one byte, as an exact fit leaves it, is never found and holds up the parser whatever follows |
| Nmea.CrcSign | tools/nmealib_for_bd/tok.c:30-39 | that bit is clear exactly if the number of non-ASCII payload bytes is even, so always for 7-bit payloads |
| Nmea.CrcBits | tools/nmealib_for_bd/tok.c:30-39 | every bit of the checksum is the parity of that bit over the bytes |
| Nmea.GarbageSkipped | tools/nmealib_for_bd/parser.c:142-267 | preceding bytes without a star are skipped exactly up to the frame; which packet it gives is Nmea.FrameQueued |
| Nmea.FrameQueued | tools/nmealib_for_bd/parser.c:142-267 | behind any bytes without a star, a frame with the sign bit of its checksum clear adds the packet the decoder makes of it if its five letters are GPRMC or GNRMC, of just that kind, and nothing if they are others or the decoder gives none; then the rest is read |
| NmeaParser.Parser.RealPush | tools/nmealib_for_bd/parser.c:120-269 | the buffer and the linked queue change as the specification says, and the consumed count is returned; if the bytes are some without a star, a frame and a rest, the queue has grown by exactly the packet of that frame's five letters, if any, and those of the rest |
| NmeaParser.Parser.ParseLoop | tools/nmealib_for_bd/parser.c:142-267 | terminates and consumes exactly what draining consumes |
| NmeaParser.Parser.Pop | tools/nmealib_for_bd/parser.c:328-349 | takes the oldest packet, and empties both ends with the last |
| NmeaParser.Parser.QueueClear | tools/nmealib_for_bd/parser.c:410-416 | empties the queue |
| NmeaParser.FindTailAt | tools/nmealib_for_bd/parse.c:138-180 | the scanning loop gives length and checksum of the specification for every buffer |
| NmeaParser.CalcCrc | tools/nmealib_for_bd/tok.c:30-39 | the exclusive or of all bytes |
| NmeaParser.Printf | tools/nmealib_for_bd/tok.c:82-112 | frame and length if there is room; blanks if too long, or longer than an int; on an exact fit the full length is returned although the last byte is cut; and bytes behind a buffer that is not empty are written if and only if the payload alone is longer than it: those that the second snprintf, started there with a size that has wrapped, takes for the tail |
| NmeaParser.Snprintf | tools/nmealib_for_bd/tok.c:92-98 | writes as much of a text as the size it is given allows, and says whether all of it lies inside the buffer |
| Codecs.PrintfRoundTrip | tools/wifi_wpa_cli/common.c:446-574 | for every byte sequence and buffer sizes of at least one, decoding the encoded text gives a prefix of the data, and all of it if maxlen exceeds four times the length |
| Codecs.DecodeEncode | tools/wifi_wpa_cli/common.c:495-574 | decoding into a buffer of a given size gives back as many bytes as it holds |
| Codecs.PrintfEncode | tools/wifi_wpa_cli/common.c:446-492 | stays inside the buffer, always terminates it, and encodes exactly the bytes that fit with five characters of room each |
| CodecPieces.EncodedPlain | tools/wifi_wpa_cli/common.c:446-492 | what is encoded stands for itself if and only if it is printable without quotes and backslashes |
| CodecPieces.EncodedPrintable | tools/wifi_wpa_cli/common.c:446-492 | and is printable in any case |
| CodecPieces.EncodedIs | tools/wifi_wpa_cli/common.c:446-492 | byte by byte: printable bytes stand for themselves but for those that have a letter, and all others are two lower-case hexadecimal digits |
| Codecs.PrintfDecode | tools/wifi_wpa_cli/common.c:495-574 | stays inside the buffer and gives the bytes of the specification for every text, ill-formed escapes included |
| CodecPieces.PiecesDecoded | tools/wifi_wpa_cli/common.c:495-574 | every text is made of plain characters and escapes (CodecPieces.Pieces): given room, it is decoded to what they mean, letters by the table, one or two hexadecimal and one to three octal digits by their number modulo 256, others not at all |
| CodecPieces.Pieces | tools/wifi_wpa_cli/common.c:495-574 | every text is made of them, digits going on as far as they can |
| CodecPieces.DecodeCut | tools/wifi_wpa_cli/common.c:495-574 | a smaller buffer holds the beginning of what a larger one holds, as far as it has room |
| CodecPieces.OctalA | tools/wifi_wpa_cli/common.c:546-560 | an octal escape that the encoder never writes |
| Codecs.Utf8RoundTrip | tools/wifi_wpa_cli/common.c:987-1070 | given room, utf8_unescape of utf8_escape gives the data back on non-empty input |
| Codecs.Utf8Escape | tools/wifi_wpa_cli/common.c:1034-1070 | the escaped text if it fits, 0 otherwise, never beyond the buffer |
| CodecPieces.EscapeIsLeast | tools/wifi_wpa_cli/common.c:1034-1070 | backslashes are put in before quotes and backslashes, and nowhere else |
| Codecs.Utf8Unescape | tools/wifi_wpa_cli/common.c:987-1031 | the unescaped text if it fits, 0 otherwise, for every input, quoted or not |
| CodecPieces.Unescaped | tools/wifi_wpa_cli/common.c:987-1031 | what any text is unescaped to, up to a bare quote or its end, and exactly when there is no room or a backslash stands alone |
| CodecPieces.InputUnescaped | tools/wifi_wpa_cli/common.c:987-1031 | the same of the whole input: so many bytes of it or its C string, with a quote in front skipped |
| HistorySpec.HistoryIsRecent | tools/wifi_wpa_cli/edit.c:176-212 | after any sequence of history_add calls the list is the 100 most recently used distinct non-empty lines, newest first |
| HistorySpec.MostRecentFirstUnique | tools/wifi_wpa_cli/edit.c:176-212 | that description determines the list |
| HistorySpec.BackAndForth | tools/wifi_wpa_cli/edit.c:224-268 | from the head with nothing saved, k steps back and k forward restore the edited line for every k, if and only if the line has no NUL (k > 0) |
| HistorySpec.PrevReaches | tools/wifi_wpa_cli/edit.c:224-247 | k steps back select entry k - 1, or the oldest |
| HistorySpec.AddTake | tools/wifi_wpa_cli/edit.c:188-211 | bounding the list first or last makes no difference |
| EditorSpec.StepsRestore | tools/wifi_wpa_cli/edit.c:1004-1119 | from any clean editor, after every sequence of keys, on the newest entry with nothing saved, k steps back and k steps forward restore the line being edited and the rest of the history, for every k |
| EditorSpec.PressKeeps | tools/wifi_wpa_cli/edit.c:108-361 | no key puts a NUL into a text or lets it outgrow its buffer |
| EditorKeys.KeysDelete | tools/wifi_wpa_cli/edit.c:108-174 | which characters each deleting key takes out of the line, position by position, and where the cursor is then |
| EditorKeys.KeyInserts | tools/wifi_wpa_cli/edit.c:327-343 | a character goes in at the cursor, unless the buffer is full; all others stay |
| EditorKeys.KeysMove | tools/wifi_wpa_cli/edit.c:56-106 | where each moving key puts the cursor: the ends, one position, the word before or behind; the line stays |
| EditorKeys.WordsAreOne | tools/wifi_wpa_cli/edit.c:88-149 | there is only one such word on either side |
| EditorKeys.KeyEnters | tools/wifi_wpa_cli/edit.c:346-362 | enter makes the line the newest entry and begins an empty one |
| EditorKeys.KeyCompletes | tools/wifi_wpa_cli/edit.c:426-488 | what replaces the word before the cursor, and when nothing does |
| EditorKeys.FittingIs | tools/wifi_wpa_cli/edit.c:376-394 | the candidates kept are, in their order, those that begin with the word but for the case of the letters |
| EditorKeys.KeySearches | tools/wifi_wpa_cli/edit.c:915-927 | a search puts the line it found in the place of the one being edited, the cursor behind it |
| EditorSpec.LoadedIsRecent | tools/wifi_wpa_cli/edit.c:271-291 | edit_init with a history file leaves the hundred most recent distinct lines of the file, and nothing to edit |
| EditorSpec.LinesRead | tools/wifi_wpa_cli/edit.c:271-291 | which lines those are: the file is pieces that end in a newline, fill the buffer or end the file, each read up to its first terminator or line end |
| EditorSpec.FilePieces | tools/wifi_wpa_cli/edit.c:271-291 | every file is made of such pieces |
| EditorSpec.CommonIsLongest | tools/wifi_wpa_cli/edit.c:397-418 | the length computed for the candidates is that of the longest text all of them begin with |
| History.LineEditor.HistoryAdd | tools/wifi_wpa_cli/edit.c:176-212 | on the linked list: an equal line is moved to the front, a new one put there, the 101st dropped |
| History.LineEditor.HistoryPrev | tools/wifi_wpa_cli/edit.c:224-247 | saves the edited line once, moves the cursor and loads the entry |
| History.LineEditor.HistoryNext | tools/wifi_wpa_cli/edit.c:250-268 | moves towards the newest entry and then restores the saved line up to its first NUL |
| History.LineEditor.HistoryUse | tools/wifi_wpa_cli/edit.c:215-221 | loads the selected entry into the line buffer with its length |
| History.Session | tools/wifi_wpa_cli/edit.c:1004-1142 | for every history file and every sequence of keys the buffers and the linked list end up as the specification says, so what is proved of it holds of them |
| History.LineEditor.PressKeys | tools/wifi_wpa_cli/edit.c:1004-1119 | the same from any state of the editor |
| History.LineEditor.HistoryRead | tools/wifi_wpa_cli/edit.c:271-291 | the lines that fgets, the cut at the end of a line and history_add make of a file |
| History.LineEditor.PressKey | tools/wifi_wpa_cli/edit.c:1004-1119 | one key: line, cursor, list, selection and saved line change as specified, by shifting and copying in the buffers |
| History.LineEditor.InsertChar | tools/wifi_wpa_cli/edit.c:327-343 | one character at the cursor, unless the buffer is full |
| History.LineEditor.EraseLeft | tools/wifi_wpa_cli/edit.c:108-119 | exactly the character before the cursor goes |
| History.LineEditor.EraseWord | tools/wifi_wpa_cli/edit.c:135-149 | exactly the blanks before the cursor and the word before them go |
| History.LineEditor.CompleteWord | tools/wifi_wpa_cli/edit.c:376-488 | the candidates that match the word before the cursor without regard to case are kept, and it is completed by what they have in common, as far as there is room, with a blank behind a single one |
| History.FilterStrings | tools/wifi_wpa_cli/edit.c:376-394 | in place: what matches moves to the front, in the same order |
| History.MaxCommonLength | tools/wifi_wpa_cli/edit.c:397-418 | the loops give the common length of the specification |

## Left out

- Floating point: cJSON numbers are mantissa and exponent and only integers are printed; jsoncpp keeps the
  text of a real, and which texts sscanf takes for a double is a parameter of the reader.
- CJsonParse.ParseText: a unicode escape whose four characters run over a quote, a backslash or the terminator
  gives an outcome of its own (`Malformed`, `Cut`), because the two passes of parse_string come apart there and
  the second may leave the buffer; likewise `PastEnd` for what the minifier would read behind the terminator.
- CJsonParse.ParseStringAt: the same for the string itself.
- CJsonParse.ParseValueAt: the same for strings inside values.
- CJsonParse.ParseArrayAt: the same for strings inside elements.
- CJsonParse.ParseObjectAt: the same for names and values.
- cJSON reference items, lookup of members by name, item deletion and the array constructors.
- Allocation failure, everywhere.
- CJsonTree.AddItemToArray: an item that is in this list already, or whose next links run in a circle.
- CJsonParse.ParseNumberAt: gives mantissa and decimal exponent instead of the double that pow makes of them.
- CJsonPrint.PrintNumber: only numbers that are ints, not the formats for doubles.
- CJsonTree.Duplicate: an item's own type, numbers and strings are immutable data here, so the copying of
  strings is not modelled, only that of the links.
- Value of jsoncpp: value.h is not part of this model; arrays are dense, objects are lists ordered by
  name as strcmp orders them, comments are not kept.
- JsonCppReader.Reader.ReadValue: the stack holds values instead of pointers into the root, so a child is put
  back into its parent when it leaves the stack.
- JsonCppReader.Reader.Parse: comment collection and the formatting of error messages with line and column;
  the secondary location of an error is dropped.
- JsonCppWriter.FastWriter.Write: the YAML flag, comments, and the text of reals, which is taken as given;
  integers are unbounded, so negating the smallest int does not overflow.
- JsonCppStyled.StyledWriter.Write: comments, and the text of reals, which is taken as given.
- JsonCppReader.Reader.ReadComment: the branch that collects comments.
- JsonCppReader.Reader.DecodeNumber: which texts sscanf takes for a double, and the double itself.
- StyledStreamWriter, which repeats StyledWriter for streams.
- eloop: the poll and epoll variants, the handler of the alarm itself, the select call itself (its outcome comes with each turn), the
  socket tables, tracing; os_time_t is wide enough, so the overflow check of eloop_register_timeout never
  fires; clock readings are inputs that only have to be monotone.
- EloopSignals.NoSignalLost: counters are unbounded, each access is atomic, and a delivery that goes to the old
  table is only said to be missed, not what it does to memory that has been freed.
- Md5.Hash: the compression function is a parameter, so the rounds of section 3.4 are not modelled.
- Md5.Context.Update: where the loop test wraps, only that it does is said, not what is read then.
- Nmea.ChunksDoNotMatter: the field decoders of RMC sentences are a parameter; checksums are kept as the
  low byte of the C int with its sign.
- nmea_parser_push with a chunk longer than the buffer, and nmea_scanf.
- NmeaParser.Printf: starts from the formatted payload; size_t has 32 bits, and what lies behind the buffer shows
  only in the checksum that is passed in.
- Codecs.PrintfDecode: works on the whole string instead of a pointer, and octal and hexadecimal digits are read as in
  the source.
- History.LineEditor.HistoryAdd: takes lines shorter than 4096 bytes, which is all that its two callers have
  (`edit.c:271-291` reads them with that limit, `edit.c:346-362` takes them from the buffer of that size).
- History.LineEditor.PressKey: terminal drawing, the decoding of key codes, writing the history file, which entry
  a search finds, and the words that the completion callback offers, which are inputs.
- Near copies of modelled code (nmealib_for_gps, gps_ubx_nmea_bak), and the plumbing around sockets, routes, video
  and user interface.
