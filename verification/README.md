# A verified model of the ESB proxy and its Redis client

The ESB is a service bus: nodes register methods with proxies, proxies find each other through Redis and pass calls
and responses along. This project models the parts of it where most of the state, branching and arithmetic is, and
proves what they promise, for all inputs and all runs:

- **The incremental reply reader and the command formatters** of the vendored Redis client. The reader is a machine
  with a stack of nine tasks that can stop at any byte. It is proved to refine a recursive one-shot parser of the Redis
  serialization protocol (`Resp`, sections "Simple strings", "Simple errors", "Integers", "Bulk strings" and "Arrays"
  of its specification), and the parser to read exactly the wire forms a grammar gives (`RespGrammar`, `RespExact`).
  `ReplyArena` is the heap of half-built replies, `ReaderSim` relates the machine to the parser,
  `Reader` is the machine, `ReaderRuns` its runs, and `ReaderWhole` shows that it consumes every byte; `Format` and
  `Decimal` are the formatters, `CommandGrammar` the bytes they are to write, `FormatWords` what format strings mean,
  `RespEncode` the inverse of the parser.
- **The asynchronous callback engine**. `AsyncModel` says what it is meant to do, on the replies of the one-shot parser;
  `AsyncLaws`, `AsyncEnds` and `AsyncHalts` prove what follows, when a context is torn down and why, and when an assert
  fails; `Async`, with the queue of `CallbackList`
  and the incremental reader, is the engine, proved to do what the model does; `AsyncRuns` are its runs. Callbacks are
  adversarial: what the n-th invocation does is an arbitrary script of commands, disconnects and frees.
- **The chained hash table** against a finite map (`Dict`, `DictRehash`, `DictTable`, `DictRuns`) and its iterator
  (`DictIterator`). Entries live in an explicit memory, so rewiring, freeing and dangling pointers mean what they mean
  in C.
- **The dynamic strings** against byte sequences (`Sds`), with splitting (`SdsSplit`), quoting, argument splitting and
  decimal conversion (`SdsQuote`, `SdsLine`).
- **The proxy**: its handlers on their own state (`ProxyCore`, `Registry`, `Proxy`), what every message and the
  periodic work do to it as a whole (`ProxyModel`), what it publishes (`ProxyPackets`), the accounts of calls and of
  registered methods that follow for every run (`ProxyLaws`, `ProxyTables`, `ProxyRuns`);
  a network of proxies and nodes that exchange calls and responses (`Network`, `NetworkProofs`, `NetworkRuns`,
  `NetworkDelivery`), shown to be what whole proxies do together (`NetworkSystem`); and the exchange of registries
  between proxies (`RegistryNet`). Packets may be lost, delayed and reordered, not duplicated; registries may change
  at any time.
- **The message codec and the framing** (`Wire`, `Codec`, `CodecRoundTrip`, `CodecWriter`, `CodecLayout`, `Framing`), with the wire
  primitives of the Protocol Buffers Encoding guide, sections "Base 128 Varints", "Length-Delimited Records" and "Last One Wins".

Verify everything with `dafny verify dfyconfig.toml`.

## Where the code does not do what it is meant to do

- The clean disconnect asserts that no callback is pending, but its guard only looks at the output buffer
  (`src/deps/hiredis/async.c:402`, `:320`). `AsyncHalts.ReadFailsIff` states exactly when a read makes it fail, in
  every state of a context in service and for all bytes, and `DisconnectingFailsIff` and `ReadDisconnectsIff` say so in
  closed form; `AsyncRuns.DisconnectWhilePending` is a run that does; `AsyncHalts.RunCalm` shows that without a disconnect, and
  without more replies than commands, no assert ever fails.
- The comment above `sdssplitargs` promises that it reads back what `sdscatrepr` writes. It does not decode the
  hexadecimal escapes `sdscatrepr` writes: `SdsQuote.QuoteUnquote` gives the exact condition.
- `sdssplitlen` undoes joining except for lists that are not cut cleanly, such as xa, y with separator aa, and the list
  of one empty token: `SdsSplit.SplitJoined`, `SdsSplit.CutEarly`.
- A topic that contains a tab is cut in the wrong place by the subscriber: `Framing.FramingExact`.
- An array header with a count below -1 creates an array object with a meaningless size; the model keeps it as a reply
  of its own, `Hollow`.

## Model

| member | source | states |
|---|---|---|
| ReaderRuns.Run | src/deps/hiredis/hiredis.c:585-665 | Chunking independence: for every byte stream, every way of cutting it into feeds and every interleaving of attempts to get a reply, the replies handed out and the final error are those of the one-shot recursive parser on the whole stream; what is left unread is an end of the stream, and nothing when the stream ends where a reply ends They are also those of the grammar RespGrammar, which says the wire forms byte by byte and without a parser |
| ReaderRuns.ReadCommand | src/deps/hiredis/hiredis.c:939-971 | Formatter/reader inverse: a formatted command, cut up in any way, is read back as one array of exactly its arguments, whatever bytes they hold, with no error and no byte left unread |
| ReaderRuns.ReadNilArray | src/deps/hiredis/hiredis.c:460-462 | The nil array, * -1 CR LF, in any pieces, is one nil reply with no byte left |
| ReaderWhole.NothingUnread | src/deps/hiredis/hiredis.c:617-665 | A reader that has handed out all replies of a stream that ends with a reply has consumed every byte of it |
| ReaderRuns.StackShape | src/deps/hiredis/hiredis.c:330-353 | In every state a caller can observe, -1 <= ridx <= 8; every slot below the top is an array whose elements are filled left to right, exactly up to its successor's index; and all bytes fed are the bytes consumed followed by the unread part of the buffer |
| ReaderRuns.SlotShape | src/deps/hiredis/hiredis.c:442-505 | A slot below the top: its object is an array of the announced size, its successor's parent is this slot, exactly the elements before the successor's index are set, and the successor's own object is the next element |
| ReaderRuns.Drain | src/deps/hiredis/hiredis.c:617-665 | Asking for replies until there are none leaves exactly the replies and the error of the one-shot parser on all bytes fed so far |
| Reader.Reader.Feed | src/deps/hiredis/hiredis.c:585-615 | Feeding appends to the unread bytes and to nothing else, across replacing a large idle buffer and growing it; a reader in error refuses without changing its error or its replies |
| Reader.Reader.Store | src/deps/hiredis/hiredis.c:592-612 | The unread bytes afterwards are the unread bytes before followed by the new ones |
| Reader.Reader.GetReply | src/deps/hiredis/hiredis.c:617-665 | A reply is handed out exactly once and equals the next reply of the stream; without one, the stream so far holds no further reply; with an error, everything before it has been handed out; every reply consumes input, so asking again and again ends |
| Reader.Reader.ProcessItems | src/deps/hiredis/hiredis.c:636-645 | The item loop ends with a fault, with a whole reply after consuming input, or starved in the middle of one |
| Reader.Reader.Compact | src/deps/hiredis/hiredis.c:648-656 | Dropping 1024 or more consumed bytes through sdsrange leaves the unread bytes as they were |
| Reader.Reader.ProcessItem | src/deps/hiredis/hiredis.c:507-554 | One item: it is completed and consumes input, or the reader starves with its state intact, or it faults exactly as the one-shot parser does |
| Reader.Reader.ReadType | src/deps/hiredis/hiredis.c:510-535 | The type byte selects the kind of item; an unknown byte is the fault the one-shot parser reports |
| Reader.Reader.ProcessLineItem | src/deps/hiredis/hiredis.c:355-387 | Status, error and integer lines become the object the one-shot parser yields, or the reader waits for the end of the line |
| Reader.Reader.ProcessBulkItem | src/deps/hiredis/hiredis.c:389-440 | A bulk string is taken whole, by length, with its two trailing bytes unchecked; a negative length is nil; too few bytes leave the reader where it was |
| Reader.Reader.ProcessMultiBulkItem | src/deps/hiredis/hiredis.c:442-505 | Array headers: too deep, nil, empty, of a meaningless negative size, or opening a new level, each as the one-shot parser reads them |
| Reader.Reader.OpenArray | src/deps/hiredis/hiredis.c:474-494 | The new level's slot points back at its parent and the reader goes on as the one-shot parser inside that array |
| Reader.Reader.PushTask | src/deps/hiredis/hiredis.c:480-488 | Opening a level keeps the chain of half-filled arrays and adds one empty array to it |
| Reader.Reader.MoveToNextTask | src/deps/hiredis/hiredis.c:330-353 | After an item, finished arrays are closed upwards and the first unfinished one advances by one; the stack invariant and the position in the stream are kept, and only a finished root leaves the stack empty |
| Reader.Reader.Create | src/deps/hiredis/hiredis.c:97-184 | A new object is stored in its parent's next free element, so the parent is an array with room; replies handed out before are untouched |
| Reader.Reader.SetError | src/deps/hiredis/hiredis.c:186-210 | After a fault the buffer is gone, the stack is reset and the fault stays |
| Reader.SeekNewline | src/deps/hiredis/hiredis.c:260-286 | The first position of CR LF, or none; the search never runs past the terminating NUL |
| Reader.ReadLongLong | src/deps/hiredis/hiredis.c:288-313 | The signed decimal value of the text before the CR, and -1 as soon as a byte is no digit |
| Reader.Reader.EmittedIsPrefix | src/deps/hiredis/hiredis.c:617-665 | At any time the replies handed out are a prefix of those in the bytes fed |
| Resp.ResumeOpens | src/deps/hiredis/hiredis.c:442-505 | A machine inside nested half-filled arrays that opens another one resumes exactly where the recursive parser would be |
| Resp.PlugContinues | src/deps/hiredis/hiredis.c:330-353 | Filling an element of an unfinished array and going on with the next is what the recursive parser does |
| Resp.ParseExtend | src/deps/hiredis/hiredis.c:507-554 | An item, arrays included, that is complete or already wrong stays what it is whatever bytes follow |
| Resp.ParseAllExtend | src/deps/hiredis/hiredis.c:617-665 | More input never changes the replies of a stream, and a fault stays its end |
| RespExact.ParseExact | src/deps/hiredis/hiredis.c:355-505 | A reply is read from some bytes, whatever follows, if and only if they are a wire form of it: the literal type byte, the line, the number, any two bytes behind a bulk string, both nils, arrays at most eight deep |
| RespExact.FaultExact | src/deps/hiredis/hiredis.c:442-535 | A fault is met if and only if one stands there: a byte that is none of $ * + - :, or an array header at the ninth level, at once or inside an array that is sound up to it |
| RespExact.StreamExact | src/deps/hiredis/hiredis.c:617-665 | The one-shot parser gives some replies and a fault if and only if the bytes are the wire forms of these replies, one after the other, and then that fault, or neither a whole reply nor a fault |
| RespExact.NilForms | src/deps/hiredis/hiredis.c:460-462 | The five literal bytes of either nil parse to nil, whatever follows and at every depth |
| RespEncode.ParseEncode | src/deps/hiredis/hiredis.c:507-554 | Parsing undoes encoding for every reply that can be encoded, nested arrays included, and stops exactly behind it |
| RespEncode.StreamRoundTrip | src/deps/hiredis/hiredis.c:617-665 | A pipeline of encoded replies parses to exactly those replies, without an error |
| ReplyArena.ChainCloses | src/deps/hiredis/hiredis.c:342-347 | A filled array is a complete object that stands for the list of its elements |
| ReplyArena.ChainAdvances | src/deps/hiredis/hiredis.c:348-352 | Advancing an unfinished array keeps every level of the stack as it was |
| ReplyArena.AttachKeepsChain | src/deps/hiredis/hiredis.c:121-126 | Storing a new object in the innermost array disturbs no other level |
| Format.FormatCommandArgv | src/deps/hiredis/hiredis.c:939-971 | The buffer is allocated for the computed length, filled to exactly that length and terminated; its bytes are the command for the given arguments; they have the literal wire form CommandGrammar.IsCommand, for arguments of the given lengths or up to their first zero byte |
| Format.FormatCommand | src/deps/hiredis/hiredis.c:686-923 | On formats of literals, %s, %b and %%, the bytes are those of the argument-vector formatter on the space-separated words of the format, and the length computed in advance is met exactly; the bytes have the literal wire form CommandGrammar.IsCommand |
| Format.ValuesDoNotSplit | src/deps/hiredis/hiredis.c:720-749 | A space inside an interpolated value never splits an argument: the format alone decides how many there are |
| Format.CollectArguments | src/deps/hiredis/hiredis.c:700-858 | The scan yields exactly the words of the format with its values put in, and the exact length of their bulk encodings |
| FormatWords.FormatMeans | src/deps/hiredis/hiredis.c:686-858 | A format built of words of letters, %s, %b and %%, with blanks between them, has exactly those words as arguments, the values put in and the empty words left out |
| FormatWords.FormatLine | src/deps/hiredis/hiredis.c:686-923 | Through the formatter: such a format gives the literal wire form of the command with these arguments |
| Format.Build | src/deps/hiredis/hiredis.c:865-893 | The second half of both formatters fills the buffer with the command and ends exactly at the length computed, which has the literal wire form: * and the count, then for each argument $, its length, CR LF, its bytes, CR LF |
| Format.CommandExact | src/deps/hiredis/hiredis.c:865-893 | Some bytes have the literal wire form of a command with these arguments if and only if they are what the formatters write |
| Format.BulkLen | src/deps/hiredis/hiredis.c:682-684 | The length of a bulk argument of that size, prefix and trailers included |
| Format.CommandReadsBack | src/deps/hiredis/hiredis.c:939-971 | What a formatter writes parses to one array of exactly the arguments and no other byte |
| Decimal.IntLen | src/deps/hiredis/hiredis.c:668-680 | The number of characters sprintf writes for an integer |
| Decimal.NumberOfIntDec | src/deps/hiredis/hiredis.c:288-313 | Reading a decimal numeral undoes writing it, for every integer |
| Decimal.NumeralExact | src/deps/hiredis/hiredis.c:668-680 | Every integer has exactly one numeral, digits of its value without a leading zero, and that is what is written |
| Decimal.NumberExact | src/deps/hiredis/hiredis.c:288-313 | Any text is read as it should be: a sign or none, then the value of its digits up to a CR or the end, and -1 when another byte stands among them |
| AsyncRuns.Run | src/deps/hiredis/async.c:392-471 | Over every run with arbitrary re-entrant callbacks, calls, reads and partial writes: the engine does exactly what the model over the one-shot parser does; all events are handled unless the context is torn down or an assert fails, and the bytes received are theirs; dispatched callbacks are a prefix of those issued, the i-th gets the i-th reply of these bytes, in service every reply has been dispatched, after teardown each accepted command's callback has been dispatched once, with its reply or NULL; bytes written followed by the output buffer are the accepted commands in order; the accepted commands are those before the first disconnect or free among the calls and what the dispatched callbacks did; and an assert fails only after a disconnect or with more replies than commands. Nothing is handled after end of file, a failed read or write, or a free, and the context is gone then; a context still in service after a read has met no fault and, if anybody has disconnected, has something left to write; and a context that is gone has a reason: one of those events, a disconnect or free by somebody, a fault, or an error in reply to nothing |
| AsyncHalts.ReadFailsIff | src/deps/hiredis/async.c:400-462 | The exact condition, before the event, for every context in service and all bytes: a read fails an assert if and only if, walking the queued callbacks along the replies it brings, none frees and either the replies and the stream end with a disconnect under way, nothing left to write and callbacks waiting, or the queue ends first and the next reply is no error |
| AsyncHalts.DisconnectingFailsIff | src/deps/hiredis/async.c:400-446 | In closed form for every disconnecting context: no callback met by the read frees, and the read brings fewer replies than callbacks are pending with nothing left to write and no fault, or more, the first one too many being no error |
| AsyncHalts.ReadDisconnectsIff | src/deps/hiredis/async.c:392-471 | In closed form when the j-th callback of the read is the one that disconnects, for every j and whatever commands it and those before it issue: these lengthen the queue and what is left to write |
| AsyncRuns.ReadOrFail | src/deps/hiredis/async.c:495-514 | The engine itself halts in a read exactly when the condition of AsyncHalts.ReadFailsIff holds of its queue, script and replies |
| AsyncRuns.ReadWhileDisconnecting | src/deps/hiredis/async.c:495-514 | A disconnecting engine halts in a read exactly when the closed form holds |
| AsyncRuns.DisconnectWhilePending | src/deps/hiredis/async.c:312-336 | The assert of the clean disconnect does fail: the run with two commands written, one reply, and a callback that disconnects ends halted |
| AsyncHalts.RunCalm | src/deps/hiredis/async.c:392-471 | Without a disconnect by anybody, an assert fails only when more replies arrive than there were commands |
| AsyncRuns.Handle | src/deps/hiredis/async.c:495-543 | Every event takes the engine to the state the model says, bytes received and replies obtained included |
| AsyncEnds.StepCloses | src/deps/hiredis/async.c:256-298 | End of file, a failed read or write and a free tear the context down: every pending callback is dispatched in order with NULL, and nothing is accepted or written |
| AsyncEnds.StepStays | src/deps/hiredis/async.c:400-406 | What it takes to be in service after an event: none of those, no free, callbacks pending at a disconnect from outside, and after a read no fault and, when disconnecting, something left to write |
| AsyncEnds.StepExplained | src/deps/hiredis/async.c:256-343 | A context goes for a reason only: one of those events, a disconnect or free by somebody, a fault in the stream, or an error reply that nobody waits for |
| AsyncEnds.RunEndsRight | src/deps/hiredis/async.c:392-543 | All of that in every run |
| AsyncLaws.RunKeeps | src/deps/hiredis/async.c:392-471 | The invariant holds after every run: issued = dispatched + pending, written + buffered = all commands, replies matched in order, each dispatched callback with a function run once, and in service no reply left to obtain |
| AsyncLaws.RunGiven | src/deps/hiredis/async.c:495-543 | A run has received the bytes and the calls of exactly the events it handled, in order |
| AsyncLaws.DrainKeeps | src/deps/hiredis/async.c:256-298 | Teardown dispatches every pending callback with NULL and accepts no command |
| AsyncLaws.ActsHonest | src/deps/hiredis/async.c:562-624 | A callback's commands are accepted up to its first disconnect or free, and none when the context is already closing |
| Async.Context.AsyncCommand | src/deps/hiredis/async.c:562-624 | A command is accepted exactly when the connection is neither disconnecting nor freeing; then its callback and its bytes go to the ends of their queues, otherwise nothing changes |
| Async.Context.RunCallback | src/deps/hiredis/async.c:246-253 | A callback may queue commands and set flags but never tears the context down itself; while closing it can queue nothing |
| Async.Context.DrainNext | src/deps/hiredis/async.c:261-263 | One turn of the drain: the first pending callback runs with NULL, nothing is added, and the queue shrinks |
| Async.Context.DoFree | src/deps/hiredis/async.c:256-298 | The drain loop ends and does what teardown means, so by AsyncLaws.DrainKeeps every issued callback has been dispatched |
| Async.Context.DoDisconnect | src/deps/hiredis/async.c:312-336 | The assert fails exactly when there is no error and callbacks are pending; otherwise the context is torn down |
| Async.Context.AsyncFree | src/deps/hiredis/async.c:304-309 | Freeing outside a callback leaves the context gone, with every pending callback dispatched in order with NULL |
| Async.Context.AsyncDisconnect | src/deps/hiredis/async.c:338-343 | Disconnecting outside a callback never fails the assert: it tears down when nothing is pending and otherwise waits, and is gone exactly when nothing was pending |
| Async.Context.HandleNoReply | src/deps/hiredis/async.c:400-413 | Without a reply the context leaves when it is disconnecting with nothing to write, and goes on otherwise; leaving fails the assert exactly when callbacks are pending |
| Async.Context.HandleReply | src/deps/hiredis/async.c:415-462 | A reply goes to the first pending callback; without one, an error tears the context down and anything else fails the assert |
| Async.Context.ProcessCallbacks | src/deps/hiredis/async.c:392-471 | The dispatch loop ends and has processed exactly the replies of the one-shot parser on all bytes received, then a fault or the lack of replies |
| Async.Context.HandleRead | src/deps/hiredis/async.c:495-514 | All bytes read reach the reader and are processed; at end of file or after a failed read the context is gone, every pending callback dispatched in order with NULL |
| Async.Context.Abort | src/deps/hiredis/async.c:312-336 | An error of the connection leaves the context gone, every pending callback dispatched in order with NULL |
| Async.Context.HandleWrite | src/deps/hiredis/async.c:516-540 | A write of any length moves exactly those bytes from the front of the output buffer to the wire; after a failed one the context is gone, every pending callback dispatched in order with NULL |
| AsyncLaws.ActBalanced | src/deps/hiredis/hiredis.c:1220-1231 | Accepting a command keeps issued = dispatched + pending and written + buffered = all commands |
| AsyncLaws.WriteKeeps | src/deps/hiredis/hiredis.c:1144-1171 | Output byte conservation under partial writes |
| CallbackList.CallbackList.Push | src/deps/hiredis/async.c:208-228 | The linked queue grows by one callback at its end |
| CallbackList.CallbackList.Shift | src/deps/hiredis/async.c:230-244 | The linked queue gives up its first callback, or reports that it is empty |
| DictRuns.Run | src/deps/hiredis/dict.c:135-256 | Every sequence of add, replace, delete and find on a new table answers as a finite map does; used is the map's size and never exceeds the table's, which is zero or a power of two |
| DictIterator.Walk | src/deps/hiredis/dict.c:258-286 | A walk visits the key of every entry present at its start exactly once, even when the caller deletes any of the entries as they are returned, and the rest of the map is untouched |
| DictIterator.Iterator.Next | src/deps/hiredis/dict.c:268-286 | dictNext returns the first entry not yet visited and remembers where to go on |
| DictIterator.Iterator.DeleteGiven | src/deps/hiredis/dict.c:182-210 | Deleting the entry just returned leaves the entries still to be visited as they were |
| DictIterator.EachOnce | src/deps/hiredis/dict.c:268-286 | Bucket by bucket, the chains hold every key once |
| DictTable.HashTable.Find | src/deps/hiredis/dict.c:243-256 | An entry is found exactly for the keys in the map, with the map's value |
| DictTable.HashTable.Add | src/deps/hiredis/dict.c:135-154 | Adding succeeds exactly for a new key and then extends the map by it |
| DictTable.HashTable.Replace | src/deps/hiredis/dict.c:160-179 | The map is updated at the key; the result tells whether it was new |
| DictTable.HashTable.Delete | src/deps/hiredis/dict.c:182-210 | Deleting succeeds exactly for a key in the map and removes it alone; exactly one entry leaves one chain |
| DictTable.HashTable.Expand | src/deps/hiredis/dict.c:88-132 | Fails exactly when more entries are in use than the size asked for; otherwise the map stays the same and the new size is the smallest power of two, from four on, that is large enough |
| DictTable.HashTable.ExpandIfNeeded | src/deps/hiredis/dict.c:295-303 | An empty table gets four buckets, a full one doubles, any other keeps its size; afterwards there is room |
| DictTable.HashTable.KeyIndex | src/deps/hiredis/dict.c:320-337 | The bucket a new key goes to, or nothing when the key is there |
| DictTable.HashTable.Measures | src/deps/hiredis/dict.c:295-317 | used is the number of keys and at most the size, which is zero or a power of two |
| DictTable.Scan | src/deps/hiredis/dict.c:248-254 | The chain search stops at the key or at the end of the chain |
| DictTable.StopsRight | src/deps/hiredis/dict.c:243-256 | Searching the bucket its hash selects finds a key exactly when the table has it |
| DictTable.Cut | src/deps/hiredis/dict.c:194-205 | Rewiring the predecessor or the bucket and freeing the entry keeps every chain and removes one key |
| DictRehash.Rehash | src/deps/hiredis/dict.c:104-126 | Moving every entry to its new bucket keeps the map; when the loop stops, early or not, no entry is left in the old table |
| DictRehash.MoveBucket | src/deps/hiredis/dict.c:112-124 | One old bucket: every entry of it moves to the front of its new bucket, the others still hang together as before |
| Dict.MaskIsMod | src/deps/hiredis/dict.c:118-119 | For a power of two, masking with size - 1 selects hash mod size |
| Dict.NextPower | src/deps/hiredis/dict.c:306-315 | The smallest power of two, from four on, that is at least the size asked for |
| Sds.SdsString.Grow | src/deps/hiredis/sds.c:88-104 | Growing keeps the bytes and gives the room asked for, twice the length needed |
| Sds.SdsString.Append | src/deps/hiredis/sds.c:127-139 | Appending in place adds exactly the given bytes and keeps the terminating NUL |
| Sds.SdsString.Keep | src/deps/hiredis/sds.c:220-249 | sdsrange in place keeps exactly the bytes of the range, negative and overlong bounds included, and all of the memory |
| Sds.Bounds | src/deps/hiredis/sds.c:224-243 | The arithmetic of the range yields the first and last position kept |
| Sds.RangeKeeps | src/deps/hiredis/sds.c:220-249 | A range keeps exactly the bytes at positions between its ends, negative ones counted from the end, and all of the memory |
| SdsSplit.SplitLen | src/deps/hiredis/sds.c:291-349 | For every input and non-empty separator the tokens joined by the separator are the input and the cuts are its leftmost occurrences; an empty separator gives NULL, an empty input no token; the token array always has room |
| SdsSplit.CleanLacks | src/deps/hiredis/sds.c:291-349 | No token contains the separator |
| SdsSplit.CutUnique | src/deps/hiredis/sds.c:291-349 | There is only one such way to cut an input |
| SdsSplit.SplitJoined | src/deps/hiredis/sds.c:291-349 | Splitting a joined list gives the list back exactly when its tokens are cut cleanly and it is not the list of one empty token |
| SdsSplit.CutEarly | src/deps/hiredis/sds.c:291-349 | Tokens without the separator are not enough for that: xa and y, joined by aa, are cut after x |
| SdsQuote.QuoteUnquote | src/deps/hiredis/sds.c:384-498 | Quoting every string, joining with spaces and splitting gives the list back exactly when all bytes are printable or newline, CR, tab, bell or backspace |
| SdsQuote.LineRead | src/deps/hiredis/sds.c:384-498 | For all strings: what comes back has every other byte replaced by an x and two hexadecimal digits |
| SdsQuote.ZeroDoesNotComeBack | src/deps/hiredis/sds.c:404-406 | A zero byte comes back as the three characters x00 |
| SdsQuote.QuoteRead | src/deps/hiredis/sds.c:443-468 | A quoted argument is read up to its closing quote when a blank or the end follows, and the line is refused otherwise |
| SdsQuote.Unterminated | src/deps/hiredis/sds.c:465-467 | A line whose quote is never closed is refused |
| SdsLine.LineMeans | src/deps/hiredis/sds.c:412-498 | For lines of plain words, quoted strings, or words running into quoted strings, with any blanks between them: the arguments are the words and what comes back of the strings |
| SdsLine.TwoWords | src/deps/hiredis/sds.c:412-498 | Two plain words with a blank between them, such as get foo, are the two arguments |
| SdsQuote.CatRepr | src/deps/hiredis/sds.c:384-410 | Appends a quote, for each byte its own escape, itself or a backslash, an x and its two hexadecimal digits, and a quote |
| SdsQuote.SplitArgs | src/deps/hiredis/sds.c:424-498 | The loops compute the arguments of a line as specified, character by character, without looking past the terminator |
| SdsQuote.GetToken | src/deps/hiredis/sds.c:436-486 | The inner loop yields one argument and the position behind it |
| SdsQuote.FromLongLong | src/deps/hiredis/sds.c:369-382 | The text is the decimal numeral of the value, reads back as the value, and fits the 32-byte buffer |
| SdsQuote.WriteDigits | src/deps/hiredis/sds.c:373-378 | The digits are written backwards into the buffer and never reach its front |
| NetworkRuns.Delivers | src/proxy.cc:296-323 | Reverse-route delivery: from every state with a response in flight for a call none of whose records expired, handing on that packet, at most once per recorded proxy, delivers it to the node that issued the call, with the callee's answer, exactly once |
| NetworkDelivery.FairDelivery | src/proxy.cc:296-323 | Every fair run delivers: in any run that neither loses the response nor lets a record of its call expire, once the response has been handled once per recorded proxy and once more it has been delivered to the node that issued the call, with the callee's answer |
| NetworkDelivery.AnsweredStays | src/proxy.cc:296-323 | In every run, an answered call of which no record expired and no packet was lost has been delivered, or exactly such a response is in flight |
| NetworkDelivery.DoPresent | src/proxy.cc:433-497 | No step makes an answered call vanish |
| NetworkRuns.DeliveredRight | src/proxy.cc:110-176 | In every run each call is delivered at most once; if none of its records expired, only to the node that issued it and with the kind and payload its callee answered |
| NetworkRuns.NoCycle | src/proxy.cc:110-176 | While a call is on its way, its back-pointers form no cycle, however often it revisits a proxy: each recorded proxy points at the origin or at one that recorded the call earlier; and the payload is the one issued |
| NetworkRuns.RunKeeps | src/proxy.cc:433-497 | The network invariant holds after every run |
| NetworkSystem.SystemDelivers | src/proxy.cc:433-497 | In every run of a network of whole proxies, with registrations, registry exchanges, pings, publications, subscriptions and periodic work as the dispatcher and the main loop do them: each call is delivered at most once; if none of its records expired, only to the node that issued it and with its callee's answer; and an answered call of which no record expired and no packet was lost is home or on its way |
| NetworkSystem.SystemRuns | src/proxy.cc:433-497 | Every run of whole proxies is a run of the network of calls that shows the same |
| NetworkSystem.DispatchIsStep | src/proxy.cc:433-497 | A packet that reaches a proxy does to the network what the dispatcher's effect on the whole proxy says, kind by kind: its new state, and what it published on the wire |
| NetworkSystem.AsideMatches | src/proxy.cc:433-618 | Messages that are not about calls, and the periodic work, are table changes followed by expiries of the calls given up |
| NetworkSystem.ExpiredOverdue | src/proxy.cc:178-196 | A record expires only in the periodic work of a proxy that has held it for more than three seconds |
| NetworkRuns.Hop | src/proxy.cc:296-323 | One hop of the way back keeps guid, kind and payload and comes strictly nearer to the origin |
| NetworkProofs.DoKeeps | src/proxy.cc:433-497 | Every step of the network keeps its invariant: issuing, invoking, answering, returning, delivering, losing, changing registries, expiring |
| NetworkProofs.InvokeKeeps | src/proxy.cc:110-176 | Handling an INVOKE keeps the trail of the call whole because the first back-pointer stays |
| NetworkProofs.ResponseKeeps | src/proxy.cc:296-323 | Handling a response keeps every other call untouched and the trail towards the origin whole |
| ProxyCore.InvokeEffect | src/proxy.cc:110-176 | With a method registered under the identifier, local ones first, the call goes to the owner of one of them, for that method, with its guid and payload unchanged, and is recorded under the hop it came from unless recorded before; without one it is answered with an error and counted |
| ProxyRuns.Run | src/proxy.cc:433-618 | Every sequence of messages and periodic work takes the idle proxy through states that follow from one another by the model's effect of each event; so all accounts of ProxyLaws hold of it, and guids stay distinct in every registry list of every state; and a method is in a table of a state exactly when its latest registration has stood up to all periodic work since |
| ProxyLaws.RunBalanced | src/proxy.cc:110-196 | Pending-call accounting over every run, for every call: it was recorded as often as it was forwarded back, given up or is still pending; recorded only when passed on, passed on only when received; responses go out exactly for calls forwarded back and for pings; and every call received is counted and was passed on or counted as an error |
| ProxyLaws.RunSettled | src/proxy.cc:178-323 | In every run, a call forwarded back went to the source of the very invocation that recorded it and had been pending since, with the response's kind and payload; a call given up had been recorded more than three seconds before |
| ProxyLaws.PendingSince | src/proxy.cc:110-176 | Whatever is pending was recorded by an invocation, with its source and time, and has been pending ever since |
| ProxyLaws.StepBooked | src/proxy.cc:433-497 | What each event adds to these accounts |
| ProxyRuns.SubscriberCallback | src/proxy.cc:433-497 | For each kind of message, the whole effect of its handler on pending calls, counters, registries, channels and what is published; errors and pongs change nothing, an unknown kind is refused |
| ProxyRuns.Housekeep | src/proxy.cc:612-618 | The periodic work leaves exactly the fresh entries of both tables and gives up stale calls at most once a minute, and changes nothing else; in numbers: local entries stay for ten seconds and remote ones for five, in their order, and less than a minute after the last cleanup no call is given up, then only calls older than three seconds, all of them or a hundred thousand |
| ProxyLaws.TidiedIsTidy | src/proxy.cc:178-196 | The periodic work in numbers, without the model's functions |
| ProxyTables.RegisteredExactly | src/proxy.cc:198-262 | In every run, a method is in the local table if and only if it has been registered and no periodic work since its latest registration came more than ten seconds after it; in the remote table likewise, with advertisements and five seconds |
| ProxyTables.NeverDropped | src/proxy.cc:517-563 | A method renewed in time before all periodic work is never dropped |
| ProxyTables.StepTime | src/proxy.cc:433-563 | What each event makes of the time a method was last registered; in particular an advertised method is in the remote table afterwards |
| Proxy.Proxy.PingRequest | src/proxy.cc:352-363 | A ping is answered once, with a response under its own guid |
| ProxyPackets.PingPublishes | src/proxy.cc:352-363 | The answer goes to the sender, under the guid of the ping, with the quoted word Pong |
| Proxy.Proxy.PublishReq | src/proxy.cc:406-418 | A publication is passed on to its channel once and never again |
| ProxyPackets.NeverAgain | src/proxy.cc:406-418 | What one proxy has passed on, no proxy passes on again |
| ProxyPackets.PublishPublishes | src/proxy.cc:406-418 | A publication not passed on before goes to its channel with its payload and a positive recursion count |
| ProxyPackets.UnknownPublishes | src/proxy.cc:477-491 | A command the proxy does not know is answered with an error to the guid it was received from |
| Proxy.Proxy.SubscribeReq | src/proxy.cc:420-431 | The channel is remembered, and every subscriber, and nobody else, listens to it from then on |
| Proxy.Proxy.Invoke | src/proxy.cc:110-176 | The handler computes the abstract step and publishes its one packet |
| Proxy.Proxy.InvokeResponse | src/proxy.cc:296-323 | A response of a pending call goes to its recorded hop and settles it; any other is answered with an error and changes nothing |
| ProxyPackets.ResponsePublishes | src/proxy.cc:296-323 | A response for a pending call goes to its recorded hop with guids and payload unchanged, any other is answered with an error to its sender |
| Proxy.Proxy.CleanUpResponsesMap | src/proxy.cc:178-196 | At most once a minute, only calls older than three seconds are dropped, all of them or a full batch, from both maps alike |
| Proxy.Sift | src/proxy.cc:184-193 | The erasing loop drops stale calls only, all of them or a full batch, and leaves the rest untouched |
| Proxy.Proxy.RegisterInvoke | src/proxy.cc:198-262 | A known method is refreshed, a new one is added and counted, and the node is told |
| ProxyPackets.RegisterPublishes | src/proxy.cc:254-261 | A registration is confirmed to the node it came from, under its identifier |
| Proxy.Proxy.RegistryExchangeResponder | src/proxy.cc:325-350 | The reply lists every local method once, identifier by identifier, as this proxy's own |
| ProxyPackets.ExchangePublishes | src/proxy.cc:325-350 | The one packet published goes to the proxy that asked and lists a method exactly when the local table has it, under this proxy's guid |
| Proxy.CollectAds | src/proxy.cc:336-345 | The two nested walks collect exactly that list |
| Registry.ListingExact | src/proxy.cc:325-350 | In whatever order the table is walked, exactly its methods are advertised, each under the proxy's own guid |
| Proxy.Proxy.RemoteRegistryUpdate | src/proxy.cc:365-404 | Every advertised method is refreshed or added, and guids stay distinct |
| ProxyPackets.AdvertisementAdds | src/proxy.cc:393-401 | A new advertisement becomes the last entry under its identifier, owned by the advertising proxy and checked now |
| Proxy.Proxy.CheckRegistries | src/proxy.cc:614-615 | The repeated health checks leave exactly the entries checked within the last ten seconds in the local table and five in the remote one, in order |
| Registry.Sweep | src/proxy.cc:517-563 | The loop around the health check ends, having kept exactly the entries checked no longer ago than the limit, for a fixed clock, in their order |
| Registry.HealthCheck | src/proxy.cc:517-539 | One check removes one entry checked longer ago than the limit, or there is none |
| Registry.FreshSwept | src/proxy.cc:517-563 | What is left of a table is every entry not older than the limit, and no other, in order |
| Registry.Register | src/proxy.cc:198-262 | The search loop refreshes or appends, and reports which |
| Registry.UpsertEffect | src/proxy.cc:213-247 | Registering keeps every other entry and the order; it adds one exactly when the guid is new |
| Registry.UpsertRefreshes | src/proxy.cc:213-247 | A method already known gets the new time and keeps everything else |
| RegistryNet.NeverRelayed | src/proxy.cc:325-404 | In every run from empty tables, with replies being what the responder lists, every remote entry was registered in its owner's own local table, and every registry reply in flight lists only its sender's methods |
| RegistryNet.ListingClaimed | src/proxy.cc:325-350 | What the responder lists are methods its own local table has had, advertised as its own |
| RegistryNet.DoKeeps | src/proxy.cc:325-404 | Every step of the registry exchange keeps that |
| CodecRoundTrip.RoundTrip | src/command.pb.cc:742-944 | Parsing the serialization of any initialized command gives the command back, repeated entries and unknown fields included; an incomplete one is refused |
| CodecRoundTrip.ConcatenationMerges | src/command.pb.cc:1233-1271 | Parsing two serializations in a row gives a message in which the fields set in the second win, field by field, and repeated and unknown fields follow each other |
| CodecRoundTrip.ParseMerges | src/command.pb.cc:742-944 | A serialization in front of anything merges its message into what is being parsed |
| CodecRoundTrip.EntryRoundTrip | src/command.pb.cc:313-406 | Parsing the serialization of a registry entry gives it back |
| Codec.MergePartialFromCodedStream | src/command.pb.cc:742-944 | The parser that jumps from field to field by ExpectTag, required to use up its input, computes what the plain tag-by-tag parser computes, on every input, malformed ones included |
| Codec.MergeEntryFromCodedStream | src/command.pb.cc:313-406 | The same for the parser of a registry entry |
| Codec.ExpectTag | src/command.pb.cc:764-925 | Looking for the next tag takes exactly that byte or none |
| CodecWriter.SerializeToArray | src/command.pb.cc:1032-1124 | Writing field after field gives the specified serialization |
| CodecWriter.SerializeEntryToArray | src/command.pb.cc:447-490 | The same for a registry entry |
| CodecWriter.ByteSize | src/command.pb.cc:1126-1219 | The size computed in advance is exactly the number of bytes written |
| CodecWriter.EntriesSize | src/command.pb.cc:1202-1208 | The size of the repeated entries, a tag byte each included |
| CodecLayout.LaidOut | src/command.pb.cc:1032-1124 | The bytes of a serialized command, with the literal tag byte of every field of the schema, lengths and values, in the order of the schema |
| CodecLayout.EntryLaidOut | src/command.pb.cc:447-490 | The same for a registry entry |
| CodecLayout.VarintIs | src/command.pb.cc:1032-1124 | A varint has the high bit set in all bytes but the last, seven bits of the value in each, the least significant first, and no needless last byte |
| CodecLayout.ReadVarintExact | src/command.pb.cc:742-944 | A varint is read if and only if at most ten bytes form one; its value is theirs, without the bits beyond the 64th |
| CodecLayout.WireTypes | src/command.pb.cc:742-944 | Every field stands behind eight times its number plus its wire type: 0 varint, 1 eight bytes, 2 length-delimited, 5 four bytes |
| Wire.DecodeFieldInverse | src/command.pb.cc:742-944 | A field comes back as it was written, tag and payload, and the reader stops right behind it |
| Wire.ReadVarint64Inverse | src/command.pb.cc:742-944 | A varint of up to 64 bits comes back as it was written |
| Framing.FramingExact | src/publisher.cc:55-75 | The receiver finds the serialization again exactly when the topic contains no tab |
| Framing.CompleteComesBack | src/command.pb.cc:1285-1292 | A serialized command is accepted, unchanged, if and only if number, proxy guid and payload are set and every registry entry has its four fields; numbers are 1 to 14 |
| Framing.PublishPoll | src/subscriber.cc:76-130 | What is published under a topic without a tab is what a subscriber gets, addressed to the subscriber, if it has the required fields, and nothing otherwise |
| Framing.SendAndReceive | src/publisher.cc:55-75 | The same through both loops |
| Framing.SendFromProxy | src/proxy.cc:254-362 | What a proxy publishes, with or without an identifier, guids and entries, arrives whole |
| Framing.Publish | src/publisher.cc:55-75 | The message is the topic, a tab and the serialization, and fills its buffer exactly |
| Framing.Poll | src/subscriber.cc:76-130 | The scan cuts at the first tab; a message without one, or with a body that does not parse, yields nothing; otherwise the command is addressed to this proxy |

## Left out

- Integer widths in the Redis client: lengths, counts and parsed integers are unbounded, so overflow beyond 64 bits in `readLongLong`, array counts beyond INT_MAX and the truncation of lengths to int are not modelled.
- Dict.NextPower: does not model the LONG_MAX case of dict.c:309, because a table of that many buckets cannot be allocated.
- Format.FormatCommand: only literals, %s, %b and %%; the printf conversions (hiredis.c:750-848) depend on varargs and libc formatting.
- SdsQuote.FromLongLong: the most negative 64-bit value is excluded, because negating it is undefined in C.
- Allocation failure, freeing replies and contexts, and ownership of C memory; the dictionary models freeing of its entries only.
- The reader's buffer is an sds value rather than an object: aliasing between the buffer and the caller's bytes is not captured. `Sds.SdsString` proves the in-place operations on their own.
- Replaceable reply object functions, and readers created without them.
- Blocking calls, sockets, poll, connecting, timeouts, event-loop adapters, and the connect and disconnect callbacks of a context.
- Async.Context.HandleRead: events are not delivered while a callback runs, and connecting is over.
- MONITOR and publish/subscribe replies in the asynchronous engine, and the dictionaries of subscriptions drained in teardown.
- Clearing and releasing a dictionary, and the particular hash function: a key carries its hash, so the results hold for every hash function.
- The remaining operations of sds.c (trim, case, compare, copy, printf-style appending): they change no state the results turn on.
- The hello handlers of nodes and proxies, which add subscribers, the removal of inactive subscribers, and the ZeroMQ side of a subscription: the set of subscribers of a proxy is fixed at its start.
- Guids and identifiers of the proxy are numbers and the texts of error messages are not modelled; the identifier a registration reply carries as its payload is in the identifier field.
- NetworkRuns.Delivers: for calls none of whose records expired; an ERROR that reaches a proxy is only logged by the code, so not every call is answered.
- Network: only calls, responses and errors travel on its wire; in NetworkSystem pings, publications and registry messages reach a proxy from outside it, and their answers leave it. Nodes answer a call at most once and the transport does not duplicate packets.
- Random selection among methods is a parameter, and so is the clock; the order in which a C++ map is walked is left open.
- Redis discovery, requesting registries every three seconds, guid generation, port binding, logging and the V8 glue.
- ZeroMQ topic matching: which subscriber receives a message is not modelled, only how it is framed.
- Codec.MergePartialFromCodedStream: an unknown group is refused here, where the library skips it and keeps it as an unknown field; a zero tag or an end-group tag ends the loop in the source and the parse fails afterwards, which is one step here.
- Codec.MergeEntryFromCodedStream: the same for groups inside a registry entry.
- Protocol Buffers UTF-8 checks (which only log), reflection, descriptors, swapping and accessors; sizes are unbounded, where the generated code caches them as int.
