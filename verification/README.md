# SwitchFlow, modelled and verified

SwitchFlow is a single-threaded, non-blocking HTTP proxy. Its parsers and printers are state
machines that may stop at any input byte (the buffer is used up) or at any output byte (a write
would block) and must go on later as if nothing had happened. This project models those machines
with the fields and cursors the C++ objects have, and proves each of them against a plain
definition that reads single bytes and never stops.

How the files fit together:

- **Reference definitions.** `Transducers` is a machine that reads a byte at a time; reading is
  independent of how the bytes are cut. `ChunkGrammar`, `HeaderGrammar`, `StreamGrammar` and the
  first half of `StartLines` are such machines for chunked bodies, headers, whole streams and start
  lines, each with its own theorems: what is accepted is exactly what can be spelled, re-encoding
  is canonical and is a fixed point, printing and reading are inverse.
- **What texts and numbers are.** `Numerals`, `Names`, `ChunkSizes`, `ContentLengths` and
  `ConfigLines` tie the scanners to literal tables: which digits name which number in either case,
  which names and marks the headers are read by, which bytes are control characters, and which
  characters of a configuration line are its key, its value, its comment or its white space.
- **The imperative code.** `Buffers`, `Connections`, `Scanners`, `BodySink`, `ChunkedBodyParser`,
  `ContentLengthBodyParser`, `MessageBuffer`, `HeaderHandler`, `HeaderParser`, `HeaderWriter`,
  `StreamHandler` and `StartLines` follow the C++ classes. The contract of each entry point says
  that the new state is the reference machine after exactly the bytes consumed, and that bytes sent
  plus bytes still queued are exactly the bytes that machine emits.
- **The whole direction.** `Proxy` composes them with an operating system that may deliver or accept
  any number of bytes, block, be interrupted or fail, with any order of events and any slots in the
  pipeline. `Proxies.Relay` and `MessageRelays.RelayMessages` are the main results: whatever
  happens, the destination holds a prefix of the canonical re-encoding of the stream, and holds all
  of it when the source has ended. `HeaderPieces` and `StartLines.ParsePieces` state independence of
  fragmentation for one header and one start line.
- **The rest of the library.** `BoundedQueue` models the two-semaphore queue as interleaved steps of
  any number of threads. `ConfigTree`, `ConfigOrder`, `ConfigText` and `ConfigFile` model the
  configuration reader and dumper. `ObjectPool`, `PooledList` and `PooledRuns` model the allocators.

Conventions. A `CHECK_CONDITION` of the original is a precondition here. The environment may make a
connection ready at any time; a destination becomes unready only by a write that would block, as in
`connection.cpp`.

Findings about the code, each stated as a lemma or as part of a contract:

- A value of 511 bytes written without a space after the colon is accepted, but the printed header
  (which has the space) is refused by a second proxy with the same limits
  (`HeaderRoundTrips.TightValueIsNotReprinted`; the exact condition is `HeaderRoundTrips.Reprinted`).
- A start line cut by the end of a buffer is never resumed. `parse_headers` keeps its place in the
  line but puts the cursors back in front of it, so the buffer cannot be refilled and the same bytes
  are read again. It is cut if and only if the unread bytes end inside it
  (`HeaderParsers.HeaderParser.ParseHeaders`; `HeaderGrammar.CutMethod` is an input), reading it again
  never finishes it (`HeaderGrammar.CutIsFatal`), and a source that stays readable is denied
  (`Proxies.HandleStream`).
- A response that arrives before its request was forwarded makes the serving loop spin: a turn changes
  nothing although the loop goes round again, if and only if such a response is in the buffer of a
  readable source (`Proxies.Turn`; `Proxies.ResponseSpins` is such a run).
- A partial request method passes when it is longer than a known one, and does not when it is equal to
  one: the comparison does not tell which text is the prefix
  (`HeaderHandlers.HeaderHandler.StartLineToken1`).
- Conflicting content-length fields are not refused: the last one wins
  (`StreamTheorems.SizeIsOrderFreeIff`).
- A configuration value that changes kind keeps the storage of its earlier kind, which can reappear
  (`ConfigOrder.StaleMemberReturns`; exactly when is stated by `ConfigOrder.LookupElsewhereIff` and
  `ConfigOrder.TidyKeptIff`).
- `get_const_buffer` hands out a view of the wrong length once anything was written
  (`Buffers.ReadWriteBuffer.ViewIsPending`).
- All three tokens of `start_line_parser` are held to the third limit, because its `switch` falls
  through, so the declared limits are enforced only if they agree (`StartLines.LimitsEnforcedIff`;
  `StartLines.LongFirstTokenAccepted` is an input).

## Model

| member | source | states |
|---|---|---|
| Proxies.Relay | sfrp/proxylib/proxy_handler.cpp:197-270 | For every input, every series of short reads, short writes, blocks, interrupts and errors, every series of events and any pipeline slots: what the destination received is a prefix of the canonical output of the whole stream; serving waits only for what an event can bring; once the source has ended and the buffer is used up, the output is complete; a source whose reads do not fail ends only when it has been read to its end; a destination is given up only when a write fails; a denial means a byte broke the protocol or a start line was cut; the loop spins exactly when a response is stuck. |
| MessageRelays.RelayMessages | sfrp/proxylib/proxy_handler.cpp:197-270 | For a source that sends any sequence of well-framed messages, the destination receives a prefix of their canonical forms in order, all of them once the source has ended and the buffer is used up; a source whose reads do not fail ends only when all was read; no message is refused unless its start line was cut by the end of a buffer. |
| Proxies.HandleStream | sfrp/proxylib/proxy_handler.cpp:197-270 | Serving ends in a wait, an end or a denial, or spins, and it spins if and only if a response without a slot sits in the buffer of a readable source. On a wait no output is held back. A stream whose start line was cut is denied if its source is readable, and sends nothing more. |
| Proxies.Wake | switchflow/socketlib/connection.cpp:46-83 | What each event makes readier, with everything else and the stream as they were. |
| Proxies.Turn | sfrp/proxylib/proxy_handler.cpp:201-236 | One turn of the loop that would go round again changes nothing if and only if the stream was stuck; every other such turn comes closer to the end. |
| Proxies.ResponseSpins | sfrp/app/http_proxy_stream_handler.cpp:86-95 | A run in which one response byte arrives early and the loop spins. |
| Proxies.Work | sfrp/app/http_proxy_stream_handler.cpp:74-218 | What each status of the handler means for the whole stream, a stream with a cut start line included. |
| Proxies.Refill | switchflow/socketlib/connection.cpp:184-239 | No jam and no overwrite: a read changes neither what the handler has parsed nor what it still has to send, loses no byte, and leaves a buffer that is not fully written alone, in particular one that ends inside a start line. |
| Proxies.RefillIsSafe | switchflow/http/chunked_body_parser.cpp:45-138 | In every state of the handler a buffer that may be refilled has no unread byte left. |
| Proxies.AllDelivered | sfrp/proxylib/proxy_handler.cpp:219-236 | A handler that holds nothing back, on a source with nothing left, has sent the canonical output of the entire stream. |
| Proxies.NeverTooMuch | sfrp/proxylib/proxy_handler.cpp:197-270 | In every state on track, and when a start line was cut, the bytes sent are a prefix of the output of the whole stream. |
| StreamHandlers.StreamHandler.ProcessData | sfrp/app/http_proxy_stream_handler.cpp:74-218 | From any resting state, the handler consumes exactly the bytes between the old and the new process position; sent plus queued output grows by exactly what the stream reader emits for them; each status says why it stopped (nothing queued and nothing unread, destination not ready, no slot, stream refused, start line cut). With no slot nothing changes; a cut start line is refused or stays cut. |
| StreamHandlers.StreamHandler.StepHeader | sfrp/app/http_proxy_stream_handler.cpp:107-142 | Parsing a header either completes it at its last byte and queues its printed form, or rests at the end of the buffer, or refuses, or is cut in the start line. |
| StreamHandlers.StreamHandler.StepStart | sfrp/app/http_proxy_stream_handler.cpp:86-105 | A message starts if and only if the pipeline has a slot; otherwise nothing changes, a request waits and a response is reported as done. |
| StreamHandlers.StreamHandler.StepPush | sfrp/app/http_proxy_stream_handler.cpp:144-173 | Printing the header keeps sent plus queued constant and hands over to the body the header announces. |
| StreamHandlers.StreamHandler.StepBody | sfrp/app/http_proxy_stream_handler.cpp:175-210 | A body step conserves bytes and, when the body is over, leaves the handler at the start of the next message, at the byte after the body. |
| StreamHandlers.StreamHandler.CompleteMessage | sfrp/app/http_proxy_stream_handler.cpp:229-252 | After a message everything is ready for the next one, nothing is queued, and the buffer is untouched. |
| StreamTheorems.RelayAll | sfrp/app/http_proxy_stream_handler.cpp:74-218 | A stream of any number of messages is emitted as their printed headers and canonical bodies in order, and each message starts at the byte after the previous one. |
| StreamTheorems.RelayItem | sfrp/app/http_proxy_stream_handler.cpp:107-210 | One message, however its header and chunks are spelled, takes the stream from a message start to the next message start and comes out in canonical form. |
| StreamTheorems.RelayTwice | sfrp/app/http_proxy_stream_handler.cpp:74-218 | Relaying the output a second time changes nothing, provided every value leaves room for the printed space. |
| StreamTheorems.FramingIsOrderFree | switchflow/http/header_handler.cpp:181-222 | How a body is framed (none, chunked, counted, until close) is the same for every permutation of the header fields. |
| StreamTheorems.SizeIsOrderFreeIff | switchflow/http/header_handler.cpp:193-206 | The announced size is the same for every permutation if and only if all content-length fields agree on it. |
| ContentLengths.FramedAsNamed | switchflow/http/header_handler.cpp:181-222 | How a message frames its body, by the names the standard gives the fields in any case and by the decimal numeral of the length: a field that announces n below 2^32 frames n bytes. |
| ContentLengths.RelayAnnounced | sfrp/app/http_proxy_stream_handler.cpp:107-210 | A header that announces n bytes, followed by n bytes, leads to the start of the next message and comes out printed with exactly those bytes. |
| ContentLengths.OnlyAnnouncedFits | sfrp/app/http_proxy_stream_handler.cpp:168-171 | With one byte more or less it is not such a message. |
| ContentLengths.AtoiOfNumeral | switchflow/http/header_handler.cpp:199-205 | White space, an optional sign and a decimal numeral of n, up to the first byte that is no digit, are read as n in 32 bits. |
| Names.NamesAreTheStandards | switchflow/http/header_handler.cpp:181-222 | The host, content-length and transfer-encoding fields, the chunked value, the three methods and the version are recognised in every mixture of cases and by no other text; 304 is the bodiless code. |
| Names.AcceptableIff | switchflow/http/header_handler.cpp:164-179 | A header is refused for want of a host exactly if it is that of an HTTP/1.1 request without one. |
| Names.EqualNoCaseIff | switchflow/util/read_write_buffer.cpp:210-236 | Comparing without regard to case recognises exactly the spellings of a text by the table of letters. |
| Names.CtlIff | switchflow/http/http.cpp:140-143 | The bytes a token may hold are the printable characters from the blank to the tilde. |
| Names.MarksAndLimits | switchflow/http/http.cpp:12-22 | The marks, separators and limits are those of the protocol and of the source. |
| StreamGrammar.FramedPrefix | sfrp/app/http_proxy_stream_handler.cpp:74-218 | A stream that stays framed has only framed prefixes. |
| ChunkedBodies.ChunkedBodyParser.ParseBody | switchflow/http/chunked_body_parser.cpp:40-164 | For any buffer and any destination: complete exactly when the byte reader is done, at that byte, with all output sent; incomplete only with an empty queue and both cursors at the end of the buffer; write-incomplete only with bytes queued and an unready destination; refused exactly at a byte that cannot continue a body. Terminates by unread bytes, then state rank. |
| ChunkedBodies.ChunkedBodyParser.ScanSize | switchflow/http/chunked_body_parser.cpp:166-201 | Reads hexadecimal digits (at most eight over any number of buffers) and at most 256 spaces exactly as the byte reader does; the size stays below the power of sixteen of the digits read. |
| ChunkedBodies.ChunkedBodyParser.StepChunk | switchflow/http/chunked_body_parser.cpp:82-92 | Marks exactly the body bytes just read for forwarding, no byte twice and none beyond the chunk. |
| ChunkedBodies.ChunkedBodyParser.StepForwardTrailer | switchflow/http/chunked_body_parser.cpp:140-155 | Sends what is left of the CR LF, then starts the next chunk or completes the body after the empty chunk. |
| ChunkGrammar.RelayIsCanonical | switchflow/http/chunked_body_parser.cpp:40-164 | Every valid chunked body is accepted at exactly its last byte and emitted, chunk by chunk, as minimal upper-case size, CR LF, data, CR LF, ending with the empty chunk. What is valid, and what is minimal and upper case, is told by the next rows. |
| ChunkSizes.WellFormedIff | switchflow/http/chunked_body_parser.cpp:166-201 | A chunk is well formed if and only if its size line is a numeral of the number of its data bytes, in at most eight digits of either case with leading zeros allowed, or is empty for an empty chunk, with at most 256 spaces after it. |
| ChunkSizes.SizeTextIsRead | switchflow/http/chunked_body_parser.cpp:40-92 | Any such numeral of n takes the reader through the size line to the place where exactly n bytes of data follow. |
| ChunkSizes.ScanSizeText | switchflow/http/chunked_body_parser.cpp:166-201 | And the scanner past the carriage return, with the size n. |
| Numerals.HexValueIff | switchflow/util/conversions.hpp:8-14 | A run of hexadecimal digits has the value n if and only if it is a numeral of n by the tables of digits. |
| Numerals.HexIsUpper | sfrp/app/http_proxy_stream_handler.cpp:266 | A printed size has the places of its number in upper-case digits, and nothing before them. |
| ChunkGrammar.AcceptedIsValid | switchflow/http/chunked_body_parser.cpp:40-201 | Conversely every accepted text is the encoding of a valid body, with the chunks as witness. |
| ChunkGrammar.RelayIsIdempotent | switchflow/http/chunked_body_parser.cpp:40-164 | A relayed body is accepted again and relayed unchanged. |
| ChunkGrammar.CanonicalIsValid | sfrp/app/http_proxy_stream_handler.cpp:264-272 | The re-encoded body is itself valid: its sizes fit eight digits. |
| ChunkGrammar.NothingAfterDone | switchflow/http/chunked_body_parser.cpp:140-147 | A body ends at one byte only. |
| ChunkGrammar.SizeStaysInRange | switchflow/http/chunked_body_parser.cpp:166-181 | Over any bytes in any buffers at most eight digits are accumulated, and the size stays below 2^32. |
| Octets.Hex | sfrp/app/http_proxy_stream_handler.cpp:266 | The `%X` form of a size reads back as that size and has no leading zero. |
| Octets.HexLength | sfrp/app/http_proxy_stream_handler.cpp:264-272 | A size of at most k hexadecimal digits prints in at most k, so a size line fits the ten-byte buffer. |
| BodySinks.BodySink.SetChunkSize | sfrp/app/http_proxy_stream_handler.cpp:264-272 | Queues the size line and rewinds the CR LF that follows the chunk, within the buffer. |
| BodySinks.BodySink.SetBody | sfrp/app/http_proxy_stream_handler.cpp:220-227 | Forwarding conserves bytes: sent plus pending is unchanged; complete only when all is out, incomplete only when the destination is not ready. |
| LengthBodies.ContentLengthBodyParser.ParseContentLengthBody | switchflow/http/content_length_body_parser.cpp:29-74 | For every length, split and write schedule the bytes read are sent once each in order, never beyond the length; complete exactly when all of them were sent, with the process position after the last; incomplete only with both cursors at the end of the buffer. |
| Scanners.ParseNLengthBuffer | switchflow/http/http.cpp:171-184 | Takes as many bytes as the buffer and the length allow, and says whether the length is reached. |
| Scanners.ParseToken | switchflow/http/http.cpp:85-121 | Finds the first delimiter, control character or limit after the given offset and tells which, with the exact length across buffers. |
| Scanners.ParseChar | switchflow/http/http.cpp:70-83 | Advances over the expected byte only, and tells a missing byte from a wrong one. |
| Scanners.ParseCharAt | switchflow/http/http.cpp:123-138 | Tells the expected byte, a wrong byte and the end of the buffer apart without moving the cursors. |
| Scanners.ParseEqual | switchflow/http/http.cpp:146-169 | Skips SP and nothing else, up to the limit, and stops at the first other byte. |
| Connections.Connection.NonBlockingRead | switchflow/socketlib/connection.cpp:184-239 | Leaves the buffer alone unless it is fully written; otherwise what the buffer gains is exactly what the stream loses, with the cursors at its start. The source is closed if and only if the read failed or delivered nothing; a read that would block only makes it wait; an interrupted one changes nothing. |
| Connections.Connection.NonBlockingWrite | switchflow/socketlib/connection.cpp:241-313 | Under every outcome of the system calls the bytes sent are exactly those the write position passed; complete means all of them; it stops early only at a call that would block, which makes the destination wait, or at one that fails, which closes it. |
| Buffers.ReadWriteBuffer.ViewIsPending | switchflow/util/read_write_buffer.cpp:266-269 | The view handed out is the pending bytes if and only if nothing has been written yet. |
| HeaderParsers.HeaderParser.ParseHeaders | switchflow/http/header_parser.cpp:112-286 | From any state between calls and for any buffer: complete exactly at the final LF with the message the byte reader built; incomplete with the reader's phase at the end of the buffer; refused if the reader refuses. A start line is cut, left where it is or refused although its bytes are in order, if and only if the unread bytes end inside it. |
| HeaderParsers.HeaderParser.ParseStatusLine | switchflow/http/header_parser.cpp:66-110 | Reads the three tokens and the LF as the byte reader does, from the place in the line it was left in. |
| HeaderGrammar.CutIsFatal | switchflow/http/header_parser.cpp:120-136 | Reading a cut start line over and over never finishes it, and has refused it after at most three times the length limit of readings. |
| HeaderGrammar.CutIsNotFinished | switchflow/http/header_parser.cpp:66-110 | One more reading of a cut start line, from any place in the line, refuses it or comes strictly closer to the limits. |
| HeaderGrammar.CutMethod | switchflow/http/header_parser.cpp:26-64 | A buffer that ends after the first letter of a method is cut. |
| HeaderParsers.HeaderParser.ParseFields | switchflow/http/header_parser.cpp:124-286 | The resumable field loop follows the byte reader through every state. |
| HeaderPieces.ParsePieces | switchflow/http/header_parser.cpp:112-286 | A field section delivered in any pieces, empty ones included, gets the verdict and the fields its bytes call for, however they were cut; completion is at the final LF and what follows is left unread. |
| HeaderRoundTrips.RoundTrip | switchflow/http/header_writer.cpp:40-82 | Printing any message and reading the result yields that message if and only if its tokens are readable within the limits, its values leave room for the printed space, and it names its host where required. |
| HeaderRoundTrips.RoundTripWithMore | switchflow/http/header_parser.cpp:136-160 | Reading stops exactly at the final LF, whatever bytes follow. |
| HeaderRoundTrips.ReaderYieldsText | switchflow/http/header_parser.cpp:112-286 | Whatever bytes are read, the message collected consists of readable text within the limits. |
| HeaderRoundTrips.Reprinted | switchflow/http/header_writer.cpp:40-82 | An accepted header survives printing and reading again if and only if every value leaves room for the printed space. |
| HeaderRoundTrips.TightValueIsNotReprinted | switchflow/http/header_parser.cpp:196-260 | The exception is real: a concrete family of accepted headers whose printed form is refused. |
| HeaderWriters.HeaderWriter.WriteHeader | switchflow/http/header_writer.cpp:40-82 | Wherever writing stops, what was sent and what is left add up to the printed message; complete means all of it. |
| HeaderWriters.HeaderWriter.WriteInRounds | switchflow/http/header_writer.cpp:40-82 | Over any number of resumed calls with arbitrary partial writes, the bytes sent are a prefix of, and on completion equal to, those of the one-shot printer. |
| HeaderWriters.NothingSkipped | switchflow/http/header_writer.cpp:60-73 | Going from one place of the printer to the next loses nothing and repeats nothing. |
| MessageBuffers.MessageBuffer.GetConstBuffers | switchflow/http/message_buffer.cpp:244-268 | The buffers gathered by the one-shot printer spell the printed message, for any number of fields. |
| MessageBuffers.MessageBuffer.AddField | switchflow/http/message_buffer.cpp:185-200 | Appends one empty field with buffers no other field has. |
| MessageBuffers.MessageBuffer.AppendToValue | switchflow/http/message_buffer.cpp:128-137 | Extends one value if it fits and refuses otherwise, with every other text unchanged. |
| HeaderHandlers.HeaderHandler.KindIsBody | switchflow/http/header_handler.cpp:181-232 | Once all fields are in, the incrementally scanned encoding and size are the framing the whole message calls for, with 304 responses bodiless. |
| HeaderHandlers.RescanAgrees | switchflow/http/header_handler.cpp:193-212 | Scanning one more field keeps the incremental framing in agreement with all fields so far. |
| HeaderHandlers.HeaderHandler.StartLineToken1 | switchflow/http/header_handler.cpp:73-100 | Accepts a complete method exactly if it is known, and a partial one exactly if it is a proper prefix of a known method or has one as a proper prefix. |
| HeaderHandlers.HeaderHandler.SetFieldName | switchflow/http/header_handler.cpp:129-147 | Opens a field on the first piece of its name, extends it on later ones, and refuses beyond the limits. |
| HeaderHandlers.HeaderHandler.EndFields | switchflow/http/header_handler.cpp:164-179 | Accepts the field list exactly if an HTTP/1.1 request names its host. |
| HeaderHandlers.CompareNoCase | switchflow/util/read_write_buffer.cpp:219-236 | Tells equal, proper prefix and different texts apart, ignoring case. |
| StartLines.StartLineParser.ParseStartLine | switchflow/http/start_line_parser.cpp:36-71 | For any buffer, state and option: complete exactly on the LF that ends the line, returning exactly the bytes after it; incomplete with the receiver holding exactly what was read; refused exactly when the byte reader refuses. |
| StartLines.ParsePieces | switchflow/http/start_line_parser.cpp:36-98 | A line fed in any pieces delivers the tokens its bytes spell, however it was cut; complete on the piece that holds the LF, with the bytes after it returned. |
| StartLines.AcceptedIff | switchflow/http/start_line_parser.cpp:36-133 | A line is accepted as three given tokens (or, read loosely, two) if and only if the tokens are well formed under the shared limit and the input begins with their text. |
| StartLines.LimitsEnforcedIff | switchflow/http/start_line_parser.cpp:36-62 | The parser accepts exactly the lines that keep the three declared limits if and only if the three are equal, apart from limits of zero that leave nothing to accept. |
| StartLines.LongFirstTokenAccepted | switchflow/http/start_line_parser.cpp:44-54 | A line whose first token breaks its limit and is accepted. |
| StartLines.ReadIsText | switchflow/http/start_line_parser.cpp:73-98 | At every point the tokens collected so far spell exactly the bytes read. |
| StartLines.TextIsRead | switchflow/http/start_line_parser.cpp:36-133 | Every well-formed line, finished or not, is read from its own text. |
| StartLines.TakenIsText | switchflow/http/start_line_parser.cpp:36-98 | The bytes the parser takes for a complete line are the text of its tokens. |
| StartLines.ScanToken | switchflow/http/http.cpp:249-293 | Splits a buffer at the first delimiter, or reports a control character, the limit or the end of the buffer, whichever comes first. |
| BoundedQueue.Safety | switchflow/util/queue.cpp:26-79 | In every interleaving of any number of threads: no check fails, the list never exceeds the capacity, items pushed are items popped followed by the list, and both counting laws hold. |
| BoundedQueue.EachGetsItsOwn | switchflow/util/queue.cpp:26-79 | The dequeue that popped the k-th item returns the k-th item pushed, to its own caller, and that is the item its own call of enqueue brought; no two pops come from one call. |
| BoundedQueue.ReturnedAndCarriedArePopped | switchflow/util/queue.cpp:42-53 | The items returned together with those still carried by threads are, as a multiset, exactly the items popped. |
| BoundedQueue.Progress | switchflow/util/queue.cpp:26-79 | With capacity at least one, a reachable state with an enqueue and a dequeue in progress always has a thread that can step. |
| BoundedQueue.InvKept | switchflow/util/queue.cpp:26-79 | Every step of every thread, interrupted waits included, keeps the invariant. |
| BoundedQueue.ConservationKept | switchflow/util/queue.cpp:31-79 | Free slots plus reserved, occupied and not yet returned ones stay the capacity; available items plus claimed and not yet posted ones stay the list. |
| BoundedQueue.PopFindsItem | switchflow/util/queue.cpp:42-49 | A thread about to pop finds a non-null item at the front. |
| ConfigFiles.RoundTrip | switchflow/util/config_file.cpp:62-100 | Reading the dump of any file of whole, plain values rebuilds the same contents. |
| ConfigFiles.DumpIsLeaves | switchflow/util/config_file.cpp:74-100 | The recursive dump of a value is one line for each of its leaves, in order. |
| ConfigFiles.ConfigFile.Read | switchflow/util/config_file.cpp:121-202 | Reading lines with its one-line look-ahead yields the contents that applying the scanned entries in order yields; what the entries are is told by the next rows. |
| ConfigLines.ScanContinued | switchflow/util/config_file.cpp:146-184 | A line with a key, followed by any lines without one and then a blank line, a line with a key or the end, gives one entry: its key, and its value with those lines in file order, each cut at its comment and set off by a line feed unless it is all white space, both without outer white space. The lines after them are read as if they came first. |
| ConfigLines.ReadContinued | switchflow/util/config_file.cpp:121-202 | Reading a file that begins so applies that entry and then reads the rest. |
| ConfigLines.ReadOneValue | switchflow/util/config_file.cpp:121-233 | A value spread over any number of lines is found under its key. |
| ConfigLines.JoinedAt | switchflow/util/config_file.cpp:175-178 | Each continuation line is in its own place in the value. |
| ConfigLines.ScanKeyless | switchflow/util/config_file.cpp:146-151 | A line without an equals sign before its comment is passed over. |
| ConfigLines.TrimIff | switchflow/util/config_file.cpp:111-117 | Trimming leaves exactly what is between the outer white space. |
| ConfigLines.MarksOfLines | switchflow/util/config_file.cpp:40-47 | Subscripts, members, assignments and comments are marked as the source marks them. |
| ConfigLines.IndexIff | switchflow/util/config_file.cpp:273-298 | A subscript is read as n if and only if it is a decimal numeral of n. |
| ConfigLines.DecimalIsLiteral | switchflow/util/config_file.cpp:84-87 | A written index has the places of its number in decimal digits, and nothing before them. |
| ConfigLines.BeforeIff | switchflow/util/config_file.cpp:62-70 | Names are written in lexicographic order. |
| ConfigFiles.Continue | switchflow/util/config_file.cpp:121-202 | Gathers the lines that continue a value and gives back the one line read too many. |
| ConfigFiles.ReadLines | switchflow/util/config_file.cpp:121-202 | Reading the lines written for any plain leaves assigns exactly those leaves. |
| ConfigFiles.AnyOrder | switchflow/util/config_file.cpp:204-233 | Lines that assign to diverging paths give the same contents in every order. |
| ConfigText.ParseKeyAssigns | switchflow/util/config_file.cpp:204-233 | The recursive descent over a key is assignment to the path the key names, or fails exactly when the key names none. |
| ConfigText.PathRoundTrip | switchflow/util/config_file.cpp:74-100 | A written path reads back as itself, decimal indices included. |
| ConfigText.Decimal | switchflow/util/config_file.cpp:87-91 | A printed index parses back to the same number. |
| ConfigOrder.OrderFree | switchflow/util/config_file.cpp:204-233 | Assignments to pairwise diverging paths give the same tree in every order. |
| ConfigOrder.EveryLineIsFound | switchflow/util/config_file.cpp:204-233 | After any number of diverging assignments, on any earlier tree, each one can be looked up. |
| ConfigOrder.LookupAssigned | switchflow/util/config_file.cpp:323-353 | What was assigned to a path is found there. |
| ConfigOrder.LookupElsewhere | switchflow/util/config_file.cpp:204-233 | In a tree without leftover storage, assigning a path changes the lookup of no diverging path. |
| ConfigOrder.LookupElsewhereIff | switchflow/util/config_file.cpp:204-233 | In any tree, assigning a path leaves the lookup of a diverging path as it was if and only if that path already found a value, or there is none of an earlier kind behind it. |
| ConfigOrder.LookupIsBehind | switchflow/util/config_file.cpp:204-233 | After an assignment any diverging path finds what the storage holds behind the kinds. |
| ConfigOrder.TidyKeptIff | switchflow/util/config_file.cpp:204-233 | In a tree without leftover storage, an assignment leaves none behind if and only if it turns no array and no record into something else. |
| ConfigOrder.FilledKept | switchflow/util/config_file.cpp:204-233 | Assignments never leave an empty array or record, so the condition of the previous row holds of every tree that was read. |
| ConfigOrder.StaleMemberReturns | switchflow/util/config_file.cpp:204-233 | A concrete run in which a hidden member reappears after a change of kind. |
| ConfigTree.Rebuild | switchflow/util/config_file.cpp:204-233 | Assigning the leaves of a whole tree to a fresh value rebuilds the tree. |
| ObjectPools.PessimisticMemoryManager.AllocateElement | switchflow/util/pessimistic_memory_manager.hpp:78-85 | Hands out an object nobody holds; none if and only if all are held. |
| ObjectPools.PessimisticMemoryManager.ReleaseElement | switchflow/util/pessimistic_memory_manager.hpp:93-97 | Takes any held object back, in any order, keeping the free slots exactly the objects not held, each once. |
| ObjectPools.PessimisticMemoryManager.PositionCounts | switchflow/util/pessimistic_memory_manager.hpp:104-113 | The free position is the number of objects held. |
| ObjectPools.Serve | switchflow/util/pessimistic_memory_manager.hpp:78-97 | In any series of requests no object is handed out a second time before it was given back, and a request is turned down only when every object is held. |
| PooledRuns.RunAll | switchflow/util/pooled_list.hpp:154-214 | Any series of operations on any number of lists of one pool does to their contents what it does to plain sequences, every block stays in exactly one place, and lengths plus free blocks stay the pool size. |
| PooledRuns.StartAndRun | switchflow/util/pooled_list.hpp:95-132 | The same from the construction of a pool and any number of empty lists. |
| PooledRuns.NoneHoldsFree | switchflow/util/pooled_list.hpp:154-165 | While lists share a pool, none of them holds a free block. |
| PooledLists.PooledList.InsertRange | switchflow/util/pooled_list.hpp:167-172 | Inserts a range in order, or, when the pool runs out, exactly as much of it as there were free blocks. |
| PooledLists.PooledList.EraseRange | switchflow/util/pooled_list.hpp:204-209 | Removes exactly the range and returns its blocks. |
| PooledLists.PooledList.RemoveIf | switchflow/util/pooled_list.hpp:338-352 | Leaves the elements the predicate spares, in order. |
| PooledLists.PooledList.Unique | switchflow/util/pooled_list.hpp:424-445 | Drops every element related to the last one left before it. |
| PooledLists.PooledList.Resize | switchflow/util/pooled_list.hpp:360-373 | Cuts or pads to the given length, as far as the pool goes. |
| PooledLists.KeptIsExact | switchflow/util/pooled_list.hpp:338-352 | Removal keeps each spared value as often as it occurs and no other. |
| PooledLists.KeptInOrder | switchflow/util/pooled_list.hpp:338-352 | What is left after removing stands in the order it stood in before. |
| PooledLists.CollapsedIsApart | switchflow/util/pooled_list.hpp:424-445 | After `unique` no two neighbours are related. |
| PooledLists.CollapsedTwice | switchflow/util/pooled_list.hpp:424-445 | A second `unique` changes nothing. |

## Left out

- Folded header lines: `parse_headers` calls the value receiver a second time for them and runs into a failed check, so streams that contain one are excluded by a precondition.
- Bodies that end with the connection: `end_connection_body_parser` passes bytes through without a frame, so a stream that announces one is excluded by the same precondition.
- `LOOSE` parsing in `header_parser`: only the default `STRICT` option is modelled. `StartLines` models both.
- `read` and `write` are finite scripts of outcomes, followed by `EAGAIN`; a `write` that accepts nothing and an interrupted call are retried as in the code.
- The pipeline queue is a number of slots: free places for requests, forwarded requests at its head for responses. What the other direction does to it arrives as events, and its depth is not bounded. Spinning is reported as an outcome instead of being run.
- HEAD requests, denied requests, error responses, host rules, request post-processing, logging, and the just-in-time connection to the server.
- `flush`, `cork`, peer addresses, descriptors, timeouts and the poller.
- The header cache: field buffers are new objects, and the cache never runs empty.
- `atoi` wraps modulo 2^32 here, where the behaviour of C is undefined. The buffer that receives the terminating zero is taken to have room for it.
- Bytes above 127 count as control characters, as they do where `char` is signed.
- StartLines.ParsePieces: the receiver accepts every piece. The original discards a refusal by the receiver when it returns the scan's status (start_line_parser.cpp:90-92). The name `OVERFLOW` it compares with is the constant of `math.h`, equal to `INVALID`, so a token beyond the limit hands the receiver an empty piece; the model does the same.
- MessageBuffers.MessageBuffer.GetConstBuffers: requires that nothing of the message has been written yet, since the views are wrong afterwards.
- The separate storage of a value's kinds in `config_file.cpp` is modelled by value; `parse_key`, `trim` and `dump` are functions rather than updates in place, so aliasing between values is not captured. `std::map` iteration is a recursion over the smallest name.
- Configuration lines end with a newline: for a file without a final newline the original repeats its last continuation line. A malformed index gives no result, where the original uses an uninitialised number. `lexical_cast` accepts digits only.
- `queue::depth`, destruction of the queue, and spurious failures of its mutex.
- `sort`, `merge`, `reverse`, `assign`, `swap`, partial `splice` and the comparisons of `pooled_list`, and destruction of pools and elements. Iterators are positions.
- `line_parser`, `url.cpp`, `uri_query_parser.cpp`, the asio client, options, logger and start-up code.
