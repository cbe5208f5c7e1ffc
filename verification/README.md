# A Dafny model of the Reason HTTP server on libuv

The repository is a small HTTP/1.1 server written in Reason on C bindings to libuv. This project models
its two parts that keep state and proves what they do over whole runs.

**The HTTP layer** (`src/Http.re`). A connection has one response record (`Response.ResT`), which user code
changes and writes to, and one set of parser callbacks (`RequestParser.Callbacks`), which collect a request,
hand it to user code and dispatch body events to the handlers registered at that moment. User code is an
arbitrary `App<S>`: its closures share a state of any type `S` and answer every call with a list of
operations on the response. The operations carry the readings of the clock, so the clock is arbitrary too.
The methods of the classes are proved against pure functions (`Response.Apply`, `RequestParser.EventStep`,
`Server.Happen`), and the laws are proved about these.

**The bindings** (`src/libuv_c.c`). `Uv` is a transition system over a heap of blocks. libuv is its
environment: it accepts or refuses each submission, owes one callback for each accepted one, and chooses
which callback comes next. `Uv.Enabled` states what is assumed of the callers, of the allocator and of libuv.
`UvBindings.Loop` runs the same steps statement by statement, with a `Free` that asks for a live block.

| file | content |
|---|---|
| `Text`, `Numerals` | string helpers; printing and parsing of numbers |
| `Chunked` | the chunked transfer coding of section 4.1 of RFC 7230: printer, decoder, byte-fed decoder |
| `HttpDate`, `HeaderBlock` | the `Date` text; the header block and a reader for it |
| `Response`, `WriterLaws`, `ResponseLaws` | the response record, its fields over a history, and everything a connection sends |
| `RequestParser`, `RequestLaws` | the parser callbacks and what user code is told |
| `HeaderPieces` | header lines and URLs that arrive in pieces |
| `Server`, `Echo`, `StaticFiles` | many connections; the echo handler; the static file server |
| `Uv`, `UvLaws`, `UvRuns`, `UvBindings` | the lifecycle of handles, requests and buffers |
| `UvHistory` | open handles, stored callbacks and received data as functions of the calls made |
| `EndToEnd`, `Conversations` | the HTTP layer on top of the bindings; every conversation has a run |

Main results: the output of a connection is one header block and the framed messages, for every history
(`WriterLaws.WriterRefinement`); a client reads the messages up to the first empty one, and all of the text
exactly when nothing else follows an empty one (`Chunked.DecodeEncode`, `Chunked.NothingLostIff`); a decoder
fed byte by byte in any segments agrees with the decoder of whole strings on every input
(`Chunked.MachineRefinesDecode`); headers read back exactly under a stated condition
(`HeaderBlock.BlockRoundTrip`); user code is called once for each delivery, in order, through the handler registered
at that moment (`RequestLaws.ExactlyOnceInOrder`); a connection of the server is what its own parser callbacks make of
a new one, whatever happens on the others, until one of them ends the loop (`Server.ConnectionRuns`,
`Server.LoopEndsIff`); every live block has one owner in every run, and their number follows
from the calls made (`UvRuns.Conservation`, `UvRuns.LiveBlocksCounted`); the strings sent on the stream of a connection
are at every moment among those the HTTP layer wrote, whole and in order, and their bytes are a prefix of its output
when refusals come last; its handle is live at every call (`EndToEnd.WireDelivered`); an echoed body is sent whole
(`EndToEnd.EchoDelivered`); and every conversation takes place in some run, with all of its output sent
(`Conversations.Conversation`). `WireDelivered` and `EchoDelivered` hold for every connection of every run, also on a
block that was the handle of earlier ones.

What the proofs say that the code does not make obvious:

- An empty `write` is a body terminator. `Chunked.NothingLostIff` says exactly when text is lost by it; an
  empty file served by `ExampleStatic` leaves one terminator unread (`StaticFiles.FileServed`).
- Ending a connection shuts it down in any framing, also when nothing marks the end of the body
  (`ResponseLaws.EveryEndShutsDown`).
- The framing is read again at every write. It agrees with the header block exactly when no message follows a
  change of `Transfer-Encoding` to or from "chunked" (`WriterLaws.FramingAgreement`).
- Header accumulators are never cleared, so the map of a later request also has the headers of the earlier
  ones, and theirs win (`RequestLaws.KeepAliveAccumulates`).
- Pieces of header names and values are not joined. Piece k of the names is bound to piece k of the values, whichever
  lines they belong to (`HeaderPieces.PiecesTold`). The request is lost, because `fold_left2` raises, exactly when the
  two numbers of callbacks so far differ (`HeaderPieces.RaisesIff`); when a name and a value are both cut they can be
  equal, and then user code is told headers that were not sent (`HeaderPieces.SilentMispairing`). When the names sent
  are different, user code is told the request that was sent exactly when no line was cut (`HeaderPieces.SentTold`);
  a name sent twice can hide a cut (`HeaderPieces.HiddenCut`).
- Of a URL only the last piece is kept; it is the URL sent exactly when the pieces before it are empty
  (`HeaderPieces.UrlTold`).
- An exception in a callback ends the loop for all connections. Whatever user code does, that happens exactly when some
  accepted connection completes its headers with field callbacks that are not as many as its value callbacks since it
  was accepted (`Server.LoopEndsIff`).
- The day of the `Date` text has no leading zero, so the text is not an IMF-fixdate on the first nine days of a
  month (`HttpDate.ImfFixdateIff`).
- Blocks of refused submissions are never freed, neither is the block that each call of `uv_run_ocaml` allocates
  (`UvRuns.LeftAtRest`). The handles never closed, such as the listening one, are exactly those of which no shutdown
  was accepted since they were made (`UvHistory.OpenIff`).

Where the code and its comments differ: the comment at `src/libuv_c.c:84` speaks of an empty string at the end
of a stream, while the code passes a negative length, which has no defined result. The model hands user code
the empty string. The comment also says that this closes the connection; the code does not, and neither does
the model.

A `string` stands for an OCaml string, one `char` for a byte; the laws hold for all characters.

## Model

| member | source | states |
|---|---|---|
| Numerals.NumeralRoundTrip | src/Http.re:122 | parsing upper-case hexadecimal (or decimal) inverts printing, for every natural number |
| Numerals.NumeralDigits | src/Http.re:122 | only digits of the base are printed, letters in upper case |
| Numerals.NumeralLength | src/Http.re:122 | the number of digits d: 1 at zero, otherwise base^(d-1) <= n < base^d |
| Numerals.FormatIntRoundTrip | src/Http.re:103 | `string_of_int` and `%d` can be read back for every integer, negative ones included |
| Numerals.FormatInt2RoundTrip | src/Http.re:86 | `%02d` can be read back for every integer |
| Chunked.DecodeChunk | src/Http.re:119-125 | one framed message before any input: a non-empty one is a chunk, the empty one is exactly the end of the body |
| Chunked.DecodeEncode | src/Http.re:119-125 | the early-termination law: decoding gives the messages before the first empty one and leaves the encoding of those after it |
| Chunked.RoundTrip | src/Http.re:119-141 | non-empty messages and the final empty one decode to exactly these messages, every byte consumed |
| Chunked.NothingLostIff | src/Http.re:119-125 | a client gets the whole text if and only if only empty messages follow the first empty one |
| Chunked.MachineRefinesDecode | src/Http.re:122 | on every input, well-formed or not, a decoder fed byte by byte shows what the decoder of whole strings returns |
| Chunked.Segmentation | src/Http.re:126 | feeding segments is feeding their concatenation |
| Chunked.SegmentedRoundTrip | src/Http.re:119-141 | the round trip holds for a recipient that sees the bytes in any segments |
| Chunked.EncodedSize | src/Http.re:122 | the output has the length of each message plus its hexadecimal digits plus 4, with the digit count characterised |
| HttpDate.DateRoundTrip | src/Http.re:69-95 | weekday, day, month, year and time can be read back, by the names of the grammar of RFC 7231, for every date whose weekday and month are in the tables |
| HttpDate.ImfFixdateIff | src/Http.re:67-95 | the text is an IMF-fixdate if and only if the day is at least 10 and the year has four digits |
| HeaderBlock.BindingsOf | src/Http.re:109-114 | map iteration visits every binding once, by strictly increasing key |
| HeaderBlock.FoldLines | src/Http.re:109-114 | the fold over the headers prints their lines in decreasing order of names before the empty line |
| HeaderBlock.BlockRoundTrip | src/Http.re:101-115 | reading the block gives status, content type, date and header lines, and leaves the body, if and only if no name has LF or ": " and no value has LF or ends in CR |
| HeaderBlock.SentFieldsGiveHeaders | src/Http.re:109-114 | the header lines give back exactly the header map, for every size |
| Response.ResT.constructor | src/Http.re:161-173 | the response of a new connection: status 200, text/plain, chunked, keep-alive, no handlers |
| Response.ResT.Write | src/Http.re:97-127 | headers are sent once, from the state at the first write; the framing is the one in force now; one `uv_write` |
| Response.ResT.SetHeader | src/Http.re:129-130 | one binding of the header map changes, nothing is sent; what that means over a history is `ResponseLaws.FieldsOfHistory` |
| Response.ResT.On | src/Http.re:132-136 | one handler is replaced, nothing is sent |
| Response.ResT.EndConnection | src/Http.re:138-141 | an empty message, then a shutdown, in any framing; over a history this is `ResponseLaws.CallsMade` |
| Response.ApplyAllAppend | src/Http.re:97-141 | a history can be cut anywhere: the second part goes on from the state the first one left |
| ResponseLaws.FieldsOfHistory | src/Http.re:97-141 | after any history every header has the value set last for it or the one it had, status and type are those set last, and nothing else changes them |
| ResponseLaws.HeadSent | src/Http.re:97-118 | in any framing a client parses the status, reason, type and headers set last before the first message, the default headers that were not set, and no field twice |
| ResponseLaws.InitialText | src/Http.re:101-115 | the exact text of a head with the default headers |
| ResponseLaws.CallsMade | src/Http.re:97-141 | the exact list of transport calls of any history, in any framing: each write with its bytes, the header block in the first, a shutdown right after the empty message of each end |
| ResponseLaws.EveryEndShutsDown | src/Http.re:138-141 | in any framing there are as many shutdowns as ends, each directly after a write |
| WriterLaws.WriterRefinement | src/Http.re:97-141 | for every history the total output is one header block from the state at the first message, then the framed messages |
| WriterLaws.LaterChangesInvisible | src/Http.re:98-125 | after the headers are sent, histories that differ in status, content type, handlers, readings of the clock and headers other than Transfer-Encoding send the same bytes |
| WriterLaws.FramingAgreement | src/Http.re:98-125 | all messages use the framing declared in the header block if and only if none follows a change of it |
| WriterLaws.ShutdownAfterTerminator | src/Http.re:138-141 | while chunked, every end shuts the stream down once, right after the terminator has been written |
| WriterLaws.HeadRead | src/Http.re:97-118 | in front of any body and at any time, the headers of a response read back with the body left over if and only if its content type, names and values are clean |
| WriterLaws.ClientReads | src/Http.re:97-141 | a client parses status, fields in order and body from the output, whatever follows it, and decodes the messages up to the first empty one |
| RequestParser.Callbacks.constructor | src/Http.re:27-30 | a new connection has an empty URL and empty accumulators |
| RequestParser.Callbacks.OnHeadersComplete | src/Http.re:37-50 | the request is delivered if and only if there are as many fields as values |
| RequestParser.Callbacks.OnBody | src/Http.re:51 | a fragment goes to the handler registered now, and its operations are done |
| RequestParser.Callbacks.OnMessageComplete | src/Http.re:52-55 | the end goes to the handler registered now, and its operations are done |
| RequestParser.Callbacks.Handle | src/Http.re:31-56 | what each parser callback does to the references and the response |
| RequestParser.FoldLeft2Defined | src/Http.re:40-46 | `fold_left2` is defined if and only if the lists have one length |
| RequestParser.FoldOfLines | src/Http.re:40-46 | folding the reversed accumulators is the map in which earlier lines overwrite later ones |
| RequestParser.FieldMapBindsFirst | src/Http.re:35-46 | that map has exactly the received names, each with the value of its first line |
| RequestParser.BindsFirstUnique | src/Http.re:35-46 | only one map binds every name to its first value |
| RequestLaws.ExactlyOnceInOrder | src/Http.re:31-56 | for every trace and every user code: what is due is delivered once and in order; the state of user code and its operations are those of calling it once for each delivery with its content; each handler called is the one registered last at that moment |
| RequestLaws.LastRegistered | src/Http.re:132-136 | the handlers in force are the last ones registered in the history |
| RequestLaws.RunFaithful | src/Http.re:51-55 | every step keeps it: the calls of user code so far are exactly the deliveries, each to the handler registered last by the calls before it, and response and output are those of the operations they returned |
| RequestLaws.WholeCallbacksPair | src/Http.re:35-46 | with whole fields and values in turn the counts differ by 0 or 1, each name is beside its own value, and nothing raises |
| RequestLaws.RequestsTold | src/Http.re:28-56 | on a connection, user code is called for each message with its request, then its fragments, then its end, and for nothing else |
| RequestLaws.FirstOccurrenceWins | src/Http.re:28-47 | the first call of user code gets exactly the received names, each bound to its earliest value, and its operations come first |
| RequestLaws.KeepAliveAccumulates | src/Http.re:28-47 | the map that call n gets has the new names of message n added to the map of call n-1 and none changed; it has just its own headers if and only if the earlier ones are among them |
| HeaderPieces.RaisesIff | src/Http.re:35-46 | in any trace, `fold_left2` raises if and only if at some end of headers the field callbacks so far are not as many as the value callbacks |
| HeaderPieces.AnyHeaders | src/Http.re:33-48 | after any trace on a connection the next request pairs the k-th field text with the k-th value text, or raises |
| HeaderPieces.PiecesTold | src/Http.re:33-48 | the first request when its lines arrive in any pieces, as a function of the pieces |
| HeaderPieces.PiecesAreLinesIff | src/Http.re:35-46 | the list of paired pieces is the list of the lines sent if and only if no line was cut |
| HeaderPieces.PiecesMapIff | src/Http.re:35-46 | when the names sent are different and not empty, the pieces give the map of the lines sent if and only if no line was cut |
| HeaderPieces.SentTold | src/Http.re:33-48 | for such lines user code is told the request that was sent if and only if no line was cut |
| HeaderPieces.HiddenCut | src/Http.re:35-46 | a second line of a name, cut into the names of earlier lines, leaves the map as it was sent |
| HeaderPieces.WholeLinesTold | src/Http.re:33-48 | when no line was cut, user code is told the lines that were sent, each name with its first value |
| HeaderPieces.SplitValueRaises | src/Http.re:35-46 | when names are whole, the request is lost if and only if some value is cut |
| HeaderPieces.SilentMispairing | src/Http.re:35-46 | a line cut in its name and in its value is delivered as two headers that were not sent |
| HeaderPieces.UrlTold | src/Http.re:33-39 | the URL of every request is the one sent if and only if all pieces before the last are empty; without a piece it is that of the request before |
| Server.Isolation | src/Http.re:158-189 | under any interleaving a connection ends as if only its own events had happened, up to an exception that ends the loop |
| Server.ConnectionRuns | src/Http.re:158-189 | in every run a connection is what its parser callbacks since it was accepted make of a new response and new references; a refused one is a handle that was shut down; nothing else is a connection |
| Server.LoopEndsIff | src/Http.re:33-47 | for every user code, an exception ends the loop of all connections if and only if some accepted connection completes its headers with field callbacks that are not as many as its value callbacks since it was accepted |
| Server.StopsIff | src/libuv_c.c:97-99 | so the loop ends if and only if the happenings of one connection alone would end it |
| Server.OrderDoesNotMatter | src/Http.re:158-189 | interleavings of the same events of each connection all end the loop or none does, and then they end in the same state |
| Server.HttpServer.OnConnection | src/Http.re:158-188 | an accepted connection gets its own response and references; a refused one is shut down; the others do not change |
| Server.HttpServer.OnEvent | src/Http.re:177-184 | a parser callback changes its own connection and no other, and an exception stops the server |
| Echo.EchoOutput | src/Http.re:51-55 | for any messages on a connection: one header block, the fragments of every message and its terminator, nothing else |
| Echo.EchoRoundTrip | test.js:9-10 | the first response body decodes to exactly the fragments of the request body; the later replies are handed to the transport behind it |
| Echo.EchoIgnoresFragments | test.js:9-10 | two ways of cutting one body get replies that decode to the same text |
| StaticFiles.ReadFileLaw | src/ExampleStatic.re:2-10 | a file is read back but for one line feed at its end |
| StaticFiles.ContentTypeOfExtension | src/ExampleStatic.re:12-26 | the text after the last dot decides the type; without a dot it is text/plain |
| StaticFiles.ContentTypeOfEnd | src/ExampleStatic.re:12-26 | the type goes by the end of the name, and is text/plain if and only if it has none of the five known ends |
| StaticFiles.MessageAnswered | src/ExampleStatic.re:28-43 | all that the server does for the first message of a connection is the answer to its URL |
| StaticFiles.FileServed | src/ExampleStatic.re:28-43 | for a URL that ends in a slash a client gets the index page there, for any other the file of that name: status, type, the four header fields and the text without its last line feed, or 404; for an empty body one terminator stays unread; for an empty URL nothing is sent |
| UvLaws.SoleOwner | src/libuv_c.c:51-101 | a block that a callback will free is live and belongs to nothing else |
| UvLaws.StepKeepsInv | src/libuv_c.c:51-196 | every step of the bindings and of libuv keeps one owner for each live block and the kinds that the callbacks expect |
| UvRuns.Conservation | src/libuv_c.c:51-196 | in every run the live blocks are exactly the open handles, the blocks of owed callbacks, those of refused submissions and those of `uv_run_ocaml`, each once |
| UvRuns.LiveBlocksCounted | src/libuv_c.c:51-196 | in every run the number of live blocks is that left by the calls made so far plus that of the owed callbacks |
| UvRuns.FreesAreExact | src/libuv_c.c:51-101 | callbacks free only live blocks, none twice, and blocks disappear in no other way |
| UvRuns.LeftAtRest | src/libuv_c.c:124-196 | when no callback is owed, the live blocks are the open handles, those of refused submissions and one for each `uv_run_ocaml`; besides handles and these there are none if and only if nothing was refused |
| UvRuns.OpenStays | src/Http.re:155-191 | a handle without an accepted shutdown, such as the listening one, stays open in every run |
| UvHistory.OpenIff | src/libuv_c.c:51-152 | in every run a handle is open with no shutdown owed if and only if none was accepted since its block was last made a handle; at rest these are all the open handles |
| UvHistory.CallbackIff | src/libuv_c.c:77-98 | when data are handed over, the handle has a callback if and only if one was stored by `request_on` or `request` since it was made |
| UvHistory.HandedInOrder | src/libuv_c.c:77-101 | user code is handed the data of every read of a stream once and in order, and an empty string at the end |
| UvHistory.AllocGives | src/libuv_c.c:71-75 | a read gets a new buffer of the suggested size, all zeros |
| UvHistory.ReadHandsOver | src/libuv_c.c:77-101 | after the data were handed over the buffer holds them, can be freed next on every path, and cannot be handed over again |
| UvHistory.ReadsSettled | src/libuv_c.c:71-101 | in every run each buffer allocated for a read was handed over once and freed once, but for the read that is owed with it now |
| UvRuns.DeliveredInOrder | src/libuv_c.c:183-196 | on every stream the bytes sent are, in order and unchanged, a prefix of those accepted, and all of them when no write is owed, as when the stream closes |
| UvRuns.BufferStep | src/libuv_c.c:63-69 | a buffer in flight keeps its bytes and its owner through every step until its own write completes or is refused |
| UvRuns.ConnectBufferKept | src/libuv_c.c:332-337 | the buffer of a connect keeps its bytes and exactly one owner in every run until it is settled |
| UvRuns.Handover | src/libuv_c.c:262-271 | the connect callback moves the buffer unchanged to the write request, its only owner, and frees the connect request |
| UvBindings.Loop.UvRun | src/libuv_c.c:175-181 | a block is allocated that no callback will free |
| UvBindings.Loop.UvTcpInit | src/libuv_c.c:142-152 | a new open handle |
| UvBindings.Loop.RequestOn | src/libuv_c.c:199-205 | the callback is stored in the handle |
| UvBindings.Loop.UvWrite | src/libuv_c.c:183-196 | a copy of the string and a request that points to it, submitted or lost |
| UvBindings.Loop.WriteCb | src/libuv_c.c:63-69 | the buffer found through the request and the request are freed |
| UvBindings.Loop.UvShutdown | src/libuv_c.c:124-131 | a shutdown request, submitted or lost |
| UvBindings.Loop.ShutdownCb | src/libuv_c.c:58-61 | the handle is closed and the request freed |
| UvBindings.Loop.CloseCb | src/libuv_c.c:51-56 | the handle is freed |
| UvBindings.Loop.AllocCb | src/libuv_c.c:71-75 | a zeroed read buffer |
| UvBindings.Loop.ReadCb | src/libuv_c.c:77-99 | user code gets the bytes read, an empty string at the end or on errors, and no call when nothing was read |
| UvBindings.Loop.ReadCbFree | src/libuv_c.c:86-101 | the read buffer is freed once, on each of the three paths |
| UvBindings.Loop.Request | src/libuv_c.c:329-338 | the callback is stored in the handle; a copy of the request text and a connect request that holds it, submitted or lost |
| UvBindings.Loop.ClientConnectCb | src/libuv_c.c:262-272 | the success path of the connect callback |
| EndToEnd.CallsAllowed | src/libuv_c.c:77-99 | user code that is called with data of a stream finds its handle open and live at every call it makes on it |
| EndToEnd.WireDelivered | src/Http.re:126-140 | at every moment in the life of every connection, whatever its block was before, the strings sent on its stream are among those the HTTP layer wrote, whole and in order; their bytes are a prefix of its output unless libuv took a write after refusing one, and all of it when it refused none and no write is owed |
| EndToEnd.EchoDelivered | src/Http.re:51-55 | on every connection, once libuv has taken and completed the writes of the first reply, whatever came before, comes later or is still owed, the bytes sent decode to the fragments of the request, received in any segments |
| Conversations.Conversation | src/Http.re:27-189 | for every user code and all parser callbacks there is a run in which they occur on a connection, exactly the output is sent, and the stream is closing in the end if and only if it was shut down |

## Left out

- libuv and the kernel: an environment constrained by `Uv.Enabled` (one callback for each accepted submission, writes of a stream in order, shutdown when nothing else is owed).
- The HTTP parser: its library is not part of this model; its callbacks are event traces.
- Server.Isolation: an exception stops the server, as it leaves `uv_run`; what a program that catches it does next is not described. The read buffer that `read_cb` does not free then stays among the owed ones in `Uv`. The laws of one connection hold for all traces, also for those that go on after an exception.
- UvBindings.Loop.ClientConnectCb: only the path of a successful connect; the other path reads the request after freeing it, so that ownership does not hold there.
- UvBindings.Loop.UvWrite: a handle is used only while it is allocated; the binding does not check this, and a write to a freed handle has no defined result. `EndToEnd.CallsAllowed` proves it for calls made while data of the stream are handed over; for calls from elsewhere, such as a response kept by user code, it is assumed.
- UvBindings.Loop.ReadCb: the length at the end of a stream is taken as zero, as its comment says.
- Response.ResT.Write: the time is an input, so reading the clock and converting it are not described.
- EndToEnd.WireDelivered: the life of a connection ends when its block is handed out again; what is sent on it then is the next connection's. Whether a client has received what was sent is up to the network.
- StaticFiles.FileServed: the file system is a map from paths to contents; failures while a file is being read are not described, and for an empty URL the handler raises before it does anything.
- Server.OrderDoesNotMatter: every connection has its own user state; closures that share state between connections are not described.
- RequestParser.Callbacks.Deliver: exceptions raised by user code are not described.
- A failed allocation, which the bindings do not handle.
- The marshalling of the parser bindings, garbage-collector roots and finalisers.
- Name resolution, the timer and address parsing of `request`, `listen`, and logging.
