# A verified model of the FastCGI library, its CGI bridge and the TCP service

The repository holds a FastCGI application library (`fcgi/fcgi`), a CGI-to-FastCGI bridge
built on it, and a small TCP service with segmented buffers and task pipes (`webserver`).
This project models their protocol code in Dafny and proves what it is for. To verify it,
run `dafny verify dfyconfig.toml` in this directory.

Each imperative part of the C and C++ code is a class or method with the same fields,
branches and loops, proved against a flat specification; the laws are then proved about
that specification.

**The stream reader.** `Reader.Reader` is the re-entrant state machine behind
`FCGX_GetChar`, `FCGX_GetStr` and `ReadParams`. Its specification is the *future* of a
stream (module `Scan`): the bytes the client will still get, the replies that will be
written meanwhile, which of them only after which byte, and the end, as a function of the
unread bytes alone, with no buffer and no reads. `FillBuff` keeps the future, and the client
operations take from its front, so the result is the same for every cutting of the input,
malformed input included. `Delivery` then says what the future of a sequence of records is.

**The stream writer.** `Writer.Writer` frames bytes in place and is proved equal to the
pure `Framing`. `Output` is the machine of both writers of a request, with laws over every
interleaving of calls.

**A whole request.** `Accept` covers `FCGX_Accept_r`, `FCGX_Finish_r` and
`FCGX_StartFilterData`; `Session` is what a client then does with the request, reading and
writing in any order until `FCGX_Finish_r`; `Environment` and `RoundTrip` close the loop
between writer and reader; `Alignment` and `CutOff` are about streams that end badly. `WireBytes`
shows whole exchanges byte for byte.

**The bridge.** `BridgeOutput`, `BridgeInput`, `AsyncIo` and `BridgeLoop` are the event
handlers of `cgi-fcgi.c` over the asynchronous I/O table; `Demux` is their flat
specification, and `BridgeRun` puts the event loop in front of an application.

**The TCP service.** `Buffers` refines a list of segments to one byte string, `Packets` and
`TcpConnection` parse packets out of it and send responses from it, `Pipes` is the queue
between two threads at byte level, `PartialWrites` what happens to it when the kernel takes
a part of a write, `Binding` decides where such queues are needed, and
`Routing` is the path of tasks through any number of them and back.

## Where the code falls short

Some promises hold only under a condition. The code is modelled as it is, and the exact
condition is proved.

- An empty record of a foreign request is not invisible: the skip flag stays set and the
  client's next content is swallowed (`Delivery.ForeignInvisible`, `Delivery.SwallowedByte`).
- GET_VALUES goes unanswered, and the stream fails, when nothing follows it
  (`Delivery.ValuesQueryPasses`). Asking for known variables more than three times in all
  overruns the 64-byte reply, and exactly then (`Delivery.ReplyFits`,
  `Delivery.FourTimesOverruns`); the future is undefined from there.
- The content of other management records leaks into the client's stream
  (`Delivery.OtherManagementPasses`).
- Padding of an end-of-stream record is read as records of the request's next stream, and
  misaligns it unless it happens to be silent (`Alignment.NextStreamAligned`); padding of
  less than 8 bytes always does (`Alignment.PaddingMisaligns`).
- `FCGX_Accept_r` accepts a request whose parameters never ended, exactly when their stream
  fails, for whatever reason, behind content that parses (`CutOff.UnendedAccepted`). So every
  failure between two pairs is accepted: the connection breaks off
  (`CutOff.CutOffBetweenPairs`, `Accept.BrokenOffAccepted`), or a record of another stream, a
  malformed BEGIN_REQUEST or GET_VALUES or a header of another version stands in place of the
  end record (`CutOff.GoneWrongAccepted`, `CutOff.StdinEndsParameters`).
- A packet with an empty body blocks its connection for good (`Packets.DeliveredIffBody`).
- Once everything is written, output stays enabled exactly when the last response had an
  empty body: its empty segment stays in the send list
  (`TcpConnection.SendSide.OutputNotify`, `TcpConnection.EmptyResponseStays`).
- After a partial write of the pipe the writer can fail in four ways, each under its exact
  condition and at an input (module `PartialWrites`): a push on a full buffer repeats an
  element, or an element runs past a buffer with an uneven end (`Pipes.StoreConserves`); the
  next write takes other bytes than the pending ones (`Pipes.WriteConserves`), or reads past
  the buffer (`Pipes.WriteInReach`). A read that completes no element hands out garbage
  (`Pipes.QueueReader.Pop`). The queue assumes that a write takes all or nothing
  (`Pipes.QueueWriter.PushAligned`), as POSIX promises for writes of at most `PIPE_BUF`
  bytes; the buffer can hold more than that.

The bridge relies on headers and END_REQUEST bodies arriving whole
(`BridgeOutput.Receiver.Whole`), because it continues a partial copy at an offset counted
in whole structs. It also needs 8 free bytes for the EOF record when the last announced
bytes of standard input arrive. Both are preconditions of the handlers and of the choices
in `BridgeLoop.Bridge.Run`.

## Model

| member | source | states |
|---|---|---|
| `Protocol.HeaderRoundTrip` | fcgi/fcgi/src/fcgiapp.c:1201-1219 | A header made for any type, any id and content length below 65536 and any padding below 256 parses back to exactly those fields, and has id and length in network byte order at bytes 2 and 4 |
| `Protocol.AlignInt8` | fcgi/fcgi/src/fcgiapp.c:1272-1274 | The smallest multiple of 8 not below the argument |
| `Protocol.BufferSize` | fcgi/fcgi/src/fcgiapp.c:1768-1779 | For every requested length and either alignment of malloc: the length asked for, at least 32 and at most 65536, rounded up to a multiple of 8, less 8 when malloc did not align the buffer |
| `Protocol.DecodeEncode` | fcgi/fcgi/include/fastcgi.h:23-34 | A byte string made of encoded records is a sequence of whole records in exactly one way: decoding gives the same records |
| `Pairs.LengthRoundTrip` | fcgi/fcgi/src/cgi-fcgi.c:553-579 | The 1-byte and 4-byte forms of a length are read back by ReadParams' arithmetic, for every length below 2^31 and whatever follows |
| `Pairs.PairsRoundTrip` | fcgi/fcgi/src/fcgiapp.c:1138-1190 | Any list of pairs with lengths below 2^31 encodes to bytes that ReadParams' parser turns into the same name=value strings, in order |
| `Pairs.FindIsValueOf` | fcgi/fcgi/src/fcgiapp.c:1103-1118 | Searching the environment strings for a name gives the value of the first pair of that name, provided no name contains an equals sign |
| `Connection.Connection.Read` | fcgi/fcgi/src/os_unix.c:457-461 | A read takes an arbitrary non-empty front part of the remaining input that fits the buffer, and nothing only at the end of input |
| `Connection.Connection.WriteAll` | fcgi/fcgi/src/fcgiapp.c:1362-1374 | Under arbitrary short writes, exactly the bytes given are sent, once and in order, and the loop ends |
| `Reader.Params.Put` | fcgi/fcgi/src/fcgiapp.c:1076-1088 | The string is appended, whether or not the vector doubles, and a slot is always kept for the terminating NULL |
| `Reader.Params.GetParam` | fcgi/fcgi/src/fcgiapp.c:1103-1118 | The search loop over the NULL-terminated vector computes Find on its strings |
| `Reader.Reader.constructor` | fcgi/fcgi/src/fcgiapp.c:1754-1809 | A new reader stands at a record boundary with nothing buffered in a buffer of the size asked for, so its future is that of the connection's input |
| `Reader.Reader.Refill` | fcgi/fcgi/src/fcgiapp.c:1635-1644 | Reading more input, in a chunk of any size, changes nothing of the stream's future |
| `Reader.Reader.FillBuff` | fcgi/fcgi/src/fcgiapp.c:1624-1742 | Terminates; what is sent meanwhile is whole reply records, entered in the connection's log; afterwards either a request has begun, or the stream's whole future (bytes, replies, their order, end) is unchanged and its next byte or its end is at hand, for every cutting of the input into reads. Only a GET_VALUES that overruns the reply buffer before the next byte is excluded |
| `Reader.Reader.SkipAhead` | fcgi/fcgi/src/fcgiapp.c:1649-1684 | Skipping content of a foreign record and padding, across buffer boundaries, leaves the future as it was, clears the skip flag only after content, and makes progress |
| `Reader.Reader.TakeHeader` | fcgi/fcgi/src/fcgiapp.c:1688-1696 | Header bytes are collected across reads without losing or repeating any |
| `Reader.Reader.Interpret` | fcgi/fcgi/src/fcgiapp.c:1701-1740 | One complete header: the stream ends, a request begins, or scanning goes on with the same future; only an overrun before the next byte is excluded |
| `Reader.Reader.ProcessHeader` | fcgi/fcgi/src/fcgiapp.c:1588-1613 | Status, position, error code, output and request data after a header are those of the flat scanner's reaction, in all its cases |
| `Reader.Reader.ProcessBegin` | fcgi/fcgi/src/fcgiapp.c:1527-1564 | A first BEGIN_REQUEST sets id, role and keep-connection flag from its body; a later one is refused with CANT_MPX_CONN under the offender's id and its content skipped; a short or malformed one is a protocol error |
| `Reader.Reader.ProcessManagement` | fcgi/fcgi/src/fcgiapp.c:1454-1507 | GET_VALUES is read by a nested ReadParams on the same buffer and answered; any other management type is answered with UNKNOWN_TYPE |
| `Reader.Reader.AnswerGetValues` | fcgi/fcgi/src/fcgiapp.c:1463-1492 | The re-entrant read of the query stops at the record's end, leaves the request data alone and has the scanner's reaction |
| `Reader.Reader.SendValues` | fcgi/fcgi/src/fcgiapp.c:1469-1501 | The reply is built name by name in the 64-byte buffer, each known variable with its value, and is the record that Delivery.QueryAnswers reads, padded to a multiple of 8 |
| `Reader.Reader.GetChar` | fcgi/fcgi/src/fcgiapp.c:108-126 | The next byte of the stream's future, or EOF exactly when there is none; the rest of the future is unchanged; what is sent meanwhile is whole reply records, and none that could wait for a later byte. An overrun behind that byte does not matter |
| `Reader.Reader.GetStr` | fcgi/fcgi/src/fcgiapp.c:143-181 | Exactly the first n bytes of the future, or all of them when there are fewer, however they are spread over buffers and records; fewer than n only when the stream closes; what is sent meanwhile is whole reply records, and none that could wait for a later byte. An overrun behind the n bytes does not matter |
| `Reader.Reader.ReadParams` | fcgi/fcgi/src/fcgiapp.c:1138-1190 | Adds exactly the strings that the flat parser finds in the stream, returns 0 or -1 as the data ends between or within pairs, and leaves the stream closed with the matching error |
| `Reader.Reader.UnGetChar` | fcgi/fcgi/src/fcgiapp.c:237-246 | The low byte of the argument is put back in front of the future; refused for EOF, on a closed stream and at the pushback limit, which lies before the next byte after every read |
| `Reader.Reader.SetType` | fcgi/fcgi/src/fcgiapp.c:1845-1857 | The new stream starts at a record boundary at the first unread byte, whatever was left of the old one |
| `Scan.DeliverStream` | fcgi/fcgi/src/fcgiapp.c:1624-1742 | Handing out the first k content bytes of a record and scanning on is the same as scanning all: the step that makes the future independent of chunking |
| `Scan.Skipped` | fcgi/fcgi/src/fcgiapp.c:1649-1675 | Any part of skipped content and padding may be consumed separately without changing the future |
| `Delivery.StreamDelivered` | fcgi/fcgi/src/fcgiapp.c:1624-1742 | From a record boundary the client gets the concatenated contents of the records of its id and type, then EOF at their empty record, whatever other routine records stand between; replies go out in the order of the records they answer, those to records behind a byte only after that byte; nothing after the empty record is consumed |
| `Delivery.ForeignInvisible` | fcgi/fcgi/src/fcgiapp.c:1649-1662 | A record of another request is invisible for every continuation if and only if it is not empty; an empty one leaves the skip flag set and swallows the client's next content |
| `Delivery.SwallowedByte` | fcgi/fcgi/src/fcgiapp.c:1649-1662 | The concrete failure: with the skip flag left over, a one-byte record of the client's own stream delivers nothing |
| `Delivery.OtherManagementPasses` | fcgi/fcgi/src/fcgiapp.c:1493-1500 | A management record other than GET_VALUES is answered with UNKNOWN_TYPE, and its content is delivered to the client as stream data |
| `Delivery.ValuesQueryPasses` | fcgi/fcgi/src/fcgiapp.c:1463-1492 | A GET_VALUES record is answered if and only if at least one byte follows its content; otherwise the stream fails with a protocol error and no reply |
| `Delivery.ExtraBeginPasses` | fcgi/fcgi/src/fcgiapp.c:1527-1545 | A BEGIN_REQUEST during a request yields one END_REQUEST with CANT_MPX_CONN and the offender's id and is otherwise invisible |
| `Delivery.ValueRepliesLength` | fcgi/fcgi/src/fcgiapp.c:1469-1486 | The length of a GET_VALUES reply body in terms of how often each known variable was asked for |
| `Delivery.ReplyFits` | fcgi/fcgi/src/fcgiapp.c:1459-1492 | The 64-byte reply buffer is enough if and only if known variables are asked for at most three times, counting repetitions, and no name holds a NUL; the reply record is then at most 64 bytes |
| `Delivery.OnceEachFits` | fcgi/fcgi/src/fcgiapp.c:1459-1492 | In particular it is enough when each known variable is asked for at most once |
| `Delivery.QueryAnsweredIff` | fcgi/fcgi/src/fcgiapp.c:1463-1492 | A whole GET_VALUES record followed by at least one byte is answered with the exact reply when at most three known names are asked for, and otherwise overruns the buffer, after which nothing is defined |
| `Delivery.ReplyReads` | fcgi/fcgi/src/fcgiapp.c:1469-1486 | Read as name-value pairs, the body of a GET_VALUES reply is FCGI_MAX_CONNS=1, FCGI_MAX_REQS=1 and FCGI_MPXS_CONNS=0 for the known variables asked for, as often and in the order asked, and nothing else |
| `Delivery.QueryAnswers` | fcgi/fcgi/src/fcgiapp.c:1463-1505 | For a whole GET_VALUES record of at most three known names the peer gets one GET_VALUES_RESULT record with id 0, from which it reads exactly those strings, and the client notices nothing |
| `Delivery.QueryAfterError` | fcgi/fcgi/src/fcgiapp.c:1465-1468 | Once an error has been recorded, a GET_VALUES record ends the stream with an error and is not answered |
| `Delivery.FourTimesOverruns` | fcgi/fcgi/src/fcgiapp.c:1469-1486 | The concrete failure: a record that asks for one known name four times |
| `Alignment.NextStreamAligned` | fcgi/fcgi/src/fcgiapp.c:1845-1857 | The next stream starts at its first record, for every continuation, if and only if the forgotten padding is silent: empty, or itself whole records that are passed over without data, reply or a skip flag left behind |
| `Alignment.PaddingMisaligns` | fcgi/fcgi/src/fcgiapp.c:1845-1857 | Padding shorter than a record header, or not beginning like a record, is silent only when there is none |
| `Alignment.ForeignIsSilent` | fcgi/fcgi/src/fcgiapp.c:1845-1857 | Longer padding can be silent: a non-empty record of another request is |
| `Alignment.NextStreamAfter` | fcgi/fcgi/src/fcgiapp.c:1845-1857 | From a stream's end record to the request's next stream: the reader finds the next stream's records at once, for every continuation, if and only if the end record's padding was silent |
| `CutOff.StreamCutOff` | fcgi/fcgi/src/fcgiapp.c:1635-1641 | A stream whose connection breaks off anywhere in a record delivers the contents of its own records as far as they arrived, and then fails with a protocol error |
| `Replies.RepliesWhole` | fcgi/fcgi/src/fcgiapp.c:1454-1564 | For every input whatever, all that a reader will ever write back is a sequence of whole records of at most 64 bytes, each an END_REQUEST refusal, a GET_VALUES_RESULT or an UNKNOWN_TYPE |
| `Replies.EnteredBytes` | fcgi/fcgi/src/fcgiapp.c:1501-1505 | What a connection's log gains by reading is whole reply records, and the output grows by exactly their bytes |
| `Framing.PutAbsorbs` | fcgi/fcgi/src/fcgiapp.c:310-341 | Copying what fits into the buffer first and putting the rest later is the same put |
| `Framing.PutSends` | fcgi/fcgi/src/fcgiapp.c:310-341 | Sending a full buffer before the rest of a put is the same put |
| `Writer.Writer.constructor` | fcgi/fcgi/src/fcgiapp.c:1754-1809 | A new writer has an empty buffer of the size asked for behind the reserved header slot |
| `Writer.Writer.FrameBuffer` | fcgi/fcgi/src/fcgiapp.c:1390-1412 | The buffer turns in place into one whole record with header, content and padding to 8, without passing the buffer's end; nothing when it is empty |
| `Writer.Writer.WriteCloseRecords` | fcgi/fcgi/src/fcgiapp.c:1326-1358 | Through raw-mode PutStr, the EOF record (unless STDERR was never used) and, for the last open writer, END_REQUEST are produced unframed, and nWriters drops by one |
| `Writer.Writer.EmptyBuff` | fcgi/fcgi/src/fcgiapp.c:1386-1430 | In normal mode the pending bytes go out as one record, at close followed by the closing records; in raw mode the bytes go out as they are |
| `Writer.Writer.PutStr` | fcgi/fcgi/src/fcgiapp.c:310-341 | For any string: sends exactly the full records the pure framing sends, keeps the rest pending, returns its length, or -1 when closed; terminates through the EmptyBuffProc recursion |
| `Writer.Writer.PutChar` | fcgi/fcgi/src/fcgiapp.c:282-293 | The same as putting a one-byte string |
| `Writer.Writer.FFlush` | fcgi/fcgi/src/fcgiapp.c:887-893 | Pending bytes are sent as one record, and the result is 0 |
| `Writer.Writer.FClose` | fcgi/fcgi/src/fcgiapp.c:912-929 | Pending bytes and closing records are sent once, with result 0; a second call changes nothing, and nWriters counts the writers not yet closed |
| `Output.PutConserves` | fcgi/fcgi/src/fcgiapp.c:310-341 | Contents of the records sent followed by the pending bytes are the old pending bytes followed by the string put |
| `Output.RunConserves` | fcgi/fcgi/src/fcgiapp.c:310-341 | For every interleaving of puts, flushes and closes on both writers: contents sent plus pending bytes of a stream are exactly the bytes put on it while it was open |
| `Output.RunInv` | fcgi/fcgi/src/fcgiapp.c:1326-1358 | After every run: only whole records of the request, padded to the next multiple of 8; each stream's records are non-empty data and then at most one EOF record, its last; no END_REQUEST while a writer is open and exactly one, the very last record, afterwards; nWriters counts the open writers |
| `Output.StreamEnds` | fcgi/fcgi/src/fcgiapp.c:1326-1358 | From the calls alone: a stream its client has not closed has no empty record; a closed one ends with its only empty record, except that an error stream on which nothing was put has no record at all |
| `Output.RunEnds` | fcgi/fcgi/src/fcgiapp.c:1326-1358 | The request ends if and only if both writers have been closed, in either order and however often, and the END_REQUEST carries the exit status set last before that |
| `Output.RunAfterEnd` | fcgi/fcgi/src/fcgiapp.c:912-929 | After both writers are closed no call sends anything more |
| `RoundTrip.StreamRoundTrip` | fcgi/fcgi/src/fcgiapp.c:310-341 | Any byte strings put in any sizes through a writer of any capacity and closed (an error stream only when something was written to it) come back to a reader of that id and type as the same bytes followed by EOF, with what comes later untouched |
| `Environment.BuildNameValueHeader` | fcgi/fcgi/src/cgi-fcgi.c:553-579 | The two lengths are stored as their encodings, 2 to 8 bytes |
| `Environment.SendEnvironment` | fcgi/fcgi/src/cgi-fcgi.c:799-817 | What goes out is the PARAMS stream of the puts of all strings, unless a string has no equals sign, when the program exits |
| `Environment.PutsAreEncoding` | fcgi/fcgi/src/cgi-fcgi.c:799-817 | The puts of an environment, joined, are the encoding of its pairs, whose names are the strings up to their first equals sign |
| `Environment.EnvironmentRoundTrip` | fcgi/fcgi/src/cgi-fcgi.c:799-817 | For every environment whose strings have a first equals sign and part lengths below 2^31: sent, cut anyhow and parsed by ReadParams, it is the same list of strings |
| `Accept.FcgxRequest.Accept` | fcgi/fcgi/src/fcgiapp.c:2187-2256 | Tries the connections in order; all before the accepted one offer nothing, the first with the old request id, and the next behind a request that began and was rejected with that one's. Result 0: the request is accepted as its connection's input says (begun, known role first in the environment, parameters, output in its initial state, reader behind the parameters), and on a new connection nothing but the replies has been sent. Result -1: every connection was rejected, and nothing is left behind |
| `Accept.FcgxRequest.TryConnection` | fcgi/fcgi/src/fcgiapp.c:2201-2238 | One round of the loop: accepted if and only if the input offers a request; otherwise all streams and parameters are null and the connection is closed |
| `Accept.FcgxRequest.Begin` | fcgi/fcgi/src/fcgiapp.c:2206-2214 | The first FillBuffProc call finds a BEGIN_REQUEST exactly when the input begins a request |
| `Accept.FcgxRequest.ReadEnvironment` | fcgi/fcgi/src/fcgiapp.c:2215-2238 | The environment is the role string and the parameters read; unknown roles and incomplete pairs are rejected |
| `Accept.FcgxRequest.Open` | fcgi/fcgi/src/fcgiapp.c:2244-2255 | STDIN starts at the first unread byte, and two fresh writers, with buffers of 8192 and 512 bytes where malloc aligns them, and nWriters = 2 make the initial state of the output, whose invariant holds |
| `Accept.FcgxRequest.Finish` | fcgi/fcgi/src/fcgiapp.c:2002-2021 | Both writers are closed, STDERR first, as a run of the output whose records join the connection's output and its log, and the request is idle; the connection stays exactly when it is to be kept and no error occurred |
| `Accept.FcgxRequest.Perform` | fcgi/fcgi/src/fcgiapp.c:282-341 | Each client call on the output side is the corresponding step of the output machine; the records it sends are appended to the connection's output and its log |
| `Accept.FcgxRequest.StartFilterData` | fcgi/fcgi/src/fcgiapp.c:2276-2288 | Succeeds exactly for a Filter whose STDIN is closed, and then DATA starts where STDIN ended; otherwise the stream is closed with the call-sequence error |
| `Accept.OfferedRequest` | fcgi/fcgi/src/fcgiapp.c:2206-2238 | After a BEGIN_REQUEST of a known role the request is accepted if and only if its parameters parse, with the role string first and the parameters behind it |
| `Accept.AnyBodyBegins` | fcgi/fcgi/src/fcgiapp.c:1552-1562 | Any eight-byte body of a first BEGIN_REQUEST begins a request: role from its first two bytes in network byte order, keep-connection from the lowest bit of the third, and the reader stands behind the body |
| `Accept.RoleOffered` | fcgi/fcgi/src/fcgiapp.c:2212-2228 | In every accepted request FCGX_GetParam of FCGI_ROLE gives RESPONDER, AUTHORIZER or FILTER as BEGIN_REQUEST named role 1, 2 or 3 |
| `Accept.UnknownRoleRejected` | fcgi/fcgi/src/fcgiapp.c:2212-2228 | A request of any other role is rejected, whatever follows |
| `Accept.ManagementFirst` | fcgi/fcgi/src/fcgiapp.c:2206-2214 | A GET_VALUES or unknown management record before the request is answered, and the request behind it is offered or not exactly as if it came first |
| `Accept.CutBeginRejected` | fcgi/fcgi/src/fcgiapp.c:2206-2214 | A connection that breaks off in its BEGIN_REQUEST record offers nothing |
| `Accept.BrokenOffAccepted` | fcgi/fcgi/src/fcgiapp.c:2231-2237 | The smallest failure: a connection that breaks off right behind its BEGIN_REQUEST is accepted, without parameters |
| `CutOff.CutOffAccepted` | fcgi/fcgi/src/fcgiapp.c:2231-2237 | A connection that breaks off anywhere among the parameters, with any routine records in between, is accepted if and only if the parameter content that has arrived parses, with the parameters that have arrived; only the stream's error code tells |
| `CutOff.CutOffBetweenPairs` | fcgi/fcgi/src/fcgiapp.c:2231-2237 | For parameters that encode a list of pairs: the broken request is accepted, with the first few of them, if and only if what has arrived ends between two pairs |
| `CutOff.UnendedAccepted` | fcgi/fcgi/src/fcgiapp.c:2231-2237 | Over all inputs behind a BEGIN_REQUEST of a known role: the request is accepted although its parameters never ended if and only if their stream fails, for whatever reason, and the content before the failure parses |
| `CutOff.GoneWrongAccepted` | fcgi/fcgi/src/fcgiapp.c:2231-2237 | With any routine records before the place where the stream goes wrong: accepted, with the error only in the stream's error code, if and only if the parameters before it parse |
| `CutOff.OtherTypeFails` | fcgi/fcgi/src/fcgiapp.c:1609-1611 | A record of the request that belongs to another stream goes wrong with a protocol error, whatever follows |
| `CutOff.BadBeginFails` | fcgi/fcgi/src/fcgiapp.c:1531-1533 | So does a BEGIN_REQUEST record without an id or with a body that is not eight bytes long |
| `CutOff.BadQueryFails` | fcgi/fcgi/src/fcgiapp.c:1463-1468 | A GET_VALUES record whose content is not whole pairs goes wrong with a parameter error |
| `CutOff.OtherVersionFails` | fcgi/fcgi/src/fcgiapp.c:1592-1594 | A header of another protocol version goes wrong with that error |
| `CutOff.StdinEndsParameters` | fcgi/fcgi/src/fcgiapp.c:2231-2237 | The concrete failure without a broken connection: a STDIN record in place of the parameters' end record, and the request is accepted |
| `Pairs.PartParses` | fcgi/fcgi/src/fcgiapp.c:1138-1190 | Any front part of an encoding of pairs parses if and only if it ends between two pairs, and gives the first few of them |
| `Session.AcceptedServed` | fcgi/fcgi/src/fcgiapp.c:2245-2256 | An accepted request can be served: its output satisfies the invariant with nothing sent, and without a reading error its input is what the flat scanner makes of the bytes behind the parameters |
| `Session.Serve` | fcgi/fcgi/src/fcgiapp.c:108-341 | Any client calls reading the input and writing both outputs, in any order: all that the connection has sent stays whole records; the request's own ones are those of a run of the output machine, those in between are replies; the client is given the first bytes of the input, as many as it asks for or there are, replies keep the input's order, and the rest is still to come. The input may overrun the reply buffer behind the bytes asked for |
| `Session.OwnShape` | fcgi/fcgi/src/fcgiapp.c:1326-1358 | The own records of such a session have the shape of an output run: data, at most one EOF record for each stream, END_REQUEST last |
| `Session.Handle` | fcgi/fcgi/src/fcgiapp.c:2002-2256 | An accepted request from the client's first call to FCGX_Finish_r: behind the replies of its acceptance the connection has sent whole records; the own ones are those of the client's calls and of closing both streams, with the contents and the one END_REQUEST that Session.RunWhole names; those in between are replies to the input |
| `Session.RunWhole` | fcgi/fcgi/src/fcgiapp.c:2002-2021 | Any calls and then closing both streams: each stream's records hold the bytes put on it before its client closed it, none at all for an error stream on which nothing was put, and END_REQUEST is there exactly once, last, with the exit status set before the second stream was closed, directly behind the output stream's EOF when the client left that open |
| `Session.RepliesInOrder` | fcgi/fcgi/src/fcgiapp.c:1454-1564 | At every moment of a session on routine records there is a k such that exactly the first k records have been answered, in order, and the client has been given the contents of those and at most a part of the next one's |
| `Session.RepliesAtRecord` | fcgi/fcgi/src/fcgiapp.c:1454-1564 | When the reader's future is that of the records from k on, exactly the records before k have been answered and delivered |
| `Accept.BridgeToApplication` | fcgi/fcgi/src/cgi-fcgi.c:783-819 | The bridge's opening bytes make the application accept a Responder request with exactly the bridge's environment behind the role, standing at the first byte that follows |
| `BridgeOutput.Buffer.GetPtr` | fcgi/fcgi/src/cgi-fcgi.c:86-93 | Hands out the next bytes of the buffer, at most n, and advances past them |
| `BridgeOutput.Receiver.Handle` | fcgi/fcgi/src/cgi-fcgi.c:215-341 | However the input was cut (headers and END_REQUEST bodies whole): bytes written to descriptors 1 and 2, plus what is still demanded, stay the same; when it stops, everything demanded has been written, and nothing else unless bytes follow the END_REQUEST record with its padding, and the exit status or exit code is the demanded one |
| `BridgeOutput.Receiver.ReadHeader` | fcgi/fcgi/src/cgi-fcgi.c:248-267 | A header read, checked for version, id and type, leaves the demand unchanged |
| `BridgeOutput.Receiver.WriteContent` | fcgi/fcgi/src/cgi-fcgi.c:272-290 | Content goes to the descriptor of its type, as far as it has arrived |
| `BridgeOutput.Receiver.SkipPadding` | fcgi/fcgi/src/cgi-fcgi.c:326-337 | Padding is skipped as far as it has arrived |
| `BridgeOutput.Receiver.ReadEnd` | fcgi/fcgi/src/cgi-fcgi.c:291-318 | A whole END_REQUEST body sets the exit status from its four bytes; any other length or protocol status exits |
| `Demux.RecordsDemanded` | fcgi/fcgi/src/cgi-fcgi.c:215-341 | Records of both streams in any order followed by END_REQUEST: each stream's contents in order on its own descriptor, then the status modulo 2^32 |
| `Demux.RunDemanded` | fcgi/fcgi/src/cgi-fcgi.c:215-341 | For every run of the two writers that ends the request: the bridge writes exactly the bytes put on out to descriptor 1, those put on err to descriptor 2, and ends with the exit status set last, modulo 2^32 |
| `Demux.EndDemanded` | fcgi/fcgi/src/fcgiapp.c:1230-1242 | The status bytes of an END_REQUEST body are read back modulo 2^32, for every int |
| `Demux.BehindRecords` | fcgi/fcgi/src/cgi-fcgi.c:215-341 | Whatever follows whole stream records: their contents come out first, each on its own descriptor |
| `Demux.OtherVersionExits` | fcgi/fcgi/src/cgi-fcgi.c:259-261 | A header of another protocol version makes the bridge exit with -2 |
| `Demux.BadRecordExits` | fcgi/fcgi/src/cgi-fcgi.c:262-325 | A record of another request or of a type that is not for the bridge, or an END_REQUEST of the wrong length or protocol status, makes it exit with -3, whatever follows |
| `Demux.BrokenOffExits` | fcgi/fcgi/src/cgi-fcgi.c:227-241 | A connection that breaks off in a stream record gives its content as far as it has arrived and then exit -3 |
| `BridgeInput.Forwarder.constructor` | fcgi/fcgi/src/cgi-fcgi.c:821-831 | Before the event loop nothing is waiting, or, when no input was announced, exactly the EOF record |
| `BridgeInput.Forwarder.WriteStdinEof` | fcgi/fcgi/src/cgi-fcgi.c:352-362 | One empty STDIN record is added behind what waits, once; a second call does nothing |
| `BridgeInput.Forwarder.WebServerReadHandler` | fcgi/fcgi/src/cgi-fcgi.c:376-399 | What was read becomes exactly one STDIN record behind the others, which is the EOF record at the end of input; behind the last announced bytes there is one EOF record more and nothing after it |
| `BridgeInput.Forwarder.AppServerWriteHandler` | fcgi/fcgi/src/cgi-fcgi.c:413-434 | A write of any part moves exactly those bytes from waiting to taken |
| `BridgeInput.StdinDelivered` | fcgi/fcgi/src/cgi-fcgi.c:352-434 | What the forwarder sends reaches a reader of STDIN as the bytes of standard input followed by EOF |
| `AsyncIo.AsyncTable.Grow` | fcgi/fcgi/src/os_unix.c:591-604 | The table doubles, keeps its entries and fills the rest as free |
| `AsyncIo.AsyncTable.AsyncReadStdin` | fcgi/fcgi/src/os_unix.c:571-589 | The descriptor-0 read entry becomes the request's, provided it was free, and nothing else changes |
| `AsyncIo.AsyncTable.AsyncRead` | fcgi/fcgi/src/os_unix.c:630-655 | The same for any descriptor, growing the table as far as needed |
| `AsyncIo.AsyncTable.AsyncWrite` | fcgi/fcgi/src/os_unix.c:680-704 | The same for the write entry of a descriptor |
| `AsyncIo.AsyncTable.TakeRead` | fcgi/fcgi/src/os_unix.c:879-894 | Dispatch of a read frees its entry and its post before the handler runs |
| `AsyncIo.AsyncTable.TakeWrite` | fcgi/fcgi/src/os_unix.c:899-913 | Dispatch of a write frees its entry and its post before the handler runs |
| `BridgeLoop.Bridge.ScheduleIo` | fcgi/fcgi/src/cgi-fcgi.c:450-498 | Everything that may be under way is scheduled, each operation on a free table entry and on a buffer nobody else uses; the invariant is kept |
| `BridgeLoop.Bridge.DoIo` | fcgi/fcgi/src/os_unix.c:819-916 | One pass, whatever select reports: no handler assertion and no inUse assertion can fail, pending flags equal inUse of their entries, and both directions are accounted for. A readable socket loses bytes from its front or, at its end, makes the program exit; a writable one is sent bytes unless the program has exited; readable standard input is read; what is not ready is not touched |
| `BridgeLoop.Bridge.Run` | fcgi/fcgi/src/cgi-fcgi.c:833-841 | The event loop, any number of passes: the invariant holds throughout, standard input is received and forwarded in order, and when the exit status ends the loop all demanded output has been written. If the socket is reported whenever it can be read, more passes than it has bytes bring the loop to its end, unless a read has cut a header or an END_REQUEST body in two |
| `BridgeRun.Forward` | fcgi/fcgi/src/cgi-fcgi.c:833-841 | The bridge in front of an application that makes any output calls closing both streams: it does not fail; at every moment it has written a front part of each stream's bytes; when the loop ends, exactly those put on out to descriptor 1 and those put on err to descriptor 2, with the exit status set last, modulo 2^32; and it does end under the condition of the row before |
| `Buffers.Buffer.SetData` | webserver/network/src/buffer.cc:69-84 | The buffer holds exactly the data, in its own or in new storage |
| `Buffers.Buffer.AddData` | webserver/network/src/buffer.cc:86-100 | The data is appended to the live bytes, enlarging the storage when needed |
| `Buffers.Buffer.Enlarge` | webserver/network/src/buffer.cc:118-142 | The live bytes survive the reallocation; refused when it would not grow |
| `Buffers.Buffer.EraseFront` | webserver/network/src/buffer.cc:35-50 | Drops exactly min(count, length) live bytes from the front |
| `Buffers.Buffer.EraseBack` | webserver/network/src/buffer.cc:52-67 | Drops exactly min(count, length) live bytes from the back |
| `Buffers.BufferList.PushBack` | webserver/network/src/buffers.cc:29-36 | The list's bytes followed by the buffer's; the length counts both |
| `Buffers.BufferList.PushFront` | webserver/network/src/buffers.cc:20-27 | The buffer's bytes followed by the list's; the length counts both |
| `Buffers.BufferList.GetData` | webserver/network/src/buffers.cc:60-90 | Exactly the bytes from pos to min(pos + length, end) of the flat byte string, across any segmentation including empty segments |
| `Buffers.BufferList.EraseFront` | webserver/network/src/buffers.cc:92-118 | Exactly min(count, length) bytes go from the front, the segments left are those of Erased and the buffers left are the old list's last ones, and the length keeps counting modulo 2^64 |
| `Buffers.ErasedFlat` | webserver/network/src/buffers.cc:99-114 | Erasing segment by segment drops exactly the counted bytes of the flat byte string |
| `Buffers.ErasedEmpty` | webserver/network/src/buffers.cc:99-114 | Erasing at most all bytes empties the list if and only if it erases all of them and the last segment is not empty |
| `Buffers.ErasedLast` | webserver/network/src/buffers.cc:99-114 | Erasing at most all bytes never takes an empty last segment away, and never leaves an empty one that was not there |
| `Packets.ParseAllMore` | webserver/service/tcpserver/tcp_connection.cc:65-94 | Parsing is incremental: what has been parsed stays parsed, and parsing the rest with the new bytes gives the same as parsing everything |
| `Packets.PacketParsed` | webserver/service/src/request_packet.cc:24-54 | A packet at the front is delivered and the parsing goes on behind it, or, when its body is empty, nothing is ever delivered again |
| `Packets.HeaderRejected` | webserver/service/src/request_packet.cc:62-90 | Eight bytes are an invalid header if and only if they do not begin with FD FC, a zero and one of the commands 1 to 4, and then nothing is delivered |
| `Packets.DeliveredIffBody` | webserver/service/src/request_packet.cc:30-38 | A packet and those behind it are delivered for every continuation if and only if its body is not empty |
| `Packets.ArrivalParsed` | webserver/service/tcpserver/tcp_connection.cc:65-94 | At every moment of the arrival of valid packets with bodies, those parsed are the complete ones, in order, and the part of the next one is left |
| `TcpConnection.RequestPacket.DecodeHeader` | webserver/service/src/request_packet.cc:62-90 | 0 until eight bytes have arrived, -1 for a wrong magic or command, else the fields in host order |
| `TcpConnection.RequestPacket.DecodeBody` | webserver/service/src/request_packet.cc:92-116 | 0 until the body has arrived (or when it is empty), else the body and its length |
| `TcpConnection.RequestPacket.Decode` | webserver/service/src/request_packet.cc:24-54 | The result at any position of the buffers is that of parsing the flat bytes from there |
| `TcpConnection.ReceiveSide.Decode` | webserver/service/tcpserver/tcp_connection.cc:65-94 | All complete packets of the buffers in order and the bytes they take; negative only when there are none and the front is invalid |
| `TcpConnection.ReceiveSide.InputNotify` | webserver/network/src/connection.cc:77-140 | For every cutting into reads: the packets delivered so far are exactly the complete ones of the bytes received so far, the buffers hold exactly the undecoded rest, and an invalid header closes the connection in the read that delivers nothing |
| `TcpConnection.SendSide.Encode` | webserver/service/src/response_packet.cc:28-53 | A header buffer and a body buffer are appended, the second with exactly as many bytes of the body as the header's length field names in network byte order |
| `TcpConnection.SendSide.SendPacket` | webserver/network/src/connection.cc:60-70 | The header and the named front part of the body go behind everything queued, as one segment each, and output is enabled |
| `TcpConnection.SendSide.OutputNotify` | webserver/network/src/connection.cc:142-195 | Whatever part the socket takes of the first 128 buffers: bytes written followed by the list's bytes stay the responses queued, in order; with at most 128 buffers and enough room everything is written; output stays enabled exactly while the list is not empty; once everything is written, that is the case if and only if the last response had an empty body |
| `TcpConnection.EmptyResponseStays` | webserver/network/src/connection.cc:142-195 | The concrete failure: after one response with length field 0 has been written completely, output is still enabled |
| `TcpConnection.AnswerSent` | webserver/service/src/response_packet.cc:28-53 | The service's answer at the level of bytes: behind a header with length field 10 all ten bytes of {"code":1} are written, and output is disabled |
| `Pipes.StoreConserves` | webserver/service/include/pipequeue.h:172-197 | Pushing keeps exactly the pending bytes if and only if the element fits behind them, or the buffer is full and nothing or more than one element of it was written; otherwise the element runs past the buffer, or written bytes go out again |
| `Pipes.WriteConserves` | webserver/service/include/pipequeue.h:144-148 | A write sends the front of the pending bytes, whatever the buffer holds, if and only if nothing was written before it or nothing is written now, because the offset is applied in elements but counts bytes |
| `Pipes.WriteInReach` | webserver/service/include/pipequeue.h:144-148 | A write of all that is pending stays in the buffer if and only if at least seven times the bytes already written are free behind the pending ones |
| `Pipes.QueueWriter.Store` | webserver/service/include/pipequeue.h:172-197 | From any offset and end: the element goes behind the pending bytes, with compaction or doubling as the code does them, including the case that repeats; refused exactly when it would run past the buffer |
| `Pipes.QueueWriter.OutputNotify` | webserver/service/include/pipequeue.h:139-160 | Which bytes are written from any offset and where the buffer stands afterwards, however much the pipe takes; refused exactly when the write would read past the buffer; from offset 0 what is written is the front of the pending bytes; output is disabled exactly when nothing is left |
| `Pipes.QueueWriter.Push` | webserver/service/include/pipequeue.h:172-207 | From any state, and whatever the pipe takes: what is pending and where the buffer stands after the element is stored and, at whole multiples of 32 elements, written; without an offset, pipe and pending bytes together grow by exactly the element |
| `Pipes.QueueWriter.PushAligned` | webserver/service/include/pipequeue.h:172-207 | As long as every write takes all or nothing, every push fits, stays in the buffer, and makes pipe and pending bytes together grow by exactly the element |
| `Pipes.Batches` | webserver/service/include/pipequeue.h:195-207 | From a new writer, elements go to the pipe 32 at a time: after any number of pushes the pipe has got all whole batches and no more |
| `PartialWrites.WrittenTwice` | webserver/service/include/pipequeue.h:174-192 | From the constructor to the first failure: an element that the pipe has taken is pending again, so 1026 elements are on their way of 1025 pushed |
| `PartialWrites.RunsPastBuffer` | webserver/service/include/pipequeue.h:174-195 | From the constructor to the second: after a write of 5001 of 8192 bytes, a later push would store its element at 8191 |
| `PartialWrites.OtherBytes` | webserver/service/include/pipequeue.h:144-148 | From the constructor to the third: after a write of one byte, the next one sends another byte than the first pending one |
| `PartialWrites.ReadsPastBuffer` | webserver/service/include/pipequeue.h:144-148 | From the constructor to the fourth: one byte of a full buffer has been taken, and the next write would read past the buffer |
| `Pipes.QueueReader.Pop` | webserver/service/include/pipequeue.h:80-103 | The first element of what the reader and the pipe hold, or nothing when less than an element is buffered and the read gives nothing; a read that completes no element hands out the buffer's first eight bytes as they are and makes the count of bytes negative |
| `Pipes.PipeQueue.Push` | webserver/service/include/pipequeue.h:245-248 | The element is pushed behind all others on their way |
| `Pipes.PipeQueue.Pop` | webserver/service/include/pipequeue.h:80-103 | The elements popped are the first ones pushed, in order, and never NULL; reads always complete an element, because only whole ones are written |
| `Pipes.PipeQueue.InputNotify` | webserver/service/include/pipequeue.h:57-67 | At most 64 elements are passed on, in the order pushed, and fewer only when reader and pipe are empty |
| `Binding.Dispatcher.BindDispatcher` | webserver/service/include/dispatcher.h:47-58 | Two dispatchers of one pool are linked directly; of different pools, by a pipe that belongs to the first one's pool and leads to the second, with its task queue from the first pool to the second and its reply queue back |
| `Binding.BindChain` | webserver/service/include/dispatcher.h:47-58 | A chain bound link by link: every link is such a link, and the pipes on it are exactly as many as its changes of pool |
| `Binding.PipesAreChanges` | webserver/service/include/taskpipe.h:90-98 | In any linked chain of dispatchers that are not pipes, the pipes found between neighbours are as many as the changes of pool |
| `Routing.Service.OnPacket` | webserver/service/tcpserver/tcp_connection.cc:53-63 | The new task joins the back of the first queue with the client reply at the bottom of its reply list; with no pipe it is answered at once |
| `Routing.Service.TaskNotify` | webserver/service/include/taskpipe.h:78-82 | A pipe puts itself on top of the reply list and queues the task; behind the last pipe the worker answers it and starts its way back |
| `Routing.Service.ReplyNotify` | webserver/service/include/dispatcher.h:167-179 | The top of the reply list takes the task: the pipe it came through last, or the client reply, which sends the response |
| `Routing.Service.IncomingNotify` | webserver/service/include/taskpipe.h:32-35 | The queue's first task, and nothing else, goes to the back of the next incoming queue or, through the worker, of the last return queue; the line's order, one place per task and its reply list are kept |
| `Routing.Service.ReturnNotify` | webserver/service/include/taskpipe.h:57-60 | The queue's first task, and nothing else, goes back one pipe or is answered to its connection with exactly one response; the invariant is kept |
| `Routing.PathBack` | webserver/service/include/dispatcher.h:146-179 | The whole path of a task: all incoming queues in order, then the return queues of the same pipes in exactly the reverse order |
| `Routing.ResponsesInOrder` | webserver/service/tcpserver/tcp_connection.cc:27-37 | On every connection the responses are the answers to its first requests in request order, and to all of them when no task is under way; each has its request's command and the text {"code":1} |
| `WireBytes.ResponseBytes` | fcgi/fcgi/src/fcgiapp.c:1326-1412 | A whole response byte for byte: "hi!" on the output stream, an exit status and FCGX_Finish_r give the padded data record, the end of STDOUT, no record of STDERR, and END_REQUEST with the status in network byte order |
| `WireBytes.RequestBytes` | fcgi/fcgi/src/fcgiapp.c:2201-2238 | A whole request byte for byte: role, keep-connection flag and one parameter are accepted as FCGI_ROLE=RESPONDER and A=xyz, and the reader stands behind the end of PARAMS |
| `WireBytes.InputDelivered` | fcgi/fcgi/src/fcgiapp.c:1624-1742 | The bytes of a padded STDIN record and the end of STDIN give the client the two bytes of its content and EOF |
| `WireBytes.ReplyBytes` | fcgi/fcgi/src/fcgiapp.c:1472-1564 | The three kinds of reply byte for byte: CANT_MPX_CONN with the other request's id, UNKNOWN_TYPE with the type in its first body byte, and FCGI_MPXS_CONNS answered with 0 |

## Left out

- The operating system: sockets, `accept`, `select`, `epoll`, signals and processes. Reads
  and writes are arbitrary parts of byte sequences; failing ones (results below 0) and the
  error runs behind them are not modelled, so `FCGX_FClose` after a failed write is not.
- `Connection.Connection.Read`: input comes from one fixed byte sequence that ends with the
  peer's close; a peer that reacts to what is sent is not modelled.
- Connection.Connection.WriteAll: writes do not fail, so there is no negative result.
- Writer.Writer.EmptyBuff: the branch for a failed write is left out, and with it the
  results other than 0 of Writer.Writer.FFlush and Writer.Writer.FClose.
- `FCGX_GetLine`, `FCGX_PutS`, `FCGX_VFPrintF`, `fcgi_stdio.c`, `fcgio.cpp` and
  `os_win32.c`: wrappers, formatting and another platform.
- `FCGX_FClose` and the writer operations on readers, and reader operations on writers: the
  streams are two classes.
- Reader.Reader.GetStr: returns the bytes instead of filling a caller's array.
- Reader.Reader.SendValues: the padding of the reply is taken to be zeros, where the code
  sends whatever the stack holds; names with a NUL inside, where `strchr` finds no equals
  sign, and replies longer than the buffer are the `Undefined` end.
- Reader.Reader.ReadParams: `nameLen + valueLen + 2` is not wrapped to 32 bits, and
  allocation does not fail.
- Reader.Reader.FillBuff: requires that the overrun just named does not come before the next
  byte; GetChar, GetStr and Session.Serve likewise for the bytes asked for, and ReadParams,
  which always reads to the end, for the whole stream.
- Accept.FcgxRequest.Accept: `FCGX_Accept_r` is its call of `FCGX_Finish_r`
  (`Accept.FcgxRequest.Finish`) followed by this method; the library's initialisation and
  the cross-check of the peer's address are left out, and errors of `accept` itself become
  -1. Which request id a connection leaves over on which no request began is open (the code
  has taken the id of a BEGIN_REQUEST whose body is then cut off).
- Accept.FcgxRequest.Finish: a kept connection goes on with what the connection still
  delivers; bytes of the next request that the old reader had buffered are lost in the code
  and in the model.
- Pipelining of requests on one connection, and `FCGX_ShutdownPending`.
- BridgeOutput.Receiver.Handle: writes to descriptors 1 and 2 block and are taken whole;
  what becomes of bytes behind the END_REQUEST record, which depends on the cutting, is left
  open, except that everything before has been written; the case of a header or END_REQUEST
  body that arrives in parts is excluded.
- BridgeInput.Forwarder.WebServerReadHandler: requires room for the EOF record behind the
  last announced bytes, which the code does not check.
- AsyncIo.AsyncTable.TakeRead: `OS_Close` and `OS_CloseRead` on a pending descriptor are
  left out, and with them posts without an entry in use.
- BridgeLoop.Bridge.DoIo: what a pass delivers keeps the two limits of the handlers named
  above.
- BridgeLoop.Bridge.Run: a number of passes stands for the endless loop. That it ends is
  stated for a select that reports the socket whenever it can be read (`eager`); how often
  select reports standard input or a writable socket is open, and so how far forwarding gets
  is stated for each pass (`BridgeLoop.Bridge.DoIo`) and not for the whole loop.
- The bridge's start of application processes, its argument parsing and
  `FCGIUtil_BuildNameValueHeader`'s callers outside the environment loop.
- TcpConnection.ReceiveSide.InputNotify and the send side are two halves of one connection
  object; deletion of connections, also while tasks are under way, is left out.
- TcpConnection.SendSide.SendPacket: the list's length field is not kept by the code's raw
  push and is not used; the byte order of the response header's magic and command is not
  interpreted.
- Pipes.QueueWriter.OutputNotify: where the code's write would read past the buffer, and in
  Pipes.QueueWriter.Store where it would store past it, the model's method refuses and says so
  in its result; nothing is said of what the code does from there.
- Pipes.PipeQueue.InputNotify: a read gives all that is in the pipe and fits; elements left in
  the reader's buffer after 64 wait for the next readiness of the descriptor; that it comes is
  not modelled.
- Routing.Service.OnPacket: the chain is given as the number of pipes that
  `Binding.PipesOf` counts; threads, polling and the lifetime of tasks are left out, and
  every queue is first in, first out as module `Pipes` proves.
- Binding.Dispatcher.BindDispatcher: a pipe gets its owner, target and pools when it is made,
  and making the kernel's pipes does not fail.
- Session.Serve: `FCGX_UnGetChar` and `FCGX_StartFilterData` are not among the calls of a
  session; their own contracts say what they do to the input.
- Reader.Reader.UnGetChar: at the very start of the buffer with a limit left over from before
  SetReaderType, where the code writes before the buffer, is excluded.
- `CBuffers::Clear`, `CBuffer::Clear`, logging, configuration, threads and the programs'
  `main` files of the service, and `webserver/service/fastcgi`, which is unfinished.
- `webserver/public/src/fcgi`: a copy of the library that differs in a comment.
