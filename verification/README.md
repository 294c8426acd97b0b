# beng-proxy: verified models of its stream and state machinery

This project models the parts of cm4all-beng-proxy where bytes, buffers and callbacks meet, and
proves what they keep over every run.

- **FastCGI** (`FcgiWire`, `FcgiParser`, `FcgiDecode`, `FcgiView`, `FcgiClient`, `FcgiBuckets`,
  `FcgiConsume`, `FcgiLookahead`, `FcgiBody`, `FcgiWitness`, `FcgiIstream`): the incremental record parser against a
  byte automaton; the client's direct, bucket and look-ahead paths, which read the same buffer with
  four different handlers and have to agree; and the STDIN record writer.
- **Thread filter** (`ThreadFilter`, `ThreadSocket`): the protocol between the event loop and the
  worker thread, as a transition system over critical sections, and the class whose calls are runs of it.
- **Socket lease** (`Lease`): a bank of bounded buffers that stands in for a socket that was given back.
- **CGI** (`Fifo`, `Cgi`) and **chunked coding** (`Chunk`): incremental parsers whose result may not
  depend on fragmentation.
- **HTML escaping** (`Html`, `EscapeIstream`): batch, in place, and streaming under back-pressure.
- **Cache** (`Cache`): hash index, recency list and byte budget.
- **Translation** (`Translate`): the request/answer loop with a server that may answer anything.

`Octets` holds the byte type.  Handlers, sinks, servers, the file system and the clock are parameters:
functions, scripts of answers, or arbitrary values.  Classes of the support library that are not part of
the repository are taken to do what their names say: a FIFO buffer's `MoveFrom()` moves as much as fits,
its `Write()` returns the free space behind the pending bytes and shifts only a buffer that has reached
its end, and the thread queue runs a job once more if it is added while it is running.

Seven places where the code does not do what it seems to promise are stated as results, each with the
exact condition and an input or a run that shows it:

- The look-ahead of the FastCGI client is exact as long as no END_REQUEST header was passed in an earlier call
  (`FcgiLookahead.LookAheadExact`); after that, every end it reports is wrong (`LookAheadBlind`).
  `FcgiWitness.BlindRun` is a run where the direct path then offers the socket for reuse with bytes left over.
- The bucket path offers the socket for reuse whatever follows the END_REQUEST record, so nothing is left
  over if and only if that record ends with the buffer (`FcgiLookahead.FillReuse`);
  `FcgiWitness.ReuseWithLeftover` is the input.
- Right after a fill, the assertion on `skip_stderr` fails if and only if the last byte of a complete response
  is consumed and the first payload byte of the request behind the END_REQUEST record is STDERR payload
  (`FcgiConsume.ConsumeTakes`); `FcgiWitness.LateStderrFails` is the input.  STDERR payload that arrives
  between the fill and the call can fail it, too; such a call is not modelled.
- A postponed "end" is not forwarded "as soon as the decrypted_input buffer becomes empty", as the comment in
  `OnEnd()` says.  It can still be told if and only if the job is not idle or the decrypted input buffer is full
  (`ThreadFilter.EndComes`), and it can still be lost for good if and only if the job is idle or there is a
  byte that the handler has not got (`ThreadFilter.EndIsLost`).  `ThreadFilter.EndForgotten` and
  `ThreadFilter.EndHeldBack` are runs where it is lost.
- `ReadReleased()` takes a front buffer that has not become shorter for a handler that has not consumed
  anything; while bytes are left, a handler that is content is not asked again if and only if it has consumed
  nothing or a whole buffer is left (`Lease.FilteredSocketLease.Ask`); `Lease.StopsEarly` is a run.
- `ReadReleased()` goes on for ever with a handler that wants more and consumes nothing, although no more can
  come: `Lease.HungryForever`.
- The assertion at the end of `MoveSocketInput()` holds if and only if the worker thread decrypts nothing after
  the last `AfterConsumed()` (`Lease.FilteredSocketLease.MoveSocketInput`); `Lease.LeftBehind` is a run where
  bytes stay in the socket.

## Model

| member | source | states |
|---|---|---|
| FcgiWire.WireConcat | src/fcgi/Parser.cxx:11-130 | the reference decoder does not notice where the stream was cut |
| FcgiParser.FcgiParser.FeedPayload | src/fcgi/Parser.cxx:14-65 | the payload branch is the payload move of the specification, with its result and its halt |
| FcgiParser.FcgiParser.Feed | src/fcgi/Parser.cxx:11-130 | for any sane handler the loop terminates with the state, handler state and result of the move-by-move specification |
| FcgiDecode.DriveRefines | src/fcgi/Parser.cxx:11-130 | one call with any handler handles its bytes in order and finds the record boundaries of the reference decoder |
| FcgiDecode.DriveReports | src/fcgi/Parser.cxx:42-44 | a handler that counts what is reported as consumed counts exactly the bytes used |
| FcgiDecode.DriveLogs | src/fcgi/Parser.cxx:24-127 | a handler that logs its callbacks logs exactly the trace |
| FcgiDecode.RunAccounts | src/fcgi/Parser.cxx:11-130 | over any calls, used bytes followed by the unconsumed rest are the bytes received |
| FcgiDecode.RunReports | src/fcgi/Parser.cxx:42-112 | over any calls every byte used is reported exactly once |
| FcgiDecode.RunLogs | src/fcgi/Parser.cxx:11-130 | over any calls the handlers are told exactly the trace that the other theorems speak of |
| FcgiDecode.RunRefines | src/fcgi/Parser.cxx:11-130 | over any calls, cuts and handlers the trace means exactly the bytes used |
| FcgiDecode.SeenIsCanonical | src/fcgi/Parser.cxx:11-130 | handlers that never skip see one header event, the content in order and one end event per record, however the stream is cut and blocked |
| FcgiDecode.EncodeAllMeans | src/fcgi/Parser.cxx:99-112 | decoding an encoding of records gives those records |
| FcgiDecode.RecordsAreSeen | src/fcgi/Parser.cxx:11-130 | whatever the cuts and the partial acceptance, the parser shows exactly the records that were encoded |
| FcgiClient.DriveDirect | src/fcgi/Client.cxx:485-526 | direct feed, any consumer: STDERR is forwarded once and in order, delivered plus available is the declared length, and the client ends only for a reason that the bytes give |
| FcgiClient.DriveGreedy | src/fcgi/Client.cxx:653-696 | a consumer that takes everything never blocks the parser |
| FcgiClient.MoreMeansLeftover | src/fcgi/Parser.cxx:99-102 | asking for more means that less than a header, or nothing, is left |
| FcgiClient.LeftoverAddsNothing | src/fcgi/Parser.cxx:99-102 | such a rest contains no payload and no end |
| FcgiBuckets.DriveFill | src/fcgi/Client.cxx:911-1000 | the fill handler's list, STDERR position and remaining length follow the meaning of the bytes at every step |
| FcgiBuckets.FillYields | src/fcgi/Client.cxx:1002-1028 | a fill lists exactly the STDOUT payload not yet consumed, forwards exactly the STDERR not yet forwarded, releases the socket exactly at a complete END_REQUEST, and fails exactly if the length is wrong |
| FcgiConsume.DriveConsume | src/fcgi/Client.cxx:1045-1113 | the consume handler stops exactly at the requested byte of the STDOUT stream |
| FcgiConsume.ConsumeTakes | src/fcgi/Client.cxx:1115-1130 | after consuming n of the listed bytes the next fill lists the rest, end is reported exactly with the last byte of a complete response, and the skip_stderr assertion fails if and only if that byte is consumed and STDERR is the first payload behind END_REQUEST |
| FcgiConsume.ConsumeEntry | src/fcgi/Client.cxx:1118 | the assertion at the entry can fail only for a call that consumes nothing when nothing is left |
| FcgiLookahead.DriveAnalysis | src/fcgi/Client.cxx:375-423 | the analysis counts the STDOUT payload up to the first END_REQUEST and stops where that record ends |
| FcgiLookahead.AnalyseBuffer | src/fcgi/Client.cxx:425-436 | an end offset is reported exactly if the END_REQUEST record is complete, and it is the offset where it ends |
| FcgiLookahead.DirectFinishes | src/fcgi/Client.cxx:698-706 | with a complete response of the right length and a consumer that takes everything, direct feed ends with the END_REQUEST record and has delivered all of the body |
| FcgiLookahead.LookAheadExact | src/fcgi/Client.cxx:1153-1170 | if no END_REQUEST header was passed before, a reported offset is the number of bytes that direct feed consumes and the reported total is what it delivers |
| FcgiLookahead.LookAheadBlind | src/fcgi/Client.cxx:425-436 | otherwise a reported offset is too large |
| FcgiLookahead.FillReuse | src/fcgi/Client.cxx:991-1000 | the bucket path always chooses REUSE, and nothing is left over if and only if END_REQUEST ends with the buffer |
| FcgiBody.BooksReceive | src/fcgi/Client.cxx:1153-1170 | more input behind the unconsumed rest keeps the books balanced |
| FcgiBody.ReportMeansDone | src/fcgi/Client.cxx:849-864 | a reported end means a complete response; the reported total is the payload that is left |
| FcgiBody.EofMeansExact | src/fcgi/Client.cxx:1159-1167 | if direct feed ends, the look-ahead had reported exactly its end |
| FcgiBody.ResponseBody.constructor | src/fcgi/Client.cxx:528-575 | the body begins inside the STDOUT record that held the headers, with balanced books |
| FcgiBody.ResponseBody.Receive | src/fcgi/Client.cxx:1153-1154 | new bytes only extend the meaning of the response |
| FcgiBody.ResponseBody.FillBucketList | src/fcgi/Client.cxx:1002-1028 | delivered bytes followed by the list are the STDOUT payload, all STDERR has been forwarded once, the parser is untouched, failure if and only if the length is wrong |
| FcgiBody.ResponseBody.ConsumeBucketList | src/fcgi/Client.cxx:1115-1130 | after a fill, any amount up to the listed total is consumed from the front, unless the assertion on late STDERR would fail; eof is reported if and only if it was the whole of a complete response |
| FcgiBody.ResponseBody.AnalyseBuffer | src/fcgi/Client.cxx:425-436 | unless the END_REQUEST header was fed before, the reported total is the STDOUT payload that is left, and an offset is reported if and only if the END_REQUEST record is complete, namely where it ends; nothing is changed |
| FcgiBody.ResponseBody.ConsumeInput | src/fcgi/Client.cxx:708-749 | the client closes if and only if the response ended, was too long or too short, or the consumer closed it, and the books stay balanced otherwise |
| FcgiBody.ResponseBody.OnBufferedData | src/fcgi/Client.cxx:1137-1171 | whatever the consumer does, the socket is released if and only if the response is complete, and for reuse if and only if it ends with the buffer, provided that the END_REQUEST header was not fed before; how the client ends is explained by the bytes |
| FcgiWitness.ReuseWithLeftover | src/fcgi/Client.cxx:991-1000 | an input where the bucket path offers the socket for reuse with bytes left over |
| FcgiWitness.BlindReport | src/fcgi/Client.cxx:425-436 | from any state inside an END_REQUEST record, with another one behind it: the look-ahead reports the end of the second, the client ends with the first |
| FcgiWitness.BlindRun | src/fcgi/Client.cxx:1153-1170 | a run from the constructor in which the direct path therefore releases the socket for reuse with a whole record left over |
| FcgiWitness.LateStderrFails | src/fcgi/Client.cxx:1090-1092 | an input on which consuming what was listed runs into the assertion on skip_stderr |
| FcgiIstream.FcgiIstream.WriteHeader | src/fcgi/istream_fcgi.cxx:63-78 | whatever part of the header is accepted, output stays a prefix of an encoding; a consumer that takes everything gets all of it |
| FcgiIstream.FcgiIstream.StartRecord | src/fcgi/istream_fcgi.cxx:80-93 | a record promises at most 65535 bytes, and never more than the source has |
| FcgiIstream.FcgiIstream.WriteContent | src/fcgi/istream_fcgi.cxx:105-124 | accepted bytes move from the body into the current record |
| FcgiIstream.FcgiIstream.OnData | src/fcgi/istream_fcgi.cxx:95-132 | any block under any back-pressure: the output encodes exactly the body bytes consumed, the loop terminates, and a consumer that takes everything gets the whole block |
| FcgiIstream.FcgiIstream.OnEof | src/fcgi/istream_fcgi.cxx:140-157 | its assertions hold, one empty record follows, and a consumer that takes everything gets a complete stream |
| FcgiIstream.FcgiIstream.Read | src/fcgi/istream_fcgi.cxx:164-185 | a lower bound of what is left never breaks the encoding; finishing means a complete stream; a consumer that takes everything never blocks it |
| FcgiIstream.RoundTrip | src/fcgi/istream_fcgi.cxx:63-185 | parsing a complete stream in any pieces with any back-pressure gives back the body |
| ThreadFilter.InputKept | src/fs/ThreadSocketFilter.cxx:63-73 | every step: received = delivered + unprotected + decrypted + encrypted + socket buffer |
| ThreadFilter.OutputKept | src/fs/ThreadSocketFilter.cxx:564-591 | every step: accepted = sent + encrypted output + plain output, although bytes are copied, written without the lock and consumed later |
| ThreadFilter.CopyKept | src/fs/ThreadSocketFilter.cxx:576-586 | the copy remains the beginning of the output buffer while the worker appends to it |
| ThreadFilter.AwakeKept | src/fs/ThreadSocketFilter.cxx:38-46 | no step loses a wake-up: unfinished work means a run is to come or a full buffer |
| ThreadFilter.ToldKept | src/fs/ThreadSocketFilter.cxx:315-358 | "remaining" is told before "end", and neither before the filter has decrypted everything |
| ThreadFilter.MidwayKept | src/fs/ThreadSocketFilter.cxx:684-725 | what Done() and OnEnd() rely on between two critical sections survives the other thread and the callbacks |
| ThreadFilter.InvKept | src/fs/ThreadSocketFilter.cxx:216-437 | every step of either thread keeps all of these |
| ThreadFilter.RunKeeps | src/fs/ThreadSocketFilter.cxx:216-725 | every interleaving keeps them |
| ThreadFilter.NothingInvented | src/fs/ThreadSocketFilter.cxx:416-610 | in every reachable state what left at either end is a prefix of what entered at the other |
| ThreadFilter.EndIsLast | src/fs/ThreadSocketFilter.cxx:343-354 | when "end" is told, every byte received has been delivered and "remaining" was told |
| ThreadFilter.RemainingIsExact | src/fs/ThreadSocketFilter.cxx:331-337 | the amount told is the number of bytes received and not delivered |
| ThreadFilter.EndFindsNoInput | src/fs/ThreadSocketFilter.cxx:711-717 | the assertion in OnEnd() holds in every reachable state |
| ThreadFilter.IdleMeansBlocked | src/fs/ThreadSocketFilter.cxx:369-406 | with no run to come, what is left waits for a full buffer to be drained |
| ThreadFilter.Settles | src/fs/ThreadSocketFilter.cxx:216-610 | from every reachable state there is a continuation without new bytes that delivers everything and, while the socket is connected, sends everything; it tells a postponed "end" if that will be looked at again |
| ThreadFilter.ForgottenStays | src/fs/ThreadSocketFilter.cxx:708-724 | a postponed "end" that nobody will look at is never told by any continuation at all |
| ThreadFilter.EndComes | src/fs/ThreadSocketFilter.cxx:315-358 | a postponed "end" can still be told if and only if the job is not idle or the decrypted input buffer is full |
| ThreadFilter.EndIsLost | src/fs/ThreadSocketFilter.cxx:315-358 | a postponed "end" can still be lost for good if and only if the job is idle or there is a byte that the handler has not got |
| ThreadFilter.EndForgotten | src/fs/ThreadSocketFilter.cxx:708-724 | reachable states with empty input buffers, and with an output buffer holding anything up to its capacity, where it never is |
| ThreadFilter.EndHeldBack | src/fs/ThreadSocketFilter.cxx:315-358 | a run in which the "end" could have been told and is lost, because the handler consumes its last byte only after Done() |
| ThreadSocket.ThreadSocketFilter.OnData | src/fs/ThreadSocketFilter.cxx:416-437 | the call is a run of the protocol; it schedules unless the buffer was full |
| ThreadSocket.ThreadSocketFilter.MoveDecryptedInput | src/fs/ThreadSocketFilter.cxx:63-73 | one critical section of the protocol |
| ThreadSocket.ThreadSocketFilter.AfterConsumed | src/fs/ThreadSocketFilter.cxx:481-486 | a run of the protocol that refills and wakes a stalled filter |
| ThreadSocket.ThreadSocketFilter.SubmitDecryptedInput | src/fs/ThreadSocketFilter.cxx:87-130 | for any answers of the handler the loop is a run of reading steps; the handler is asked again exactly as long as it asks for more and something new is there, and the filter dies only with DESTROYED or MORE on a full buffer |
| ThreadSocket.ReadingDelivers | src/fs/ThreadSocketFilter.cxx:469-486 | what a handler gets by reading is the next part of the decrypted input, as long as the sum of what it consumed |
| ThreadSocket.ThreadSocketFilter.Consumed | src/fs/ThreadSocketFilter.cxx:469-479 | a step of the protocol |
| ThreadSocket.ThreadSocketFilter.Write | src/fs/ThreadSocketFilter.cxx:509-531 | a run of the protocol; it schedules if anything was accepted |
| ThreadSocket.ThreadSocketFilter.InternalWrite | src/fs/ThreadSocketFilter.cxx:564-610 | a run of the protocol for any amount the socket takes |
| ThreadSocket.ThreadSocketFilter.ConsumeOutput | src/fs/ThreadSocketFilter.cxx:584-595 | the filter is woken if the buffer was full |
| ThreadSocket.ThreadSocketFilter.Run | src/fs/ThreadSocketFilter.cxx:216-245 | the three steps of the worker |
| ThreadSocket.ThreadSocketFilter.DonePostponed | src/fs/ThreadSocketFilter.cxx:257-259 | the first critical section of Done() |
| ThreadSocket.ThreadSocketFilter.Done | src/fs/ThreadSocketFilter.cxx:247-409 | for any answers of the handler the steps are the wake-up, then what the handler reads after an empty buffer was refilled, then "remaining" and "end" if both were postponed and everything is decrypted |
| ThreadSocket.ThreadSocketFilter.DoneClosed | src/fs/ThreadSocketFilter.cxx:316-357 | submits first if anything is left, refilling an empty buffer, then tells "remaining", then "end" |
| ThreadSocket.ThreadSocketFilter.OnClosed | src/fs/ThreadSocketFilter.cxx:645-655 | a step of the protocol |
| ThreadSocket.ThreadSocketFilter.OnRemaining | src/fs/ThreadSocketFilter.cxx:657-682 | a step of the protocol: forwarded if the worker is quiet, postponed otherwise |
| ThreadSocket.ThreadSocketFilter.OnEnd | src/fs/ThreadSocketFilter.cxx:684-725 | a run of the protocol, which looks at the buffers if and only if "remaining" was told or can be told now |
| Lease.MoveOneKeeps | src/fs/Lease.cxx:199-208 | one turn of the loop keeps the queue, and fills the front or empties the other buffer |
| Lease.PackedFront | src/fs/Lease.cxx:104-110 | an empty front buffer means that all are empty, and the front is a prefix of the queue |
| Lease.FilteredSocketLease.Take | src/fs/Lease.cxx:44-55 | bytes move from the socket to the end of the queue |
| Lease.FilteredSocketLease.MoveSocketInput | src/fs/Lease.cxx:23-59 | whatever the worker decrypts at whatever time, the queue holds everything in order but for what was decrypted after the last AfterConsumed(), the assertion on the buffer index holds, and the assertion that the socket is empty holds if and only if that is nothing |
| Lease.FilteredSocketLease.Release | src/fs/Lease.cxx:61-81 | with preserve, what could be read can still be read; without, nothing |
| Lease.FilteredSocketLease.GetAvailable | src/fs/Lease.cxx:92-102 | the number of bytes that can still be read |
| Lease.FilteredSocketLease.ReadBuffer | src/fs/Lease.cxx:104-110 | a prefix of what is left, empty only if nothing is left |
| Lease.FilteredSocketLease.DisposeConsumed | src/fs/Lease.cxx:112-120 | drops exactly the consumed prefix |
| Lease.FilteredSocketLease.MoveInput | src/fs/Lease.cxx:199-208 | keeps the queue and restores the invariant |
| Lease.FilteredSocketLease.Ask | src/fs/Lease.cxx:132-167 | what one answer of the handler consumes, and from that and the size of the queue whether it is asked again, told the end, or refused; a content handler is asked again if and only if it consumes something and less than a whole buffer is left |
| Lease.FilteredSocketLease.ReadReleased | src/fs/Lease.cxx:129-170 | the handler gets the queue in order, the loop stops for the reason it gives, a handler that always consumes and asks again gets everything, and one that wants more and consumes nothing is asked as often as it answers |
| Lease.LeftBehind | src/fs/Lease.cxx:58 | a run that leaves decrypted bytes in the socket, against the assertion |
| Lease.StopsEarly | src/fs/Lease.cxx:149-151 | a run in which a content handler has consumed something and is not asked again, although more is left |
| Lease.HungryForever | src/fs/Lease.cxx:153-159 | a handler that wants more and consumes nothing is asked any number of times |
| Cgi.ScanAppend | src/cgi/Parser.cxx:51-98 | how the meaning of a response continues when more bytes arrive |
| Cgi.PendingFits | src/cgi/Client.cxx:150-151 | an unfinished line has no newline and leaves room in the buffer |
| Cgi.BodyIsNew | src/cgi/Client.cxx:160-164 | the body in the buffer is shorter than the new bytes: the assertion on DONE |
| Cgi.HeadIsComplete | src/cgi/Client.cxx:169-172 | the bytes before the body are a complete header block |
| Cgi.ParseLines | src/cgi/Parser.cxx:62-86 | the line loop finds what the reference finds in the buffer: the lines, the blank line, a bad line, or a line that is too long |
| Cgi.CgiClient.ParseHeaders | src/cgi/Parser.cxx:51-98 | lines are taken once, and an overlong line, a malformed line or excess data is refused if it is there |
| Cgi.CgiClient.FeedHeaders | src/cgi/Client.cxx:145-191 | progress is made, body bytes are not consumed, and the client's state remains a function of the bytes consumed |
| Cgi.CgiClient.FeedHeadersLoop | src/cgi/Client.cxx:193-214 | all of the chunk is parsed unless the headers end in it |
| Cgi.CgiClient.FeedBody | src/cgi/Client.cxx:229-248 | accepted bytes are the body; the end comes exactly with the declared length, excess is refused |
| Cgi.CgiClient.OnData | src/cgi/Client.cxx:255-283 | any chunk: the client stays alive exactly with bytes it can accept, or is closed for a reason that the bytes explain |
| Cgi.CgiClient.OnEof | src/cgi/Client.cxx:311-333 | the end is fine only after the headers of a response of unknown length |
| Cgi.FragmentationIrrelevant | src/cgi/Client.cxx:145-283 | clients that have consumed the same bytes in different chunks are in the same state |
| Cgi.AliveMeans | src/cgi/Client.cxx:145-283 | the delivered body is what follows the header block; the buffer holds no newline |
| Cgi.Respond | src/cgi/Client.cxx:145-333 | for any list of chunks the headers, the body and the way the response ends are those of the concatenated bytes, unless there is more data than declared |
| Chunk.Concat | src/http/ChunkParser.cxx:13-97 | the reference decoder does not notice where the stream was cut |
| Chunk.HttpChunkParser.Turn | src/http/ChunkParser.cxx:21-93 | one turn of the loop is a step of the automaton, except that leaving the size consumes nothing |
| Chunk.HttpChunkParser.Parse | src/http/ChunkParser.cxx:12-97 | terminates, skips only bytes that are not data, and returns the next data or the end of the input; an error means a bad stream |
| Chunk.HttpChunkParser.Consume | src/http/ChunkParser.hxx:43-54 | the chunk is over exactly when all of it has been used |
| Chunk.HttpChunkParser.Feed | src/http/ChunkParser.cxx:12-97 | parsing a fragment and using part of its data is the automaton on the bytes used, and makes progress |
| Chunk.Decode | src/http/ChunkParser.cxx:12-97 | over any fragmentation and any partial use the output is the data of the bytes used, and every call with new bytes and room for data gets further |
| Chunk.SizeIsModular | src/http/ChunkParser.cxx:24-47 | a size is read modulo the width of size_t |
| Chunk.MessageDecodes | src/http/ChunkParser.cxx:13-97 | any chunks with extensions, a last chunk and trailers decode to the concatenated data and reach the end |
| Chunk.MessageEndsLast | src/http/ChunkParser.cxx:75-90 | the end is reached with the last byte and not before |
| Chunk.DecodeMessage | src/http/ChunkParser.cxx:12-97 | for every fragmentation and every partial use, decoding a whole message yields its data and reaches the end with the last byte |
| Html.RoundTrip | src/escape/HTML.cxx:75-246 | unescaping undoes escaping, for every text |
| Html.UnescapeShrinks | src/escape/HTML.cxx:75-133 | unescaped text is never longer |
| Html.ParseNumber | src/escape/HTML.cxx:28-60 | the leading digits as a 32 bit number that wraps around, and the rest |
| Html.ParseEntity | src/escape/HTML.cxx:92-129 | which entities are recognised, and what they mean |
| Html.UnescapeAmpersand | src/escape/HTML.cxx:89-130 | an entity is replaced without touching the unread input, even in the same array |
| Html.UnescapeInto | src/escape/HTML.cxx:74-133 | the result is the same for a fresh buffer and for the source itself |
| Html.UnescapeInPlace | src/escape/Class.hxx:73-84 | in place, with a result that is not longer than the input |
| Html.EscapeConcat | src/escape/HTML.cxx:212-246 | escaping works piece by piece |
| Html.EscapeSize | src/escape/HTML.cxx:135-163 | exactly the size of the escaped text |
| Html.EscapeFind | src/escape/HTML.cxx:165-185 | everything before the result needs no escaping |
| Html.EscapeInto | src/escape/HTML.cxx:212-246 | the loop writes the escaped text |
| EscapeIstream.EscapeStream.SendEscaped | src/escape/Istream.cxx:63-82 | the rest of an entity is sent once |
| EscapeIstream.EscapeStream.OnData | src/escape/Istream.cxx:89-145 | for any acceptance, output followed by the pending entity is the escape of the input consumed; a sink that accepts everything gets all of it |
| EscapeIstream.EscapeStream.OnEof | src/escape/Istream.cxx:46-51 | the stream ends at once only if nothing is pending |
| EscapeIstream.EscapeStream.Read | src/escape/Istream.cxx:152-159 | the pending entity goes first; a sink that accepts everything gets it, and the end if there is no more input |
| EscapeIstream.EndIsComplete | src/escape/Istream.cxx:63-82 | at the end the output is the escape of the whole input, and unescaping it gives the input |
| EscapeIstream.AlwaysAPrefix | src/escape/Istream.cxx:89-145 | at any time the output is a prefix of the escape of whatever the input will be |
| Cache.ItemCache.RemoveItem | src/cache/Cache.cxx:50-69 | index, list, size and timer agree afterwards |
| Cache.ItemCache.RefreshItem | src/cache/Cache.cxx:77-83 | the item becomes the most recently used one |
| Cache.ItemCache.Get | src/cache/Cache.cxx:94-112 | a fresh item with this key, now the most recently used; a stale one is removed |
| Cache.ItemCache.GetMatch | src/cache/Cache.cxx:114-135 | a fresh matching item if there is one; only stale items with this key are removed |
| Cache.ItemCache.DestroyOldestItem | src/cache/Cache.cxx:137-145 | removes the front of the list |
| Cache.ItemCache.NeedRoom | src/cache/Cache.cxx:147-159 | terminates, and evicts exactly the shortest prefix of the list that makes room |
| Cache.ItemCache.Add | src/cache/Cache.cxx:161-180 | fails exactly if the item is larger than the cache; other items stay but for those evicted |
| Cache.ItemCache.Put | src/cache/Cache.cxx:182-209 | in addition, one item with the same key is replaced, after room was made |
| Cache.ItemCache.PutMatch | src/cache/Cache.cxx:211-224 | the list is that without the matching item and the stale ones met, then the shortest prefix is evicted and the new item appended; the matching item goes even if the new one does not fit |
| Cache.ItemCache.Remove | src/cache/Cache.cxx:226-230 | removes exactly the items with this key |
| Cache.ItemCache.RemoveOne | src/cache/Cache.cxx:232-242 | an item that is gone already is ignored |
| Cache.ItemCache.RemoveAllMatch | src/cache/Cache.cxx:244-263 | removes exactly the matching items, and counts them |
| Cache.ItemCache.ExpireCallback | src/cache/Cache.cxx:265-282 | removes exactly the expired items; the timer goes on exactly if anything is left |
| Cache.ItemCache.Flush | src/cache/Cache.cxx:71-75 | nothing is left and the timer is off |
| Cache.Evicted | src/cache/Cache.cxx:147-159 | the shortest prefix whose removal makes room |
| Cache.LeastRecentlyUsedGo | src/cache/Cache.cxx:137-159 | whatever is evicted was used before whatever stays |
| Cache.OrderIsUnique | src/cache/Cache.cxx:77-83 | the items and their last use determine the list |
| Translate.Request.RepeatTranslation | src/bp/Handler.cxx:528-710 | repeats if and only if no counter of a packet in the answer is exhausted; counted packets bring the limit closer |
| Translate.Request.SubmitEnotdir | src/bp/file_enotdir.cxx:32-54 | the URI is cut at the last slash, and one slash less is left; gives up exactly if there is none |
| Translate.OneSlashLess | src/bp/file_enotdir.cxx:44-50 | cutting at the last slash takes exactly one slash away |
| Translate.Request.Conclude | src/bp/Handler.cxx:98-111 | a CHAIN request follows exactly if there is a CHAIN packet, fewer than four came before, and the response gets there |
| Translate.Request.OnTranslateResponse2 | src/bp/Handler.cxx:932-952 | exactly one budget that is never refilled pays for the next request, and which one it is |
| Translate.Request.CheckFileEnotdir | src/bp/file_enotdir.cxx:105-123 | an ENOTDIR request costs one slash; without a slash the remaining checks go on |
| Translate.Request.OnTranslateResponseAfterEnotdir | src/bp/Handler.cxx:955-969 | a missing file costs one FILE_NOT_FOUND request |
| Translate.Request.OnTranslateResponseAfterFileNotFound | src/bp/Handler.cxx:971-985 | a directory costs one DIRECTORY_INDEX request |
| Translate.Request.OnTranslateResponseAfterAuth | src/bp/Handler.cxx:883-930 | the measure decreases although two counters are reset, unless only uncounted packets ask to repeat |
| Translate.Request.HandleChainResponse | src/bp/Handler.cxx:712-753 | a CHAIN answer brings the limit closer, too |
| Translate.Request.OnTranslateResponse | src/bp/Handler.cxx:786-881 | every answer that leads to another request decreases the measure, except for uncounted ones |
| Translate.Dialogue | src/bp/Handler.cxx:528-1034 | whatever the server answers, the number of requests is at most a constant plus nine times the slashes in the URI plus the number of uncounted repeats |
| Translate.WantForever | src/bp/Handler.cxx:888-904 | with uncounted repeats alone the number of requests has no limit |

## Left out

- FastCGI header phase: `ParseHeaders()` and `HandleLine()`; the model begins with the response body, inside the STDOUT record that ended the headers.
- FastCGI responses without a body (HEAD requests), the request side of the client, timeouts, retries and the `InvokeReady()` shortcut before `OnBufferedData()`.
- `_GetAvailable()` of the FastCGI client beyond what the look-ahead lemmas say about the analysis it uses.
- FcgiBody.ResponseBody.ConsumeBucketList: requires a fill after the last input and a complete END_REQUEST record if there is one, because otherwise the consume handler can pass the END_REQUEST header without noticing the end, or meet STDERR payload that was not forwarded and fail its assertion.
- FcgiIstream.FcgiIstream.OnData: a consumer that destroys the stream during the call.
- Thread filter: TLS and every filter but the identity filter, worker errors, `input_eof`, `Shutdown()`, the handshake, postponed destruction, the drained notification, and `want_read`/`want_write` scheduling beyond the flag itself.
- ThreadSocket.ThreadSocketFilter.Done: the callbacks for writing and for the drained socket are steps of the handler in the protocol and not calls of this method.
- ThreadFilter.EndIsLast: that "end" is told only once depends on the handler closing the socket when it is told.
- Lease: an exception thrown by the handler at the end, `OnBufferedData()` and the other forwarded callbacks.
- CGI: what header lines mean is a parameter, the direct (splice) transfer and `_Read()` are left out, and nothing is said about whether the handler gets the response before excess data is noticed, which depends on the chunks.
- Html.EscapeSize: the interface comment promises 0 if no escaping is needed; the code returns the size, and so does the model.
- UTF-8 encoding is written out from RFC 3629 because the helper is not part of the repository; code points are not checked for being surrogates, as in the code.
- Cache: shared leases on items that were removed, the item's `Destroy()`, the handler callbacks, `RemoveKeyIf()`, and the order inside a hash bucket, which is arbitrary here; sizes are unbounded integers.
- Translation: authentication requests, the contents of the requests, and a change of the request URI in the middle of an ENOTDIR search; one answer carries what the file system says about its paths.
- The other escape classes, XML and widget rewriting, access logs, certificate and configuration tools, and everything that only moves bytes between file descriptors.
