# libcaf_net: a verified model

A Dafny 4.11 model of the parts of `libcaf_net` whose correctness is a property of whole runs; the command for the project is
`dafny verify dfyconfig.toml`.

**The byte-stream stack.** `Bytes` and `Rfc6455` hold the frame codec with in-place masking, `Rfc6455Examples` its numbers.
`WebSocketFraming` is the frame loop with reassembly, upper-layer calls and outgoing frames: a class whose methods compute what
the function `Parse` says, about which `WebSocketTheorems` proves prefix stability, delivery, reassembly and the exact reasons
for rejection, and `WebSocketAnswers` what is sent back. `LengthPrefixFraming` does the same for length-prefixed messages.
`HttpText`, `WebSocketHandshake` and `WebSocketHandshakeTheorems` are the HTTP upgrade, and `WebSocketRefusals` says which
handshakes are not accepted. `StreamTransport` is the transport itself, with its in-place read buffer, its thresholds, its
output buffer and what it is polled for around calls into an upper layer, over a socket that delivers any chunks and takes any
prefix. `StreamLayer` states what a transport and a layer owe each other: a layer refines a function of the bytes received so
far. `WebSocketUpgrade` is the layer of server and client as a class on the real buffers. `WebSocketStack`, `WebSocketSessions`
and `LengthPrefixSessions` compose all of this into statements about connections: whatever the socket does, the application sees
exactly the messages that were sent. `Outbox` is a transport that sends prepared output, and `WebSocketExchange` feeds what it
has sent into the transport of a server.

**The multiplexer.** `PollsetModel` is the multiplexer as a function of its state: the two parallel vectors, the masks, the
callbacks of managers as arbitrary code that registers, shuts down and returns true or false, the scan and the shutdown loop.
`PollsetTheorems`, `PollsetScan` and `PollsetRuns` prove what registrations, rounds, scans and whole runs keep; `PollsetOwn`
says what a round means for the manager it visits, which is what `StreamTransport` uses. `Multiplexer` has the classes for the
multiplexer and its socket managers, whose methods compute what the model says. `PollsetUpdater` is the wake-up pipe with
records in pieces and counted references. `Wakeup` is a transition system of enqueuing threads and the event loop whose steps
are the operations of `PollsetModel`; `WakeupRounds` shows that a visit in it is a round of the scan, and `WakeupTransport` that
the transport's callbacks make its steps; `WakeupRecords` that its records are those in the pipe. `ActorShell` is the mailbox
side as a class.

**BASP.** `MessageQueue` is the reorder buffer as a class, and `BaspWorkers` the reader and its workers as interleaved steps.
`BaspHeader`, `BaspApplication` and `BaspTheorems` are the application: codec, state machine, handlers and what holds of whole
streams. `BaspConnection` has the objects of a connection, application, workers and queue, and runs them; `BaspStream` runs the
application on a stream transport. `BaspResolve` is the lookup protocol between two peers on packets, and `BaspWire` the same on
bytes in any pieces. `BaspPackets` and `BaspPeers` feed what one application writes to another.

Some results that differ from what one might expect of the code:

- A callback that returns false must not register its own manager in the same call of `handle`. `PollsetScan.VisitKeeps` gives
  the exact condition; `PollsetRuns.WriteLost` and `PollsetRuns.ReadLost` show what happens otherwise. The second shows that a
  write callback that returns true can lose its registration for reading if the read callback has returned false just before.
- A message whose payload cannot be read, that names no receiver, or whose receiver is not registered
  (`remote_message_handler.hpp:42-56` returns without completing its id) stops all delivery behind it for good:
  `BaspWorkers.Drained`, `BaspWorkers.BlockedForever` and `BaspWorkers.OneMessageBlocks`.
- A packet announces its size if and only if its payload has less than 2^32 bytes, as the size is cut to 32 bits:
  `BaspPackets.AnnouncedExactly`.
- A request made while 2^64 requests are outstanding loses its listener without a word: `BaspResolve.FirstLoss`.
- What is in the output buffer when reading fails is stranded there, if and only if output was not polled for before that event,
  because the multiplexer removes the manager together with a registration just made: `StreamTransport.Transport.HandleEvents`.
  So, without a wake-up by another thread, the answer 431 of a server to a header that is too large does not leave its buffer:
  `WebSocketSessions.RunTooLarge` and `WebSocketSessions.RunRejected`. The other side is `WebSocketSessions.RunWoken`.
- A manager whose shell has quit while it was polled for output is polled for output for good: `Wakeup.QuitPollsOn`.
- Any frame but a continuation between the fragments of a message is rejected, control frames included, although section 5.4 of
  RFC 6455 allows those: `WebSocketTheorems.InterleavedExactly`, and `WebSocketTheorems.PingBetweenFragments` at an input.
- The length of a frame is encoded in its shortest form, as section 5.2 of RFC 6455 demands, for every payload except those of
  65535 bytes: `Rfc6455.ShortestExactly`.
- A message of exactly `max_message_length` bytes is the only one that `end_message` refuses and `consume` would deliver:
  `LengthPrefixFraming.RefusedExactly`.

## Model

| member | source | states |
|---|---|---|
| Bytes.XorLaws | libcaf_net/src/detail/rfc6455.cpp:18-27 | exclusive-or with the same byte twice restores a byte, and with 0 changes nothing |
| Bytes.XorIsMachineXor | libcaf_net/src/detail/rfc6455.cpp:25-26 | the exclusive-or of the masking theorems is `^` on bytes of eight bits |
| Bytes.FlagMasks | libcaf_net/src/detail/rfc6455.cpp:43-48 | the tests of a header byte for its flag and its reserved bits, read as comparisons of numbers; the codec tests its bytes with these operators |
| Bytes.AddedFlag | libcaf_net/src/detail/rfc6455.cpp:43-48 | setting the flag of a byte that does not have it adds 128 |
| Bytes.NibbleMask | libcaf_net/src/detail/rfc6455.cpp:82-86 | the opcode field of a header byte, read as a remainder |
| Bytes.LengthMask | libcaf_net/src/detail/rfc6455.cpp:82-86 | the length field of a header byte, read as a remainder |
| Rfc6455.MaskTwice | libcaf_net/src/detail/rfc6455.cpp:18-27 | masking twice with any key is the identity, and the key 0 masks nothing (RFC 6455, section 5.3) |
| Rfc6455.MaskData | libcaf_net/src/detail/rfc6455.cpp:18-27 | the in-place loop masks exactly the given span and touches no other byte |
| Rfc6455.FrameWriter.AssembleFrame | libcaf_net/src/detail/rfc6455.cpp:39-74 | appends exactly one frame with flags, opcode, length in its 7-, 16- or 64-bit form, key and data to whatever is in the buffer |
| Rfc6455.ShortestExactly | libcaf_net/src/detail/rfc6455.cpp:45-68 | no length field that a decoder reads as the payload size is shorter than the one written, if and only if the size is not 65535 (RFC 6455, section 5.2) |
| Rfc6455.DecodeHeader | libcaf_net/src/detail/rfc6455.cpp:76-137 | reports 0, -1 or the header length with the decoded fields, exactly as the pure decoder does on every input |
| Rfc6455Examples.DecisionExactly | libcaf_net/src/detail/rfc6455.cpp:76-137 | a header is incomplete, complete or rejected exactly by its first two bytes and its size; it is rejected if and only if a reserved bit is set or the opcode is none of 0, 1, 2, 8, 9 and 10 |
| Rfc6455Examples.UnmaskedFrames | libcaf_net/src/detail/rfc6455.cpp:39-74 | the unmasked examples of RFC 6455, section 5.7, byte by byte: a text frame, its two fragments, a ping; and a close frame |
| Rfc6455Examples.MaskedFrames | libcaf_net/src/detail/rfc6455.cpp:18-74 | the masked examples of that section: a text frame, and the pong that answers the ping |
| Rfc6455Examples.LongFrames | libcaf_net/src/detail/rfc6455.cpp:45-68 | its examples with 256 bytes and 64 KiB of binary data |
| Rfc6455.DecodeFrame | libcaf_net/src/detail/rfc6455.cpp:39-137 | decoding an assembled frame returns its FIN flag, opcode, key and payload length for every known opcode, key and length, and leaves payload and rest in place |
| Rfc6455.DecodeStrictPrefix | libcaf_net/src/detail/rfc6455.cpp:76-98 | every strict prefix of a frame header decodes to 0, so the reader waits |
| Rfc6455.DecodeStable | libcaf_net/src/detail/rfc6455.cpp:76-137 | bytes that arrive later never change a non-zero result, for arbitrary bytes |
| StreamLayer.StandsNext | libcaf_net/caf/net/stream_transport.hpp:192-225 | one read and the call it leads to, or no call below the minimum, take a layer and its buffer from where they should stand after the bytes so far to where they should stand after the new ones, with room for the next read |
| StreamTransport.Socket.Read | libcaf_net/caf/net/stream_transport.hpp:192-200 | a socket delivers any positive number of the next bytes, or fails, or reports a closed connection; it records whether the last error was temporary and whether reading has failed for good |
| StreamTransport.Transport.constructor | libcaf_net/caf/net/stream_transport.hpp:123-146 | a fresh transport has consumed and appended nothing and uses the thresholds of its layer |
| StreamTransport.Transport.ConfigureRead | libcaf_net/caf/net/stream_transport.hpp:87-93 | sets both thresholds and registers for reading exactly when reading had been stopped |
| StreamTransport.Transport.BeginOutput | libcaf_net/caf/net/stream_transport.hpp:61-65 | registers for writing exactly when the output buffer is empty, whatever follows |
| StreamTransport.Transport.Append | libcaf_net/caf/net/stream_transport.hpp:61-70 | bytes sent followed by the output buffer stay equal to everything appended, and writing is registered if and only if the buffer was empty and output was begun, with or without adding to it |
| StreamTransport.Transport.ShiftDown | libcaf_net/caf/net/stream_transport.hpp:208-212 | the overlapping copy within the buffer moves the unconsumed bytes to its front unchanged |
| StreamTransport.Transport.Discard | libcaf_net/caf/net/stream_transport.hpp:208-215 | consumed bytes followed by the buffer stay what the layer was given, whatever it wrote to the bytes it consumed |
| StreamTransport.Transport.ConsumeAvailable | libcaf_net/caf/net/stream_transport.hpp:203-220 | one call into the layer: bytes removed are exactly those reported, and the configured policy takes effect |
| StreamTransport.Transport.ConsumeOverrun | libcaf_net/caf/net/stream_transport.hpp:167-190 | the branch for a buffer that is already full: it reads and removes nothing, and aborts if and only if the layer returns a negative count, or consumes nothing without raising the maximum |
| StreamTransport.Transport.Fill | libcaf_net/caf/net/stream_transport.hpp:192-201 | a read appends exactly what the socket delivers behind the unconsumed bytes and never beyond the maximum |
| StreamTransport.Transport.ReadOnce | libcaf_net/caf/net/stream_transport.hpp:192-236 | one read: reading is given up if and only if the socket has failed for good or the layer has returned a negative count, and not on a temporary error; it keeps the byte conservation and, for a layer that refines its specification, keeps layer and buffer in step with it |
| StreamTransport.Transport.HandleReadEvent | libcaf_net/caf/net/stream_transport.hpp:151-240 | the bounded read loop conserves bytes until the branch for a full buffer is taken, and stops after the configured number of reads or a temporary error, on which it returns true; it returns false if and only if the socket has failed for good, the layer has returned a negative count, or that branch has made no progress; for a layer in step with its specification it never takes that branch nor reads beyond the buffer |
| StreamTransport.Transport.HandleWriteEvent | libcaf_net/caf/net/stream_transport.hpp:243-277 | accepted bytes followed by the buffer equal what was appended, also after reading has failed; writing is given up if and only if the socket has failed for good or `prepare_send` has, and not on a temporary error; otherwise it returns true if and only if output is left or the layer is not done |
| StreamTransport.Transport.HandleEvents | libcaf_net/src/multiplexer.cpp:203-317 | both callbacks of one `handle` and storing its events: each is called if reported and polled for, the second also after the first has failed, `abort` only for an error alone, and mask and entry become what `Round` says; when reading fails with output in the buffer, the manager is stranded if and only if output was not polled for before |
| PollsetOwn.RoundIsVisited | libcaf_net/src/multiplexer.cpp:203-317 | in any pollset, a visit of a manager that registers only itself does to its mask and entry what `Round` says, removes the entry if nothing is polled for any more, and touches no other manager |
| PollsetOwn.RegisteredInterest | libcaf_net/src/multiplexer.cpp:117-153 | a registration does to the mask and the polled events of any manager, with or without an entry, what `Register` says, and nothing to any other manager |
| StreamTransport.Transport.Wake | libcaf_net/src/multiplexer.cpp:136-153 | a record of another thread makes output polled for, unless the manager is stranded |
| StreamTransport.Transport.Run | libcaf_net/caf/net/stream_transport.hpp:151-277 | over every sequence of polls and wake-ups, with both directions going on when the other has failed, conservation and the agreement with the specification hold; the input is polled for unless the socket has failed for good, the layer has rejected the stream or `poll` has reported an error, and left-over output until writing fails, unless reading failed in the event in which the output was begun: then it stays where it is |
| StreamTransport.Transport.RunUnsent | libcaf_net/caf/net/stream_transport.hpp:203-231 | for a layer that has written nothing, on a stream on which it writes nothing unless it rejects it, and without a wake-up by another thread: over every run nothing is sent, and what it writes on rejecting is stranded in the buffer |
| StreamTransport.RunConnection | libcaf_net/caf/net/stream_transport.hpp:123-277 | a connection from its start: the layer stands where its specification says after the bytes received, and what was sent and what is buffered is the opening output and what the state says has been written; with temporary errors only the input stays polled for until the stream is rejected |
| WebSocketFraming.Framing.ShipFrame | libcaf_net/caf/net/web_socket/framing.hpp:273-297 | appends one frame masked with the next random key, or unmasked, and draws a key only when masking |
| WebSocketFraming.Framing.CallUpper | libcaf_net/caf/net/web_socket/framing.hpp:251-257 | the upper layer is called once with the message, and everything it sends in response is shipped in order |
| WebSocketFraming.Framing.Dispatch | libcaf_net/caf/net/web_socket/framing.hpp:248-271 | text and binary go to the upper layer, a ping is answered, a pong ignored, a close or unknown opcode ends the connection; what is sent for it is `WebSocketAnswers.AnswersExactly` |
| WebSocketFraming.Framing.ProcessFrame | libcaf_net/caf/net/web_socket/framing.hpp:184-234 | the reassembly step with all its reasons for rejection |
| WebSocketFraming.Framing.ConsumeFrame | libcaf_net/caf/net/web_socket/framing.hpp:152-236 | one round of the frame loop on the real buffer: only the bytes of the frame it consumes are changed |
| WebSocketFraming.Framing.Consume | libcaf_net/caf/net/web_socket/framing.hpp:146-243 | the endless loop computes what the recursive parser says on the original bytes, although it unmasks them in place as it goes |
| WebSocketTheorems.RoundStable | libcaf_net/caf/net/web_socket/framing.hpp:152-206 | a round that has taken a decision takes the same decision when more bytes follow |
| WebSocketTheorems.ParseSplit | libcaf_net/caf/net/web_socket/framing.hpp:146-243 | parsing a stream in two pieces gives the same calls, replies, verdict and consumed bytes as parsing it at once, for arbitrary bytes |
| WebSocketTheorems.ParseRest | libcaf_net/caf/net/web_socket/framing.hpp:160-177 | what is left unconsumed is smaller than the maximum that has been configured, and below the configured minimum more bytes change nothing |
| WebSocketTheorems.PartialFrame | libcaf_net/caf/net/web_socket/framing.hpp:160-177 | any part of a frame changes nothing, and asks for up to 2048 bytes before the end of the header, and for exactly the frame behind it |
| WebSocketTheorems.FrameOnWire | libcaf_net/caf/net/web_socket/framing.hpp:152-183 | a frame is processed with the fields and payload it was made from, and is rejected for its size if and only if header and payload do not fit the maximum |
| WebSocketTheorems.PartsReassemble | libcaf_net/caf/net/web_socket/framing.hpp:184-234 | fragments of one message arrive as the concatenation under the first opcode and leave the layer idle |
| WebSocketTheorems.Delivery | libcaf_net/caf/net/web_socket/framing.hpp:146-271 | any mix of whole and fragmented messages, pings and pongs delivers exactly the messages, in order and each once, as long as the upper layer accepts them, and never anything else |
| WebSocketTheorems.ShipThenParse | libcaf_net/caf/net/web_socket/framing.hpp:146-297 | what one layer ships another receives unchanged, for every list of messages within the size limit, every choice of keys including 0, masked or not |
| WebSocketTheorems.AcceptedExactly | libcaf_net/caf/net/web_socket/framing.hpp:184-234 | a frame is accepted if and only if continuation frames and messages in progress match, the size fits, and a completed message is handled |
| WebSocketTheorems.InterleavedExactly | libcaf_net/caf/net/web_socket/framing.hpp:184-234 | a frame is rejected for want of a continuation, without any effect, if and only if a message is in progress and the frame does not continue it |
| WebSocketTheorems.ReasonsExactly | libcaf_net/caf/net/web_socket/framing.hpp:184-234 | the exact conditions for the other reasons: a first fragment without an opcode, fragments that add up to more than the maximum, and a complete close frame |
| WebSocketTheorems.InvalidEnds | libcaf_net/caf/net/web_socket/framing.hpp:155-159 | a frame is rejected for its header if and only if the header is invalid, whatever is in progress |
| WebSocketTheorems.PingBetweenFragments | libcaf_net/caf/net/web_socket/framing.hpp:187-194 | on the wire: a ping between two fragments ends the connection, whatever the keys, payloads and what follows |
| WebSocketTheorems.ParseKeeps | libcaf_net/caf/net/web_socket/framing.hpp:195-234 | for all input the reassembly buffer stays within the maximum, an idle layer holds no fragments, and calls and output only grow |
| WebSocketTheorems.ParseBlind | libcaf_net/caf/net/web_socket/framing.hpp:146-297 | what a layer has sent, and the keys it has drawn, never influence what it delivers or rejects |
| WebSocketTheorems.ParseNext | libcaf_net/caf/net/web_socket/framing.hpp:146-243 | the call made for newly arrived bytes leads to the state of one pass over all bytes and leaves room for the next read |
| WebSocketAnswers.PingAnswered | libcaf_net/caf/net/web_socket/framing.hpp:261-284 | a ping with any payload and key, in front of anything, is answered by exactly one pong with the same payload under the next key (RFC 6455, section 5.5.3), without a call |
| WebSocketAnswers.CloseEnds | libcaf_net/caf/net/web_socket/framing.hpp:258-260 | a close frame on an idle layer ends the connection as closed, whatever follows it |
| WebSocketAnswers.AnswersExactly | libcaf_net/caf/net/web_socket/framing.hpp:146-297 | for any mix of whole and fragmented messages, pings and pongs, what is sent is in order one pong with the joined payload for each ping and the replies to each message, one frame each under consecutive keys, up to and with the first message the upper layer refuses, which is also what ends the connection |
| LengthPrefixFraming.Framing.EndMessage | libcaf_net/caf/net/length_prefix_framing.hpp:95-112 | writes the size into the prefix if and only if it is positive and below the maximum, and changes nothing otherwise |
| LengthPrefixFraming.Framing.Send | libcaf_net/caf/net/length_prefix_framing.hpp:82-112 | begin, payload and end append exactly one frame, if and only if the message is accepted |
| LengthPrefixFraming.Framing.Consume | libcaf_net/caf/net/length_prefix_framing.hpp:142-179 | the loop computes what the recursive parser says, and configures a policy exactly when the upper bound grows |
| LengthPrefixFraming.IdealGrows | libcaf_net/caf/net/length_prefix_framing.hpp:159-167 | the upper bound and the deliveries only grow, and the bound never exceeds INT32_MAX |
| LengthPrefixFraming.ConsumedIsIdeal | libcaf_net/caf/net/length_prefix_framing.hpp:142-179 | on input within the bound the code agrees with a parser that does not depend on how the input was cut |
| LengthPrefixFraming.IdealSplit | libcaf_net/caf/net/length_prefix_framing.hpp:142-179 | that parser gives the same result in two pieces as in one, for arbitrary bytes |
| LengthPrefixFraming.LayerRefinesSpec | libcaf_net/caf/net/length_prefix_framing.hpp:142-189 | however the transport cuts the stream, messages, verdict and bound are those of one pass over all bytes, the bound is the transport's maximum, and there is room for the next read |
| LengthPrefixFraming.RoundTrip | libcaf_net/caf/net/length_prefix_framing.hpp:82-189 | every list of messages accepted for sending arrives unchanged, in order and each once, and frames of size 0 are skipped without effect |
| LengthPrefixFraming.RefusedExactly | libcaf_net/caf/net/length_prefix_framing.hpp:95-164 | a message is delivered if and only if its size is from 1 to the maximum, all that are accepted for sending are delivered, and only those of exactly the maximum are refused by the sender and delivered |
| LengthPrefixSessions.RunConnection | libcaf_net/caf/net/length_prefix_framing.hpp:53-179 | over every run of the transport the messages delivered are a function of the bytes received, and the transport's maximum equals the framing's bound |
| LengthPrefixSessions.PrefixDelivered | libcaf_net/caf/net/length_prefix_framing.hpp:142-179 | any prefix of the frames has delivered a prefix of the messages |
| LengthPrefixSessions.RunMessages | libcaf_net/caf/net/length_prefix_framing.hpp:142-179 | transport and receiver on any part of the frames of accepted messages: always a prefix of the messages, and all of them once all frames have been read |
| LengthPrefixSessions.WriteMessages | libcaf_net/caf/net/length_prefix_framing.hpp:82-112 | the sending class writes one frame for each accepted message, in order |
| LengthPrefixSessions.SendAndReceive | libcaf_net/caf/net/length_prefix_framing.hpp:82-179 | sender, its transport, the receiver's transport and the receiver together: what one socket has taken is what arrives at the other, in any pieces; always a prefix of the sent messages, and all of them once everything has been sent and read |
| Outbox.RunSender | libcaf_net/caf/net/stream_transport.hpp:243-277 | a transport whose layer hands over prepared output: the socket has taken a prefix of it in order, and all of it once nothing is left; polling for output ends before that only if the connection fails |
| HttpText.TrimInPlace | libcaf_net/src/net/web_socket/handshake.cpp:163-173 | the shrinking loops compute the trimmed text and stay inside it |
| HttpText.TrimCuts | libcaf_net/src/net/web_socket/handshake.cpp:163-173 | trimming cuts off all spaces at either end and nothing else |
| HttpText.TrimTextExactly | libcaf_net/src/net/web_socket/handshake.cpp:163-173 | nothing is left of a text if and only if it is white space only |
| HttpText.FindFirst | libcaf_net/src/net/web_socket/handshake.cpp:146-153 | what is found is the first occurrence, and nothing is found only where there is none |
| HttpText.LinesOfHeader | libcaf_net/src/net/web_socket/handshake.cpp:130-144 | splitting a header into lines gives back the lines it was made from |
| HttpText.HeaderEnds | libcaf_net/src/net/web_socket/handshake.cpp:233-251 | the end of a header is found exactly where it ends, whatever follows |
| WebSocketHandshake.WriteRequest | libcaf_net/src/net/web_socket/handshake.cpp:93-109 | appends the request line, the fixed fields and all public fields, each on a line of its own, and the empty line |
| WebSocketHandshake.CollectFields | libcaf_net/caf/net/web_socket/server.hpp:147-157 | the loop over the lines stores every named field, later ones replacing earlier ones |
| WebSocketHandshake.HandleHeader | libcaf_net/caf/net/web_socket/server.hpp:131-169 | the server's decision on a request: GET, the fields and a valid key |
| WebSocketHandshake.ResponseChecker.CheckLine | libcaf_net/src/net/web_socket/handshake.cpp:202-218 | what one line of a response does to the four flags |
| WebSocketHandshake.ValidateResponse | libcaf_net/src/net/web_socket/handshake.cpp:223-231 | the loop over the lines decides as the function over the list of lines does |
| WebSocketHandshakeTheorems.RequestRecovered | libcaf_net/caf/net/web_socket/server.hpp:131-169 | the server recovers method, URI, version, key and fields from the client's request, for every endpoint without space and line break and all fields without line breaks and outer spaces |
| WebSocketHandshakeTheorems.KeyRecovered | libcaf_net/src/net/web_socket/handshake.cpp:29-44 | the key the server assigns is the client's key |
| WebSocketHandshakeTheorems.FieldRecovered | libcaf_net/caf/net/web_socket/server.hpp:147-157 | every configured field is found under its name with its value |
| WebSocketHandshakeTheorems.FixedFieldsRecovered | libcaf_net/src/net/web_socket/handshake.cpp:93-109 | the server finds the fields Host, Upgrade, Connection and Sec-WebSocket-Version with the values section 4.1 of RFC 6455 asks for |
| WebSocketHandshakeTheorems.ResponseAccepted | libcaf_net/src/net/web_socket/handshake.cpp:111-231 | the client accepts a server's response if and only if it was made for a key with the same accept value |
| WebSocketRefusals.ValidExactly | libcaf_net/src/net/web_socket/handshake.cpp:186-231 | any text is a valid response if and only if the last of its status lines says 101, the last of its Upgrade and Connection fields "websocket" and "upgrade", and the last of its accept fields the value for the client's key, and there is one of each |
| WebSocketRefusals.ClientRefuses | libcaf_net/caf/net/web_socket/client.hpp:93-160 | a client rejects any header that is not a valid answer to its key, whatever follows it, and writes nothing, or 431 if the header is too large |
| WebSocketRefusals.OtherKeyRefused | libcaf_net/caf/net/web_socket/client.hpp:140-160 | a client rejects a server's answer to another key, unless both keys have the same accept value |
| WebSocketRefusals.IncompleteRefused | libcaf_net/caf/net/web_socket/client.hpp:140-160 | a client rejects any header in which no line is a good one of one of the four kinds |
| WebSocketRefusals.OtherMethodRefused | libcaf_net/caf/net/web_socket/server.hpp:131-142 | any text that does not begin with GET is refused by the server |
| WebSocketRefusals.FieldExactly | libcaf_net/caf/net/web_socket/server.hpp:149-157 | a line is stored as a field if and only if it has a colon and more than spaces in front of the first one |
| WebSocketRefusals.AcceptedExactly | libcaf_net/caf/net/web_socket/server.hpp:131-169 | a request with any method, URI, version and fields is accepted if and only if the method is GET and its last key field holds 24 characters that end in "==" and can be decoded, and then with that key and all fields |
| WebSocketRefusals.ServerRefuses | libcaf_net/caf/net/web_socket/server.hpp:84-183 | a server rejects a request it refuses, without an answer, or that the upper layer is not initialized with, whatever follows it |
| WebSocketRefusals.RunRefused | libcaf_net/caf/net/stream_transport.hpp:151-277 | an endpoint whose stream begins with a header it refuses, over every run: it never opens, so it makes no call, it has rejected the stream once the header has been read, and it writes nothing but the refusal |
| WebSocketRefusals.RunMisledClient | libcaf_net/caf/net/web_socket/client.hpp:47-160 | a client that is sent anything but a valid answer to its key, over every run: it never opens, and sends nothing behind its request unless the header is too large |
| WebSocketUpgrade.ParseBehind | libcaf_net/caf/net/web_socket/framing.hpp:273-297 | what is in the output buffer already, such as the handshake, has no influence on frames and stays in front of everything shipped |
| WebSocketUpgrade.Upgrade.Consume | libcaf_net/caf/net/web_socket/server.hpp:84-121 | on the real buffers: waits for the end of the header, rejects it or opens the framing, hands over the rest, appends exactly the output the specification says, and writes only to bytes it consumes |
| WebSocketUpgrade.Upgrade.ConsumeFrames | libcaf_net/caf/net/web_socket/server.hpp:110-119 | frames behind a header are consumed by the framing and counted together with the header |
| WebSocketStack.DecisionStable | libcaf_net/caf/net/web_socket/server.hpp:93-107 | the decision on a header is the same in every longer prefix of the stream |
| WebSocketStack.LayerRefinesSpec | libcaf_net/caf/net/web_socket/server.hpp:84-121 | handshake and framing together: however the stream is cut, header, calls, replies and verdict are those of one pass over all bytes, and there is always room for the next read |
| WebSocketStack.AwaitingRefines | libcaf_net/caf/net/web_socket/client.hpp:93-130 | waiting for the header, rejecting a header of 2048 bytes without end, and frames that arrive together with the header |
| WebSocketStack.EndpointShips | libcaf_net/caf/net/web_socket/server.hpp:84-121 | everything an endpoint writes while consuming is the answer to the header or a frame it ships, in order |
| WebSocketSessions.HeaderDecided | libcaf_net/caf/net/web_socket/server.hpp:93-110 | a header in front of any bytes is found and decided on as a whole |
| WebSocketSessions.OpenedDelivers | libcaf_net/caf/net/web_socket/server.hpp:84-121 | an accepted header followed by messages delivers exactly these messages and consumes everything |
| WebSocketSessions.OpenedAnswers | libcaf_net/caf/net/web_socket/server.hpp:84-121 | behind a header the endpoint accepts, what it writes is the answer to the header and then exactly the pongs and replies owed to what follows |
| WebSocketSessions.ServerSession | libcaf_net/caf/net/web_socket/server.hpp:84-183 | a client's request opens the server, which recovers the handshake, answers for the client's key and receives the messages behind it |
| WebSocketSessions.ClientSession | libcaf_net/caf/net/web_socket/client.hpp:93-160 | the server's answer for its key, in front of messages of any kind, opens the client and delivers exactly these messages; `WebSocketSessions.RunClient` is the run, and `WebSocketRefusals.ClientRefuses` the other side |
| WebSocketSessions.ProgressGrows | libcaf_net/caf/net/web_socket/server.hpp:84-121 | calls already made are never taken back, and a rejected stream stays rejected in the same state |
| WebSocketSessions.RejectionIsFinal | libcaf_net/caf/net/web_socket/server.hpp:93-107 | no further bytes make a rejected stream acceptable |
| WebSocketSessions.RunEndpoint | libcaf_net/caf/net/stream_transport.hpp:151-277 | over every run, with anything sent in between, what an endpoint has delivered is a function of the bytes received, and what it has written is its opening output, its answer and the frames it has shipped; the branches for a full buffer are never reached |
| WebSocketSessions.RunAnswering | libcaf_net/caf/net/web_socket/framing.hpp:146-271 | an endpoint that only answers: its whole state and all its output, pongs and keys included, are a function of the bytes received, however they arrive |
| WebSocketSessions.PrefixDelivers | libcaf_net/caf/net/web_socket/server.hpp:84-121 | every prefix of a session's stream delivers a prefix of its messages |
| WebSocketSessions.RunSession | libcaf_net/caf/net/stream_transport.hpp:151-277 | any endpoint that accepts a whole stream, on any part of it and over every run: a prefix of the messages, and all of them with an empty buffer once everything has been read |
| WebSocketSessions.RunServer | libcaf_net/caf/net/web_socket/server.hpp:49-183 | a client's request and messages, through any socket: always a prefix of exactly these messages, nothing rejected, and all of them with an empty buffer once everything has been read; unless the socket fails for good or `poll` reports an error, the input stays polled for |
| WebSocketSessions.RunAnsweringServer | libcaf_net/caf/net/web_socket/server.hpp:49-183 | a server that only answers such a client: what it has written is always a prefix of the response, one pong for each ping and the replies to each message, and all of it once everything has been read |
| WebSocketSessions.RunRejected | libcaf_net/caf/net/web_socket/server.hpp:93-110 | an endpoint that has written nothing, on any stream whose header it does not accept and without a wake-up: it never sends anything, and once it has rejected the header exactly its answer is stranded in the buffer |
| WebSocketSessions.RunTooLarge | libcaf_net/caf/net/web_socket/server.hpp:96-104 | a server and 2048 bytes without the end of a header: rejected exactly when 2048 bytes have been read, nothing is sent, and the answer 431 is stranded in the buffer |
| WebSocketSessions.RunWoken | libcaf_net/caf/net/stream_transport.hpp:243-277 | the other side: an endpoint that was woken first and is never done sending is polled for output until writing fails, whatever it rejects |
| WebSocketSessions.HeaderTooLarge | libcaf_net/caf/net/web_socket/server.hpp:93-107 | on a stream without the end of a header in its first 2048 bytes, fewer bytes are waited for and more are rejected with the answer 431 |
| WebSocketSessions.RunClient | libcaf_net/caf/net/web_socket/client.hpp:47-160 | a client that has written its request and is sent the server's answer and messages, through any socket: a prefix of exactly these messages, nothing rejected, and its output is the request and the frames it ships; unless the socket fails for good or `poll` reports an error, the input stays polled for |
| WebSocketExchange.WriteSession | libcaf_net/caf/net/web_socket/framing.hpp:273-297 | the client's classes write the request and one masked frame for each message |
| WebSocketExchange.ClientToServer | libcaf_net/caf/net/web_socket/framing.hpp:146-297 | client framing, two transports and server together: the server delivers a prefix of exactly the client's messages, and all of them once everything has been sent and read |
| PollsetTheorems.RegisteredKeeps | libcaf_net/src/multiplexer.cpp:117-153 | registering keeps both vectors in step, extends the events of a registered manager, and adds a manager with an empty mask exactly once |
| PollsetTheorems.DeletedKeeps | libcaf_net/src/multiplexer.cpp:328-332 | removing an entry whose manager has an empty mask keeps all others in step |
| PollsetTheorems.StopReadingKeeps | libcaf_net/src/multiplexer.cpp:267-277 | the shutdown loop, erasing while it goes: nobody behind the start reads, exactly the managers that do not write are gone, and the order of those left is unchanged |
| PollsetScan.ActAllSettles | libcaf_net/src/multiplexer.cpp:117-153 | whatever a callback registers, its own entry stays in place and only grows, and no reported event of another manager is lost |
| PollsetScan.OwnEntry | libcaf_net/src/multiplexer.cpp:287-317 | through both callbacks and both `mask_del`, the events returned match the mask if and only if all callbacks have returned true or none has changed the mask by registering |
| PollsetScan.HandledKeeps | libcaf_net/src/multiplexer.cpp:287-317 | one call of `handle` with any callbacks: everything but the own entry still fits, and the own entry can be closed |
| PollsetScan.VisitKeeps | libcaf_net/src/multiplexer.cpp:203-218 | one round of the scan keeps the vectors in step for any callbacks, and the masks exact if and only if the callbacks were considerate |
| PollsetRuns.ScanHandlesAll | libcaf_net/src/multiplexer.cpp:203-218 | the rest of a scan handles every ready manager exactly once and in order, although callbacks append entries and entries are erased in place |
| PollsetRuns.PollHandlesAll | libcaf_net/src/multiplexer.cpp:184-219 | one `poll_once` handles exactly the ready managers that are still registered when reached, the updater first |
| PollsetRuns.RunKeeps | libcaf_net/src/multiplexer.cpp:117-332 | over every run of polls, registrations and shutdowns: equal lengths, same socket at each index, no manager twice, and non-empty events within the mask, equal to it if managers refrain from registering themselves in a call in which a callback returns false |
| PollsetRuns.EveryRun | libcaf_net/src/multiplexer.cpp:80-332 | the same from the start of a multiplexer |
| PollsetRuns.ShutDownStopsReading | libcaf_net/src/multiplexer.cpp:261-283 | after the shutdown only managers with output are left behind the updater, polled for writing alone |
| PollsetRuns.WriteLost | libcaf_net/src/multiplexer.cpp:287-317 | a read callback that registers for writing and returns false: the manager is removed and can never be registered again |
| PollsetRuns.ReadLost | libcaf_net/src/multiplexer.cpp:287-317 | a read callback that returns false before a write callback registers for reading: the registration is lost for good |
| Multiplexer.SocketManager.MaskAdd | libcaf_net/src/socket_manager.cpp:28-35 | adds an operation and tells whether the mask has changed |
| Multiplexer.SocketManager.MaskDel | libcaf_net/src/socket_manager.cpp:37-44 | removes an operation and tells whether the mask has changed |
| Multiplexer.Multiplexer.constructor | libcaf_net/src/multiplexer.cpp:80-91 | starts with the updater alone, polled for input |
| Multiplexer.Multiplexer.IndexOf | libcaf_net/src/multiplexer.cpp:99-104 | the first index of a manager, or -1 |
| Multiplexer.Multiplexer.Register | libcaf_net/src/multiplexer.cpp:117-153 | a registration in the multiplexer's thread computes what the model says, and changes the mask of no other manager |
| Multiplexer.Multiplexer.ShutDown | libcaf_net/src/multiplexer.cpp:261-278 | the loop over the shrinking vectors computes what the model says |
| Multiplexer.Multiplexer.Handle | libcaf_net/src/multiplexer.cpp:287-317 | calls the callbacks for the reported events in order and returns the events to poll for |
| Multiplexer.Multiplexer.PollOnce | libcaf_net/src/multiplexer.cpp:184-219 | the scan loop over vectors that callbacks append to and shrink terminates and computes what the model says |
| Multiplexer.RecordsAreOrderly | libcaf_net/src/pollset_updater.cpp:46-62 | the records in the pipe are actions that the scan allows the updater |
| Multiplexer.RecordsTakeEffect | libcaf_net/src/pollset_updater.cpp:46-62 | after any records without a shutdown a socket is polled for input if and only if it was before, a record with the code for reading names its manager, or the `init` of a manager in a record asks for it; for output likewise with the code for writing; and the pollset is still exact |
| Multiplexer.ShutdownTakesEffect | libcaf_net/src/pollset_updater.cpp:56-58 | the first record with the code for a shutdown shuts the multiplexer down after everything before it has taken effect, and no later record has any |
| WakeupRecords.ExecutedAlike | libcaf_net/src/pollset_updater.cpp:40-62 | the system that loses no wake-up and the multiplexer that decodes the nine bytes of a record do the same to the pollset |
| WakeupRecords.InitAlike | libcaf_net/src/pollset_updater.cpp:53-55 | the `init` of a manager makes the same registrations in both |
| PollsetTheorems.RegistrationsKeep | libcaf_net/src/multiplexer.cpp:117-153 | any sequence of registrations adds to each mask exactly the operations asked for and keeps the pollset exact |
| PollsetUpdater.Updater.WriteToPipe | libcaf_net/src/multiplexer.cpp:334-354 | a written record holds one reference until it is executed; a failed write gives its reference back, and a shutdown takes none |
| PollsetUpdater.Updater.Execute | libcaf_net/src/pollset_updater.cpp:38-63 | a full buffer is exactly the oldest record not executed yet, and its reference is released once |
| PollsetUpdater.Updater.HandleReadEvent | libcaf_net/src/pollset_updater.cpp:32-71 | for every way the pipe splits reads and every interleaving of writers, records are executed as written and in order, and whenever the updater waits again all of them are executed and all references released |
| Wakeup.StepKeeps | libcaf_net/src/multiplexer.cpp:184-317 | every step of a thread or of the event loop, down to the point between `done_sending` and `mask_del` and including failed reads and writes, keeps the pollset exact apart from the entry that is being handled, and strands nobody that has not failed |
| Wakeup.NoLostWakeUp | libcaf_net/src/net/abstract_actor_shell.cpp:50-138 | in every interleaving, until shutdown or failure, an open mailbox has an entry in the pollset that polls for writing, or a record for it is in the pipe, or a thread is about to write one; left-over output, also that of `init`, has such an entry |
| Wakeup.NothingStranded | libcaf_net/caf/net/stream_transport.hpp:243-277 | when all threads rest and the pipe is empty, `poll` may report output for every manager with messages or output |
| Wakeup.WriteEventDrains | libcaf_net/caf/net/stream_transport.hpp:243-277 | a write event with nothing else going on consumes every waiting message, sends all output, blocks the mailbox and ends the polling for writing, in the pollset as in the mask |
| Wakeup.QuitPollsOn | libcaf_net/src/net/abstract_actor_shell.cpp:50-52 | a manager whose shell has quit while it was polled for output has an entry that polls for output in every continuation, until shutdown or failure |
| WakeupRounds.VisitIsRound | libcaf_net/src/multiplexer.cpp:203-317 | from the start of a visit to its end, with any steps of the callbacks and of other threads in between, the pollset does exactly what a round of the scan does for some reactions |
| WakeupTransport.WriteVisit | libcaf_net/caf/net/stream_transport.hpp:243-277 | the transport's write callback corresponds to the system's steps from `prepare_send` to `mask_del`: same output left, same mailbox, and writing is cut if and only if the callback returns false, after a failed write as well, which leaves the manager and its output in place |
| WakeupTransport.ReadVisit | libcaf_net/caf/net/stream_transport.hpp:151-240 | the transport's read callback corresponds to the system's steps of a read: same output, same registration for it, and reading is cut if and only if the callback returns false; except for the call that strands its manager |
| ActorShell.ActorShell.Enqueue | libcaf_net/src/net/abstract_actor_shell.cpp:99-139 | a message is taken exactly if the mailbox is not closed, wakes the owner exactly if the mailbox was blocked, and a refused request is bounced |
| ActorShell.ActorShell.TryBlockMailbox | libcaf_net/src/net/abstract_actor_shell.cpp:50-52 | succeeds exactly when no message waits and the mailbox is open or blocked |
| ActorShell.ActorShell.ConsumeMessage | libcaf_net/src/net/abstract_actor_shell.cpp:56-88 | the oldest message runs the behavior, and the fallback if and only if the behavior does not match; a response runs the handler that waits for its id, which is forgotten first, and once more if and only if it does not match; a response nobody waits for runs nothing |
| ActorShell.ActorShell.Cleanup | libcaf_net/src/net/abstract_actor_shell.cpp:155-177 | the rounds drop everything that waits, bounce exactly the requests among it in order, and detach the shell |
| MessageQueue.ReleasedStays | libcaf_net/src/message_queue.cpp:23-47 | completing another id never changes what has been released |
| MessageQueue.InsertKeeps | libcaf_net/src/message_queue.cpp:44-47 | the insertion point keeps the waiting entries sorted and complete |
| MessageQueue.ReleaseKeeps | libcaf_net/src/message_queue.cpp:35-42 | releasing a contiguous run leaves exactly the later ids waiting, and the next id is not among the completed ones |
| MessageQueue.MessageQueue.Push | libcaf_net/src/message_queue.cpp:15-48 | refines a set of completed ids released as far as they are contiguous: the pending entries are exactly the later ones, strictly sorted, and nothing is lost or delivered twice |
| MessageQueue.MessageQueue.Drop | libcaf_net/src/message_queue.cpp:50-52 | an id is completed without a message |
| MessageQueue.MessageQueue.NewId | libcaf_net/src/message_queue.cpp:54-57 | ids are handed out in ascending order, each once |
| BaspWorkers.RunKeeps | libcaf_net/src/worker.cpp:28-45 | over every interleaving of the reader and the workers each id is completed, handled without effect or in progress with exactly one job, and a handled id is completed with its message if and only if the message could be delivered |
| BaspWorkers.WorkersStay | libcaf_net/src/worker.cpp:28-45 | in every run each worker is idle, has a job, or is on its way back to the hub, and exactly one of these |
| BaspWorkers.NothingBlocks | libcaf_net/src/net/basp/application.cpp:224-259 | each worker and the reader can always go on, and the reader handles a message itself if and only if no worker is idle |
| BaspWorkers.ReleasesFifo | libcaf_net/src/net/basp/application.cpp:224-259 | whatever the interleaving, what is released is what a single thread would have delivered |
| BaspWorkers.HandleRemoteMessage | libcaf_net/caf/net/basp/remote_message_handler.hpp:28-63 | completes its id on the queue, with its message, if and only if the payload deserializes, names a receiver, and that receiver is registered |
| BaspWorkers.Drained | libcaf_net/caf/net/basp/remote_message_handler.hpp:28-63 | with no job in progress everything has been delivered if and only if every message that was handled named a receiver registered at the time, and otherwise delivery stopped at the first that did not |
| BaspWorkers.DrainedIfDeliverable | libcaf_net/caf/net/basp/remote_message_handler.hpp:28-63 | with a fixed registry and nothing dropped, that condition is one on the messages alone |
| BaspWorkers.BlockedForever | libcaf_net/caf/net/basp/remote_message_handler.hpp:42-56 | once delivery has reached a message that could not be delivered, nothing is delivered in any continuation |
| BaspWorkers.OneMessageBlocks | libcaf_net/caf/net/basp/remote_message_handler.hpp:42-56 | one such message at the start, with or without workers: whatever arrives afterwards, nothing is ever delivered |
| BaspWorkers.Execute | libcaf_net/src/message_queue.cpp:15-57 | every interleaving on the real queue meets the preconditions of its calls and delivers in single-threaded order; with all ids completed nothing is pending |
| BaspHeader.FromToBytes | libcaf_net/src/header.cpp:18-57 | a header in front of anything reads back as written |
| BaspHeader.HeaderInNumbers | libcaf_net/src/header.cpp:18-57 | an example of the layout byte by byte, in network byte order |
| BaspHeader.ToFromBytes | libcaf_net/src/header.cpp:18-57 | every 13 bytes are the encoding of the header read from them |
| BaspHeader.WriteTo | libcaf_net/src/header.cpp:18-24 | writes the encoding into a buffer and nothing else |
| BaspHeader.CompareIsLexicographic | libcaf_net/src/header.cpp:28-32 | comparing encoded bytes orders headers by type, size and operation data, and 0 means equality |
| BaspApplication.Application.HandleHandshake | libcaf_net/src/net/basp/application.cpp:198-222 | the checks on a greeting, with the search for a common application identifier |
| BaspApplication.Application.HandleResolveResponse | libcaf_net/src/net/basp/application.cpp:299-323 | the pending entry is answered and erased on every path, and an unknown id changes nothing |
| BaspApplication.Application.HandleBytes | libcaf_net/src/net/basp/application.cpp:130-173 | the state machine with its errors and next read sizes |
| BaspApplication.Application.Receive | libcaf_net/caf/net/basp/application.hpp:98-106 | a call that succeeds configures the next read, and one that fails leaves it |
| BaspApplication.Application.SendResolve | libcaf_net/src/net/basp/application.cpp:69-85 | a request takes the next 64-bit id and is pending under it; that its packet announces its size is `BaspPackets.ResolveWrites` |
| BaspTheorems.NeverWrongByteCount | libcaf_net/src/net/basp/application.cpp:130-173 | fed exactly the announced sizes, a connection never reports a wrong number of bytes or an illegal state, whatever the bytes, and never asks for 0 bytes |
| BaspTheorems.FeedSplit | libcaf_net/caf/net/basp/application.hpp:98-106 | the stream may arrive in any pieces |
| BaspTheorems.NothingBeforeHandshake | libcaf_net/src/net/basp/application.cpp:133-153 | with pieces of any size, nothing is dispatched or answered unless the first two pieces are a valid handshake header and an acceptable greeting, and these open the connection |
| BaspTheorems.DispatchesExactly | libcaf_net/src/net/basp/application.cpp:154-169 | handlers see exactly the packets that were written, with and without payload, in order, up to the first that a handler rejects, and that is the only error |
| BaspTheorems.LaunchesInOrder | libcaf_net/src/net/basp/application.cpp:224-259 | actor messages reach the workers in wire order |
| BaspTheorems.DeliveredInWireOrder | libcaf_net/src/net/basp/application.cpp:224-259 | from the wire through any workers to the receivers: a prefix of the actor messages, and all of them if and only if each named a receiver registered when it was handled |
| BaspConnection.PartLaunches | libcaf_net/src/net/basp/application.cpp:130-173 | any part of a stream of packets hands a prefix of its actor messages to the workers |
| BaspConnection.Connection.HandleActorMessage | libcaf_net/src/net/basp/application.cpp:224-259 | a message goes to an idle worker of the hub, or is handled by the reader while the workers go on; the launches stay those the application has reported |
| BaspConnection.Connection.Run | libcaf_net/caf/net/basp/application.hpp:98-106 | application, hub, workers and queue as objects, in any interleaving on any stream: the application stands where it should after the bytes read, and the receivers have got a prefix of its actor messages |
| BaspConnection.RunWire | libcaf_net/src/net/basp/application.cpp:130-259 | packets written by a peer, over every interleaving: a prefix of its actor messages is delivered, and once all is read and no job is in progress all of them if and only if each could be delivered when it was handled |
| BaspStream.LayerRefinesFeed | libcaf_net/caf/net/basp/application.hpp:98-106 | on a transport that is told to read exactly the announced sizes the application stands, apart from the packets it has written, where one feed of all bytes stands, however the stream is cut and whatever it writes in between |
| BaspStream.RunLink | libcaf_net/caf/net/backend/tcp.hpp:58-72 | over every run of the transport, with any packets written in between, everything but the packets written is a function of the bytes received, and what was sent and what is buffered is the greeting and the packets written, in order; that these packets announce their sizes is `BaspPeers.RunWriter` |
| BaspStream.RunPeer | libcaf_net/src/net/basp/application.cpp:130-173 | a peer that greets properly, through any socket: always exactly a prefix of its packets has been handled, nothing is rejected, and all have been handled once everything is read |
| BaspPackets.AnnouncedExactly | libcaf_net/src/net/basp/application.cpp:78-84 | a packet carries type, data and payload it was made of, and announces the size of its payload if and only if that is below 2^32 |
| BaspPackets.FeedWrites | libcaf_net/src/net/basp/application.cpp:261-354 | whatever is received, all packets written announce their size, and none is taken back |
| BaspPackets.ResolveWrites | libcaf_net/src/net/basp/application.cpp:69-85 | so do the packets written for requests |
| BaspPackets.RunWrites | libcaf_net/src/net/basp/application.cpp:69-354 | and all packets of two peers in every run |
| BaspPackets.GreetingArrives | libcaf_net/caf/net/basp/application.hpp:84-94 | the peer takes exactly the payload of the handshake for the greeting, and accepts or rejects it for what it says |
| BaspPackets.OneToTheOther | libcaf_net/src/net/basp/application.cpp:130-196 | what one application has written, read by another: if the greeting is accepted, the reader knows the node that was meant, and its handlers see exactly the packets behind the greeting, up to the first that one rejects; otherwise nothing |
| BaspPackets.RejectedExactly | libcaf_net/src/net/basp/application.cpp:175-366 | which packets end a connection, and with which error, by message types in numbers |
| BaspPackets.LookupRoundTrip | libcaf_net/src/net/basp/application.cpp:261-323 | from a request to its answer: the listener gets a proxy for the actor the other node has found, with the node it is connected to, or nobody if there was none, and an actor that was found is registered |
| BaspPackets.MonitorRoundTrip | libcaf_net/src/net/basp/application.cpp:87-92 | a proxy is monitored: the other node attaches to a registered actor and says nothing; for any other it answers with a down message, on which the proxy is erased |
| BaspPackets.DownRoundTrip | libcaf_net/src/net/basp/application.cpp:94-106 | when an actor terminates, the peer erases its proxy |
| BaspPeers.RunWriter | libcaf_net/caf/net/basp/application.hpp:64-96 | over every run of the transport, all packets an application writes announce their size, and what was sent and what is buffered is the greeting and these packets |
| BaspPeers.OneReadsTheOther | libcaf_net/caf/net/backend/tcp.hpp:58-72 | two applications on two transports, both in any run: the handlers of the one see a prefix of the packets the other has written, and all of them once everything has been sent and read without an error; nothing if the greeting is not accepted |
| BaspResolve.DispatchAnswers | libcaf_net/src/net/basp/application.cpp:261-323 | what any packet does to ids, pending entries and answers of its receiver |
| BaspResolve.ResponseIsNext | libcaf_net/src/net/basp/application.cpp:299-308 | between two peers a response always carries the id of the oldest outstanding request |
| BaspResolve.RunKeeps | libcaf_net/src/net/basp/application.cpp:69-323 | over every interleaving of two peers with any number of requests: every listener is answered, pending or lost, and as long as none is lost the pending ids are exactly the outstanding requests modulo 2^64, each with its listener |
| BaspResolve.EveryListenerAnswered | libcaf_net/src/net/basp/application.cpp:69-323 | listeners are answered at most once and in the order of the requests, and every one of them once everything sent has arrived, for each peer that has lost none |
| BaspResolve.FirstLoss | libcaf_net/src/net/basp/application.cpp:78-84 | in every run and for either peer, the first request that loses its listener is the one made while 2^64 of its requests are outstanding, and such a request does lose it |
| BaspResolve.OneTooMany | libcaf_net/src/net/basp/application.cpp:78-84 | a run that gets there: after 2^64 requests without an answer none is lost, and the next one is |
| BaspResolve.LostForGood | libcaf_net/src/net/basp/application.cpp:299-323 | whatever happens after a loss, at least as many listeners as have been lost stay without an answer |
| BaspWire.FeedFollows | libcaf_net/src/net/basp/application.cpp:130-173 | any piece of the stream, wherever it begins and ends, has the effect of delivering the packets that are complete |
| BaspWire.WireFollows | libcaf_net/src/net/basp/application.cpp:69-354 | every run of two peers on bytes, with pieces of any size and requests at any time, does what a run on packets does |
| BaspWire.LookupsOnWire | libcaf_net/src/net/basp/application.cpp:69-323 | so on bytes, too, each listener has been answered, is pending or has been lost, answers come in the order of the requests, and all have been answered once all bytes have arrived |
| BaspWire.HandshakeMakesReady | libcaf_net/src/net/basp/application.cpp:130-153 | two applications that accept each other's greeting get to the state from which these runs start |

## Left out

- StreamTransport.Transport.HandleReadEvent: where the source would read beyond the end of its buffer, the model sets a flag and
  stops; for layers that refine their specification this is proved not to happen.
- StreamTransport.Socket.Read: the bytes a peer sends are fixed in advance for a run; what they are may be anything.
- StreamTransport.Transport.ConsumeAvailable: `delta` is handed over as the source does, repeating bytes after a call that has
  consumed nothing, and no claim is made about it.
- WebSocketFraming.Framing.ShipFrame: takes its payload as a value; `ship_pong` masks a ping's payload in the input span once
  more, which only touches bytes that are consumed.
- WebSocketStack.LayerRefinesSpec: what unmasking leaves in consumed bytes is an arbitrary function here, and the transport
  calls the layer as a function; `WebSocketUpgrade.Upgrade.Consume` connects it with the objects.
- WebSocketUpgrade.Upgrade.Consume: an endpoint that has rejected its header only rejects from then on, as the transport makes
  no further call, and server and client share one class that takes the handling of a header as a function.
- WebSocketSessions.RunClient: starts when the request has been written; the checks of `client.hpp:52-56` on mandatory fields
  and the choice of a random key come before.
- WebSocketExchange.ClientToServer: the sending transport's layer hands over frames that have been assembled before; frames that
  a client ships in response to input are covered by `WebSocketSessions.RunClient`.
- WebSocketHandshake.CollectFields: the dictionary is a map; dots in field names, which make nested dictionaries, and settings
  that exist before are not modelled.
- WebSocketHandshakeTheorems.RequestRecovered: base64 and SHA-1 are opaque functions; decoding undoes encoding and the base64
  alphabet has no white space.
- LengthPrefixFraming.LayerRefinesSpec: what the upper layer sends from within `consume` is not part of the state.
- LengthPrefixSessions.SendAndReceive: the sending transport's layer hands over frames that have been assembled before.
- PollsetRuns.RunKeeps: assumes that callbacks do not register the pollset updater again and that only the updater's callbacks
  call `shutdown` within a scan.
- Multiplexer.Multiplexer.PollOnce: the result of the system call is a parameter: any events that were polled for, and any
  errors. The loop that repeats an interrupted call and the error codes of `handle_error` are not modelled, and callbacks are
  functions of the number of the call.
- PollsetUpdater.Updater.WriteToPipe: a pointer is a number in network byte order, and a record is written as a whole or not at
  all.
- PollsetUpdater.Updater.Execute: logs the record; what a record does to the pollset is `Multiplexer.RecordsTakeEffect`.
- Wakeup.NoLostWakeUp: assumes that writes to the pipe succeed until shutdown, that `done_sending` of the upper layer is
  `try_block_mailbox`, and that callbacks are considerate: none registers its own manager for something new in a call of
  `handle` in which one of its callbacks returns false. Nothing is claimed of a connection after an error reported by `poll` or
  a failed write. The atomic operations of the mailbox are steps.
- StreamTransport.Transport.PrepareSend: the layer may change its state and write, but not the read policy.
- StreamTransport.Transport.HandleEvents: a layer that stops reading and begins output in the same event is stranded as well;
  the layers here stop reading by failing only. What `abort` makes the layer do is not modelled.
- BaspStream.RunLink: own lookups, which also change the table of pending requests, are covered by `BaspResolve.RunKeeps`. The
  adapter between `consume` and `handle_data` hands over what it gets and reports an error as -1.
- ActorShell.ActorShell.ConsumeMessage: behaviors and handlers are functions of the message; metrics and timeouts are not
  modelled.
- BaspWorkers.Execute: ids do not wrap; the source's own estimate for that is 600 years.
- BaspResolve.RunKeeps: peers start after the handshake, which is `BaspWire.HandshakeMakesReady`. Once a peer has lost a
  listener, only the balance of its listeners is claimed.
- BaspConnection.Connection.Run: the workers handle every job they have; a caller that drops an id is covered by
  `BaspWorkers.Execute`.
- BaspApplication.Application.HandleBytes: serializers, deserializers, registry and proxies are functions that may change
  between two messages; the fixed path formats of `resolve_local_path` are one of them.
- Lower bounds on time, fairness and performance; memory reuse of buffers and `can_send_more`.
- `datagram_transport`, `transport_worker`, `endpoint_manager`, the backends, DNS, sockets and address conversion: platform
  input and output, or thin dispatch.
- Enum names, logging, metrics and configuration parsing.
