# unroxy, modelled and proved

unroxy is a rotating proxy that carries its own SSH-obfuscation and OpenVPN clients. This project
models the parts of it that hold state or move bytes and proves what they promise:

- the obfuscated SSH stream (`Rc4`, `OsshPacket`, `OsshRead`, `OsshDelivery`, `OsshServer`, `OsshCalls`,
  `OsshReach`, `OsshStall`, `OsshCases`, `OsshWrite`, `OsshStream`): two incremental transducers over a byte stream
  cut anywhere;
- the OpenVPN control channel (`Packet`, `Framing`, `Reorder`, `ControlStream`, `Control`, `Messages`);
- the OpenVPN data channel (`Replay`, `DataCipher`, `DataChannel`) and its keys (`Keys`);
- the life of a VPN tunnel and of the clients cached for it (`VpnAccount`, `ClientCache`, `Upstream`);
- the SSH session manager (`SshManager`), the pools of proxies (`Pool`, `PoolObject`, `Rotation`), and the
  rewrite paths (`RewritePath`, `RewriteForms`, `DomainNames`).

Run `dafny verify dfyconfig.toml` in this directory to check everything.

## How the model is made

Where the program changes an object in place there is a class with the same fields, and every method is
proved to do what a function on values says, and where bytes are laid out or keys are made also to meet a
relation that does not mention that function (`OsshStream.Stream`, `Rc4Cipher.Rc4`,
`ControlChannel.Control`, `Replay.ReplayWindow`, `Framing.Connection`, `VpnAccount.Account`,
`ClientCache.Cache`, `SshManager.Manager`, `PoolObjects.ProxyPool`). The laws are then proved of the
functions, over every input and every run.

The obfuscated stream has three layers. `OsshRead.Feed` is a machine that takes one byte at a time and
knows nothing of buffers; `OsshRead.ProcessRead` is the program's loop over its buffers and resumable
states; `OsshServer.ServerStream` is the well-formed conversation of RFC 4253 (sections 4.2, 6 and 7.3).
The loop refines the machine for every chunking, and the machine delivers the conversation. Sending is
the same in one step: `OsshWrite.Written` says what a writer holds as a function of all the bytes written.

What runs at once is a transition system (`VpnAccount.Next`, `ClientCache.After`, `SshManager.Next`) whose
steps are the operations of the program, and the theorems hold in every reachable state.

Sockets, timers, clocks and randomness are parameters: what a socket delivers and accepts is a script of
events, the time is an argument, random vectors and seeds are inputs. AES, HMAC, MD5 and SHA-1 are
functions known by a contract (`DataCiphers.Suite`, `KeyExpansion.Digest`), shown satisfiable by a toy
suite.

## Where the code does not do what it is for

Each of these is proved, with the exact condition:

- Reading: a packet length out of range consumes five bytes and stops the loop. What callers get is still the
  beginning of one function of the bytes received, whatever the chunking, and further calls get the rest
  (`OsshDelivery.AnyChunkingDeliversTheStream`, `OsshCalls.NothingIsLostForGood`); but a call can go away
  empty-handed before all has been delivered. The program reads 8192 bytes at a time, and each stop at such a
  length with nothing buffered allows one more read: `OsshReach.MostAfter` is the most that can have been received
  by then. A stream is always delivered whole exactly when nothing comes out of it after a length out of range
  at which all of it can have been received (`OsshStall.AlwaysCompleteIff`). With one such length ending at byte n
  this means that nothing comes out after it, or at least 8192 bytes follow (`OsshCases.OneBadLengthIff`).
- Writing: a packet of length one has no message type, and looking at it panics. This happens exactly when the
  identification line and packets without NEWKEYS are followed by five bytes with that length
  (`OsshWrite.PanicsIff`), as for the inputs of `OsshWrite.PanicReached`.
- An acknowledgement cut inside the peer's session id panics the parser, and nothing else does
  (`Packets.PanicsIff`).
- The reorder buffer drops what it has no room for, after it has been acknowledged: the stream goes on to the
  least id not received exactly when every packet so dropped comes again while there is room
  (`Reorder.CompleteIff`). A packet ahead of a full buffer is lost, and the stream never gets past it
  until it comes again (`Reorder.FullBufferLosesPacket`). `ControlChannel.TwoEnds` has the same condition.
- An empty packet can be written to a TCP stream but not read: `Framing.FrameReadsBack`.
- An account counts the connections opened through it, not those that come through its SOCKS bridge, which
  carries all proxied HTTP. It drops a tunnel exactly when it counts none and the idle clock is over, whatever
  the bridge carries (`VpnAccount.ReapedIff`), as in the runs of `VpnAccount.BridgeInUseIsDropped`.
- The back-off after a failed attempt counts from the beginning of the attempt, so it holds the account off exactly
  when the attempt took less (`VpnAccount.HeldOffIff`): attempts that run into the time limit of 20 seconds are
  not held off before the fifth failure in a row (`VpnAccount.TimeoutsHoldOffFromFifth`).
- Closing an idle tunnel stores the new generation before it clears the port, and connecting does not change the
  generation. A lookup leaves a client for the bridge of the dropped tunnel, to be hit once a tunnel is up
  again, exactly when it reads both generation and port between those two stores (`ClientCache.StaleIff`).
- The SSH manager reads its two counters one after the other: connects that end in between make it go above its
  target. It can come to stand e above it exactly when 1 + ... + (e-1) is less than the target and less than the
  eight permits for connecting (`SshManager.OvershootIff`), so by at most 4.
- Counters that wrap inside a round pass someone over unless the number of those who take turns divides
  2^64 (`Rotation.FairIff`, `SshManager.WrapPassesOver`, `ProxyPools.WrapLeavesSomeoneOut`).
- In a rewrite path a region that is the name of another protocol cannot come first
  (`RewritePath.OrderMattersIff`).

## Model

| member | source | states |
|---|---|---|
| Rc4Cipher.KeySetupPermutation | src/ssh/ossh.rs:25-36 | for every key, the table after key setup, and after any number of further keystream bytes, is a permutation of 0..255 |
| Rc4Cipher.TableStaysPermutation | src/ssh/ossh.rs:38-46 | producing any number of keystream bytes keeps a permutation a permutation |
| Rc4Cipher.ApplyConcat | src/ssh/ossh.rs:38-46 | enciphering x then y is enciphering their concatenation, and leaves the same state |
| Rc4Cipher.ApplyUndo | src/ssh/ossh.rs:38-46 | enciphering twice from the same state gives the input back |
| Rc4Cipher.SegmentsAreOneStream | src/ssh/ossh.rs:38-46 | any segmentation enciphers like the whole |
| Rc4Cipher.CiphersUndoEachOther | src/ssh/ossh.rs:38-46 | two ciphers of the same key undo each other, whatever the segments on either side |
| Rc4Cipher.Rc4.constructor | src/ssh/ossh.rs:25-36 | the table is the last of a schedule from the table 0..255 and index 0, in which round n adds the n-th byte of the table and of the repeated key to the index and exchanges the bytes at n and at the index |
| Rc4Cipher.ScheduleIsSetup | src/ssh/ossh.rs:25-36 | there is no other such schedule |
| Rc4Cipher.KeysSeparate | src/ssh/ossh.rs:31-34 | the schedules of two keys agree up to the first byte at which the repeated keys differ, and after that round both index and table differ |
| Rc4Cipher.Rc4.NextByte | src/ssh/ossh.rs:40-43 | the indices move on, two bytes of the array change places, the others stay, and their sum says which byte comes out |
| Rc4Cipher.Rc4.Run | src/ssh/ossh.rs:38-46 | each byte is combined by exclusive or with a byte of the keystream, and the state is moved past them; this is the function that enciphers on values |
| Bytes.BitsOfBytes | src/ssh/ossh.rs:44 | a bit is set in the exclusive or of two bytes exactly when they differ there |
| OsshPacket.Normalize | src/ssh/ossh.rs:65-81 | the padding loop ends, and the packet built is the least padded framing of the payload |
| OsshPacket.PaddingIsLeast | src/ssh/ossh.rs:71-74 | padding is 4 to 11 bytes, aligns to 8, and no smaller padding of at least 4 does |
| OsshPacket.NormalizedKeepsPayload | src/ssh/ossh.rs:65-81 | a re-padded packet has the payload of the original, consistent length fields, meets section 6 of RFC 4253, and re-padding it changes nothing |
| OsshPacket.PayloadOf | src/ssh/ossh.rs:66-70 | the payload is all but the padding when that fits the packet, and nothing otherwise |
| OsshRead.FeedConcat | src/ssh/ossh.rs:190-251 | the byte-by-byte machine can be stopped and resumed anywhere |
| OsshRead.FeedClear | src/ssh/ossh.rs:245 | after NEWKEYS bytes pass unchanged and no keystream is used |
| OsshRead.ProcessReadKeeps | src/ssh/ossh.rs:190-251 | whatever arrives, one call of the read loop ends, loses, repeats and reorders nothing, and stops only with output, in clear, for lack of input, or right after a length out of range |
| OsshDelivery.RoundTracks | src/ssh/ossh.rs:317-352 | after each round of a read call, for every stream, the unread bytes are the last of those received, and delivered and buffered bytes are what the machine makes of the others |
| OsshDelivery.PollReadTracks | src/ssh/ossh.rs:312-353 | so after a whole read call; one that goes away empty-handed has stopped at the end of the input or right after a length out of range |
| OsshDelivery.AnyChunkingDeliversTheStream | src/ssh/ossh.rs:312-353 | for all streams, arrivals and buffer sizes, what callers get is a prefix of the machine's output; after an empty-handed call it is all of it exactly when the unread bytes hold nothing, which is so unless something follows a length out of range |
| OsshDelivery.ChunkingsAgree | src/ssh/ossh.rs:312-353 | of what two cuttings of one stream deliver one is the beginning of the other, and read dry they are the same unless something follows a length out of range |
| OsshServer.FeedServerStream | src/ssh/ossh.rs:190-247 | a server's stream yields its identification line, each packet re-padded and the rest untouched; deciphering stops right after NEWKEYS and no bytes are passed over |
| OsshServer.ServerStreamDelivered | src/ssh/ossh.rs:190-353 | in any chunks and with any buffers a server's stream is delivered exactly |
| OsshCalls.EnoughCalls | src/ssh/ossh.rs:312-353 | without further input, calls enough deliver all that has been received can yield |
| OsshCalls.CallHandsOver | src/ssh/ossh.rs:320-329 | for every room: the first bytes that fit, the rest is buffered for the next call, and the socket is not asked |
| OsshCalls.CallEnds | src/ssh/ossh.rs:312-353 | a call reads on for as long as data comes and nothing is to hand over; its status is that of the answer that ends it, and with any room a call that delivers delivers something |
| OsshCalls.NothingIsLostForGood | src/ssh/ossh.rs:220-226 | after any run on any stream, calls enough complete the machine's output |
| OsshReach.RunsStayWithin | src/ssh/ossh.rs:317-350 | in every run that reads at most 8192 bytes at a time, a call goes away empty-handed only with nothing left to decode, or at a length out of range with no more received than the bound allows |
| OsshStall.SkipShape | src/ssh/ossh.rs:220-226 | a length out of range stands where a packet was to begin, and its five bytes yield nothing |
| OsshStall.LoopStopsAtSkip | src/ssh/ossh.rs:220-226 | one call of the read loop never passes a length out of range without stopping there |
| OsshStall.AsMuchAsPossible | src/ssh/ossh.rs:317-350 | what the bound allows can be had: for every position and size up to it there is a run from the opening, in reads of at most 8192 bytes |
| OsshStall.StallsAtSkip | src/ssh/ossh.rs:220-226 | for every length out of range at which all of the stream can have been received, a run from the opening that has taken all of it and delivered only what comes before |
| OsshStall.AlwaysCompleteIff | src/ssh/ossh.rs:220-226 | every run that has read a stream dry, at most 8192 bytes at a time, has delivered it whole, exactly when nothing comes out of the stream after a length out of range at which all of it can have been received |
| OsshCases.OneBadLengthIff | src/ssh/ossh.rs:220-226 | with a single length out of range ending at byte n: exactly when nothing comes out after it or the stream has at least n + 8192 bytes |
| OsshCases.RowOfBadLengths | src/ssh/ossh.rs:220-226 | a line, k lengths out of range and a packet: always delivered exactly when the packet has at least 8192 k - 5 (k - 1) bytes |
| OsshWrite.WriteExtends | src/ssh/ossh.rs:147-188 | phase, cipher, residue and output after a further write are those of one write of everything |
| OsshWrite.AnyWritesAreOne | src/ssh/ossh.rs:147-188 | any sequence of writes leaves what one write of the concatenation leaves |
| OsshWrite.ProcessWriteAppends | src/ssh/ossh.rs:147-188 | what was put out before, flushed or not, does not influence what is put out next |
| OsshWrite.ClientStreamSent | src/ssh/ossh.rs:147-188 | a complete client stream goes out as one cipher run through NEWKEYS, then in clear |
| OsshWrite.WireOfClient | src/ssh/ossh.rs:114-188 | the wire is the seed, one cipher run over header, identification line and packets through NEWKEYS, then clear bytes; a peer with the key reads back the magic number, the length of the padding most significant byte first, the padding, and all the rest |
| OsshWrite.PreambleReads | src/ssh/ossh.rs:120-131 | deciphered from the beginning, what follows the seed is 0x0BF5CA7E, the length of the padding and the padding |
| OsshWrite.PanicsIff | src/ssh/ossh.rs:163-172 | in any writes the program panics exactly on an identification line, packets without NEWKEYS, and five bytes with the length 1 |
| OsshWrite.PanicReached | src/ssh/ossh.rs:172 | after any identification line five such bytes are enough |
| OsshStream.Stream.constructor | src/ssh/ossh.rs:114-145 | a new stream holds seed and enciphered header, which reads back as magic number, length of the padding and padding, and its two ciphers stand where the two directions begin |
| OsshStream.Stream.ProcessWrite | src/ssh/ossh.rs:147-188 | the loop on the buffers is the function on values |
| OsshStream.FlushIs | src/ssh/ossh.rs:253-265 | as much of the output goes out as the socket takes before it first takes nothing, from the beginning and in order, and that answer is how it ends unless all has gone out |
| OsshStream.FlushConserves | src/ssh/ossh.rs:253-265 | sent and waiting output together stay the same |
| OsshStream.RefusedIff | src/ssh/ossh.rs:279-281 | a write is refused exactly when the socket has no room for the old output and is not ready; it then changes nothing else |
| OsshStream.WriteFailsIff | src/ssh/ossh.rs:274-290 | a write that is taken fails exactly when the socket answers the new output with an error before it is out |
| OsshStream.RoomEnough | src/ssh/ossh.rs:279-289 | with room for the old output and the new, a write leaves nothing waiting |
| OsshStream.Stream.FlushOut | src/ssh/ossh.rs:253-270 | the loop is the function on values: bytes sent, output left, answers used and outcome |
| OsshStream.Stream.PollWrite | src/ssh/ossh.rs:274-290 | the call is the function on values; it takes nothing or everything, and what was and will be sent stays a function of the bytes written |
| OsshStream.Stream.ProcessRead | src/ssh/ossh.rs:190-251 | the loop on the buffers ends and is the function on values |
| OsshStream.Stream.PollRead | src/ssh/ossh.rs:312-353 | no call hands over more than it has room for, and one with something to hand over hands over as much from its beginning as fits and keeps the rest; over every sequence of calls and for every stream, what callers have got is a prefix of what the machine makes of what arrived, with the condition for it to be all |
| Packets.MessageRoundTrip | src/openvpn/control.rs:569-619 | any reset or control packet with any acknowledgement record is parsed to its fields |
| Packets.ControlRoundTrip | src/openvpn/control.rs:423-434 | so is what the control encoder builds |
| Packets.ResetRoundTrip | src/openvpn/control.rs:551-558 | so is the reset packet |
| Packets.AckRoundTrip | src/openvpn/control.rs:444-452 | so is an acknowledgement |
| Packets.AcksReadBack | src/openvpn/control.rs:642-653 | the acknowledgement record of every packet reads back, word by word, as the ids and the session they belong to |
| Packets.ControlLayout | src/openvpn/control.rs:423-434 | a control message is opcode, session id, a record that reads back as the first four ids of the list, its own id and the payload, at their places |
| Packets.AckLayout | src/openvpn/control.rs:444-452 | so is an acknowledgement, without id and payload |
| Packets.ResetLayout | src/openvpn/control.rs:551-558 | so is the reset packet, whose record is empty |
| Packets.DataLayout | src/openvpn/control.rs:631-640 | so are both forms of data packet: opcode, three bytes of the peer id or none, counter, body |
| Packets.DataRoundTrip | src/openvpn/control.rs:631-640 | so are both forms of data packet, header and body apart |
| Packets.DataHeaderPeer | src/openvpn/control.rs:632-636 | the header carries the low 24 bits of the peer id |
| Packets.PanicsIff | src/openvpn/control.rs:589-601 | the parser fails exactly on an acknowledgement cut inside the peer's session id |
| Packets.AcksStayOk | src/openvpn/control.rs:436-442 | over any run the ids to acknowledge are at most 4, distinct, all received, and hold the last one received |
| Packets.NewIdStays | src/openvpn/control.rs:436-442 | an id recorded for the first time is still on the list after three more |
| Framing.Connection.WritePacket | src/openvpn/framing.rs:19-32 | appends two bytes that say how many follow, the more significant first, and the packet, if it fits; nothing otherwise |
| Framing.Connection.ReadPacket | src/openvpn/framing.rs:7-17 | takes a frame off the stream as the reading function says |
| Framing.FrameReadsBack | src/openvpn/framing.rs:7-32 | a written packet reads back exactly when it is not empty |
| Framing.PacketsReadBack | src/openvpn/framing.rs:7-32 | any sequence of packets of 1 to 65535 bytes reads back the same |
| Framing.CutFrameRefused | src/openvpn/framing.rs:9-15 | a frame cut short is refused |
| Reorder.RunSafe | src/openvpn/control.rs:404-421 | whatever arrives, at most 32 packets are buffered, all ahead of the next id, and what has been fed is one payload that arrived for each consecutive id |
| Reorder.RunComplete | src/openvpn/control.rs:404-421 | when equal ids carry equal payloads, the next id is the least one not kept and everything below it has been fed in order |
| Reorder.WindowKeepsAll | src/openvpn/control.rs:408-411 | inside the window of 32 ids nothing that arrives is lost |
| Reorder.WindowComplete | src/openvpn/control.rs:404-421 | inside the window the stream goes on to the least id not yet received |
| Reorder.OrderDoesNotMatter | src/openvpn/control.rs:404-421 | two arrival orders of the same ids feed the same stream |
| Reorder.CompleteIff | src/openvpn/control.rs:408-411 | the stream goes on to the least id not received exactly when every packet dropped for want of room comes again in time |
| Reorder.FullBufferLosesPacket | src/openvpn/control.rs:408-411 | for every run that fills the buffer, a packet ahead that is not in it is lost, and the stream never gets past it until it comes again |
| Reorder.BeyondWindowLosesPackets | src/openvpn/control.rs:408-411 | one id beyond the window is enough for that: a run from the beginning, for all contents |
| ControlStream.ChunksRejoin | src/openvpn/control.rs:311-319 | cutting keeps the bytes, every chunk has 1 to 1184 of them, all but the last are full |
| ControlStream.RunSenderCarries | src/openvpn/control.rs:311-319 | over any run of sends and acknowledgements the parser finds on the wire the consecutive ids, each on its chunk |
| ControlStream.EveryPacketAcknowledged | src/openvpn/control.rs:444-452 | in every run, for each packet to acknowledge a packet goes out at once whose record reads back with its id |
| ControlStream.ReceiveHears | src/openvpn/control.rs:322-344 | the receiving end sees of the packets exactly the control messages, in the order of arrival |
| ControlStream.WindowLosesNothing | src/openvpn/control.rs:408-411 | inside the window of 32 ids nothing is lost |
| ControlStream.EndToEnd | src/openvpn/control.rs:311-344 | reordered, repeated and mixed with other packets in any way, what is fed is the beginning of what was sent; once all has arrived it is the whole, exactly when no packet dropped for want of room stays away |
| ControlStream.InOrderArrives | src/openvpn/control.rs:311-344 | a network that keeps the order stays inside the window, and the whole stream arrives |
| ControlChannel.Control.constructor | src/openvpn/control.rs:105-123 | a new end numbers from 1, has the reset to acknowledge, and expects the id after it |
| ControlChannel.Control.SendControl | src/openvpn/control.rs:423-434 | sends one control message, with its id and a record that reads back as the first four ids of the list, and remembers its payload |
| ControlChannel.Control.SendControlChunks | src/openvpn/control.rs:311-319 | the loop sends one message for each chunk |
| ControlChannel.Control.RecordAck | src/openvpn/control.rs:436-442 | inserting and truncating is the function on values |
| ControlChannel.Control.SendAck | src/openvpn/control.rs:444-452 | records the id and sends a packet whose record reads back as the list and holds that id |
| ControlChannel.Control.AcceptControl | src/openvpn/control.rs:404-421 | the drain loop ends and is the reorder buffer's step |
| ControlChannel.Control.SendData | src/openvpn/control.rs:352-366 | the counter moves on in any case; with keys one packet goes out, with the counter in its header and a body sealed under that header, counter and vector |
| ControlChannel.Control.RecvData | src/openvpn/control.rs:368-402 | the receiving loop is the function on values, for every inbox |
| ControlChannel.Control.PumpControl | src/openvpn/control.rs:321-350 | waiting for a control message is the function on values, for every inbox |
| ControlChannel.PumpTakesOne | src/openvpn/control.rs:321-350 | it takes at most one control message, passes over all before it and leaves all after it |
| ControlChannel.RunProjects | src/openvpn/control.rs:321-434 | in any run of one end, waiting for control messages or for data, its sending half does what the sender of the control stream does and its receiving half what the receiver does |
| ControlChannel.TwoEnds | src/openvpn/control.rs:311-434 | two ends that send, receive and acknowledge as they like, with data packets in between: the second hands over the beginning of what the TLS engine of the first had to send, and the whole exactly when nothing is lost |
| ControlChannel.OutputIsSent | src/openvpn/control.rs:287-293 | in every run all that the TLS engine has to send is sent, in order, and nothing else |
| ControlChannel.RunAcknowledges | src/openvpn/control.rs:326-400 | in every run of an end, a packet that acknowledges it follows at once on every control message, and in a call for data on every reset |
| ControlChannel.CallIsRun | src/openvpn/control.rs:368-402 | a receiving call takes the packets it uses one by one, in a run of single steps |
| ControlChannel.CallReturns | src/openvpn/control.rs:368-402 | it goes on past every packet but the last it uses, and returns how that one ends it: a plaintext that is new, an error of opening, or nothing |
| ControlChannel.TakeIsReceive | src/openvpn/control.rs:378-389 | inside a run a packet is opened, judged and delivered as on the data channel alone |
| ControlChannel.CounterFollowsSends | src/openvpn/control.rs:352-354 | the n-th attempt to send data uses the n-th counter, whatever happens in between |
| ControlChannel.NoncesInRun | src/openvpn/control.rs:352-354 | in any run of an end two nonces coincide exactly when a multiple of 2^32 sends lies between them |
| ControlChannel.WindowIs | src/openvpn/control.rs:368-389 | in any run the window of an end is that of the data channel over what has arrived |
| ControlChannel.EndDeliversOnce | src/openvpn/control.rs:386-389 | in no run does an end hand over one packet twice, forged or not |
| ControlChannel.TwoEndsData | src/openvpn/control.rs:352-402 | two ends in any runs: a packet the first sent is handed over by the second as the plaintext sent, exactly when its counter is new and inside the window |
| ControlChannel.EndDeliversAuthentic | src/openvpn/control.rs:379-389 | in every run an end hands over a plaintext exactly when what arrives is authentic for it under an id that is nonzero, new and inside the window |
| ControlChannel.ForgedIgnored | src/openvpn/control.rs:379-389 | what is authentic for nothing hands over nothing and leaves the window as it was |
| Messages.TakeMessage | src/openvpn/control.rs:730-741 | takes the bytes from the first prefix to the first null byte after it, with all before, or leaves the buffer |
| Messages.MessageIsUnique | src/openvpn/control.rs:730-741 | which bytes these are is determined |
| Messages.LaterBytesChangeNothing | src/openvpn/control.rs:138-160 | a message is found as soon as its null byte has come, and later bytes do not change it |
| Replay.ReplayWindow.Accept | src/openvpn/crypto/replay.rs:18-46 | the word operations in place are the function on values |
| Replay.AcceptRefinesSet | src/openvpn/crypto/replay.rs:18-46 | a call accepts exactly what is nonzero, unseen and less than 64 below everything seen, and the word goes on standing for the set |
| Replay.RunTracks | src/openvpn/crypto/replay.rs:18-46 | after every run bit k is set exactly when the id k below the highest was accepted |
| Replay.AcceptedIff | src/openvpn/crypto/replay.rs:18-46 | in every run each call decides as the set does |
| Replay.NeverTwice | src/openvpn/crypto/replay.rs:41-45 | no id is accepted twice |
| Replay.BandAccepted | src/openvpn/crypto/replay.rs:18-46 | distinct nonzero ids within 64 of each other are all accepted, in any order |
| DataCiphers.TagsUndoEachOther | src/openvpn/crypto/aes.rs:209-222 | moving the tag to the front and back is the identity |
| DataCiphers.ConstantTimeEq | src/openvpn/crypto/aes.rs:224-233 | the accumulating loop is equality |
| DataCiphers.DataCipher.Open | src/openvpn/crypto/aes.rs:69-198 | a CBC body opens exactly when its first bytes are the HMAC of everything after them and the rest decrypts to an id and a plaintext; an AEAD body exactly when, with its tag at the end, it opens under header and nonce; with the wrong HMAC it is refused |
| DataCiphers.DecryptIs | src/openvpn/crypto/aes.rs:110-198 | so does the function on values, for every id and plaintext |
| DataCiphers.EncryptIs | src/openvpn/crypto/aes.rs:88-162 | what is sent is sealed with its own id, header and vector, in both layouts |
| DataCiphers.New | src/openvpn/crypto/aes.rs:31-55 | a cipher is made exactly when the keys are long enough; its key is the beginning of the one given, its MAC key and digest those given, and its implicit vector the first eight bytes of the MAC key, filled up with zeros |
| DataCiphers.DecryptUndoesEncrypt | src/openvpn/crypto/aes.rs:57-198 | in both layouts what was sealed under an id is opened to that id and plaintext |
| DataCiphers.NonceIdentifiesPacket | src/openvpn/crypto/aes.rs:201-207 | nonces coincide exactly for equal ids |
| DataCiphers.ContractsCanBeMet | src/openvpn/crypto/aes.rs:57-198 | the contracts asked of the primitives can be met |
| DataChannel.SentOpens | src/openvpn/control.rs:352-380 | a packet of the matching sender opens to its counter and plaintext |
| DataChannel.SendLayout | src/openvpn/control.rs:352-366 | what is sent is a data packet with its counter in the header and a body sealed under that header |
| DataChannel.OpensIff | src/openvpn/control.rs:379-385 | a datagram opens to an id and a plaintext exactly when its bytes are authentic for them in terms of the primitives |
| DataChannel.ForgedChangesNothing | src/openvpn/control.rs:379-389 | one that is authentic for nothing delivers nothing and leaves the window |
| DataChannel.ReceiveSent | src/openvpn/control.rs:352-389 | it is decided by its counter alone |
| DataChannel.WindowTracks | src/openvpn/control.rs:379-389 | after any datagrams, forged ones included, the window stands for the ids delivered |
| DataChannel.DeliveredIff | src/openvpn/control.rs:379-389 | a packet that opens is delivered exactly when its id is nonzero, not delivered before, and less than 64 below every id delivered |
| DataChannel.DeliveredIsAuthentic | src/openvpn/control.rs:379-389 | among any datagrams one delivers a plaintext exactly when it is authentic for it under an id that is nonzero, new and inside the window |
| DataChannel.ForgedMightNotHaveCome | src/openvpn/control.rs:379-389 | the window after any datagrams is that after the authentic ones among them |
| DataChannel.OutcomeIs | src/openvpn/control.rs:379-389 | in any order of arrivals a packet yields its plaintext exactly when the window accepts its counter |
| DataChannel.AtMostOnce | src/openvpn/control.rs:386-388 | of any datagrams no two with one id, and so none twice, are delivered |
| DataChannel.FirstArrivalDelivered | src/openvpn/control.rs:368-402 | a first arrival is delivered exactly when everything delivered before was sent less than 64 packets after it |
| DataChannel.NoncesRepeatIff | src/openvpn/control.rs:353-354 | the nonces of two sent packets coincide exactly when their numbers differ by a multiple of 2^32 |
| KeyExpansion.Expand | src/openvpn/crypto/keys.rs:37-52 | the bytes are the beginning of blocks hashed from the links of a chain of hashes that starts at the seed, as in section 5 of RFC 2246 |
| KeyExpansion.EnoughBlocks | src/openvpn/crypto/keys.rs:43-50 | any number of blocks that reaches the length gives the same bytes |
| KeyExpansion.ShorterIsPrefix | src/openvpn/crypto/keys.rs:43-50 | a shorter request is the beginning of a longer one |
| KeyExpansion.Halves | src/openvpn/crypto/keys.rs:23-25 | the two halves are of equal length, cover the secret, and share at most its middle byte |
| KeyExpansion.Generate | src/openvpn/crypto/keys.rs:16-27 | each byte is the exclusive or of one so expanded from the first half of the secret, rounded up, with MD5 and one from the last half with SHA-1, under the label and the seeds in order |
| KeyExpansion.ShorterPrfIsPrefix | src/openvpn/crypto/keys.rs:16-27 | the same for the pseudorandom function |
| KeyExpansion.Layout | src/openvpn/crypto/keys.rs:129-133 | for every cipher and digest slice i begins at byte 64 * i and has the length of its key, so the four are disjoint |
| KeyExpansion.Derive | src/openvpn/crypto/keys.rs:106-142 | 256 bytes come from the master secret, the second random numbers and the session ids, the client before the server; the master secret from the pre-master secret and the first random numbers; the keys begin at every 64th byte, and both data ciphers can be made from them |
| VpnAccount.Tunnel.Expired | src/vpn/provider.rs:327-339 | a tunnel is expired by the function on values, and a first look starts its clock |
| VpnAccount.Guard.constructor | src/vpn/provider.rs:154-158 | an open connection is counted |
| VpnAccount.Guard.Drop | src/vpn/provider.rs:191-199 | a closed one is taken off, and the last starts the clock |
| VpnAccount.Account.GetLive | src/vpn/provider.rs:80-91 | the tunnel in the slot, or an attempt unless in back-off, with the whole new state |
| VpnAccount.Account.ConnectTunnel | src/vpn/provider.rs:93-135 | the three outcomes of an attempt, with the whole new state |
| VpnAccount.Account.ReapIdle | src/vpn/provider.rs:161-183 | an idle tunnel is dropped and unpublished; otherwise only its clock is touched |
| VpnAccount.RunsKeep | src/vpn/provider.rs:80-199 | in every run slot, ready flag and port agree, and every tunnel ever up counts exactly the connections open through the account |
| VpnAccount.BridgeReadyIffTunnel | src/vpn/provider.rs:137-139 | the bridge is reported ready exactly when there is a tunnel in the slot |
| VpnAccount.FailuresCounted | src/vpn/provider.rs:110-120 | in every run the count of failures is the number of attempts that have failed since the last that brought up a tunnel |
| VpnAccount.GenerationCounts | src/vpn/provider.rs:120-128 | in every run the generation is the number of failed attempts and dropped tunnels |
| VpnAccount.PortIsOfLast | src/vpn/provider.rs:110-116 | in every run the port published while there is a tunnel is that of the bridge bound when it came up |
| VpnAccount.Account.IsReady | src/vpn/provider.rs:137-139 | the program's answer is that one |
| VpnAccount.DropIsPossible | src/vpn/provider.rs:191-199 | a count of connections never goes below zero |
| VpnAccount.ReapedIff | src/vpn/provider.rs:161-183 | a tunnel is dropped exactly when no connection is open through the account and the idle clock is over, whatever its SOCKS bridge carries |
| VpnAccount.ReapedOnlyWhenIdle | src/vpn/provider.rs:161-183 | so it has not been used through the account for the whole timeout |
| VpnAccount.DroppedOnTime | src/vpn/provider.rs:161-199 | when its last connection has closed, a tunnel is dropped at a look exactly when the timeout has passed since |
| VpnAccount.UnusedDroppedOnTime | src/vpn/provider.rs:327-339 | one that is asked for and not used is dropped exactly so long after the first look |
| VpnAccount.BridgeInUseIsDropped | src/vpn/provider.rs:352-369 | for every port and timeout, a run from the start in which the account drops a tunnel with connections open over its bridge |
| VpnAccount.FailureHoldsOff | src/vpn/provider.rs:86-89 | in every run nothing about an account in back-off changes before that is over |
| VpnAccount.FailureBacksOff | src/vpn/provider.rs:120-125 | a failed attempt starts a back-off in which nothing changes; it counts from the beginning of the attempt |
| VpnAccount.HeldOffIff | src/vpn/provider.rs:86-125 | it holds the account off at all exactly when the attempt took less than the back-off |
| VpnAccount.TimeoutsHoldOffFromFifth | src/vpn/provider.rs:21 | attempts that run into the time limit are held off exactly from the fifth failure in a row on |
| VpnAccount.BackoffIs | src/vpn/provider.rs:341-343 | one second, doubled with every failure up to the eighth |
| ClientCache.Cache.GetClient | src/upstream.rs:44-71 | the lookup, the refusal and the insertion, with the whole new map |
| ClientCache.Cache.Evict | src/upstream.rs:73-75 | the client of this account goes, the others stay |
| ClientCache.RunsCoherent | src/upstream.rs:44-75 | in every interleaving an entry under the present generation of its account is for the present port |
| ClientCache.LookupIsCurrent | src/upstream.rs:44-71 | a lookup during which the generation has not moved gets a client for the address now published, or none when there is no tunnel |
| ClientCache.HitIsCurrent | src/upstream.rs:44-71 | with each operation one step, a hit is always for the current address |
| ClientCache.BuiltIsKept | src/upstream.rs:44-71 | what a lookup builds the next one of the generation gets, and a lookup without a client changes nothing |
| ClientCache.EvictedIsNotHit | src/upstream.rs:73-75 | after an eviction, whatever happens, no lookup of the account hits before one has ended |
| ClientCache.StaleIff | src/vpn/provider.rs:178-181 | for every interval in which a lookup reads the generation and every one in which it reads the port: it leaves a client for the dropped tunnel exactly when both fall between the two stores of a reap |
| Upstream.ReadyCandidate | src/upstream.rs:150-182 | the polling loop is the choice on values |
| Upstream.ChoiceMeaning | src/upstream.rs:163-179 | the first poll with a candidate that can serve decides, for the first of them in the order of the pool: ready, and untried if any is; there is none when all polls come too early or the pool is empty before |
| Upstream.Request | src/upstream.rs:77-129 | the retry loop is the function of the rounds, six or one: what is sent, what comes back, and what is evicted in order |
| Upstream.FailsIff | src/upstream.rs:92-128 | a request fails exactly when no round that it reaches gets an answer |
| Upstream.GivesUpIff | src/upstream.rs:92-100 | it is given up before the last attempt exactly when a round that it reaches finds no candidate |
| Upstream.TrailIsOk | src/upstream.rs:92-125 | each request goes through the candidate then chosen, unused before unless all had been; the body goes out once; only the last is answered |
| Upstream.DistinctWhenEnough | src/upstream.rs:163-172 | no upstream is used twice while the pool offers an untried one |
| SshManager.Manager.PickAccount | src/ssh/mod.rs:369-378 | the account whose turn comes first of those not in back-off, and the counter past that turn; or none, and the counter past all turns |
| SshManager.PickFromMeaning | src/ssh/mod.rs:369-378 | the scan by turns does this from any turn on |
| SshManager.Manager.PickSession | src/ssh/mod.rs:95-109 | an open session in turn, none when there is none |
| SshManager.Manager.Reap | src/ssh/mod.rs:387-404 | closed sessions go, the others stay in order, and the generation moves on exactly when one went |
| SshManager.Manager.Retire | src/ssh/mod.rs:305-316 | the newest sessions go, as many as asked for, and the generation moves on exactly when one went |
| SshManager.Manager.Connected | src/ssh/mod.rs:346-350 | a connect that succeeds is the step of the transition system, still in the counter, and ends the back-off of its account |
| SshManager.Manager.Failed | src/ssh/mod.rs:351-357 | so is one that fails, and its account's back-off begins |
| SshManager.BackoffIs | src/ssh/mod.rs:357-359 | one second, doubled with every failure up to the sixth |
| SshManager.Manager.Left | src/ssh/mod.rs:362-363 | leaving the counter is the step of its own that comes after |
| SshManager.Manager.ReapStep | src/ssh/mod.rs:387-404 | a reap is two steps of the transition system |
| SshManager.Manager.RetireStep | src/ssh/mod.rs:305-316 | a retirement is its steps from the swap to the end |
| SshManager.PickNoneIff | src/ssh/mod.rs:369-378 | without a wrap, no account is picked exactly when all are in back-off, and one that is picked is not |
| SshManager.WrapPassesOver | src/ssh/mod.rs:371-376 | with a wrap inside the round, a waiting account is passed over |
| SshManager.ReapIsItsSteps | src/ssh/mod.rs:387-404 | undisturbed, the two steps of a reap do what the method does |
| SshManager.RetireIsItsSteps | src/ssh/mod.rs:305-316 | undisturbed, so do the steps of a retirement |
| SshManager.TerminationsAddUp | src/ssh/mod.rs:259-263 | requests to close sessions add up until the manager comes to them |
| SshManager.RunsKeepGenerations | src/ssh/mod.rs:300-367 | in every interleaving a removed session is gone for good, under a generation that is over once its batch is |
| SshManager.SameGenerationKeepsSessions | src/ssh/mod.rs:314-316 | between two states of the same generation no session has been removed |
| SshManager.NeverAboveTarget | src/ssh/mod.rs:321-335 | with both counters read in one step, live sessions and unfinished connects never exceed the target |
| SshManager.OvershootBounded | src/ssh/mod.rs:322-335 | with the counters read one after the other, e sessions too many mean that 1 + ... + (e-1) is less than the target and than the eight permits; so at most 4 |
| SshManager.OvershootIff | src/ssh/mod.rs:322-335 | for every target and every e, the load can come to stand e above the target, in a run from the start, exactly under that condition |
| Rotation.FairIff | src/proxy/pool.rs:118-121 | everyone has a turn within a round exactly when the counter does not wrap inside it or the number divides 2^64 |
| Rotation.TurnsDiffer | src/proxy/pool.rs:118-121 | then no one has two |
| ProxyPools.SortIsStable | src/proxy/pool.rs:115 | sorting is by priority, a permutation, and keeps the order of equal priorities |
| ProxyPools.CandidatesAreComplete | src/proxy/pool.rs:104-123 | a search for a protocol yields only proxies of that protocol that are in the tree, and the key of each of these once; a search for any yields every key; of two proxies with one key the own one is taken |
| ProxyPools.CandidatesInOrder | src/proxy/pool.rs:115-122 | in the order of priority, begun where the counter says; the counter moves on by one exactly when there is more than one candidate |
| ProxyPools.SearchAndListAgree | src/proxy/pool.rs:104-208 | an unfiltered search and the list have the same keys, each once, those of the tree, and as many as the count says |
| ProxyPools.AlwaysAgree | src/proxy/pool.rs:141-187 | so after any pushes, removals, adoptions and searches anywhere in the tree |
| ProxyPools.PushIsSeen | src/proxy/pool.rs:173-182 | a key pushed anywhere is seen from the root, and no other comes or goes |
| ProxyPools.RemoveIsLocal | src/proxy/pool.rs:184-187 | a key removed from any pool of the tree is gone unless another pool has it too; the others stay |
| ProxyPools.EveryoneEverywhere | src/proxy/pool.rs:104-139 | in a pool without children each candidate comes to each position within as many calls as there are candidates |
| ProxyPools.NeverTwiceInPlace | src/proxy/pool.rs:104-139 | and to none twice |
| ProxyPools.NthCall | src/proxy/pool.rs:115-122 | each such call is a permutation of the filtered proxies, begun one further than the last |
| ProxyPools.WrapLeavesSomeoneOut | src/proxy/pool.rs:118-121 | with a wrap inside the round someone is never first |
| PoolObjects.ProxyPool.Push | src/proxy/pool.rs:173-182 | the list changes as on values, the tree stays one |
| PoolObjects.ProxyPool.Remove | src/proxy/pool.rs:184-187 | the list changes as on values, the tree stays one |
| PoolObjects.ProxyPool.AddChild | src/proxy/pool.rs:141-150 | a new child is adopted, a known one ignored |
| PoolObjects.ProxyPool.Filtered | src/proxy/pool.rs:104-123 | the search through the tree returns an answer for that protocol, in the order of priority from the turn on, and moves the counters of every pool it visits |
| PoolObjects.ProxyPool.ListAll | src/proxy/pool.rs:197-208 | the list of all proxies of the tree |
| PoolObjects.ProxyPool.Count | src/proxy/pool.rs:193-195 | the number of keys of the tree |
| PoolObjects.ProxyPool.Contains | src/proxy/pool.rs:189-191 | true exactly for the keys of the tree |
| RewritePath.ParsePath | src/proxy/server.rs:533-599 | the loop with its breaks is the function on values |
| RewritePath.PrintParses | src/proxy/server.rs:533-618 | whatever is printed in the documented form parses back to its route and target |
| RewritePath.AddressesCanBe | src/proxy/server.rs:605 | what is asked of the parser of addresses can be met |
| RewritePath.OrderMattersIff | src/proxy/server.rs:541-563 | protocol and region may change places exactly when the region is not another protocol's name |
| RewritePath.RegionTakenForProtocol | src/proxy/server.rs:550-555 | what happens otherwise |
| RewritePath.ParsePrints | src/proxy/server.rs:533-599 | every path that parses has a documented form that parses to the same |
| RewriteForms.SlashesInFront | src/proxy/server.rs:534 | any number of slashes may stand in front of a path |
| RewriteForms.WrittenForms | src/proxy/server.rs:565-587 | a scheme in any case, any number of slashes after it, and a user before the domain come to the same target |
| DomainNames.ValidDomainIff | src/proxy/server.rs:602-619 | a domain has at most 253 characters and is an address, or a name of letters, digits, hyphens and dots with a dot, no hyphen or dot at an end or beside a dot, and at most 63 characters without a dot |

## Left out

- The derivation of the two stream keys with SHA-1 (src/ssh/ossh.rs:49-63): the keys are inputs.
- Capacities and shrinking of buffers (src/ssh/ossh.rs:248-250, 266-268, 324-326), `poll_flush` and
  `poll_shutdown`: they do not change contents.
- OsshStream.Stream.PollRead: a read past end of file or a socket error is reported as a status; what a
  caller does then is not modelled.
- OsshServer.ServerStreamDelivered: speaks of streams whose packet lengths are in range and whose lines fit the
  line buffer; `OsshDelivery.AnyChunkingDeliversTheStream` and `OsshStall.AlwaysCompleteIff` cover all others.
- OsshDelivery.AnyChunkingDeliversTheStream: holds for arrivals of any size; only `OsshReach`, `OsshStall` and
  `OsshCases` use that the program reads at most 8192 bytes at a time.
- Errors of the TLS engine when it is fed, and its handshake: what the engine wants to send after a packet is an
  input of the event. Deadlines are the end of the inbox.
- `retransmit_control` (src/openvpn/control.rs:295-309): it sends the last payload under a fresh id, which
  the end-to-end theorem cannot allow.
- ControlStream.EndToEnd: packet ids stay below the last id of the id space.
- ControlChannel.Control.RecvData: deadlines are the end of the inbox; a datagram that makes the parser panic
  ends the call with `Crash`.
- Messages.TakeMessage: messages are bytes; the lossy conversion to text is not part of this model.
- Parsing of pushed options, the payload of the key exchange and profile files: formatting.
- The insides of AES, HMAC, MD5 and SHA-1, and failures of these libraries on well-formed input.
- The VPN tunnel's connection loop over the user-space network stack.
- ClientCache.RunsCoherent: one step is one operation; other orders of relaxed stores than that of
  `ClientCache.StaleIff` are not modelled. Generations are natural numbers: a wrap at 2^64 is not
  modelled.
- VpnAccount.HeldOffIff: what else happens to an account while it connects is taken to happen before or after.
- Upstream.Request: the answers of the pool, the success of building a client and of sending are inputs, and
  the wait between polls is not modelled.
- SshManager.NeverAboveTarget: assumes the two counters are read in one step, which the program does not
  guarantee; `SshManager.OvershootIff` is the exact statement without that assumption.
- SshManager.OvershootIff: the eight permits for connecting (src/ssh/mod.rs:28-30) are shared by all tunnels;
  the model lets one manager have them all, and gives a permit back when a session is delivered. The record of
  exits is not modelled.
- PoolObjects.ProxyPool.AddChild: the child must share no pool with the tree; pools that several parents share
  are not modelled. Sums over the tunnels (`tunnel_count`, `usable_count`) are not modelled.
- ProxyPools.EveryoneEverywhere: pools with children also turn on their own when searched, so that fairness is
  stated for pools without.
- RewritePath.PrintParses: which strings are addresses is a parameter, of which only the alphabet is assumed.
- RewriteForms.WrittenForms: speaks of targets with their scheme written; a user before a domain without one may
  itself read like a scheme.
- Geolocation, emulation profiles, configuration, the index page, header handling and account loading.
