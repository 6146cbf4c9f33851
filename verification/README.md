# A reliable byte stream, a hash and three resumable parsers, verified

This project models the parts of the cortono repository whose correctness is an argument over whole
runs, and proves what they are for.

**The sliding-window protocol** (`protocol/`). Two programs exchange a file over UDP: the client sends
it chunk by chunk, the server echoes what it receives, and the client compares. Sequence numbers are
residues modulo `BufferSize` (here `b`), a window spans `WindowSize` (`w`, with `2w < b`), and a
segment carries at most `MaxDataSize` bytes (`d`, with `d <= b - w`). The model has three layers.

- *Objects*: `SlideWindow.dfy`, `Connection.dfy`, `Packet.dfy`, `Buffer.dfy` and `Programs.dfy` hold
  the classes of the source with their fields, arrays and loops. Each method is proved against a
  function of the old state.
- *The protocol on residues*: `Protocol.dfy` is a transition system whose decisions are those
  functions. `Echo.dfy` joins two pipes through the server's queue.
- *The protocol on positions*: `Unbounded.dfy` is the same protocol with unbounded sequence numbers,
  where safety is an inductive invariant. `Refinement.dfy` shows that every step on residues is a step
  on positions, `Safety.dfy` carries the invariant back to every reachable state, `Progress.dfy` and
  `EchoProgress.dfy` show that no reachable state is a dead end, and `LostChunk.dfy` determines which
  files the client can fail to send to the end.

**Streaming SHA-1 and UUIDs** (`http/http_uuid.hpp`; `Sha1.dfy`, `Sha1Example.dfy`, `Uuid.dfy`). The block-buffered
hasher refines the definition in FIPS 180-4 for every message shorter than 2^29 bytes and every way to
split it; the padding is right exactly below that bound, and the published digest of "abc" is derived
round by round. UUID texts (section 3 of RFC 4122) are read
back from both printed forms, and generated values carry the variant and version they should.

**Resumable parsing** (`p2p/`, `http/http_parser.hpp`, `net/buffer.hpp`; `Datagram.dfy`,
`HttpParser.dfy`, `HttpRequest.dfy`, `HttpOutcome.dfy`, `Buffer.dfy`). How the network cuts the bytes does not show: for
the datagram framer always, for the HTTP request parser exactly under a condition on the input that is
proved to be both sufficient and necessary. The requests of section 3 of RFC 7230 meet it if every
colon of a header field is followed by a space, as is usual but not required; the exact statement is
below.

Several properties that the code seems to promise are false as stated. For each there is the failing
case and the exact condition, proved in both directions:

- the window test is not interval inclusion on segments longer than `b - w`, and exactly for some of
  each such length (`Window.LongerSegmentsSlipThrough`, `Window.SlipsIffLonger`);
- an acknowledgement that was overtaken by less than `b - w` bytes pops every timer; of any age, one is
  handled rightly iff it is not older than the left edge, or has its residue, or no timer is
  outstanding and its residue is not ahead in the window (`Safety.StaleAckDropsEveryTimer`,
  `Safety.AckReleasesIff`);
- the client can quit without the last chunk of the file: some run does iff the size of the file meets
  a condition (`LostChunk.LosesIff`, and for the programs' constants
  `LostChunk.LastChunkIsLostByClient`); in the middle of a run, all of the file can still come back
  iff the end of the file was not reached with a refused chunk in the send buffer
  (`EchoProgress.SucceedsIff`);
- a segment as large as the window can be refused for good (`Refinement.IdleAdmits`);
- SHA-1 padding is wrong from 2^29 bytes on (`Sha1.PadsRightly`);
- datagram bodies of 2^32 bytes and more do not survive (`Datagrams.SurvivesIffShort`);
- the HTTP parser treats some inputs differently when they are cut (`Http.CutsDoNotMatter`,
  `Http.HeadersFitByLines`);
- well-formed requests are among them, and are refused: a field needs a space behind its colon, which
  the standard leaves open, and any other white space stays in the value, which it excludes
  (`HttpRequests.TightRequestShows`, `HttpRequests.ParsesRequest`, `HttpRequests.AnyCutsOfRequest`,
  `HttpRequests.MatchesField`);
- request methods are matched by a common prefix (`Http.VerbIsNamed`).

`dafny verify dfyconfig.toml` checks everything.

## Model

| member | source | states |
|---|---|---|
| Modular.ModIsRemainder | protocol/slide_window.hpp:16 | The remainder that the model computes by subtraction is `%`, and it is the residue of a stream position on the ring |
| Modular.OffsetOfRes | protocol/slide_window.hpp:15-54 | Within one lap the residues of two stream positions determine how far apart the positions are |
| Window.InRangeExact | protocol/slide_window.hpp:15-54 | What the seven branches of the window test decide, measured from the left edge: the start lies inside the window; the end may touch the right edge only while the window does not wrap around |
| Window.InRangeIsInclusion | protocol/slide_window.hpp:15-54 | For one segment of at most `b - w` bytes the circular test is interval inclusion: `o + len <= w` unwrapped, `o + len < w` wrapped |
| Window.LongerSegmentsSlipThrough | protocol/slide_window.hpp:15-54 | For lengths up to `b` the test departs from interval inclusion exactly on segments that start inside the window and reach around the ring to its left edge (past it, if the window does not wrap): these overshoot and pass |
| Window.SlipsIffLonger | protocol/slide_window.hpp:15-54 | A length has a window and a start on which the test is wrong iff it exceeds `b - w` |
| Window.SegmentFits | protocol/slide_window.hpp:55-58 | An accepted segment lies inside the window at the one position ahead of the left edge that its residue stands for |
| Window.ReceiveCases | protocol/slide_window.hpp:55-77 | Storing on residues either puts the bytes at that position and moves the left edge to the least missing position, or changes nothing |
| Window.ReadRing | protocol/slide_window.hpp:111-129 | Both branches of `recv_all` read the unread bytes of the ring in stream order |
| Window.SlideWindow.constructor | protocol/slide_window.hpp:168-174 | A new window is empty, at position 0 |
| Window.SlideWindow.TakeIn | protocol/slide_window.hpp:62-74 | Passing the left edge over a received byte keeps ring, bitset, edges and byte count in agreement with the set of received positions |
| Window.SlideWindow.StoreByte | protocol/slide_window.hpp:59-68 | One turn of the copying loop stores one byte at its position and moves the edge if it was the one missing |
| Window.SlideWindow.Slide | protocol/slide_window.hpp:69-74 | The trailing loop ends, with the left edge at the least missing position |
| Window.SlideWindow.SetFlagIfValid | protocol/slide_window.hpp:55-77 | Accepts exactly when the window test passes; the new state is the received positions plus the segment, the left edge at the least gap, `readable_bytes_` the unread count; otherwise nothing changes |
| Window.SlideWindow.MoveIfValid | protocol/slide_window.hpp:78-87 | The loop ends with the left edge at the position the residue stands for, or a refused residue changes nothing |
| Window.SlideWindow.RecvAll | protocol/slide_window.hpp:111-129 | Returns exactly the bytes at the unread positions, if at most `b - w` are unread, and marks them read |
| Protocol.Cancelled | protocol/resend_module.hpp:70-84 | `cancel_timer` pops the entries before the first that starts at the acknowledged number, or all |
| Unbounded.StepKeepsInv | protocol/slide_window.hpp:15-129 | Every step of the protocol with unbounded numbers keeps its invariant: timers tile the unacknowledged bytes, flights are recent, everything stored or in flight is a piece of the accepted stream |
| Unbounded.CutIsTimer | protocol/resend_module.hpp:70-99 | Every acknowledgement that can arrive is where a timer starts, or the end of what was accepted |
| Unbounded.StoreKeepsReceiverInv | protocol/slide_window.hpp:55-77 | Storing a sound piece keeps the receiver's bytes a part of the accepted stream and its left edge a segment boundary |
| Unbounded.AckKeepsInv | protocol/resend_module.hpp:70-84 | Releasing what is acknowledged keeps the tiling of the rest |
| Refinement.AdmittedFits | protocol/send_module.hpp:31-37 | A segment is admitted iff it fits the window counted in positions; a wrapped window must keep one byte free |
| Refinement.IdleAdmits | protocol/send_module.hpp:31-37 | With nothing outstanding a segment is admitted iff it is smaller than the window, or as large and the window does not wrap |
| Refinement.ReceivesRightly | protocol/slide_window.hpp:55-77 | From the residue alone the receiver stores a segment in flight iff it starts at or beyond its left edge |
| Refinement.MovesRightly | protocol/slide_window.hpp:38-87 | Every acknowledgement that is news is accepted, although a wrapped window refuses its own right edge, and moves the sender's left edge to it |
| Refinement.CancelsRightly | protocol/resend_module.hpp:70-84 | Comparing residues pops exactly the timers of acknowledged pieces |
| Refinement.AcknowledgesRightly | protocol/send_module.hpp:53-58 | Send and resend module together: the edge moves to the acknowledged position, exactly the timers before it go |
| Refinement.Simulate | protocol/module.hpp:101-143 | Each step on residues is a step on positions that keeps the invariant |
| Refinement.StepsSimulate | protocol/module.hpp:101-143 | Positions and residues are related by a simulation |
| Safety.RunsRefine | protocol/slide_window.hpp:15-129 | Every run of the bounded protocol is a run of the one with unbounded sequence numbers |
| Safety.Origin | protocol/slide_window.hpp:15-129 | Every reachable state is the residue image of a state that satisfies the invariant |
| Safety.ReturnedIsPrefix | protocol/client.cc:42-44 | In every reachable state, under loss, retransmission and lost acknowledgements, the bytes returned so far are a prefix of the bytes accepted |
| Safety.NothingOverwritten | protocol/slide_window.hpp:11-77 | In every reachable state at most `w` bytes are unread and they share no cell of the ring with the window, although `full()` is never consulted |
| Safety.SegmentsUnambiguous | protocol/client.cc:14 | Each segment in flight stands for exactly one position within `w` of the receiver's left edge, carries the accepted bytes from there, and is stored there or was delivered already |
| Safety.TimersTile | protocol/resend_module.hpp:86-99 | The timers cover the unacknowledged bytes contiguously, in order, with the right bytes and end points |
| Safety.AckReleases | protocol/resend_module.hpp:70-84 | The acknowledgement that arrives next moves the left edge over exactly the bytes of the timers it pops, never beyond what was returned |
| Safety.AcksAreBoundaries | protocol/resend_module.hpp:70-84 | Every acknowledgement in flight stands for a boundary between timers, no further than what was returned |
| Safety.StaleAckDropsEveryTimer | protocol/resend_module.hpp:70-84 | Why acknowledgements must not overtake each other: one that is older than the left edge by less than `b - w` is refused by the window and yet pops every timer |
| Safety.AckReleasesIff | protocol/resend_module.hpp:70-84 | An acknowledgement of any boundary, however old, moves the edge forward only and pops exactly the timers before it iff it is not older than the left edge, or has the residue of the left edge, or no timer is outstanding and the window refuses it |
| Progress.FrontTimer | protocol/resend_module.hpp:70-99 | While bytes are unacknowledged, the first timer that carries data starts at the left edge; those before it carry none |
| Progress.RoundTrip | protocol/resend_module.hpp:93-97 | In every reachable state with unacknowledged bytes, whatever is in the channels and whatever becomes of the older segments there: firing the first timer that carries data and letting its segment and then every acknowledgement arrive strictly advances the left edge |
| Progress.Advances | protocol/resend_module.hpp:70-99 | So from every such state a run exists that advances the left edge |
| Progress.Completes | protocol/resend_module.hpp:70-99 | From every reachable state everything accepted can still be returned and acknowledged |
| Echo.HappensKeeps | protocol/client.cc:36-96 | Every event of the two programs keeps the relation between their byte streams, queues and counters |
| Echo.EchoesAreFaithful | protocol/server.cc:34-56 | In every state of every run: output ⊑ server accepted ⊑ server received ⊑ client accepted ⊑ file, and the client never sees more bytes than it sent |
| Echo.QuitsWithWholeFile | protocol/client.cc:55-68 | When the client quits, everything it sent has come back; that is the whole file iff its send buffer is empty then |
| EchoProgress.ServerNeverStalls | protocol/server.cc:34-56 | With `d < w`, while the server has bytes queued it also has bytes unacknowledged, so a packet that wakes it is due |
| EchoProgress.EchoCompletes | protocol/client.cc:36-96 | With `d < w`, from every state of every run all bytes sent can still come back, and the client need not read or send more for that |
| EchoProgress.SendEverything | protocol/client.cc:55-76 | With `d < w`, unless the end of the file was reached with a refused chunk, a run goes on from every state in which the client sends the rest of the file |
| EchoProgress.SucceedsIff | protocol/client.cc:36-96 | With `d < w`, from a state of a run the client can quit with the whole file echoed iff it has not reached the end of the file with a refused chunk in its send buffer |
| LostChunk.LastChunkIsLost | protocol/client.cc:55-76 | Every file whose size is at risk can lose its last chunk: some run quits with everything but that chunk echoed |
| LostChunk.OnlyLastChunkIsLost | protocol/client.cc:55-76 | A client that quits without the whole file echoed had a file at risk, and nothing but the last chunk is missing |
| LostChunk.LosesIff | protocol/client.cc:55-76 | With `d < w`, a run in which the client quits without the whole file exists iff the file is at risk: it ends in a short chunk, has as many full chunks as a window can hold, and what these leave of the window is too little, where a window that wraps must keep one byte free |
| LostChunk.FirstWindowAtRisk | protocol/client.cc:55-76 | For one, every size whose full chunks fit the first window while the whole does not |
| LostChunk.LastChunkIsLostByClient | protocol/client.cc:11-76 | With the programs' constants: iff the file has more than 8192 bytes and its size is over 1808 modulo 4096, or is 1808 or 5904 modulo 65536 |
| Packets.ConvToString | protocol/parser_module.hpp:17-25 | The digits of `n` in any base, most significant first: the `k`-th character is `'0'` plus the digit of `n` at that power of the base, cut to a byte |
| Packets.ConvToTenDigits | protocol/parser_module.hpp:8-16 | The sum of the characters' distances to `'0'`, each times the power of the base at its place, wrapped at 64 bits; the low 16 bits are those of the unwrapped value |
| Packets.ValueOfDigits | protocol/parser_module.hpp:8-25 | Reading back what was written gives `n`, for every `n < d^len` and base up to 80 |
| Packets.DecodeOfEncode | protocol/parser_module.hpp:79-119 | Feeding a packet its own wire form restores sequence number, acknowledgement, control, notice size, check code and message |
| Packets.EncodeOfDecode | protocol/parser_module.hpp:79-119 | An accepted datagram is reproduced exactly iff its four number fields are binary digits |
| Packets.EncodedBits | protocol/parser_module.hpp:108-119 | Every character of a packet on the wire: bit `15 - k` of the sequence number at `k`, of the acknowledgement at `16 + k`, the control bits at 32, the notice size at `38 + k`, the check code at `54 + k`, the message from 70 on |
| Packets.DecodedBits | protocol/parser_module.hpp:79-106 | Every bit of the four number fields that is read from a datagram of binary digits, and where control bits and message are taken from |
| Packets.MsgPacket.Feed | protocol/parser_module.hpp:79-106 | Fails exactly on fewer than 70 bytes; otherwise takes every field from its place, as `Packets.DecodedBits` spells out, and keeps the addresses |
| Packets.MsgPacket.ToString | protocol/parser_module.hpp:108-119 | Produces the wire form of the fields, which `Packets.EncodedBits` spells out character by character |
| Packets.MsgPacket.SetErrorPacket | protocol/parser_module.hpp:204-208 | The packet is an error packet afterwards, with cleared control bits |
| Connections.LosePacket | protocol/lost_packet_module.hpp:28-37 | Only received data can be lost, by becoming an error packet |
| Connections.ModifyPacket | protocol/modify_module.hpp:22-47 | Received data becomes an acknowledgement from the local address to where the data came from, without its message; nothing else changes kind |
| Connections.RecvModule.Handle | protocol/recv_module.hpp:39-72 | Data is stored in the window and the packet then carries the updated left edge; the peer is remembered |
| Connections.SendModule.Check | protocol/send_module.hpp:21-42 | Refuses exactly outgoing data that the window does not admit |
| Connections.SendModule.Handle | protocol/send_module.hpp:44-74 | Numbers outgoing data and advances `seq_` around the ring, or moves the window on an acknowledgement |
| Connections.ResendModule.CancelTimer | protocol/resend_module.hpp:70-84 | The list loses exactly the entries before the acknowledged number |
| Connections.ResendModule.SetTimer | protocol/resend_module.hpp:86-99 | The list gains one entry with the segment's numbers and its wire string |
| Connections.ResendModule.Handle | protocol/resend_module.hpp:41-62 | Dispatches to one of the two, or does nothing |
| Connections.Connection.HandlePacket | protocol/module.hpp:101-143 | Check all, then handle all: an undropped data packet yields exactly one acknowledgement to its source with the updated left edge, an acknowledgement yields no packet, refused data changes no state |
| Connections.Connection.HandleRead | protocol/module.hpp:75-100 | The same for a received datagram; anything that does not parse changes nothing |
| Connections.Connection.ParsedMessage | protocol/module.hpp:75-100 | A datagram is read iff it has 70 bytes, another sender and a control bit of 0 or 1; of its message no more is taken than a segment holds |
| Connections.Connection.Transmit | protocol/module.hpp:72-143 | Data is sent iff admitted, recorded with a timer that holds the very datagram that left |
| Connections.Connection.FireTimer | protocol/resend_module.hpp:93-97 | A timer resends one of the datagrams sent before, bytes and destination, namely the one recorded with its segment |
| Connections.Connection.Drain | protocol/recv_module.hpp:74-76 | Returns the bytes in order that were not returned before |
| Programs.Client.Tick | protocol/client.cc:55-96 | The timer callback takes the client's step of the echo system, file position, buffers and counters included, and puts on the wire exactly the segment that joins the channel |
| Echo.TickOffers | protocol/client.cc:55-76 | Before the end of the file a tick offers what was refused before or, if nothing was, the next chunk of the file |
| Programs.Client.OnRead | protocol/client.cc:36-47 | The read callback writes what was drained and compares the counters |
| Programs.Client.HandleData | net/udp_service.hpp:38-44 | A segment from the server: the read callback runs only if the packet step succeeded, and exactly one acknowledgement leaves then |
| Programs.Client.HandleAck | net/udp_service.hpp:38-44 | An acknowledgement from the server releases and then drains; nothing leaves |
| Programs.Client.Resend | protocol/resend_module.hpp:93-97 | A timer resends the segment that joins the channel, byte for byte and to the same address as one of the datagrams sent before |
| Programs.Server.OnRead | protocol/server.cc:34-56 | The read callback queues everything in order and sends back one chunk if admitted; exactly its datagrams leave |
| Programs.Server.HandleData | net/udp_service.hpp:38-44 | A segment from the client: an acknowledgement leaves unless it was dropped, and then the answer of the read callback |
| Programs.Server.HandleAck | net/udp_service.hpp:38-44 | An acknowledgement from the client releases, and only the answer of the read callback leaves |
| Programs.Server.Resend | protocol/resend_module.hpp:93-97 | A timer of the server, likewise |
| Programs.ReactionIsOnItsWay | protocol/module.hpp:101-143 | The acknowledgements that leave are those that join the channel, in wire form |
| Programs.ParsedSegment | protocol/module.hpp:75-100 | A segment in flight of a reachable pipe is read from the wire as it was sent |
| Programs.ParsedAck | protocol/module.hpp:75-100 | So is an acknowledgement |
| Connections.SegmentOnWire | protocol/parser_module.hpp:70-77 | Every byte of a segment as it travels |
| Connections.AckOnWire | protocol/modify_module.hpp:22-47 | Every byte of an acknowledgement as it travels |
| Buffers.BaseBuffer.Append | net/buffer.hpp:60-90 | Adds at the back of a FIFO queue, through compaction and growth |
| Buffers.BaseBuffer.EnableBytes | net/buffer.hpp:77-90 | Makes room without changing the queue |
| Buffers.BaseBuffer.RetrieveReadBytes | net/buffer.hpp:49-54 | Removes exactly that many unread bytes from the front |
| Buffers.BaseBuffer.ReadAll | net/buffer.hpp:92-96 | Returns and removes everything |
| Buffers.BaseBuffer.ReadBytes | net/buffer.hpp:97-102 | Removes exactly the prefix it returns, as much as asked for or all |
| Buffers.BaseBuffer.ReadUtil | net/buffer.hpp:104-120 | Removes exactly the prefix it returns, up to and including the first occurrence, or all |
| Buffers.Search | net/buffer.hpp:106 | The first occurrence, and none before it |
| Sha1.PaddingIsLeast | http/http_uuid.hpp:108-132 | The zeros of the padding are the least solution of the equation in section 5.1.1 of FIPS 180-4 |
| Sha1.PadsRightly | http/http_uuid.hpp:108-132 | The code pads as the standard says iff the message is shorter than 2^29 bytes |
| Sha1.LengthGrows | http/http_uuid.hpp:129-132 | The bytes of the length are its digits to the base 256, the most significant first |
| Sha1.LeftRotate | http/http_uuid.hpp:62-65 | Joining the halves with an exclusive or is the rotation of section 3.2 |
| Sha1.Load | http/http_uuid.hpp:175-180 | Joining four bytes with ors is the big-endian word |
| Sha1.CodeLogic | http/http_uuid.hpp:196-211 | The code's forms of Ch and Maj are those of section 4.1.1 |
| Sha1.Step | http/http_uuid.hpp:191-218 | One turn of the loop is one round of section 6.1.2 |
| Sha1.RoundByFields | http/http_uuid.hpp:212-217 | The five assignments of section 6.1.2, the message word included |
| Sha1.AddByFields | http/http_uuid.hpp:220-224 | Each of the five sums that end a block |
| Sha1.Hasher.Schedule | http/http_uuid.hpp:174-183 | The array is the message schedule of section 6.1.2 |
| Sha1.Hasher.ProcessBlock | http/http_uuid.hpp:172-225 | The digest becomes the intermediate hash value of section 6.1.2 |
| Sha1.BlocksOfPrefix | http/http_uuid.hpp:80-89 | What comes later does not change the hash value of the blocks before |
| Sha1.Hasher.ProcessByte | http/http_uuid.hpp:80-89 | The digest is that of the whole blocks fed so far and the buffer holds the rest |
| Sha1.Hasher.ProcessBytes | http/http_uuid.hpp:91-106 | Likewise for many bytes, so only the concatenation of all calls matters |
| Sha1.Hasher.Pad | http/http_uuid.hpp:110-132 | The three loops feed exactly the one bit, the zeros and the count |
| Sha1.Hasher.GetDigest | http/http_uuid.hpp:108-136 | For every message under 2^29 bytes, split in any way, the result is its SHA-1 |
| Sha1Example.HashOfAbc | http/http_uuid.hpp:172-225 | The digest of "abc" is the published one, a9993e36 4706816a ba3e2571 7850c26c 9cd0d89d: schedule and working variables are followed through all 80 rounds |
| Sha1.Hasher.Reset | http/http_uuid.hpp:69-78 | The hasher is as new, with the initial value of section 5.3.1 |
| Uuids.Uuid.Create | http/http_uuid.hpp:699-731 | Yields a value iff the text without dashes is exactly 32 hexadecimal digits, and the nil value otherwise |
| Uuids.BadDigit | http/http_uuid.hpp:709-713 | One character that is no dash and no digit, or a digit too many, spoils the whole text |
| Uuids.StripOfToString | http/http_uuid.hpp:750-773 | The dashes are all that the long form adds to the short one |
| Uuids.DigitsAscend | http/http_uuid.hpp:28-37 | The sixteen digits that are read and printed stand for 0 to 15 in this order |
| Uuids.PairIsByte | http/http_uuid.hpp:49-52 | A byte is 16 times its first digit plus its second |
| Uuids.ShortFormAt | http/http_uuid.hpp:750-773 | Every character of the short form |
| Uuids.LongFormAt | http/http_uuid.hpp:750-773 | The long form has 36 characters, dashes exactly at 8, 13, 18 and 23, and the short form in between |
| Uuids.ParseOfPrinted | http/http_uuid.hpp:662-773 | Both printed forms read back as the 16 bytes they were printed from |
| Uuids.PrintedOfParse | http/http_uuid.hpp:662-731 | A text that is read prints as itself, without dashes and in lower case |
| Uuids.PrintingIsInjective | http/http_uuid.hpp:662-773 | Different values never print alike |
| Uuids.GeneratedMarks | http/http_uuid.hpp:907-996 | Both generators set the variant of RFC 4122 and their version, bit by bit, and keep the other 122 bits |
| Uuids.JoinOfWordBytes | http/http_uuid.hpp:138-169 | `get_digest_bytes` writes words in the order in which the message schedule reads them |
| Uuids.GeneratedWords | http/http_uuid.hpp:138-169 | Bytes 0-3 of a generated value join to the first word of the digest, 4-7 to the second, 8-11 to the third and 12-15 to the fourth, but for the marked bits of bytes 6 and 8 |
| Uuids.NameGenerator.Generate | http/http_uuid.hpp:940-996 | The value depends on name space and name alone, whatever was generated before: the first four words of their SHA-1 in order, marked in bytes 6 and 8 |
| Datagrams.StringOfNumber | p2p/unility.hpp:8-16 | A number comes back from its bytes iff it fits them |
| Datagrams.NumberOfString | p2p/unility.hpp:8-16 | Any bytes come back from the number they stand for |
| Datagrams.Serialize | p2p/entry.hpp:136-146 | The packer's calls produce the wire form |
| Datagrams.ParseDatagramHeader | p2p/entry.hpp:116-131 | The parser's calls read the header fields from their places |
| Datagrams.HeaderFits | p2p/entry.hpp:92-131 | Every header that is read fits its field types |
| Datagrams.ReadOfSerialized | p2p/entry.hpp:116-146 | A serialized datagram, wherever it lies in a stream, reads back with command, ip, port, checksum and body |
| Datagrams.SerializedOfRead | p2p/entry.hpp:116-146 | Serializing what was read reproduces the bytes it was read from |
| Datagrams.SerializedBytes | p2p/entry.hpp:136-146 | Every byte of a serialized datagram: where each field is, and numbers with the least significant byte first |
| Datagrams.HeaderBytes | p2p/entry.hpp:116-131 | Every field of a header that is read, from the bytes it is read from |
| Datagrams.SurvivesIffShort | p2p/entry.hpp:136-146 | A datagram survives the wire iff its body is shorter than 2^32 bytes |
| Datagrams.FramesOfStream | p2p/session.hpp:47-103 | Concatenated datagrams come back in order with nothing left over |
| Datagrams.StreamOfFrames | p2p/session.hpp:47-103 | For any byte stream, the datagrams cut from it and the bytes left over make up the stream |
| Datagrams.FramesOfLonger | p2p/session.hpp:47-75 | More bytes add datagrams after the complete ones and change none of those |
| Datagrams.Session.ParseDatagram | p2p/session.hpp:91-103 | Takes off the header once it is there, then the body, and reports exactly whether a datagram is complete |
| Datagrams.Session.HandleRead | p2p/session.hpp:47-75 | The state is a function of the bytes received, however they were cut: every complete datagram was handled in order and the rest waits |
| Http.FeedInHeaders | http/http_parser.hpp:26-104 | What a whole call of `feed` does from the header state on |
| Http.Resume | http/http_parser.hpp:26-104 | Feeding a part, then what it left with the remainder, equals feeding both at once, if the input fits |
| Http.ManyPieces | http/http_parser.hpp:26-104 | Likewise for any number of pieces |
| Http.SeenCut | http/http_parser.hpp:70-104 | An input that does not fit has a cut that changes how many bytes are consumed |
| Http.CutsDoNotMatter | http/http_parser.hpp:26-104 | All ways to cut an input give the same parser and the same unconsumed bytes iff no header line after the first is bad and no byte follows the announced body |
| Http.HeadersFitByLines | http/http_parser.hpp:70-104 | That condition on the text alone: no run of good header lines is followed by a bad line (unless it is the first) or by the blank line and more bytes than their Content-Length announces |
| HttpRequests.ParsesRequest | http/http_parser.hpp:50-104 | A well-formed request is parsed, with nothing left, iff a space follows every colon; the result is given field by field from the request. Otherwise the parser ends in the error state with the fields before the first such colon. It meets the condition on cuts iff it is parsed or its very first field is refused |
| HttpOutcomes.LineIsTaken | http/http_parser.hpp:50-69 | Whatever follows a well-formed request line, the parser holds its method, its URL and its two version digits |
| HttpOutcomes.UrlWithoutQuery | http/http_parser.hpp:222-246 | A URL without a question mark is the path, and no query is stored |
| HttpOutcomes.UrlWithQuery | http/http_parser.hpp:222-246 | The path ends at the first question mark and the pairs behind it are stored |
| HttpOutcomes.HeadersAreFirst | http/http_parser.hpp:70-95 | Under a name, in any case, the value of its first field is kept, and nothing under other names |
| HttpOutcomes.BodyByLength | http/http_parser.hpp:96-104 | After all fields and `m` more bytes these bytes are kept, and the request is done iff none or exactly `m` were announced |
| HttpOutcomes.ContentLengthCounts | http/http_parser.hpp:96-104 | The first field `Content-Length`, in any case, with a decimal number `n` announces `n` bytes: done iff `m` is `n` |
| HttpOutcomes.ExampleParsed | http/http_parser.hpp:26-104 | A POST request, written out, and all eight fields of the parser after it |
| HttpRequests.AnyCutsOfRequest | http/http_parser.hpp:26-104 | No way to cut a well-formed request, or any part of it from the start, shows iff a space follows every colon or none follows the first; if one follows every colon, any cuts give the whole request |
| HttpRequests.TightRequestShows | http/http_parser.hpp:70-95 | The failing case: a well-formed request with fields `A: b` and `C:d`, where some cut shows |
| HttpRequests.StrtoulOfCaptured | http/http_parser.hpp:99 | White space around a Content-Length does not change the number that is read |
| HttpRequests.CollectIsFirst | http/http_parser.hpp:84 | Under each name in lower case the value of its first field is kept; what was there before stays |
| HttpRequests.LowerFolds | http/http_parser.hpp:84 | Names are the same key iff they differ in nothing but the case of letters |
| Http.MatchLineIsPattern | http/http_parser.hpp:57 | A line is split into method, URL and version iff it has the form of the request-line pattern with these groups |
| Http.MatchesLine | http/http_parser.hpp:57 | The request-line pattern captures method, URL and version of every well-formed line |
| Http.MatchHeaderIsPattern | http/http_parser.hpp:71 | A line is split into name and value iff it has the form of the header pattern with these groups |
| HttpRequests.MatchesField | http/http_parser.hpp:71 | Of well-formed fields the header pattern captures exactly those with a space behind the colon, with all other white space around the value; the value is the standard's iff that space is all there is |
| Http.VerbIsNamed | http/http_parser.hpp:206-220 | A token is taken for the method it names iff it is not a proper prefix or a continuation of POST or CONNECT |
| Http.QueriesOfText | http/http_parser.hpp:231-246 | A query written as key=value pairs is read back to its pairs, the first value of each key |
| Http.StoredIsFirst | http/http_parser.hpp:238 | Under each key the value of the first pair with that key is stored; what was there before stays |
| Http.StrtoulOfDecimal | http/http_parser.hpp:99 | A decimal Content-Length is read as its number, saturating at 64 bits |
| HttpRequests.StrtoulOfSigned | http/http_parser.hpp:99 | A sign in front is read; a minus sign negates modulo 2^64 |
| Http.HttpParser.ParseQueryKvPairs | http/http_parser.hpp:231-246 | The loop over the query ends and stores the first value of each key |
| Http.HttpParser.TryParseLine | http/http_parser.hpp:50-69 | One step from the line state, fields and consumption |
| Http.HttpParser.TryParseHeader | http/http_parser.hpp:70-95 | The loop over header lines: which are stored, how much is consumed, and the state it ends in |
| Http.HttpParser.TryParseBody | http/http_parser.hpp:96-104 | One step from the body state, for a body that is not multipart |
| Http.HttpParser.Feed | http/http_parser.hpp:26-49 | The do-while loop ends, in the parser and with the consumption that the chunking theorems speak about |
| Http.HttpParser.Clear | http/http_parser.hpp:260-268 | Everything but the version and the uploaded files is as new, field by field |
| Http.WebConnection.HandleRead | http/http_connection.hpp:21-79 | Unconsumed bytes stay in the receive buffer for the next call; a complete request is handed over and the parser cleared |

## Left out

- Duplication and reordering by the network: channels are FIFO and lossy, since both programs bind the loopback address. `Safety.StaleAckDropsEveryTimer` shows that the protocol does not tolerate reordered acknowledgements. Duplicates come from the timers.
- Real time: an outstanding timer may fire at any moment. The event loop and its timer containers are not part of this model; neither is fairness, so progress is stated as what can still happen.
- A second peer on the same socket, and datagrams that neither program sent, beyond what `Connections.Connection.HandleRead` says about any bytes.
- Window.SlideWindow.SetFlagIfValid: requires at most `b - w` bytes, which the programs guarantee by `MaxDataSize`; for longer segments the test itself is wrong (`Window.LongerSegmentsSlipThrough`).
- Window.SlideWindow.RecvAll: requires at most `b - w` unread bytes, which `Safety.NothingOverwritten` establishes for every reachable state. A ring cell that was never written reads as NUL in the specification.
- EchoProgress.EchoCompletes: is about what the client has sent; `EchoProgress.SucceedsIff` is about the rest of the file. These, `LostChunk.LosesIff` and `EchoProgress.ServerNeverStalls` require `d < w`, because a segment as large as the window can be refused for good (`Refinement.IdleAdmits`); the programs use 4096 and 10000.
- Packets.MsgPacket.Feed: takes `char` as signed, which the language leaves to the platform; it shows only on number fields with bytes over 127.
- Packets.ConvToString: requires a base above 0, by which the source divides.
- Packets.ValueOfDigits: requires a base up to 80, beyond which digits are not characters below 128; the packets use base 2.
- Copy and move operations of `SlideWindow`, `window_size`, and logging.
- Sha1.Hasher.GetDigest: counts bytes without wrapping at 2^64; the 32 bits of the count that are written are the same.
- Wide-character and random UUID generation, except for the marks the random generator sets; iterators and comparison of UUIDs.
- Uuids.NameGenerator.Generate: models names of single-byte characters.
- The dispatch of datagrams to peers, heartbeats, and dotted-address conversion in `p2p/`; numbers are little-endian, as on the hosts the code casts on.
- Http.HttpParser.TryParseBody: does not model multipart bodies, which the source splits into uploaded files when a body is complete.
- Http.HttpParser.Clear: does not model the list of uploaded files, which the source keeps.
- Http.WebConnection.HandleRead: does not model what becomes of a complete request: the response, keep-alive and closing.
- Buffers.BaseBuffer.RetrieveReadBytes: requires at most as many bytes as are unread; the source does not check, and beyond that its indices no longer describe a buffer.
- Header names keep only their lower-case form, as `ci_map` compares them, and `tolower` is that of the C locale.
- Transfer codings and folded header lines, of which the source knows nothing: a request is taken to announce its body with Content-Length.
- Http.HttpParser.ParseQueryKvPairs: a key that was moved from is taken to be empty, as it is in the common libraries.
- General regular expressions: the two patterns are modelled as the unique split that each of them allows on one line.
- Sockets, TLS, file sending, routing, cookies, sessions, the thread pool, and the TCP connection's send and close paths.
