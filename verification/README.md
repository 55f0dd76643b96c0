# Verification of the tunnelling stack

A Dafny model of the stack that carries many byte streams over one shared connection, and proofs about it.
`dafny verify dfyconfig.toml` checks the whole project.

The layers, bottom up, each with the modules that model it:

- **Connection** (`Stream`): `io.Reader` and `io.Writer`. A reader gets its bytes in pieces cut anywhere; `ReadFull`
  depends on the bytes only. `Bytes`, `Arrays` and `Search` hold big-endian fields, exclusive-or, `copy` and
  `bytes.Index`.
- **Frames** (`Encryption`, `Framing`, `Framers`, `FrameStream`, `Negotiation`): cipher feedback over an arbitrary
  block function, the f1 and WebSocket frame formats, the framers with their leftover buffer, and f1g's switch to a
  session key. `FrameStream` proves the leftover-buffer discipline once for any stable way of cutting frames;
  `Framing` shows that both formats are such ways.
- **Handshake** (`Handshake`, `Response`, `HeaderReading`): the exchange that agrees the frame key and the two
  incremental readers of HTTP heads.
- **Packets** (`Packets`, `Demux`, `ReceiveBuffer`, `TrunkRelay`): fragmentation and multiplexing, the server's and
  the client's demultiplexer, the growable receive buffers.
- **One trunk** (`Line`, `Books`, `Draining`, `Tunnel`, `Arrivals`, `Endings`, `Overflow`): both directions of a trunk as a step
  system over all of the above. Its steps are clients and instances writing, reading, opening, closing and ending, the
  write loops, frames going out, reads of any size, the trunk client's relay and its end, and the packet parser
  delivering. `Line` has the road that bytes take and one account per client, `Books` the invariant, `Draining` what
  carriers can still deliver on one line, and `Tunnel` puts the two directions together; `Tunnel.FullStack` is the
  end-to-end theorem. `Arrivals` says exactly when everything on a trunk can still arrive, `Endings` what reads, pings,
  closes and the end of a trunk bring about, and `Overflow` has runs in which its buffers are too small.
- **Messages** (`Messages`, `Codec`): the s1 codec.
- **Beside the stack**: the pool of shared clients (`Pool`, with scans and decisions as separate steps in
  `Decommission`) and the two-way relay (`Relay`).

Code that updates state is modelled by classes and methods, each proved against a function of the old state (for
instance `Framers.F1.Read` against `FrameStream.ReadStep`, `Packets.WritePacket` against `Packets.Fragments`,
`Demux.Server.Handle` against `Line.RouteServer`). The step systems and the theorems use those same functions.

## Results a reader may not expect

- The 8 MiB limit of a receive buffer does not bound it: every write of at most 4096 bytes to an open buffer is
  accepted (`ReceiveBuffer.SmallWritesAccepted`), and n of them make a buffer of 4096 n bytes, whatever n is
  (`ReceiveBuffer.SmallWritesFill`). The capacity passes 8 MiB exactly when it stands there and one write needs at most
  4096 bytes more (`ReceiveBuffer.CapacityExactly`). Which writes are accepted: `ReceiveBuffer.PushedExactly`.
- An instance or a divided client drops the buffer's write error, so a refused packet leaves a hole in its stream: a
  live and open buffer that was not opened in mid-stream conserves its client's bytes if and only if nothing has been
  refused (`Books.ConservedExactly`). A client that writes 129 times 64 KiB and a few bytes more, while nobody reads,
  gets there (`Overflow.RefusalHappens`). Which write is refused is a matter of sizes (`Line.RefusedExactly`), and an
  id that never has more than 8 MiB written and not yet read loses nothing (`Books.NeverRefused`,
  `Tunnel.ModestIsSpared`).
- The trunk client's relay, which puts what the framer delivers into a receive buffer, stops at the first refusal
  instead (`Line.StoppedExactly`). One loop serves both directions: when its reader has stopped it returns, and from
  then on nothing more is framed towards the server and nothing more is read from the buffer, though what has arrived
  stays in order (`Line.PullInOrder`). So packets get stuck in both directions: towards the server exactly if the loop
  has returned before everything was framed (`Arrivals.UpDrainsExactly`), towards the clients exactly if the relay has
  stopped before everything came, or the loop has returned before everything was read (`Arrivals.DownDrainsExactly`).
  Replies nobody fetches bring this about for a client that has done nothing wrong (`Overflow.MessagesGetStuck`). It
  cannot happen while the trunk client is not closed and at most 8 MiB are on their way to the clients
  (`Arrivals.RelayGoesOn`).
- A control packet comes back without its client id, so end-of-stream packets close nothing on the other side
  (`Line.DepositIsRoute`).
- Closing a client draws a serial like a write does. A client that is closed before its first write has its data
  dropped by the server, all of it (`Tunnel.WriteAfterCloseIsLost`). The first write draws the number of closes before
  it modulo 2^32 (`Books.FirstSerial`), and as long as no buffer has been opened in mid-stream a client's bytes reach
  the server exactly when that is 0 (`Books.ReachesExactly`). For a client that draws at most 2^32 serials, and where
  instances may end begins with a write of one fragment, that is always so (`Books.ReachesTamely`); after a full round
  of serials even a client that closed first can open a buffer, in mid-stream (`Demux.LateFragmentReopens`).
- When an instance has gone, a late fragment of its client's first write starts a second instance in the middle of
  the stream (`Demux.LateFragmentReopens`, `Demux.SecondFragmentStartsMidStream`). This cannot happen to a client that
  draws at most 2^32 serials and, where instances may end, whose first write fits one fragment
  (`Books.TameNeverReopens`).
- A shared client with traffic never leaves (`Decommission.BusyNeverLeaves`). One that has never moved data leaves as soon
  as it is the oldest and 120 seconds old, because its last data counts as time 0 (`Decommission.LeavesExactly`).
- Which shared client is picked depends on the map's iteration order exactly when none is connected and there are
  two or more (`Pool.ChoiceIsDetermined`).
- `ReadResponse` loses bytes that arrive in the same read as the end of the head. Nothing is lost exactly when some
  number of reads takes the head and not a byte more, for instance when nothing is sent behind the head before it has
  been read (`Response.LostNothingExactly`). Its answer is the same under every cutting exactly when there is room for
  every line (`Response.CuttingDoesNotMatter`). The theorems about a trunk begin behind the head. There is
  nothing to lose then: until a first frame has come up, the server sends nothing (`Tunnel.ServerIsSilent`).
- `PeekHeader` searches the whole array. What it finds is in the data exactly when it ends there
  (`HeaderReading.SearchIsRight`), which on a reader nothing was read from it always does; a head that has been read
  is found again (`HeaderReading.ConsumedHeadIsFoundAgain`).
- `f1` and s1 cut lengths to 32 bits on writing; round trips hold exactly below 2^32 (`Framing.F1RoundTripExactly`,
  `Messages.RoundTripExactly`), and data packets are accepted exactly when the id has at most 1008 bytes
  (`Packets.DataAcceptedExactly`).

## Assumptions

- The block cipher is an arbitrary function of key and block. Padding, IVs, masks, nonces and session keys are
  arbitrary inputs.
- base64 is any pair of functions that round-trips, with four characters of its alphabet for every three bytes
  (`Handshake.Lawful`). JSON bodies are any pair of functions; round trips of JSON-bodied messages ask that
  unmarshalling what was marshalled gives the message (`Messages.Faithful`), and statements about whatever is accepted
  ask that it fills the struct of the kind it was given (`Messages.Kinded`).
- The JSON meta of a packet is the literal text around an id of letters and digits, which is what the id generator
  produces (`Packets.EncodeAsASCII`). The reader's JSON parser is modelled on such texts only; anything else is
  malformed.
- Header names are changed by an arbitrary function `canon`, in place of `net/http`'s canonicalisation. Spaces are
  trimmed as ASCII white space.
- Each client writes and closes sequentially: drawing a serial and queueing the packet for the trunk is one step. The
  order in which different clients get the trunk's lock is arbitrary.
- A client id is opened once.
- `int` has 64 bits. Conversions to 32 bits truncate, and the difference of two 64-bit times wraps.

## Model

| member | source | states |
|---|---|---|
| Bytes.XorByteBits | transport/framer/f1/encrypt.go:66-69 | each of the eight bits of an exclusive-or is set if and only if exactly one of the two bytes has it set |
| Bytes.XorByteWithNothing | transport/framer/ws/ws.go:123-127 | exclusive-or with zero changes nothing, with itself leaves zero |
| Bytes.XorOverBits | transport/framer/f1/encrypt.go:52-72 | bit for bit, one string laid over another, which stays as it is where the first has ended |
| Bytes.PutBEDigit | message/codec/s1/writer.go:93-94 | byte i of an n-byte field counts the 256 to the (n-1-i)s: most significant first |
| Stream.ByteStream.ReadFull | transport/framer/f1/f1.go:63-75 | what ReadFull returns and leaves is a function of the remaining bytes, however they are cut into reads |
| Stream.ReadSplits | utils/proxy.go:53-59 | one Read takes a non-overlapping front of what is there; with what it leaves it is the whole |
| Encryption.CfbRoundTrip | transport/framer/f1/encrypt.go:31-47 | decryption undoes encryption for every block function, key, IV and length, including a partial last block |
| Encryption.CfbMode | transport/framer/f1/encrypt.go:25-32 | every ciphertext block is its plaintext block under the encryption of the ciphertext block before it (NIST SP 800-38A, section 6.3) |
| Encryption.CfbInverseMode | transport/framer/f1/encrypt.go:43-47 | the inverse: every plaintext block from its ciphertext block and the one before |
| Encryption.OpenedSealed | transport/framer/f1/encrypt.go:19-50 | Decrypt of Encrypt under a key of a legal size is the data |
| Encryption.Encrypt | transport/framer/f1/encrypt.go:19-35 | the in-place block loop produces the IV and the recursive cipher-feedback text, 16 bytes longer than the data; a key of another size is an error |
| Encryption.Decrypt | transport/framer/f1/encrypt.go:37-50 | the in-place loop computes the recursive decryption; bad keys are errors, input without an IV panics |
| Encryption.MixedCommutes | transport/framer/f1/encrypt.go:52-72 | mixing two keys of any lengths gives the same bytes in either order |
| Encryption.MixedAt | transport/framer/f1/encrypt.go:52-72 | byte by byte: exclusive-or where both strings have a byte, the longer one's byte behind |
| Encryption.Xor | transport/framer/f1/encrypt.go:52-72 | the in-place loop over the joined buffer gives the longer string with the shorter laid over it |
| Encryption.CyclicIsModulo | transport/framer/f1/f1.go:157-163 | byte i of the stretched key is psk[i mod len] |
| Encryption.StretchedAt | transport/framer/f1/f1.go:154-163 | so is byte i of the 16-byte key, for every non-empty psk |
| Encryption.Stretch | transport/framer/f1/f1.go:154-163 | cutting or stretching any non-empty key gives the 16 bytes of its cyclic repetition |
| Encryption.SetUpKey | transport/framer/f1/f1.go:147-169 | the key is the stretched key with the big-endian timestamp over its first 8 bytes; an empty key panics |
| FrameStream.ReadConserves | transport/framer/f1/f1.go:47-93 | a successful Read of any size hands out exactly the next bytes of leftover and frames, and keeps the rest |
| FrameStream.ReadShrinks | transport/framer/f1/f1.go:47-93 | a Read into a non-empty buffer always uses something up, so loops over it end |
| FrameStream.StreamConserved | transport/framer/ws/ws.go:60-198 | after every interleaving of writes and reads, bytes read, leftover and unread frames spell what was written |
| FrameStream.HistoryIsRight | transport/framer/f1/f1.go:95-132 | what counts as written on a run is what its writes have written |
| FrameStream.ReadGetsOn | transport/framer/f1/f1.go:47-93 | until everything written has been read, a read with room uses something up |
| FrameStream.BlockedMeansDrained | transport/framer/ws/ws.go:60-142 | on such a run a Read fails to deliver exactly when everything written has been read |
| Framing.F1RoundTrip | transport/framer/f1/f1.go:47-132 | an f1 frame is read back for every padding and IV, and what follows stays |
| Framing.F1RoundTripExactly | transport/framer/f1/f1.go:68-132 | it is read back if and only if IV, data and padding fit the 32-bit size field |
| Framing.F1Format | transport/framer/f1/f1.go:108-131 | an f1 frame is two zero bytes, the size of the sealed text, the size of the padding, the IV, then data and padding in cipher feedback |
| Framing.F1AcceptedExactly | transport/framer/f1/f1.go:63-82 | an f1 reader takes a frame if and only if the text of the announced size is there, holds IV and padding, and the key has a legal size; it uses up exactly that |
| Framing.WsRoundTrip | transport/framer/ws/ws.go:60-198 | a WebSocket frame of either role is read back by the other role, for every IV and mask and all three length forms |
| Framing.WsHeaderFormat | transport/framer/ws/ws.go:154-181 | FIN, opcode 2, mask bit by role, and the shortest length form that can carry the length (RFC 6455, section 5.2) |
| Framing.WsPayloadFormat | transport/framer/ws/ws.go:183-194 | the mask stands before the payload and byte i is masked by mask byte i mod 4 (RFC 6455, section 5.3) |
| Framing.WsAcceptedExactly | transport/framer/ws/ws.go:76-132 | a WebSocket reader takes a frame if and only if it is final and binary, masked exactly by a client, whole, with an IV in it, under a key of legal size; it uses up exactly that |
| Framing.MaskedTwice | transport/framer/ws/ws.go:123-127 | masking undoes itself |
| Framing.FrameRoundTrip | transport/framer/ws/ws.go:60-198 | what either framer writes as one frame its counterpart reads as that frame, leaving what follows |
| Framing.NextExtends | transport/framer/ws/ws.go:76-132 | a complete frame reads the same whatever has arrived behind it |
| Framing.DeframingIsStable | transport/framer/f1/f1.go:63-82 | both formats cut frames in the way the stream theorem needs |
| Framing.FramerStream | transport/framer/f1/f1.go:47-132 | the stream theorem for both formats: any writes of one role, any read sizes at the other, any padding, IV and mask |
| Framers.Leftover.Append | transport/framer/f1/f1.go:33-45 | the leftover grows by exactly the new bytes, in the old array if they fit |
| Framers.Leftover.Take | transport/framer/f1/f1.go:52-60 | the caller gets the front of the leftover, the rest moves to the front, nothing else changes |
| Framers.F1.ReadFrame | transport/framer/f1/f1.go:63-82 | reads one frame as the format function says, with its errors, and leaves the rest unread |
| Framers.F1.Read | transport/framer/f1/f1.go:47-93 | bytes delivered, leftover, unread bytes and error are those of the stream's read step, for every buffer size |
| Framers.F1.Write | transport/framer/f1/f1.go:95-132 | one Write call with one well-formed frame, the padding chosen as allowed; a bad key writes nothing |
| Framers.PadSize | transport/framer/f1/f1.go:99-107 | 2 to 255 bytes of padding for data below 256 bytes, as many as the random byte says unless it is below 2; otherwise 2 |
| Framers.MaskInPlace | transport/framer/ws/ws.go:123-127 | the in-place loop masks every byte |
| Framers.Ws.ReadBody | transport/framer/ws/ws.go:88-132 | length form, role check, mask and payload as the format function says, in that order |
| Framers.Ws.Read | transport/framer/ws/ws.go:60-142 | bytes delivered, leftover, unread bytes and error are those of the stream's read step |
| Framers.Ws.Write | transport/framer/ws/ws.go:144-198 | one Write call with one well-formed frame in the role's form |
| Negotiation.F1g.Offer | transport/framer/f1g/f1g.go:40-76 | the server writes nonce and key as one frame under the old key and then uses the new one; a failure ends the framer |
| Negotiation.F1g.Accept | transport/framer/f1g/f1g.go:77-105 | the client takes the second half of the first 32 bytes as its key; a failed read is the end |
| Negotiation.F1g.ReadFull | transport/framer/f1g/f1g.go:80-85 | ReadFull over the framer is the repeated read step |
| Negotiation.F1g.Read | transport/framer/f1g/f1g.go:108-113 | after a failed exchange the end, otherwise the inner read step |
| Negotiation.F1g.Write | transport/framer/f1g/f1g.go:115-120 | after a failed exchange the end, otherwise one inner frame |
| Negotiation.KeyFrameFits | transport/framer/f1g/f1g.go:80-89 | the key frame is read whole by one read and leaves nothing in the leftover buffer |
| Negotiation.StepKeepsInv | transport/framer/f1g/f1g.go:28-139 | every step of either party keeps: old-key offer first, session-key frames behind it, both streams conserved |
| Negotiation.KeySwitch | transport/framer/f1g/f1g.go:28-139 | in every interleaving each frame is read under the key it was written with, though the server switches first |
| Negotiation.OfferIsMade | transport/framer/f1g/f1g.go:40-76 | only a new server makes an offer, and the key it offers is the session key |
| Negotiation.NegotiationCompletes | transport/framer/f1g/f1g.go:28-105 | from every reachable state in which the offer has been made, the server's switch and the client's read bring both ends to the session key |
| Negotiation.TrafficGoes | transport/framer/f1g/f1g.go:108-120 | from then on writes join their direction and reads get on until all has been read |
| Negotiation.BothWaysInOrder | transport/framer/f1g/f1g.go:108-120 | afterwards what either end has read is a prefix of what the other wrote |
| Messages.TaggedRoundTrip | message/codec/s1/writer.go:37-59 | a tagged string or byte field is read back, leaving what follows |
| Messages.TaggedNormal | message/codec/s1/reader.go:33-63 | whatever is accepted as a tagged field is that value's own encoding |
| Messages.AddressesRoundTrip | message/codec/s1/reader.go:131-138 | a list of addresses is read back, leaving what follows |
| Messages.TaggedFormat | message/codec/s1/writer.go:37-59 | a tagged field is tag, four-byte big-endian length, content |
| Messages.MessageFormat | message/codec/s1/writer.go:86-153 | a message is its kind's number, seven zero bytes, id, ack (0 for requests), body size, body |
| Messages.BodyFormat | message/codec/s1/writer.go:109-145 | a data body is connection, then bytes; a DNS result's is array header, addresses, error |
| Messages.AcceptedIsStamped | message/codec/s1/reader.go:65-174 | whatever is accepted has the kind and the id of its header, its ack unless it is a request, the content the JSON library decoded, and uses up exactly header and body |
| Messages.MessageRoundTrip | message/codec/s1/writer.go:86-153 | every message with a body below 4 GiB is read back whole, leaving what follows, if JSON brings back what it marshals |
| Messages.AcceptedBody | message/codec/s1/reader.go:126-165 | an accepted DNS-result or data body begins with the canonical body of its message; n addresses need 10+5n bytes |
| Messages.NormalForm | message/codec/s1/reader.go:65-165 | whatever is accepted as such a message, rewriting and rereading gives the same message in no more bytes |
| Messages.RoundTripExactly | message/codec/s1/writer.go:109-145 | such a message is read back if and only if its body is below 2^32 bytes |
| Messages.SequenceRoundTrip | message/codec/s1/reader.go:65-174 | any list of messages followed by anything is read back, leaving exactly what followed |
| Messages.PrefixFree | message/codec/s1/writer.go:86-153 | no encoding is a proper prefix of another message's encoding |
| Messages.CutShort | message/codec/s1/reader.go:65-97 | a message cut short is waited for, never misread |
| Messages.ReceivedPrefix | message/codec/s1/reader.go:65-174 | from any prefix of the encodings the reader has got a prefix of the messages, from all of them all |
| Codec.Writer.WriteMany | message/codec/s1/writer.go:17-35 | the copying loop makes one Write call with the concatenation |
| Codec.Writer.Write | message/codec/s1/writer.go:86-153 | a message is one Write call with its encoding |
| Codec.ResultDnsBody | message/codec/s1/writer.go:109-125 | the loop writes array header, addresses in order, error text |
| Codec.Reader.ReadTagged | message/codec/s1/reader.go:33-63 | value, error and what is left unread are those of the field parser |
| Codec.Reader.ReadArrayHeader | message/codec/s1/reader.go:21-31 | accepts exactly tag 'a' and five bytes, giving the 32-bit count |
| Codec.Reader.ReadAddresses | message/codec/s1/reader.go:131-138 | the loop reads exactly n addresses in order or stops with the first error |
| Codec.Reader.ReadMessage | message/codec/s1/reader.go:65-174 | message, error and what is left unread are those of the message parser, for every cutting into reads |
| Packets.EncodeAsASCII | utils/rand.go:19-32 | generated ids have one letter or digit for every byte |
| Packets.MetaRoundTrip | transport/h1pool/packet.go:114-121 | the meta text gives back every plain id |
| Packets.MetaExactly | transport/h1pool/packet.go:63-75 | a meta is read as an id if and only if it is that id's meta |
| Packets.FragmentsKeep | transport/h1pool/packet.go:123-157 | max(1, ceil(n/131072)) fragments whose data is the packet's data |
| Packets.FragmentsAlike | transport/h1pool/packet.go:134-140 | every fragment has the packet's id, serial and op and at most 131072 bytes |
| Packets.WritePacket | transport/h1pool/packet.go:113-160 | the loop ends after writing head, meta and data of every fragment in order |
| Packets.ReadAnyPacket | transport/h1pool/packet.go:43-100 | packet, error and what is left unread are those of the parser, with all six refusals |
| Packets.PacketRoundTrip | transport/h1pool/packet.go:43-160 | a fragment is read back, control packets without their id, and what follows stays |
| Packets.DataAcceptedExactly | transport/h1pool/packet.go:63-75 | a data fragment is accepted if and only if its id has at most 1008 bytes |
| Packets.AcceptedExactly | transport/h1pool/packet.go:43-100 | bytes are read as a packet if and only if magic, op and sizes are right, all is there, and the meta is empty or an id's; op, serial, id and data are then those of the bytes |
| Packets.FragmentedRoundTrip | transport/h1pool/packet.go:43-160 | a packet of any length crosses in that many reads and its data comes together again |
| Packets.ReadExtends | transport/h1pool/packet.go:43-100 | a complete packet reads the same whatever has arrived behind it |
| Packets.CutShort | transport/h1pool/packet.go:43-100 | a packet cut short is waited for, never refused |
| ReceiveBuffer.GrowExactly | utils/buffer.go:93-105 | the growth loop finds the least sufficient capacity, and fails exactly when both its start and 8 MiB are too small |
| ReceiveBuffer.PushedExactly | utils/buffer.go:84-116 | a write appends all or changes nothing; an open buffer refuses exactly past both cap+4096 and 8 MiB |
| ReceiveBuffer.SmallWritesAccepted | utils/buffer.go:93-105 | writes of at most 4096 bytes are always accepted, whatever the capacity has grown to |
| ReceiveBuffer.CapacityExactly | utils/buffer.go:93-105 | the capacity passes 8 MiB if and only if it had, or an open buffer of exactly 8 MiB needs at most 4096 bytes more |
| ReceiveBuffer.SmallWritesFill | utils/buffer.go:93-111 | n writes of 4096 bytes make length and capacity 4096 n, for every n |
| ReceiveBuffer.FindCapacity | utils/buffer.go:95-105 | the loop computes that capacity |
| ReceiveBuffer.PoppedExactly | utils/buffer.go:61-82 | a read gets as many bytes as there are and fit, from the front; the end is reported if and only if a closed buffer is empty, a wait if and only if an open one is |
| ReceiveBuffer.ReadWriteBuffer.Write | utils/buffer.go:84-116 | result, contents, capacity and closed flag are those of the queue's push |
| ReceiveBuffer.ReadWriteBuffer.ReadFromBuf | utils/buffer.go:42-59 | the front goes to the caller, the rest moves up, capacity stays |
| ReceiveBuffer.ReadWriteBuffer.Read | utils/buffer.go:61-82 | result and contents are those of the queue's pop; where it would wait it says so |
| ReceiveBuffer.ReadWriteBuffer.Close | utils/buffer.go:35-40 | the buffer is closed and keeps its contents; a second close is reported |
| ReceiveBuffer.BufferIsFifo | utils/buffer.go:35-116 | over every run of writes, reads and closes, bytes handed out and held are the bytes accepted, in order |
| ReceiveBuffer.EndMeansDrained | utils/buffer.go:61-72 | the end is reported only after everything accepted has been handed out, and stays |
| ReceiveBuffer.EndExactly | utils/buffer.go:61-72 | over every run, the end is reported if and only if the buffer was closed and everything accepted has been handed out |
| Line.DepositIsRoute | transport/h1pool/server.go:217-257 | the accounts of a line change as the demultiplexers change their buffers: control packets change none, a data packet only its own client's |
| Line.RefusedExactly | utils/buffer.go:92-105 | data is refused exactly when an open buffer would pass both its capacity plus 4096 and 8 MiB, or a first packet 8 MiB |
| Line.StoppedExactly | transport/h1/client.go:257-260 | the relay stops if and only if its buffer would pass both its capacity plus 4096 and 8 MiB |
| Line.PayloadOfPacket | transport/h1pool/packet.go:123-157 | fragmenting gives every client the packet's data if it is its own and nothing otherwise |
| Line.EnqueueInOrder | transport/h1pool/client.go:197-212 | a new packet joins the end of everything on its way |
| Line.RelayInOrder | transport/h1/client.go:257-265 | putting the next piece into a frame moves no byte past another |
| Line.PullInOrder | transport/h1/client.go:244-262 | a read of any size moves bytes to the parser, or into the trunk client's receive buffer, in order; a refusal stops the relay and loses only what comes last |
| Line.FetchInOrder | transport/h1/client.go:290-296 | a read of any size from the receive buffer keeps the order |
| Line.DeliverInOrder | transport/h1pool/server.go:210-215 | the packet the parser completes is the oldest fragment on its way |
| Books.DeliverKeepsBooks | transport/h1pool/server.go:226-257 | a delivery is booked to the fragment's client and to no other |
| Books.SendKeepsBooks | transport/h1pool/client.go:317-330 | a write is booked to its client, and the serials that open buffers stay in order |
| Books.EosKeepsBooks | transport/h1pool/client.go:287-302 | a close draws a serial and changes no stream |
| Books.TakeKeepsBooks | transport/h1pool/server.go:113-117 | a read moves bytes of one client from buffered to read, also after its buffer has left the map |
| Books.StepKeepsInv | transport/h1pool/server.go:208-258 | every step keeps the order on the wire and the books of every client |
| Books.RunKeepsInv | transport/h1pool/server.go:208-258 | in every reachable state, per client: written is read, then buffered, then in flight; or all of it is lost; once data was refused some byte is missing for good; only a buffer opened in mid-stream is outside |
| Books.ConservedExactly | transport/h1pool/server.go:109-117 | for a live, open buffer not opened in mid-stream, read, buffered and in flight spell what was written if and only if nothing was refused |
| Books.FirstSerial | transport/h1pool/client.go:287-330 | the first write draws the number of closes before it modulo 2^32 |
| Books.OpeningStays | transport/h1pool/client.go:317-330 | and that stays the serial of the first write |
| Books.ReachesExactly | transport/h1pool/server.go:247-257 | while no buffer was opened in mid-stream, a client's bytes reach the server if and only if its first write drew serial 0 |
| Books.ReachesTamely | transport/h1pool/server.go:247-257 | so for at most 2^32 serials and, where instances end, a first write of one fragment |
| Books.TameNeverReopens | transport/h1pool/server.go:247-257 | no buffer opens in mid-stream while at most 2^32 serials are drawn and, where instances end, the first write fits one fragment |
| Books.NeverRefused | utils/buffer.go:84-108 | an id with at most 8 MiB written and unread at any time is never refused |
| Books.NeverStops | transport/h1/client.go:244-262 | the relay of a line does not stop while at most 8 MiB are on the road |
| Draining.NextStepWorks | transport/h1pool/packet.go:123-157 | while anything is in flight on a line that can finish, the next carrier step is possible, brings the road closer to empty, stops no relay and frames nothing when all has been framed |
| Draining.Drain | transport/h1pool/packet.go:123-157 | from every reachable state of a line that can finish, finitely many carrier steps deliver every fragment, without the write loop if all has been framed and without a reader if all has been read |
| Draining.GoDelivers | transport/h1pool/server.go:226-257 | carriers that empty the road bring each client its own fragments in order and nothing else |
| Draining.EverythingArrives | transport/h1pool/server.go:208-258 | and all that a whole and open stream holds is then read or in its buffer |
| Tunnel.TrunkConserves | transport/h1pool/client.go:114-153 | the same for both directions of a trunk, with the relay on the way down, pings answered, and clients and instances closing, ending and still writing at any time |
| Tunnel.ReadIsPrefix | transport/h1pool/server.go:113-117 | what has been read is a prefix of what was written, unless data was refused or a buffer opened in mid-stream |
| Tunnel.DrainedMeansAll | transport/h1pool/server.go:109-117 | with nothing in flight or buffered, everything written has been read |
| Tunnel.ParserNeverRefuses | transport/h1pool/packet.go:43-100 | in no reachable state does the packet parser meet anything but complete packets and unfinished ones |
| Tunnel.ModestIsSpared | utils/buffer.go:84-108 | over every run of a trunk, an id with at most 8 MiB outstanding in each direction loses nothing to a full buffer |
| Tunnel.ModestAndTameIsWhole | transport/h1pool/server.go:247-257 | if also its serials do not wrap and its first write fits one fragment, where that matters, its streams are whole |
| Tunnel.WriteAfterCloseIsLost | transport/h1pool/client.go:287-330 | open, close, write: end-of-stream goes out with serial 0, the data with serial 1, and the server drops it |
| Tunnel.RepliesHaveOwners | transport/h1pool/server.go:119-138 | an instance's client, ended or not, has been opened, so its reply belongs to a known client |
| Tunnel.EveryFrameRelays | transport/framer/f1/f1.go:95-132 | in every reachable state each waiting piece fits a frame of either format, whatever is drawn at random |
| Tunnel.MessagesArriveInOrder | message/codec/s1/reader.go:65-174 | the messages read out of a buffer are a prefix of those written, and all of them once drained |
| Tunnel.FullStack | transport/h1pool/server.go:208-258 | end to end, either format, any number of clients: in every reachable state each side has read a prefix of the messages the other wrote, if the stream is whole |
| Tunnel.FullStackForModest | transport/h1pool/server.go:208-258 | the same under conditions a caller controls: 8 MiB outstanding, 2^32 serials, a first write of one fragment |
| Tunnel.ServerIsSilent | transport/h1pool/server.go:208-258 | until a first frame has gone up, the server has sent nothing and no instance exists |
| Tunnel.HandshakeThenMessages | transport/h1/server.go:196-213 | from the first byte on: an accepted handshake, its head read in any pieces and nothing lost behind it, gives both ends framers under which every frame of both directions can be relayed and both sides read prefixes of what the other wrote |
| Arrivals.UpDrainsExactly | transport/h1/client.go:264-287 | carriers can still bring everything to the server if and only if the relay loop has not returned, or had framed everything |
| Arrivals.DownDrainsExactly | transport/h1/client.go:244-296 | carriers can still bring everything to the clients if and only if the relay has not stopped or all has come to its buffer, and its loop has not returned or all has been read |
| Arrivals.AllMessagesArrive | transport/h1pool/server.go:208-258 | from every reachable state that allows it, some run of carriers brings all messages of a healthy client to its instance's buffer |
| Arrivals.AllRepliesArrive | transport/h1pool/client.go:114-153 | and all messages of an instance to its client's |
| Endings.AllMessagesRead | transport/h1pool/server.go:113-117 | and one read later the instance has got all those messages |
| Endings.AllRepliesRead | transport/h1pool/client.go:309-315 | or the client all those replies |
| Endings.PingIsSent | transport/h1pool/client.go:178-188 | a ping goes out as long as the relay loop has not returned |
| Endings.PingsAreAnswered | transport/h1pool/server.go:217-224 | of the packets that come to the server exactly the pings are answered, each by one pong |
| Endings.ClosedForGood | transport/h1pool/client.go:287-302 | over every continuation, what a closed client has read and can still read is what it had read and buffered when it closed |
| Endings.InstanceEnds | transport/h1pool/server.go:57-90 | an ending instance takes its buffer along as it is, and an end-of-stream packet goes out exactly if its handler ended it |
| Endings.InstanceCloses | transport/h1pool/server.go:140-146 | a closed instance keeps what its buffer holds and gets nothing more |
| Endings.ClosingStrands | transport/h1pool/client.go:99-105 | when the trunk client is closed, what has not been framed stays behind for good |
| Arrivals.LinesOfTrunk | transport/h1pool/client.go:114-153 | each direction of a trunk run is a run of its line, so that the theorems about lines hold on trunks |
| Arrivals.RelayGoesOn | transport/h1/client.go:244-287 | over every run of a trunk whose client is not closed, with at most 8 MiB on the way down, the relay goes on and everything can still arrive both ways |
| Overflow.RefusalHappens | transport/h1pool/server.go:109-111 | 129 writes of 64 KiB and a small one, nobody reading: however the line is carried, in the end the buffer has a hole in front of the last bytes |
| Overflow.RefusalIsReached | transport/h1pool/server.go:208-258 | there are carriers that get there |
| Overflow.RelayEnds | transport/h1/client.go:244-287 | from every reachable state with a running relay and a clear road, enough unfetched replies of 64 KiB end the relay loop and leave the other direction as it was |
| Overflow.MessagesGetStuck | transport/h1/client.go:264-302 | a run in which a healthy client's message gets stuck: no carriers bring it to the server any more |
| Demux.Server.Handle | transport/h1pool/server.go:210-257 | one packet changes the instances' buffers as the routing function says; a ping puts a pong into the reply channel |
| Demux.Server.End | transport/h1pool/server.go:57-90 | an ending instance leaves the map, the others' buffers stay, and an end-of-stream packet is queued if the server ended it |
| Demux.Server.Reply | transport/h1pool/server.go:119-138 | a reply is queued as the data packet the line gives an instance, with serial 0 |
| Demux.GetReplyChannel | transport/h1pool/server.go:92-107 | a newest channel of the instance's own trunk, none exactly when it has none, in any visiting order |
| Demux.EosEndsItsOwn | transport/h1pool/server.go:226-234 | an end-of-stream packet that names a client closes its instance's buffer and removes the divided client, and changes nothing else |
| Demux.OthersAreLeftAlone | transport/h1pool/client.go:117-151 | no packet touches another client's buffer |
| Demux.Client.Handle | transport/h1pool/client.go:117-151 | one packet changes the divided clients' buffers as the routing function says |
| Demux.Client.Open | transport/h1pool/client.go:415-428 | a new client has an empty open buffer and a new account; the others stay |
| Demux.Client.Write | transport/h1pool/client.go:317-330 | the packet and the account of the line's Send step, though the counter is 32 bits wide and wraps |
| Demux.Client.Close | transport/h1pool/client.go:287-302 | the buffer ends, the client is forgotten, packet and account are those of the line's Eos step; a second close finds no buffer but draws and writes once more |
| Demux.CounterIsLines | transport/h1pool/client.go:287-330 | in every state the methods keep, a divided client's counter stands at the serial the line gives its next packet |
| Demux.CounterAfter | transport/h1pool/client.go:294-324 | after k draws, by writes or closes, the wrapping counter stands at k modulo 2^32 |
| Demux.LateFragmentReopens | transport/h1pool/server.go:247-257 | once the instance has gone, a fragment of a write that drew after k others opens a new one if and only if k is a multiple of 2^32 |
| Demux.SecondFragmentStartsMidStream | transport/h1pool/server.go:250-256 | a first write of two fragments, the instance gone between them: the new buffer starts at byte 131072 |
| Demux.RefusalTears | transport/h1pool/server.go:109-111 | for every buffer: after a refused write a small one is accepted, and the buffer holds no prefix of what was sent (a run that gets there: Overflow.RefusalHappens) |
| TrunkRelay.RelayIn | transport/h1/client.go:244-262 | over either framer, one round is the line's Pull: one read goes into the receive buffer, and any error, including a refusal, stops it |
| TrunkRelay.RelayOut | transport/h1/client.go:267-280 | over either framer, a chunk becomes one frame, an empty one none |
| TrunkRelay.RelayConserves | transport/h1/client.go:233-288 | in every run of a line, parser and buffer hold a front of what is in flight, and until the relay stops nothing is missing |
| Pool.OldestIsUnique | transport/h1pool/client.go:25-42 | among spaced clients exactly the oldest takes itself for the oldest, in every visiting order |
| Pool.PickedIsNewest | transport/h1pool/client.go:236-260 | with a connected client the newest connected one is picked, in every visiting order |
| Pool.PickedIsFirst | transport/h1pool/client.go:236-260 | with none connected the first one visited is picked |
| Pool.ChoiceIsDetermined | transport/h1pool/client.go:236-260 | the choice is independent of the visiting order if and only if one is connected or there is at most one |
| Pool.SharedClients.QueryClientInfo | transport/h1pool/client.go:25-42 | the Range loop counts the pool and tells whether the client is the oldest |
| Pool.SharedClients.GetAvailable | transport/h1pool/client.go:236-260 | the Range loop returns a newest connected client if there is one, and some client unless the pool is empty |
| Pool.SharedClients.TryAdd | transport/h1pool/client.go:336-373 | adds exactly when there are fewer than 5 and none is younger than 300 seconds, and keeps the spacing |
| Pool.SharedClients.Remove | transport/h1pool/client.go:94-94 | removing a client keeps size and spacing |
| Pool.SharedClients.SetConnected | transport/h1/client.go:219-219 | connecting keeps size and spacing of the pool and changes no creation time |
| Decommission.StepKeepsInv | transport/h1pool/client.go:155-195 | every step of scans, decisions, removals and additions keeps the pool's invariant |
| Decommission.VerdictIsRight | transport/h1pool/client.go:25-42 | a client that has met nobody older is the oldest, though its scan saw no snapshot |
| Decommission.PoolSpacing | transport/h1pool/client.go:336-373 | in every run at most 5 shared clients, any two created at least 300 seconds apart |
| Decommission.OneLeavesAtATime | transport/h1pool/client.go:169-177 | at most one client lies between its decision to leave and its removal, and it is the oldest |
| Decommission.LeavesExactly | transport/h1pool/client.go:169-177 | a client decides to leave if and only if its scan ends with itself the oldest met and it has been idle for long, or for a while with another one met; otherwise it runs on |
| Decommission.ScanBegan | transport/h1pool/client.go:169-172 | every scan began when its client was 120 seconds old, and its idleness is what was so then: more than 30 or 60 seconds since it moved data |
| Decommission.BusyNeverLeaves | transport/h1pool/client.go:169-177 | over every run, a client that has moved data within 30 seconds whenever it looks never leaves |
| Decommission.MembersExactly | transport/h1pool/client.go:336-373 | a client comes if and only if an adder that has met fewer than five and none below 300 seconds ends, and goes if and only if it is removed |
| Decommission.TimesExactly | transport/h1pool/client.go:117-125 | clock, last data and an adder's start are noted as they happen |
| Decommission.GoingGoes | transport/h1pool/client.go:94-103 | who has decided to leave or failed goes by its own removal and by nothing else |
| Response.StatusRead | http/response.go:17-31 | the status is the decimal text between the first two spaces of the response line |
| Response.FieldRead | http/response.go:33-43 | a header line gives name and value around its first colon, trimmed |
| Response.TrimExactly | http/response.go:40-41 | trimming takes the white space off both ends and nothing else |
| Response.AtoiRead | http/response.go:25-28 | a decimal text is read as its number if and only if that is below 2^63 |
| Response.ReadResponse | http/response.go:45-95 | answer and unread pieces are those of the reading function, for every sequence of pieces |
| Response.ReadOnce | http/response.go:53-60 | one read of at most 1024 bytes behind the unfinished line, then the lines it completes; end of stream and a full buffer are errors |
| Response.TakeLines | http/response.go:62-92 | the inner loop in place takes complete lines off the front until none is left, the head ends or a line is illegal |
| Response.LinesKeepParse | http/response.go:62-92 | taking lines early changes neither the answer nor what follows the head |
| Response.ReadIsParse | http/response.go:45-95 | with room for every line the answer is that of the line-by-line parse for every cutting; fewer than 1024 bytes behind the head are lost, the rest is still unread |
| Response.SomeCuttingOverflows | http/response.go:56-58 | without that room some cutting into pieces ends in a short buffer |
| Response.CuttingDoesNotMatter | http/response.go:45-95 | the answer is that of the whole-stream parse under every cutting if and only if there is room for every line the parse gets to |
| Response.ShortLinesFit | http/response.go:47-58 | lines of at most 15359 bytes always have that room |
| Response.ShortLinesAreRead | http/response.go:45-95 | heads of such lines are read the same however they are cut |
| Response.LostIsInLastRead | http/response.go:53-92 | an answer has used up a first part of the stream, and what is lost came with its last read |
| Response.LostNothingExactly | http/response.go:53-92 | nothing behind the head is lost if and only if some number of reads takes the head and not a byte more; never when nothing follows |
| Response.RoomyLostNothingExactly | http/response.go:45-95 | the same for every stream whose lines have room and that parses, whatever the cutting |
| Response.RestOfReadIsLost | http/response.go:59-92 | for instance, when head and more come in one read, nothing of the rest is left to read |
| Response.RoomForOneRead | http/response.go:56-58 | with that room no read overflows the line buffer |
| Search.IndexIsFirst | http/response.go:63-66 | the index is that of the first occurrence, none exactly when there is none |
| Search.IndexExtends | http/http.go:51-59 | an occurrence found early stays the first one |
| Search.IndexBehind | http/http.go:51-59 | an occurrence not found early ends in what came later |
| HeaderReading.SizeFor | http/http.go:31-39 | the growth loop leaves 2048 bytes free or stops within 2048 bytes of 16 KiB |
| HeaderReading.ZerosDoNotMatter | http/http.go:51-51 | searching the whole array of a fresh reader finds what searching the data finds |
| HeaderReading.HeaderReader.ReadMore | http/http.go:30-46 | bytes read are appended, none is lost; it gives up only with more than 14336 bytes buffered |
| HeaderReading.SearchIsRight | http/http.go:51-51 | searching the whole array finds what searching the data finds if and only if the first separator in the array, if any, ends within the data |
| HeaderReading.HeaderReader.PeekHeader | http/http.go:48-68 | on any reader: it ends, consumes nothing, and gives what stands before the first empty line in the array; that is the stream's exactly when it ends within the data, as on a fresh reader it always does; a line that ends in the first 14337 bytes is found for any cutting, and a short buffer is reported only past 14336 bytes without one |
| HeaderReading.HeaderReader.Read | http/http.go:70-83 | what Read hands out and what remains is what remained before; the array keeps what lies behind the shifted data |
| HeaderReading.ShortHeadIsFound | http/http.go:33-35 | until a head that ends in the first 14337 bytes is found there is room for more and more to come |
| HeaderReading.ConsumedHeadIsFoundAgain | http/http.go:48-83 | Read of a whole head followed by PeekHeader gives that head again, though nothing is buffered and nothing was read from the connection |
| Handshake.AuthFieldFits | transport/h1/server.go:109-113 | an honest auth field has 56 characters (none under an illegal key), within the limit of 128 |
| Handshake.ClientAuth | transport/h1/client.go:145-153 | time and 16 random bytes, encrypted and encoded; empty under an illegal key |
| Handshake.TimeRoundTrip | transport/h1/server.go:133-135 | time and random half are read back from the auth bytes |
| Handshake.HandleServerConn | transport/h1/server.go:108-213 | every early exit and the accepting path: the answer is that of the server function |
| Handshake.ClientFinish | transport/h1/client.go:184-228 | every early exit and the completing path: the framer is that of the client function |
| Handshake.HonestClientAccepted | transport/h1/server.go:108-141 | an honest client is accepted if and only if the key is legal and the clocks differ by at most 120 seconds, counted on the 64-bit circle |
| Handshake.AcceptedExactly | transport/h1/server.go:108-141 | whoever asks, the server accepts if and only if there is a client id, the field has 1 to 128 characters, is base64 of at least 40 bytes, the key is legal, and the decrypted time is within 120 seconds |
| Handshake.CompletesExactly | transport/h1/client.go:184-212 | the client completes if and only if the token is base64 of at least 16 bytes and the key is legal |
| Handshake.WrappedExactly | transport/h1/server.go:136-141 | a difference of times is the same number on the circle of 2^64 |
| Handshake.KeyAgreement | transport/h1/server.go:145-216 | whenever the server accepts, the client completes; both framers run under the one 16-byte key of both halves and the time; over WebSocket the client masks and the server does not |
| Handshake.ResponseHeadBegins | transport/h1/server.go:167-184 | the heads the server writes in both roles, with the values they copy, are status line and header fields the reader accepts |
| Handshake.HeadRoundTrip | transport/h1/server.go:167-187 | a head written line by line is read line by line, whatever follows |
| Handshake.TextFits | http/response.go:56-58 | a head written in lines of at most 15359 bytes is one of short lines, whatever follows it |
| Handshake.TokenArrives | transport/h1/client.go:177-188 | the client finds status and token in the server's head |
| Handshake.HandshakeCompletes | transport/h1/client.go:145-230 | the whole exchange: through the response head, both ends have framers in these roles under that key; nothing behind the head is lost if and only if it ends a read |
| Handshake.ReadLeaves | http/response.go:53-92 | what is lost and what is left to read behind the head spell what was sent behind it |
| Relay.StepKeepsInv | utils/proxy.go:49-117 | every step of the four loops keeps both directions conserved and the channels within their size |
| Relay.ProxyConserves | utils/proxy.go:41-118 | in every reachable state, read is written, then held by the writer, then in the channel, then held by the reader |
| Relay.OutputIsPrefix | utils/proxy.go:41-118 | what comes out is a prefix of what went in, however the loops interleave or stop |
| Relay.ErrorsNeverBlock | utils/proxy.go:42-42 | a loop that has an error to report always finds room |
| Relay.NothingAfterReturn | utils/proxy.go:96-117 | after the main loop has returned nothing more is written to the local side |
| Relay.ReturnsExactly | utils/proxy.go:96-117 | over every run, the main loop has returned if and only if it has received an error or a write to the local side has failed |
| Relay.NothingAfterError | utils/proxy.go:100-106 | after a received error nothing more is written to the local side |
| Relay.LoopsEndExactly | utils/proxy.go:49-94 | a reading loop has ended if and only if a read failed, the up-link's writer if and only if a write failed or it saw the return |
| Relay.ErrorsExactly | utils/proxy.go:42-42 | the errors in the channel are those reported and not received, and at most one is received |
| Relay.InputIsRead | utils/proxy.go:53-59 | the input of a side is what its reads have returned |
| Relay.EverythingComesOut | utils/proxy.go:79-117 | from every reachable state in which its writer runs, all that has been read on one side can come out on the other |

## Left out

- AES, base64, SHA-1 and JSON themselves: library code, in the model arbitrary functions with the hypotheses above.
- Sockets, TLS, listeners, timers, logging, failing connections, failed or partial writes: a Write call is a whole piece of output, and the relay loop returns because its reader was refused or the trunk client was closed, not because of the connection.
- Blocking and wake-up of `ReadWriteBuffer.Read` (utils/buffer.go:74-81): the model says where Read waits, not when it goes on.
- Several trunks: every statement is about one trunk; the code orders nothing across trunks, and a divided client may change trunks. A write that fails because the relay loop has returned draws a serial, too, which no packet on this trunk shows.
- Closing by end-of-stream packets: they carry no id, so they reach nobody; the model shows that they change no stream on the other side.
- `no alive transport` and `no reply channel` errors of divided clients and instances: they write nothing.
- Sharing of slices: `h1.Client.Write` and `instance.Write` pass the caller's slice on without copying; the model passes values, so it says nothing about callers that reuse a buffer too early.
- Memory limits: allocation for a large announced frame or message always succeeds below the 64-bit bound.
- The request head and its URL, parsed in http/header.go, are not part of this model; the values the server copies from it into its response are inputs without carriage returns, the protocol name without spaces.
- Ids of shared clients are taken to be fresh when a client is added.
- `ProxyIOCopy`, the SOCKS front end and virtual connections (the leftover-buffer discipline again), `lru`, `conf`, message counters, `transport/d1`, and the integer and boolean writers of s1, which no message uses: only easy members.
- HeaderReading.HeaderReader.PeekHeader: ends with the bytes of the head; parsing them is http/header.go.
- Tunnel.FullStack: speaks of whole streams, because the code drops the error of a full buffer and lets a late fragment open a second instance; Tunnel.FullStackForModest says what callers can do about it.
