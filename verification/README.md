# MyIP, verified

A Dafny model of the protocol core of MyIP, a userspace IP stack, with proofs of what its parts are for:
streams arrive as they were sent, codecs undo each other, checks check out, tables and queues keep their
contents. Code that updates fields in place is a class or a method with loops, proved against functions on
values; the laws are proved about those functions.

`dafny verify dfyconfig.toml` checks everything.

| module | what it models |
|---|---|
| `Bytes`, `Buffers` | octets, modular 32-bit arithmetic, big-endian fields; the read and write cursors |
| `TcpModel` | every region of the TCP engine that holds the session lock, as a function on a session |
| `TcpLedger`, `TcpLifecycle`, `TcpFlow`, `TcpOpening` | one endpoint against an arbitrary peer: stream accounting, states, closing and answering, the retransmit pass and the window; the handshake |
| `TcpNetwork`, `TcpEnding`, `TcpLimits` | two endpoints over a network that loses, duplicates and reorders; how sessions end; where the code stops meeting its promise, and exactly when |
| `TcpWire`, `TcpSession` | segments as octets; the engine as a class with mutable fields |
| `Checksum`, `Crc`, `Fcs`, `CrcCheck` | the Internet checksum, CRC32c and the PPP frame check, and published values of both |
| `PppFrame`, `PppLcp`, `PppLink` | stuffing and compression, option negotiation and the option loop on any octets, the link as a class |
| `OidTree`, `OidBuild`, `OidText`, `SnmpData` | the SNMP tree and its successor search, what registration builds, OID strings and their BER coding, the tree as a class |
| `SctpData`, `SctpCookie`, `SctpServer`, `SctpSessions`, `SctpDelivery` | segmentation and the chunk walker, the stateless cookie, the session table, when sessions come and go, delivery end to end |
| `Slip`, `Kiss`, `Ax25`, `Fifo` | serial framing, AX.25 packets, the bounded queue |

## What turned out not to hold

Each has a concrete run or input, and the exact condition under which the code does meet the promise.

- TCP: between its deletion mark and its removal a session can still take steps, and three of them do harm. A
  session that answered a FIN with bytes outstanding has moved `my_seq_nr` past them; a pass over its buffer
  misnumbers them and a byte is delivered twice (`TcpLimits.RetransmitAfterDeletionMark`). A session that an
  acknowledgement failed has not moved its buffer; a pass over it misnumbers it in the same way
  (`TcpLimits.FailedBufferResent`). A session whose layer 7 refused data does not count it; if the same segment
  arrives again, it is handed over again (`TcpLimits.RefusedTwice`). A run without them is called harmless below,
  marked sessions included; only marked sessions can be hit (`TcpNetwork.HarmOnlyMarked`).
- TCP: all harmless runs that accept at most n bytes per direction are prefix-safe if and only if n < 2^32
  (`TcpLimits.PrefixSafetyIff`): with 2^32 bytes delivered the first number is due again, and a copy of the first
  segment is delivered (`TcpLimits.Replayed`). Numbers may wrap on the way. On the same runs every session in
  `tcp_fin_wait_2` has delivered its peer's whole stream if and only if n < 2^32 (`TcpLimits.OrderlyEndIff`).
- TCP: sequence numbers are compared as plain integers when a segment arrives out of order. For every base and every
  n below 2^32, all harmless runs that accept at most n bytes acknowledge delivered bytes only, if and only if
  base + n <= 2^32 (`TcpLimits.AckSafetyIff`; the failing run is `TcpLimits.WrappedAck`).
- TCP: `send_data` takes more than 2^31 bytes, but then the acknowledgement of the first of them makes the count of
  what is left negative, and the session is failed with a RST (`TcpLimits.Overlong`). With a layer 7 that refuses
  nothing, no harmless run that accepts at most n bytes per direction sends a RST, if and only if n <= 2^31
  (`TcpLimits.NeverFailsIff`); and every session marked for deletion has delivered its peer's whole stream, if and
  only if n <= 2^31 (`TcpLimits.CompleteEndIff`).
- TCP: the first FIN of a session, sent in whatever state, is numbered behind its last byte and leaves after all of
  them are acknowledged, if and only if it does not answer the peer's FIN while bytes are outstanding
  (`TcpLifecycle.FirstFinIff`); otherwise it carries the number of the first outstanding byte, also after a local close
  that was deferred for those bytes. The answer goes out when the FIN arrives at the expected number
  (`TcpLimits.FinBeforeByte`), or with whatever segment arrives after a recorded FIN has become due
  (`TcpLimits.FinBeforeByteLater`).
- TCP: a segment without ACK that announces less than is in flight makes the unsigned window arithmetic wrap, and
  the whole buffer goes out (`TcpLimits.WindowExceeded`); without one the window is always respected
  (`TcpFlow.WindowRespectedIff`).
- TCP: with more than 2^32 bytes buffered an acknowledgement no longer moves the buffer. The stream ledger holds on
  all runs if and only if no call of `send_data` takes more than 2^32 - 2^20 + 1 bytes (`TcpLimits.LedgerIff`).
- PPP: a character map that flags `^` (0x5e) turns it into an escape followed by a frame flag. Streams round-trip
  if and only if the map leaves it alone (`PppFrame.RoundTripIff`). LCP copies a map option of any length, and two
  octets too many; a long one can flag `^` (`PppLcp.LongMapBreaksLink`). After any requests, of any octets, that the
  engine gets through, the negotiated link round-trips if and only if the last request that reaches the octet of `^`
  leaves its bit clear (`PppLcp.NegotiatedLinkIff`); the four octets of the standard never reach it
  (`PppLcp.ShortMapsAreSafe`).
- PPP: escaping turns a flagged octet into one that may be flagged itself. No octet that the map flags is ever sent, if
  and only if the map flags none of 0x5d, 0x5e and 0x7d and no two octets that differ in bit 5 only, and for PPP's own
  packets nothing from 0x20 to 0x3f (`PppFrame.MapProtectsIff`); maps that flag control characters only are of that kind
  (`PppFrame.ControlMapProtects`).
- PPP: an option of length zero is never passed by the LCP option loop. For any octets the loop fails to end if and
  only if it reaches one (`PppLcp.NeverEndsIff`).
- SNMP: siblings are sorted by the int that `atoi` returns, top arcs not at all, and GETNEXT never leaves the OID's
  own arc. For every series of registrations GETNEXT is right for every OID in the tree if and only if there is one
  top arc and siblings come to stand in numeric order (`OidBuild.GetNextIff`), as they do when all components are
  below 2^31 (`OidBuild.GetNextRight`). Failing inputs: `OidBuild.TwoArcsFail`, `OidBuild.BigComponentFails`. For an
  OID that is absent, `OidTree.AbsentExact` says exactly when the answer is still the successor.
- SNMP: an OID survives encoding and decoding if and only if its components are below 2^31, and the decoder never
  notices otherwise (`OidText.DecodeEncodeIff`). Octets that end within a component are refused if and only if the part
  read of it is not zero in 32 bits (`OidText.LeftOverExact`).
- SCTP: a COOKIE ECHO whose cookie was not minted for its sender erases the session, and a good one then makes a
  second session under the same hash (`SctpSessions.SecondSessionMade`). A run of COOKIE ECHOs makes a second one if
  and only if a good one is followed by a bad one and that by a good one (`SctpSessions.EchoRunIff`); the condition for
  runs of any packets is read off their chunks (`SctpSessions.SecondSessionIff`).
- SCTP: delivery is in order on all runs of at most n chunks if and only if n < 2^32 (`SctpDelivery.ChunksIff`); the
  first chunk again after 2^32 is delivered again (`SctpDelivery.ReplayedChunk`).
- SCTP: an INIT is read if and only if its last parameter needs no padding (`SctpCookie.InitReadIff`).
- Internet checksum: right for every buffer of n words if and only if n <= 65537 (`Checksum.ChecksumIff`).
- KISS: a stream comes back unchanged if and only if every packet has at most 255 octets
  (`Kiss.KissRoundTripIff`); SLIP: if and only if every payload has at least 20 (`Slip.RoundTripIff`).
- AX.25: a packet parses back if and only if its addresses are valid, it has at most two repeaters and, having none,
  its source carries the end mark (`Ax25.PacketRoundTripIff`).

## Model

| member | source | states |
|---|---|---|
| `TcpModel.HandleSegment` | tcp.cpp:479-712 | whatever arrives, deletion marks and failures are never taken back, a session past established stays past it, `tcp_last_ack` is not entered, sent segments and delivered bytes only grow, and the session is marked exactly when the entry is to be deleted |
| `TcpModel.HandleAck` | tcp.cpp:520-603 | the same for the acknowledgement stage in every state |
| `TcpModel.HandlePayload` | tcp.cpp:636-688 | the same for the data stage |
| `TcpLedger.StepKeepsLedger` | tcp.cpp:560-594 | every segment, `send_data`, close and retransmit pass keeps the stream accounted for, whatever duplicate or stale acknowledgement arrives |
| `TcpLedger.StreamLedger` | tcp.cpp:560-594 | on every run of an established session not marked for deletion, accepted bytes are the acknowledged prefix followed by the buffer, and a non-empty buffer starts at `my_seq_nr == unacked_start_seq_nr == base + acknowledged` mod 2^32 |
| `TcpLimits.LedgerIff` | tcp.cpp:567-578 | that holds on all runs if and only if no call takes more than 2^32 - 2^20 + 1 bytes |
| `TcpLimits.LongSend` | tcp.cpp:567-578 | one byte more, and a run on which an acknowledgement leaves the buffer unmoved |
| `TcpLedger.DroppedKeepsLedger` | tcp.cpp:566-582 | dropping acknowledged bytes with `memmove` keeps the ledger |
| `TcpLedger.StepKeepsNumbers` | tcp.cpp:479-712 | every step of an endpoint, marked or not, whatever arrives and however much is sent, keeps `my_seq_nr` + buffered = base + total accepted mod 2^32 while established, with a non-empty buffer starting at `my_seq_nr` |
| `TcpLedger.RunKeepsNumbers` | tcp.cpp:479-712 | so does every run, of any length and any number of bytes |
| `TcpLifecycle.NeverReestablished` | tcp.cpp:270-278 | on every run a session that has passed established never returns to it |
| `TcpLifecycle.LifeOfSession` | tcp.cpp:492-633 | on every run from creation `tcp_last_ack` is never entered and `new_session` is called at most once |
| `TcpLifecycle.NothingAcceptedLater` | tcp.cpp:938-969 | past established no `send_data` on any run adds a byte |
| `TcpLifecycle.FinSentIff` | tcp.cpp:560-632 | on every run, exactly these steps send a FIN, and one each: `end_session` with an empty buffer, and the ACK that empties it under a deferred close, to `tcp_fin_wait_1`, acknowledging what was received and from established numbered base + total accepted; and the step at which the peer's FIN is due, to `tcp_fin_wait_2`, acknowledging it. A close with bytes outstanding is remembered, never waits without them, and only a RST or the peer's FIN takes a session past established otherwise |
| `TcpLifecycle.DataAnswered` | tcp.cpp:635-706 | data at an open session is handed over exactly if in order, and answered in any case: by a RST on a failure, by an ACK of all that is counted unless own bytes are outstanding, out of order by an ACK of the smaller number |
| `TcpLifecycle.LastAckEnds` | tcp.cpp:554-558 | a session in `tcp_last_ack` would end with the next ACK |
| `TcpOpening.HandshakeStarts` | tcp.cpp:506-552 | SYN, SYN and ACK, and ACK leave both sides established, agreeing on each other's base, where the theorems about two endpoints begin, and the server's layer 7 told once |
| `TcpOpening.ToldOnce` | tcp.cpp:533-552 | on every run from creation, `new_session` has been called exactly once for a server's session that is established and not marked, never before, and never for a client's |
| `TcpOpening.SynAnswered` | tcp.cpp:504-517 | every SYN to a session not yet established, first or repeated, gets SYN and ACK with its own number and the expected one |
| `TcpOpening.SessionRefused` | tcp.cpp:533-552 | a session nobody listens for, or that layer 7 does not take, gets a RST and is marked |
| `TcpLifecycle.FirstFinIff` | tcp.cpp:584-632 | on every run the first FIN of a session, in whatever state and whoever closes, leaves after every accepted byte is acknowledged and is numbered base + total accepted, if and only if the step does not answer a FIN, arriving at the expected number or recorded and due, with bytes left after the step's acknowledgement; its number plus the bytes left is always base + total accepted mod 2^32; nothing is accepted on any later run |
| `TcpLimits.FinBeforeByte` | tcp.cpp:623-632 | a run of one `send_data` and a deferred close on which the first FIN answers the peer's and carries the number of the outstanding byte |
| `TcpLimits.FinBeforeByteLater` | tcp.cpp:605-632 | a run on which the peer's FIN overtakes a byte and is recorded, and a copy of that byte sets off the first FIN, under the number of an outstanding byte |
| `TcpFlow.PassTiles` | tcp.cpp:837-848 | a pass from any offset emits non-empty segments that tile the buffer contiguously |
| `TcpFlow.PassAcknowledges` | tcp.cpp:837-848 | every segment of a pass acknowledges what has been received |
| `TcpFlow.ResendTilesBuffer` | tcp.cpp:831-855 | one pass tiles the first bytes of the buffer from `my_seq_nr`, as many as the window and the device take, and counts exactly those |
| `TcpFlow.BudgetOfPass` | tcp.cpp:831-831 | the budget is the window's remainder while the window is not exceeded, else the whole buffer |
| `TcpFlow.StepWindowIff` | tcp.cpp:479-603 | a step leaves a live session within its window exactly if it is not a segment without ACK that announces less than is in flight |
| `TcpFlow.WindowRespectedIff` | tcp.cpp:831-848 | on every run bytes since the last ACK stay within the window if and only if no such segment arrives; always, when the peer sets ACK on every segment |
| `TcpLimits.WindowExceeded` | tcp.cpp:831-831 | a run that fills a window of 100, has it shrunk to 50 without ACK, and then sends the whole buffer of 200 |
| `TcpNetwork.ReceiveOk` | tcp.cpp:479-712 | below 2^32 bytes per direction, handling an honest segment, marked for deletion or not, delivers in order, sends only honest segments and keeps the accounts |
| `TcpNetwork.StepKeepsSound` | tcp.cpp:479-712 | each harmless step of either endpoint that leaves fewer than 2^32 bytes accepted keeps the joint invariant of sender, network and receiver |
| `TcpNetwork.PrefixSafety` | tcp.cpp:636-688 | on every harmless run of fewer than 2^32 bytes per direction, over loss, duplication and reordering, with marked sessions still taking steps, what layer 7 was handed is a prefix of what the peer's `send_data` accepted, in both directions, even across a wrap |
| `TcpLimits.StreamCompletes` | tcp.cpp:479-712 | for every base and all bytes there is a run on which they are accepted, all delivered and acknowledged, the sender closes and the receiver answers its FIN |
| `TcpLimits.PrefixSafetyIff` | tcp.cpp:636-688 | all harmless runs accepting at most n bytes per direction are prefix-safe if and only if n < 2^32 |
| `TcpLimits.Replayed` | tcp.cpp:636-660 | a harmless run of 2^32 bytes after which a copy of the first segment is delivered again |
| `TcpNetwork.HarmOnlyMarked` | tcp.cpp:712-745 | on every such run a step excluded from it can hit only a session marked for deletion |
| `TcpNetwork.AckSafety` | tcp.cpp:664-688 | on every such run, while numbers do not wrap, no data segment or pure ACK acknowledges an undelivered byte, and bytes leave the buffer only after delivery, marked sessions included; wrapped or not, the buffer is emptied only when everything was delivered |
| `TcpNetwork.CloseAfterDelivery` | tcp.cpp:993-1013 | on every such run, even across a wrap, a first FIN, sent in whatever state, that does not answer the peer's with bytes outstanding finds every accepted byte delivered at the peer and is numbered behind the last |
| `TcpNetwork.NeverFails` | tcp.cpp:570-575 | if layer 7 refuses nothing, no harmless run of at most 2^31 bytes per direction sends a RST or acknowledges past the buffer |
| `TcpLimits.NeverFailsIff` | tcp.cpp:567-575 | no harmless run accepting at most n bytes per direction fails a session, if and only if n <= 2^31 |
| `TcpLimits.Overlong` | tcp.cpp:567-575 | a run of one `send_data` of 2^31 + 1 bytes on which the acknowledgement of the first sends a RST and marks the session |
| `TcpEnding.SegmentEnd` | tcp.cpp:479-712 | below 2^32 bytes, whatever honest segment arrives, a FIN is recorded or answered only when the peer's whole stream was delivered, and a FIN of one's own accord is sent only when the peer has delivered everything |
| `TcpEnding.StepEnd` | tcp.cpp:605-632 | each harmless step of either endpoint keeps the joint invariant on FINs and delivery, repeated closes included |
| `TcpEnding.OrderlyEnd` | tcp.cpp:623-632 | on every harmless run of fewer than 2^32 bytes per direction, however often either side closes, a session in `tcp_fin_wait_2` has handed layer 7 every byte the peer ever accepted |
| `TcpLimits.OrderlyEndIff` | tcp.cpp:623-632 | that holds on all harmless runs accepting at most n bytes per direction if and only if n < 2^32 |
| `TcpLimits.AnswersSecondFin` | tcp.cpp:623-632 | a harmless run of 2^32 bytes on which a session that was handed a copy of the first byte answers its peer's second FIN |
| `TcpEnding.CompleteEnd` | tcp.cpp:623-632 | if layer 7 refuses nothing, on every harmless run of at most 2^31 bytes per direction every session marked for deletion has delivered the peer's whole stream |
| `TcpLimits.CompleteEndIff` | tcp.cpp:567-575 | that holds on all such runs accepting at most n bytes per direction if and only if n <= 2^31 |
| `TcpLimits.RetransmitAfterDeletionMark` | tcp.cpp:623-632 | a run on which a marked session retransmits under a moved number and a byte is delivered twice |
| `TcpLimits.FailedBufferResent` | tcp.cpp:566-578 | a run on which a session that an acknowledgement failed retransmits its unmoved buffer and a byte is delivered twice |
| `TcpLimits.RefusedTwice` | tcp.cpp:650-668 | a run on which a byte that layer 7 refused is handed to it again |
| `TcpLimits.OutOfOrderAckExact` | tcp.cpp:676-686 | below 2^32 accepted bytes, the ACK of an out-of-order segment covers only delivered bytes unless the segment is ahead and its number has wrapped below the expected one |
| `TcpLimits.WrappedAck` | tcp.cpp:676-686 | for every base and every n below 2^32 with base + n > 2^32, a run accepting at most n bytes that acknowledges an undelivered one |
| `TcpLimits.AckSafetyIff` | tcp.cpp:664-688 | for every base and every n below 2^32, all harmless runs accepting at most n bytes are ack-safe if and only if base + n <= 2^32 |
| `TcpWire.WireRoundTrip` | tcp.cpp:153-208 | the handler's header parsing reads back every field and the data of any segment `send_segment` lays out |
| `TcpWire.TimestampRead` | tcp.cpp:190-210 | checksum field, urgent pointer and the timestamp option with clock and echo stand at their offsets |
| `TcpWire.WireChecksOut` | tcp.cpp:215-218 | a receiver summing the segment with its pseudo header gets zero, in either order of the addresses |
| `TcpWire.BuildSegment` | tcp.cpp:164-218 | the octets filled in place are the layout with the checksum of the layout with a zero field |
| `TcpSession.Tcp.SendBare` | tcp.cpp:153-237 | a segment without data and the numbers it takes |
| `TcpSession.MoveDown` | tcp.cpp:568-569 | the front-to-back copy moves the rest of the buffer down in place |
| `TcpSession.Tcp.Drop` | tcp.cpp:566-582 | the buffer array is shifted in place and size and counters moved as the drop function says, a negative rest included |
| `TcpSession.Tcp.AckReceived` | tcp.cpp:560-597 | drop and deferred FIN compute the acknowledgement function |
| `TcpSession.Tcp.RstAndSyn` | tcp.cpp:493-518 | RST and SYN compute their functions |
| `TcpSession.Tcp.Acknowledged` | tcp.cpp:520-603 | the ACK branch computes its function in every state |
| `TcpSession.Tcp.FinReceived` | tcp.cpp:605-632 | FIN and its deferred answer compute their functions |
| `TcpSession.Tcp.PayloadReceived` | tcp.cpp:636-688 | the data branch computes its function, refusals included |
| `TcpSession.Tcp.Handle` | tcp.cpp:479-712 | the whole handler leaves the fields, segments, deliveries and callbacks of `HandleSegment` |
| `TcpSession.Tcp.SendData` | tcp.cpp:948-969 | an accepting session's reallocated buffer holds the old one followed by the data, any other is unchanged |
| `TcpSession.Tcp.EndSession` | tcp.cpp:993-1013 | closes at once or defers |
| `TcpSession.Tcp.UnackedSender` | tcp.cpp:829-855 | the send loop emits the pass the tiling theorems are about |
| `Checksum.ChecksumCorrect` | network_layer.cpp:47-58 | up to 65537 words the sum cannot overflow and two folds give the one's complement checksum |
| `Checksum.TwoFoldsSuffice` | network_layer.cpp:54-57 | two folds suffice for every 32-bit sum |
| `Checksum.OneWordMoreOverflows` | network_layer.cpp:47-58 | for every longer length, a buffer that overflows to a wrong result |
| `Checksum.ChecksumIff` | network_layer.cpp:47-58 | the checksum of every buffer of n words is right if and only if n <= 65537 |
| `Checksum.StoredChecksumVerifies` | network_layer.cpp:47-58 | stored in a zeroed field, the result makes the whole buffer sum to 0 |
| `Checksum.AddressesCommute` | transport_layer.cpp:29-78 | swapping the two addresses never changes the result, for IPv4 and IPv6 |
| `Checksum.TransportExact` | transport_layer.cpp:29-78 | the result completes the sum of both addresses, the protocol number 6 or 17, the length and the payload, odd ones included; zero for other families |
| `Checksum.IpChecksum` | network_layer.cpp:47-58 | the loop computes the checksum of the words |
| `Checksum.PseudoHeader` | transport_layer.cpp:33-66 | the pseudo header written in place, the rest still zero |
| `Checksum.TcpUdpChecksum` | transport_layer.cpp:29-78 | pseudo header, payload and odd-length padding are what is summed |
| `Crc.TableStepIsBits` | sctp_crc32c.cpp:88-100 | one table step is eight bit steps, for every polynomial, register and octet |
| `Crc.TableIsBitwise` | sctp_crc32c.cpp:88-118 | for every polynomial and message the table-driven CRC is the bitwise one |
| `Crc.TableRight` | sctp_crc32c.cpp:21-86 | each of the 256 entries is eight bit steps |
| `Crc.EntryLinear` | sctp_crc32c.cpp:21-86 | entries are linear in their index |
| `Crc.EightSteps` | hash.cpp:75-85 | the inner loop does eight bit steps |
| `Crc.Crc32` | hash.cpp:68-89 | the nested loops compute the bitwise CRC for any polynomial |
| `Crc.GenerateCrc32c` | sctp_crc32c.cpp:88-118 | for every message the table loop equals the byte-swapped bitwise CRC with polynomial 0x82F63B78 |
| `CrcCheck.Crc32cOfDigits` | sctp_crc32c.cpp:88-118 | of the nine digits CRC32c is 0xE3069283 |
| `CrcCheck.Crc32OfDigits` | hash.cpp:68-89 | and the CRC of `crc32`, with the polynomial nrpe.cpp passes, 0xCBF43926 |
| `CrcCheck.FcsOfDigits` | phys_gen_ppp.cpp:86-96 | and the PPP check octets 6e 90 |
| `CrcCheck.FieldLowFirst` | sctp_crc32c.cpp:110-117 | the swap puts the octets of the CRC into the field lowest first |
| `CrcCheck.Crc32cResidue` | sctp.cpp:576-578 | whatever the packet, CRC32c over it and its check octets ends at 0xB798B438 |
| `Fcs.ResidueIsGood` | phys_gen_ppp.cpp:88-96 | over any frame with its two check octets the register ends at 0xF0B8 |
| `Fcs.NarrowRegister` | phys_gen_ppp.cpp:88-91 | the register never leaves 16 bits |
| `Fcs.BuildTable` | phys_gen_ppp.cpp:38-54 | the fill loops make every entry eight bit steps |
| `Fcs.Compute` | phys_gen_ppp.cpp:88-91 | the loop equals the bit-at-a-time CRC with 0x8408 |
| `PppFrame.UnstuffStuff` | phys_gen_ppp.cpp:98-139 | unstuffing undoes stuffing for every character map |
| `PppFrame.MapBits` | phys_gen_ppp.cpp:101-104 | octet i of the map holds the flags of octets 8i to 8i + 7, lowest bit first |
| `PppFrame.MapProtectsIff` | phys_gen_ppp.cpp:98-110 | no flagged octet is ever sent if and only if no flagged or always escaped octet turns into a flagged one |
| `PppFrame.ControlMapProtects` | phys_gen_ppp.cpp:98-110 | with a map of control characters no flagged octet is sent, and in PPP's own packets none below 0x20 |
| `PppFrame.PlainPasses` | phys_gen_ppp.cpp:98-110 | octets neither special nor flagged cost one octet, all others two; a packet goes out as itself if and only if it has only plain ones |
| `PppFrame.FrameDelimited` | phys_gen_ppp.cpp:84-112 | a frame stands between two flags and, if the map leaves `^` alone, holds none |
| `PppFrame.ExpandContent` | phys_gen_ppp.cpp:592-606 | header decompression restores what either compression elided |
| `PppFrame.ExpandExact` | phys_gen_ppp.cpp:592-606 | nothing is put back that was not negotiated away; without compression a packet is taken as it is |
| `PppFrame.CompressionSaves` | phys_gen_ppp.cpp:70-81 | each compression saves its octets on packets of layer 3, and PPP's own packets are the same whatever was negotiated |
| `PppFrame.StreamRoundTrip` | phys_gen_ppp.cpp:66-139 | concatenated frames of valid packets arrive as exactly those packets in order, for every setting of both compressions |
| `PppFrame.BadMapLosesWitness` | phys_gen_ppp.cpp:101-104 | a map that flags `^` loses a valid packet |
| `PppFrame.RoundTripIff` | phys_ppp.cpp:84-106 | all streams round-trip if and only if the map leaves `^` alone |
| `PppLcp.ParseFlatten` | phys_gen_ppp.cpp:451-461 | well-formed options parse back from their octets |
| `PppLcp.FlagsExact` | phys_gen_ppp.cpp:441-485 | each compression is on after the options exactly when its option was among them or it was on before; a request clears both first |
| `PppLcp.ReplyExact` | phys_gen_ppp.cpp:494-502 | as the peer reads it, cut at the length field and with the request's identifier, a Reject lists exactly the options of other kinds than 1, 2, 5, 7 and 8 in order, an Ack repeats the request octet for octet and is sent exactly when there is nothing to reject; no options, no answer |
| `PppLcp.AnswerRead` | phys_gen_ppp.cpp:141-160 | any answer has code, identifier and its own length, and carries up to that length exactly what was collected |
| `PppLcp.OwnRequestRead` | phys_gen_ppp.cpp:509-545 | the engine's own request, cut at its length, parses to the first four octets of the map, the magic number and both compressions |
| `PppLcp.MapExact` | phys_gen_ppp.cpp:448-489 | on any octets over which the loop ends, each octet of the map is what the last option that reaches it copied there, two octets too far, or what it was |
| `PppLcp.WrittenIff` | phys_gen_ppp.cpp:448-489 | on any octets something is copied to an octet of the map if and only if the loop comes to a map option long enough to reach it |
| `PppLcp.EndsFinished` | phys_gen_ppp.cpp:448-489 | whether the loop ends is decided by the octets alone, not by the settings it starts from |
| `PppLcp.NegotiatedLinkIff` | phys_gen_ppp.cpp:423-507 | after any run of requests, of any octets, that the engine gets through, every stream round-trips if and only if the last request that reaches the octet of `^` leaves its bit clear, or none does |
| `PppLcp.ShortMapsAreSafe` | phys_gen_ppp.cpp:465-474 | requests without a map long enough to reach it never do harm |
| `PppLcp.LongMapBreaksLink` | phys_gen_ppp.cpp:465-474 | one request with a map of twelve octets loses packets |
| `PppLcp.ScanOptions` | phys_gen_ppp.cpp:448-489 | on well-formed options that fill the packet the loop ends with the settings of `Apply`, and collects the supported ones and the others in order |
| `PppLcp.ScanFits` | phys_gen_ppp.cpp:448-489 | on any octets a loop that ends has collected no more octets than the packet has, and both maps keep 32 |
| `PppLcp.NeverEndsIff` | phys_gen_ppp.cpp:448-489 | on any octets the option loop runs for ever if and only if it reaches an option of length zero |
| `PppLink.Unwrap` | phys_gen_ppp.cpp:115-139 | the loop unstuffs, and fails exactly on a trailing escape |
| `PppLink.Ppp.Wrap` | phys_gen_ppp.cpp:66-113 | the built octets are the frame of the model |
| `PppLink.Ppp.ReceiveOctet` | phys_ppp.cpp:84-120 | one octet of the deframer: a flag completes a non-empty frame |
| `PppLink.Ppp.ReceiveStream` | phys_ppp.cpp:72-143 | the read loop yields exactly the frames between flags |
| `PppLink.Ppp.Process` | phys_gen_ppp.cpp:592-606 | decompression by insertion at the front |
| `PppLink.Ppp.HandleConfigureRequest` | phys_gen_ppp.cpp:423-507 | for a request of any octets, the flags, map and answers of the option loop followed by the link's own request; a declared length beyond the packet changes nothing; a loop that throws or never ends sends nothing; the settings are those that negotiation is about |
| `PppLink.Ppp.SendXcp` | phys_gen_ppp.cpp:141-160 | the packet with its length filled in afterwards is the control packet of the model |
| `PppLink.Ppp.BuildRequest` | phys_gen_ppp.cpp:511-542 | the octets pushed one by one are the request of the model |
| `PppLink.Ppp.TakeOptions` | phys_gen_ppp.cpp:448-489 | for any octets the option loop computes `Scan`, and finishes exactly when that does |
| `PppLink.Ppp.TakeOption` | phys_gen_ppp.cpp:463-487 | what one option of any length changes, or that its map copy throws |
| `PppLink.Ppp.CopyOctets` | phys_gen_ppp.cpp:467-472 | the copy changes both maps alike, and throws exactly when it leaves the map or the packet |
| `OidTree.LeavesAscend` | snmp_data.cpp:127-170 | the leaves of a well-formed tree ascend strictly in numeric order |
| `OidBuild.RegisterKeepsShape` | snmp_data.cpp:127-170 | registration keeps every child one component longer than its parent and siblings different |
| `OidBuild.BuiltPlaced` | snmp_data.cpp:145-157 | after any registrations every list of siblings stands by the int of its last component, equal ints in order of first registration |
| `OidBuild.TopByRegistration` | snmp_data.cpp:37-44 | top arcs are not sorted: they stand in order of first registration |
| `OidBuild.SmallInOrder` | snmp_data.cpp:37-44 | components below 2^31 come to stand in numeric order |
| `OidBuild.BuildIsTree` | snmp_data.cpp:127-170 | one top arc and siblings in order make a sorted tree |
| `OidBuild.RegisterAdds` | snmp_data.cpp:127-170 | registration adds exactly the OID and its prefixes |
| `OidBuild.BuiltPresence` | snmp_data.cpp:127-170 | after any registrations exactly the prefixes of registered OIDs are present |
| `OidBuild.BuiltLeaves` | snmp_data.cpp:127-170 | the leaves are the registered OIDs that no registered OID extends |
| `OidTree.NextIsSuccessor` | snmp_data.cpp:212-281 | for every OID present, the search returns the least greater leaf, or nothing if there is none |
| `OidTree.AbsentExact` | snmp_data.cpp:243-251 | for an absent OID, when the answer is the successor and when not |
| `OidTree.SuccessorOfLeaf` | snmp_data.cpp:253-281 | from one leaf to the next, and after the last to nothing |
| `OidTree.WalkListsLeaves` | snmp_data.cpp:212-281 | repeated calls from the root list every leaf once, ascending, and stop |
| `OidBuild.RightmostAnswer` | snmp_data.cpp:253-281 | on any tree the answer for the last leaf under a node is what follows that node |
| `OidBuild.GetNextIff` | snmp_data.cpp:127-281 | for every series of registrations the search is right for every OID present if and only if all share one top arc and siblings come to stand in numeric order |
| `OidBuild.GetNextRight` | snmp_data.cpp:127-281 | in particular with one top arc and components below 2^31 |
| `OidBuild.TwoArcsFail` | snmp_data.cpp:257-265 | two registrations under different top arcs after which the search is wrong |
| `OidBuild.BigComponentFails` | snmp_data.cpp:37-44 | two registrations, one component 2^31, after which the search is wrong |
| `SnmpData.FindOidInVector` | snmp_data.cpp:10-22 | the index of the first entry with that OID, or -1 |
| `SnmpData.Insert` | snmp_data.cpp:145-157 | insertion before the first greater index, else at the end |
| `SnmpData.ToFirstLeaf` | snmp_data.cpp:241-248 | down the first children, with the branch stack for the way back |
| `SnmpData.Climb` | snmp_data.cpp:253-281 | the stack loop finds the nearest next sibling's first leaf |
| `SnmpData.Data.RegisterOid` | snmp_data.cpp:127-170 | the loop down the tree, with what it changed put back into the parents, builds the tree of the model |
| `SnmpData.Data.Match` | snmp_data.cpp:225-239 | the matching loop descends as far as the tree goes with the OID |
| `SnmpData.Data.FindNextOid` | snmp_data.cpp:212-281 | on any tree that registration builds the loops compute the search; on a sorted one the successor of any OID present |
| `OidText.SplitDotted` | snmp_data.cpp:133-133 | splitting a canonical string gives its components |
| `OidText.DottedSnoc` | snmp_data.cpp:139-144 | the string built up in the loops is that of the prefix so far |
| `OidText.DottedInjective` | snmp_data.cpp:139-147 | comparing canonical strings is comparing components |
| `OidText.OctetsFit` | snmp_elem.cpp:178-222 | the encoder never writes more octets than the string has characters |
| `OidText.GroupsExact` | snmp_elem.cpp:195-214 | a component's octets are base 128, most significant first, bit 7 set in all but the last, without a leading zero group |
| `OidText.ComponentEncoded` | snmp_elem.cpp:195-214 | their value is the component up to 2^63 - 1, and that beyond |
| `OidText.Encode` | snmp_elem.cpp:178-222 | the loops write 43 for "1.3." and each component, saturated at 2^63 - 1, in base 128, within the buffer |
| `OidText.Collect` | snmp_elem.cpp:197-207 | the digit loop leaves the base-128 digits, never more than `temp` holds |
| `OidText.Put` | snmp_elem.cpp:209-212 | they go out most significant first, all but the last marked |
| `OidText.GetOid` | snmp.cpp:60-90 | the decoder loop's text and verdict |
| `OidText.LeftOverExact` | snmp.cpp:60-90 | octets are accepted if and only if what stands behind the last complete component is zero in 32 bits |
| `OidText.DecodeEncodeIff` | snmp.cpp:60-90 | for every canonical OID under 1.3 the decoder returns the encoded string if and only if all components are below 2^31, and accepts either way |
| `OidText.RoundTrip` | snmp_elem.cpp:178-222 | the two programs one after the other give the string back exactly then |
| `SctpData.WalkEncoded` | sctp.cpp:313-505 | the chunk walker reads back every list of padded chunks exactly |
| `SctpData.WalkUpToBroken` | sctp.cpp:313-333 | with something broken behind them the walk gives exactly the chunks before it, and whether a length was below four or octets were missing |
| `SctpData.WalkUnpadded` | sctp.cpp:313-505 | a last chunk without its padding is found, and the walk ends there |
| `SctpData.PacketReadsBack` | sctp.cpp:539-590 | a packet of `send_data` carries ports and verification tag, the CRC of itself with a zero field, and exactly one chunk, of type DATA and marked unfragmented |
| `SctpData.HeaderReadsBack` | sctp.cpp:550-553 | ports, verification tag and checksum field of any packet header are read back |
| `SctpData.ViewOfData` | sctp.cpp:216-228 | `chunk_data` reads back TSN, stream numbers and data |
| `SctpData.PiecesCover` | sctp.cpp:547-571 | the pieces of any payload concatenate to it |
| `SctpData.ReadChunk` | sctp.cpp:313-333 | one round over the cursor, every failing read included |
| `SctpData.WalkChunks` | sctp.cpp:313-505 | the loop finds the chunks and the way the walk ends |
| `SctpData.Sctp.SendData` | sctp.cpp:539-590 | packets with consecutive TSNs and stream numbers, one per piece, as far as the device takes them; a refused packet has used its TSN |
| `SctpData.Sctp.BuildPacket` | sctp.cpp:548-580 | one packet field by field, padded, with the CRC of itself with a zero field |
| `SctpCookie.GenerateStateCookie` | sctp.cpp:84-108 | the cookie's fields and the MAC over them |
| `SctpCookie.EchoedCookieAccepted` | sctp.cpp:184-197 | a cookie echoed from where it was minted for is accepted and gives back tag and both TSNs |
| `SctpCookie.AcceptedIffMinted` | sctp.cpp:184-197 | exactly the cookies this server mints for this sender are accepted |
| `SctpCookie.AcceptedCarriesMac` | sctp.cpp:100-105 | an accepted cookie ends in the MAC of the rest and no other sender can use it |
| `SctpCookie.CookieBinds` | sctp.cpp:84-108 | cookies are injective in sender and numbers |
| `SctpCookie.ChunkCookieEcho` | sctp.cpp:184-197 | the reads and the comparison compute the verdict |
| `SctpCookie.GetParameter` | sctp.cpp:56-82 | one parameter, every throwing read included |
| `SctpCookie.TakesIff` | sctp.cpp:56-82 | a parameter is read if and only if its length is at least four and it and its padding are there |
| `SctpCookie.InitReadIff` | sctp.cpp:56-82 | an INIT's parameters are read if and only if the last needs no padding |
| `SctpCookie.ChunkInit` | sctp.cpp:110-149 | what is read of an INIT, and the INIT ACK octet for octet |
| `SctpCookie.AckFieldsRead` | sctp.cpp:126-148 | an INIT ACK holds the server's tag, the window 4096, one stream each way, its initial TSN and then the cookie parameter |
| `SctpCookie.HandshakeCompletes` | sctp.cpp:110-197 | the INIT ACK announces the server's tag and TSN; the cookie walked out of it and echoed is accepted and gives back the tag and TSN of the INIT and the TSN announced |
| `SctpServer.ChunksAccount` | sctp.cpp:313-523 | a packet makes a session only where there is none, keeps one that is there, erases at most once and touches no other hash |
| `SctpServer.SessionsBalance` | sctp.cpp:434-490 | over every run of packets, sessions made less erased under a hash is present less before: a session is made only where there is none |
| `SctpSessions.SessionStays` | sctp.cpp:313-523 | while no packet of its hash holds what ends a session, it stays, keeps its tag and its own TSN, what it was handed only grows, and no other is made |
| `SctpSessions.WelcomeIffMinted` | sctp.cpp:434-467 | a COOKIE ECHO is welcome if and only if somebody listens and this server minted the cookie for this sender |
| `SctpSessions.PacketTells` | sctp.cpp:313-523 | from a packet's chunks alone: it makes a session if and only if there is none and a welcome COOKIE ECHO stands before what stops it; it erases one if and only if it stops at an ABORT or a chunk length below four, or is read to its end and holds DATA or INIT without a listener or an unwelcome cookie, with no throw before |
| `SctpSessions.SecondSessionIff` | sctp.cpp:434-523 | over every run of packets, a second session is made under a hash if and only if one is made or there, a packet that ends it follows or is the same, and a packet that makes one comes after that |
| `SctpSessions.EchoRunIff` | sctp.cpp:434-490 | a run of COOKIE ECHOs makes a second session if and only if a good one is followed by a bad one and that by a good one |
| `SctpSessions.SecondSessionMade` | sctp.cpp:475-522 | for every key, sender and cookie, three packets that make a second session |
| `SctpServer.Server.HandlePacket` | sctp.cpp:266-531 | the program leaves the table of the model |
| `SctpServer.Server.HandleRound` | sctp.cpp:313-505 | one turn of the chunk loop, throws and breaks included |
| `SctpServer.Server.HandleChunk` | sctp.cpp:335-495 | what each chunk type does to the table |
| `SctpServer.Server.ChunkData` | sctp.cpp:216-247 | the expected TSN is delivered, any other ignored |
| `SctpDelivery.DataArrives` | sctp.cpp:335-375 | a data packet moves its session on if its TSN is due |
| `SctpDelivery.EchoArrives` | sctp.cpp:434-490 | the COOKIE ECHO makes the session once and never again |
| `SctpDelivery.RunDelivers` | sctp.cpp:216-247 | under loss, duplication and reordering of fewer than 2^32 chunks, mixed with other senders' packets, the delivered bytes are a prefix of the pieces, never past a packet that does not arrive |
| `SctpDelivery.ChunksIff` | sctp.cpp:216-247 | delivery is in order on all runs with at most n chunks if and only if n < 2^32 |
| `SctpDelivery.ReplayedChunk` | sctp.cpp:216-247 | a run of 2^32 chunks after which a copy of the first is delivered again |
| `SctpDelivery.BeforeGap` | sctp.cpp:539-590 | up to the first refusal the pieces of a series of calls concatenate to a prefix of the payloads, to all of them if nothing is refused |
| `SctpDelivery.SendAll` | sctp.cpp:539-590 | a series of `send_data` calls emits exactly the packets whose arrival the delivery theorems are about, refused ones left out |
| `SctpDelivery.PayloadsPrefix` | sctp.cpp:539-590 | end to end, whatever was refused, lost, repeated or reordered, the server has been handed a prefix of the payloads in the session the INIT agreed |
| `SctpDelivery.PayloadsDelivered` | sctp.cpp:539-590 | with nothing refused, handshake and in-order run deliver the whole payloads |
| `Buffers.BufferIn.GetByte` | buffer_in.cpp:45-51 | the next octet, or a throw with the cursor unmoved |
| `Buffers.BufferIn.GetShort` | buffer_in.cpp:53-62 | the next big-endian 16 bits, or a throw |
| `Buffers.BufferIn.GetLong` | buffer_in.cpp:64-73 | the next big-endian 32 bits, or a throw |
| `Buffers.BufferIn.GetSegment` | buffer_in.cpp:108-117 | the next octets, or a throw |
| `Buffers.BufferIn.Seek` | buffer_in.cpp:130-136 | skips within bounds only |
| `Buffers.BufferOut.PutShort` | buffer_out.cpp:27-42 | a back-patched field changes its two octets and nothing else |
| `Buffers.BufferOut.PutLong` | buffer_out.cpp:44-63 | a back-patched field changes its four octets and nothing else |
| `Buffers.BufferOut.AddPadding` | buffer_out.cpp:95-103 | zeros up to a multiple of four, none if already there |
| `Slip.StreamRoundTrip` | phys_slip.cpp:113-167 | any stream decodes to exactly its payloads of at least 20 octets, in order |
| `Slip.RoundTripIff` | phys_slip.cpp:113-167 | a stream comes back unchanged if and only if no payload is shorter |
| `Slip.EscapeExact` | phys_slip.cpp:51-62 | escaped octets hold no c0, a db only in front of dc or dd, one octet more for each c0 and db, everything else as it was |
| `Slip.FrameDelimited` | phys_slip.cpp:46-64 | a frame stands between two c0 and holds none |
| `Slip.BadEscapeDropped` | phys_slip.cpp:127-135 | an escape in front of anything else is dropped with it |
| `Slip.Transmit` | phys_slip.cpp:46-64 | the encoder stays within 2n + 2 octets |
| `Slip.Receive` | phys_slip.cpp:113-167 | the read loop decodes the stream |
| `Kiss.KissRoundTrip` | phys_kiss.cpp:523-620 | one concatenated stream of packets of at most 255 octets comes back |
| `Kiss.DecodedFits` | phys_kiss.cpp:560-620 | no decoded packet has more than 255 octets, whatever arrives |
| `Kiss.KissRoundTripIff` | phys_kiss.cpp:523-620 | a stream comes back if and only if every packet fits |
| `Kiss.KissFrameDelimited` | phys_kiss.cpp:278-304 | a frame stands between two c0, holds none, and begins with the data command for channel 0 |
| `Kiss.KissBadEscapeDropped` | phys_kiss.cpp:560-620 | an escape in front of anything but dc and dd is dropped with it |
| `Kiss.KissTransmit` | phys_kiss.cpp:278-304 | the encoder stays within 2n + 3 octets |
| `Kiss.HandleKiss` | phys_kiss.cpp:523-642 | the byte loop decodes the stream and never overruns its buffer |
| `Ax25.AddressRoundTripIff` | ax25.cpp:41-71 | an address survives generation and parsing if and only if callsign and ssid are valid |
| `Ax25.FlagBits` | ax25.cpp:176-191 | the last octet of any address: end mark, low six bits of the ssid, repeated mark |
| `Ax25.RefusedIff` | ax25.cpp:41-71 | an address is refused if and only if one of its first five octets has the low bit set |
| `Ax25.PacketRoundTripIff` | ax25.cpp:206-261 | a packet parses back up to normalised end marks and protocol octet if and only if its addresses are valid, it has at most two repeaters and, having none, its source carries the end mark |
| `Ax25.ParsedPacketOk` | ax25.cpp:206-261 | whatever octets come in, a packet that parses is valid in that sense |
| `Ax25.TypeExact` | ax25.cpp:245-256 | control octets and frame types: I, S, U and UI, the protocol octet in I and UI frames only |
| `Ax25.GeneratedSize` | ax25.cpp:353-390 | size, control octet, protocol octet and data of any generated packet |
| `Ax25.KissStream` | phys_kiss.cpp:523-642 | a stream of such packets survives generation, KISS and parsing |
| `Ax25.ReadCall` | ax25.cpp:50-64 | the callsign loop and its one refusal |
| `Ax25.GeneratePacket` | ax25.cpp:353-390 | every field at its offset |
| `Fifo.StepConserves` | fifo.h:61-211 | each operation keeps removed + held equal to accepted |
| `Fifo.RunConserves` | fifo.h:61-211 | over every interleaving removed + held equals accepted in order, within capacity |
| `Fifo.Fills` | fifo.h:72-131 | of any values offered the first ones are accepted, as many as there is room for |
| `Fifo.Drains` | fifo.h:133-211 | uninterrupted gets take the oldest values, one each, and wait when there are none |
| `Fifo.Interrupted` | fifo.h:61-70 | from an interruption on nothing is handed out and no get waits |
| `Fifo.ExpiredTakesNothing` | fifo.h:133-185 | an expired wait takes nothing |
| `Fifo.WindowStore` | fifo.h:82-95 | a store in the ring appends to the window, also when it wraps or fills |
| `Fifo.WindowTake` | fifo.h:159-166 | a take removes the window's head |
| `Fifo.Ring.FullIff` | fifo.h:95-95 | `full` holds exactly at capacity |
| `Fifo.Ring.PutElement` | fifo.h:72-100 | refines the queue's put; `n_in` stays the exact count and `full` exact |
| `Fifo.Ring.TryPutElement` | fifo.h:102-131 | refines it and refuses exactly at capacity |
| `Fifo.Ring.GetElement` | fifo.h:133-211 | refines get with and without timeout: the oldest value, or nothing when interrupted or when the wait expired |
| `Fifo.Ring.InterruptAll` | fifo.h:61-70 | interruption loses nothing stored |

## Left out

- Device and socket I/O, polling, pcap and process spawning; a device is a number of packets it takes before it refuses.
- Threads and locks as such: each region under a lock is one step, each wait a guard. A missing `idev` is not modelled.
- SCTP packets are handled one at a time: chunks of packets on different threads do not interleave, although the code takes only a shared lock around `chunk_data`.
- Clocks, random numbers and the HMAC are parameters; nothing is assumed about the HMAC or about the session hash.
- TCP: client address wiring, segments of the handshake that arrive late, option parsing, echoed timestamps, the timing of retransmissions, the session cleaner and liveness.
- TCP: acknowledgement numbers of RST segments, and the state after an acknowledgement past the buffer, beyond its deletion mark.
- TCP: `send_data` returns true while it drops the data of a full buffer; the model says what was accepted, not what was returned.
- TcpNetwork.PrefixSafety: leaves out the steps on marked sessions that do harm; a run for each shows why.
- TcpLedger.Act: a retransmit pass with packet size 0, or over a buffer shorter than its recorded size, does nothing here, where the code loops for ever or reads past the buffer.
- TcpWire.WireRoundTrip: urgent pointer, PSH and the other flag bits are not part of a segment here; the code never sends them.
- PppLcp.FlagsExact: is about well-formed options; on any octets `PppLcp.Scan` says what the loop does.
- PPP: octets read only for log messages, past the end of the packet for some malformed options, and the settings a request leaves when its map copy throws, which nothing catches.
- PPP: IPCP, IPV6CP, CCP, LCP echo and identification, modem emulation, and packets shorter than six octets, whose length underflows.
- SnmpData.Data.RegisterOid: the tree is a value; lists changed on the way down are put back into their parents, not updated through pointers. Values held by nodes, and `find_by_oid` on them, are not modelled.
- OidBuild.Atoi: `atoi` of a number that does not fit is undefined in C; it is taken as `strtol` converted to an int, as the GNU library does.
- OidText.Encode: non-canonical strings, and the octet that holds the encoded length.
- SCTP: SACK contents, heartbeat replies, shutdown and abort chunks as octets; verification tags and checksums of arriving packets, which the code does not look at either.
- SctpData.Sctp.SendData: assumes a device packet size above 50 and below 64 KiB, without which the loop does not advance or the length field wraps.
- Ax25.PacketRoundTripIff: a parse that would read past the end of its input is a failure here.
- Statistics of the queue, logging, routers, ARP and NDP, and the applications above the transport layers (MQTT, VPN, TLS, HTTP and others).
