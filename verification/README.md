# navette: verified core

A Dafny 4.11 model of the Rust and C layer around navette's QUIC and TLS stack, with proofs. It covers the
wire-level conformance harness (`conformance/tls-conformance`), the rustls FFI state
(`crates/librustls-mojo`), the streaming decompressors (`crates/libcompress-mojo`) and the independent
encoders of the vector generators (`conformance/scripts`). Check it with `dafny verify dfyconfig.toml`.

Foreign code is arbitrary, never assumed concrete. An AEAD and a header-protection cipher are any functions that may
fail, and a suite works when it never does and `open` undoes `seal` (`Protection.DirectionalKeys`); a TLS engine is
any function of everything it was fed and asked that falls quiet when drained; zlib and brotli give any answer that
fits what they were told; threads interleave in any order; the network is any list of datagrams and timeouts.
`Protection.TOY` is a suite that works, so nothing is vacuous.

Loops and objects keep their form: cursor loops, in-place buffers and mutable entries are methods and classes
proved equal to specification functions, and the laws are lemmas about those functions.

| file | what it models |
|---|---|
| Bytes | bytes, big-endian fields, exclusive-or |
| Varint | variable-length integers, both encoders |
| Frames | frame encodings and the three frame scanners |
| Protection | AEAD and header protection |
| Packets | packet layout, header parsing, opening |
| Contents | payloads field by field: frames, closes, cut and refused frames; offsets of what is built |
| Builder | the three packet assemblers |
| Coalesced | the datagram walk, on any bytes and on any list of peer packets |
| Handshake | the TLS engine and the two pumps |
| Driver | the plain and the injecting driver, from datagram bytes to bytes sent |
| Flights | peer packets and coalesced flights through the drivers, verdicts, and runs on which they fail |
| Harness | the driver loops as an object over the packet assemblers |
| Keys | sealing under one key entry: packet numbers, single calls against batches |
| KeyTable | the key entry on memory: sealing in place, the three batch calls |
| Handles | the handle counter and tables under interleaving |
| Connection | the connection entry: pending keys, next secrets, alert, ClientHello.random |
| Decompress | the decompressors' caps |
| ClientHello | the raw ClientHello builder against an RFC 8446 reader |
| TransportParams | transport-parameter blocks |

## Where the code and its own text part ways

The model follows the code. Each point has an exact condition proved for all inputs, and an input that fails.

- A comment in `handles.rs` says the pin makes every later call return None. The pinned value is itself a positive
  handle, so later calls alternate None and `i32::MAX`; handles are distinct exactly for the first 2^31 calls
  (`Handles.NthHandleExact`, `Handles.DistinctIff`).
- A comment in the injection driver's timeout branch says it pushes the adversarial record. In every reachable state
  the branch sends nothing, and in 1-RTT mode it ends the run between the two key changes
  (`Driver.TimeoutNeverSends`, `Flights.TimeoutEndsARun`).
- The batch entry point documents a nonce-reuse check and asks for room for the tag. A slot without that room is
  sealed and not recorded, so its number passes the check again (`Keys.ResealedIff`, `Keys.ReuseIff`,
  `Keys.ResealHappens`), and a batch is not always the sequence of single calls (`Keys.BatchIsSinglesIff`,
  `Keys.SameOutcomeWorkingIff`, `Keys.BatchDiffers`).
- `write_hs` reports a buffer that is too small only after draining the engine: the key change of that call is gone
  (`Connection.NoKeyLostIff`, `Connection.KeyLostHappens`).
- The ratio test is called 128-bit safe. Its product wraps from 2^64 on; it then only rejects too much
  (`Decompress.RatioSound`, `Decompress.RatioExactIff`). zlib's buffer and input lengths are cut to 32 bits while the
  counters keep the full length (`Decompress.CastExactIff`), and input a library leaves unread is counted, never
  offered again and invisible to the caller (`Decompress.ReadsPrefix`, `Decompress.LeftoverUnseen`). Either lets the
  ratio cap be exceeded (`Decompress.PlayWithinCaps`, `Decompress.RatioEscapes`).
- Every builder puts its CRYPTO frame at offset 0 and the scanners ignore offsets, so a second emission in one number
  space is sent at a wrong offset and the harness would not notice one (`Frames.ScannedStreamIff`,
  `Contents.BuiltFrames`, `Flights.SentStreamIff`).
- The inline Initial driver opens an uncut datagram and can slice backwards (`Packets.PanicIff`,
  `Packets.PanicHappens`). The "coalesced packet truncated" branch of the walks is unreachable, because a header
  that parses always fits (`Packets.ParseLongHeader`).
- Packet numbers are truncated to four bytes and not reconstructed (`Packets.PacketNumberRecovered`).
- A packet-number offset of 0 is accepted by the batched header protection and cannot be undone
  (`Protection.ProtectionUndoneIff`).

## Model

| member | source | states |
|---|---|---|
| `Varint.EncodeVarint` | conformance/tls-conformance/src/quic_packet.rs:145-161 | appends exactly the specified encoding to the output vector |
| `Varint.DecodeVarint` | conformance/tls-conformance/src/quic_packet.rs:164-171 | the accumulator loop computes the specified decoding, None on every truncated input |
| `Varint.EncodeDecode` | conformance/tls-conformance/src/quic_packet.rs:145-171 | every value below 2^62 is decoded exactly, with its size, whatever bytes follow it |
| `Varint.DecodeCut` | conformance/tls-conformance/src/quic_packet.rs:164-171 | an encoding cut short anywhere is not decoded |
| `Varint.DecodeBounds` | conformance/tls-conformance/src/quic_packet.rs:164-175 | a decoded value is below 2^62, its size is 1, 2, 4 or 8 and inside the buffer, and no encoding of the value is shorter than `varint_width` says |
| `Varint.PrefixFree` | conformance/tls-conformance/src/quic_packet.rs:145-161 | no encoding is a prefix of another: equal concatenations have equal values and equal remainders |
| `Varint.EncodersAgree` | conformance/scripts/oracle_quic_frame.py:18-26 | the generators' or-then-serialise encoder and the harness's serialise-then-or encoder give the same bytes for every value |
| `Frames.SkipRangesLoop` | conformance/tls-conformance/src/lib.rs:578-585 | the ACK range loop refines its specification on every byte string, and completes at most half as many iterations as there are bytes left, whatever count the frame claims |
| `Frames.SkipAckAt` | conformance/tls-conformance/src/lib.rs:562-593 | cursor walk over an ACK or ACK_ECN body: same error or same remainder as the specification, always advancing |
| `Frames.SkipAckEncoded` | conformance/scripts/oracle_quic_frame.py:129-191 | an encoded ACK or ACK_ECN with any number of ranges is stepped over exactly |
| `Frames.TakeCryptoEncoded` | conformance/scripts/oracle_quic_frame.py:231-254 | an encoded CRYPTO frame yields its data and exactly the bytes after it |
| `Frames.SkipNcidEncoded` | conformance/scripts/oracle_quic_frame.py:512-523 | an encoded NEW_CONNECTION_ID frame is stepped over exactly |
| `Frames.CloseEncoded` | conformance/tls-conformance/src/quic_packet.rs:326-339 | parsing inverts the encoding of both CONNECTION_CLOSE variants, with any suffix |
| `Frames.ScanInlineLoop` | conformance/tls-conformance/src/lib.rs:382-433 | terminates on every byte string without an out-of-range slice and equals the suffix-style specification |
| `Frames.ScanInitialLoop` | conformance/tls-conformance/src/lib.rs:555-620 | the same for the Initial scanner, including each truncation error |
| `Frames.ScanFullLoop` | conformance/tls-conformance/src/lib.rs:877-962 | the same for the full scanner, and the chunks handed to `read_hs` are those of the specification, for an arbitrary engine |
| `Frames.ScanFullFrames` | conformance/tls-conformance/src/lib.rs:877-962 | any sequence of encoded frames is walked to its end and the engine is fed exactly the CRYPTO payloads, in order |
| `Frames.ScanFullEncoded` | conformance/tls-conformance/src/lib.rs:877-962 | encoded frames, then a close, then anything: the scanner returns exactly that close after feeding exactly the CRYPTO payloads |
| `Frames.ScannedStreamIff` | conformance/tls-conformance/src/lib.rs:921-934 | the scanner ignores offsets: on encoded frames it feeds one byte for every stream position the offsets name, and that is the CRYPTO stream if and only if the frames carrying data are contiguous and in order |
| `Frames.BuiltInOrderIff` | conformance/tls-conformance/src/lib.rs:665-718 | frames built at offset 0, as every builder does, are in order if and only if at most one of them carries data |
| `Frames.InlineRefined` | conformance/tls-conformance/src/lib.rs:382-433 | on every input, a close or error found by the inline scanner is found identically by the Initial scanner, which can find more only from a CRYPTO frame on |
| `Frames.InitialRefined` | conformance/tls-conformance/src/lib.rs:555-620 | on every input whose CRYPTO data the engine accepts, the full scanner reports what the Initial scanner reports, having fed what that one stepped over; it can find more only past a NEW_CONNECTION_ID or HANDSHAKE_DONE |
| `Contents.EncodedLayout` | conformance/scripts/oracle_quic_frame.py:129-254 | every frame is its type byte and its fields in order, each field with the error a scanner reports for it |
| `Contents.ScanCut` | conformance/tls-conformance/src/lib.rs:877-962 | a frame cut anywhere after its type byte stops the scan with the error of exactly the field that is cut |
| `Contents.ScanContent` | conformance/tls-conformance/src/lib.rs:877-962 | on encoded frames followed by nothing, a close, a CRYPTO frame the engine refuses, a cut frame or close, or an unknown frame type: what the scanner reports and every chunk the engine is given, in order |
| `Contents.BuiltFrames` | conformance/tls-conformance/src/quic_packet.rs:236-257 | the payload of every packet built is one CRYPTO frame at offset 0 with all the data, then PADDING frames, and a receiver that reads offsets finds exactly that frame |
| `Contents.ScanPlaintext` | conformance/tls-conformance/src/lib.rs:877-962 | a built payload feeds the engine its CRYPTO bytes and nothing else, however much PADDING follows |
| `Protection.MaskFirstInvolutive` | crates/librustls-mojo/src/quic.rs:427-473 | masking the first byte twice restores it and never touches the unprotected bits or the header form |
| `Protection.MaskFirstExact` | crates/librustls-mojo/src/quic.rs:427-473 | of the first byte exactly the low four bits of a long header and the low five of a short one are masked |
| `Protection.ProtectFrame` | crates/librustls-mojo/src/quic.rs:689-717 | header protection changes neither the sample nor anything but the first byte and the packet number, whose k-th byte is masked with byte k + 1 of the mask |
| `Protection.UnprotectProtect` | crates/librustls-mojo/src/quic.rs:479-525 | removing protection restores the packet, although the packet-number length is read only after the first byte is unmasked |
| `Protection.ProtectionUndoneIff` | crates/librustls-mojo/src/quic.rs:427-525 | protection is undone under every mask if and only if the packet number does not start at the first byte and the caller's slice is at least as long as that byte announces |
| `Packets.InitialSize` | conformance/tls-conformance/src/quic_packet.rs:231-279 | every Initial is exactly max(1200, unpadded size) bytes |
| `Packets.LengthIsMinimalVarint` | conformance/tls-conformance/src/quic_packet.rs:249-264 | the forced two-byte Length of an Initial is also the minimal varint, so the header is prefix plus minimal Length for every packet type |
| `Packets.ParseLongHeader` | conformance/tls-conformance/src/quic_packet.rs:293-314 | a parsed header always ends inside the buffer: payload offset plus Length never exceeds it |
| `Packets.ParseHeaderBytes` | conformance/tls-conformance/src/quic_packet.rs:293-314 | every long header of whatever type, version, connection IDs, token and Length is read back in full, even while the low bits of its first byte are masked |
| `Packets.ParseBuiltHeader` | conformance/tls-conformance/src/quic_packet.rs:293-314 | the same of the headers the builders write |
| `Packets.ParseExtends` | conformance/tls-conformance/src/quic_packet.rs:293-314 | a header that parses does so whatever follows |
| `Packets.ParseCut` | conformance/tls-conformance/src/quic_packet.rs:293-314 | a packet cut anywhere short of its Length's end does not parse |
| `Packets.SampleIsCiphertext` | conformance/tls-conformance/src/quic_packet.rs:283-288 | the sample is the 16 ciphertext bytes that follow a packet number taken to be four bytes long |
| `Packets.OpenSealed` | conformance/tls-conformance/src/lib.rs:782-818 | unprotecting and opening undoes sealing and protecting for every header, payload, working key suite and packet-number length from 1 to 4, for every packet number that fits |
| `Packets.CutPacketErrors` | conformance/tls-conformance/src/lib.rs:782-818 | a packet cut at its Length fails to open if and only if it lacks room for a sample or the AEAD refuses it, under the packet number its bytes carry |
| `Packets.TrySealWorks` | conformance/tls-conformance/src/lib.rs:690-717 | a working suite never fails to seal or mask, and yields the specified packet |
| `Packets.PacketNumberRecovered` | conformance/tls-conformance/src/lib.rs:1652-1686 | the receiver opens with the value of the packet-number bytes, the sender's number modulo 256^n, which is that number if and only if it is below 256^n |
| `Packets.LongRoundTrip` | conformance/tls-conformance/src/lib.rs:782-818 | a long-header packet of any type, version, token and packet-number length, followed by anything, parses to its fields and opens to what the AEAD makes of its ciphertext |
| `Packets.BuiltRoundTrip` | conformance/tls-conformance/src/quic_packet.rs:231-314 | a built long-header packet followed by anything parses back to its type, version and connection IDs, payload offset plus Length is its size, and it opens to its packet number and plaintext |
| `Packets.ProtectedHeader` | conformance/tls-conformance/src/quic_packet.rs:283-288 | in a protected packet every header byte before the packet number is readable, and the first byte keeps its form and type bits |
| `Packets.ShortRoundTrip` | conformance/tls-conformance/src/lib.rs:826-859 | a 1-RTT packet of any packet-number length opens to its packet number and payload when the connection ID length is known, and the connection ID stands in clear behind the first byte |
| `Packets.BuiltShortRoundTrip` | conformance/tls-conformance/src/lib.rs:728-771 | the same of the 1-RTT packets the builders make, with the fixed bit set |
| `Packets.PanicIff` | conformance/tls-conformance/src/lib.rs:327-360 | opening an uncut datagram slices backwards if and only if the Length is smaller than the unmasked packet-number length; a packet cut at its Length never does |
| `Packets.PanicHappens` | conformance/tls-conformance/src/lib.rs:327-360 | under every working suite, a datagram with Length 0 that reaches the backward slice |
| `Coalesced.WalkLoop` | conformance/tls-conformance/src/lib.rs:495-539 | the offset loop visits the packets of the recursive specification and stops for the same reason |
| `Coalesced.WalkBuilt` | conformance/tls-conformance/src/lib.rs:495-539 | for any list of long-header packets of any type, version and packet-number length and any trailing bytes, the walk yields exactly those slices in order, each opening to its packet number and payload or as the AEAD judges a forged ciphertext, then what the trailing bytes yield |
| `Keys.EncryptAdvances` | crates/librustls-mojo/src/quic.rs:333-357 | a slot is reported or sealed only under a fresh packet number, and `last_local_pn` moves only to that number |
| `Keys.ReportedIncreasing` | crates/librustls-mojo/src/quic.rs:333-357 | over every interleaving of single and batched calls the packet numbers reported as sealed are strictly increasing |
| `Keys.SealedIncreasing` | crates/librustls-mojo/src/quic.rs:756-799 | no packet number is ever run through the AEAD twice, over every run whose batched slots leave room for the tag |
| `Keys.ResealedIff` | crates/librustls-mojo/src/quic.rs:756-799 | a slot that reaches the AEAD is sealed again when its number is offered again, through either entry point, if and only if the first offer was batched and lacked room for the tag |
| `Keys.ReuseIff` | crates/librustls-mojo/src/quic.rs:756-799 | with working keys, no continuation of a run puts a number of the run through the AEAD again if and only if every batched slot sealed without room for the tag has been passed by a later recorded number |
| `Keys.ResealHappens` | crates/librustls-mojo/src/quic.rs:756-799 | under every working suite two batched offers of one number both run the AEAD |
| `Keys.StepsAgreeIff` | crates/librustls-mojo/src/quic.rs:333-357 | for one slot the two entry points differ if and only if it fails after the packet-number check, and then only in `last_local_pn` |
| `Keys.BatchIsSingles` | crates/librustls-mojo/src/quic.rs:292-367 | with room for the tag and a cipher that does not fail, a batch always equals the fold of single calls |
| `Keys.BatchIsSinglesIff` | crates/librustls-mojo/src/quic.rs:733-806 | every step of a batch, intermediate `last_local_pn` included, equals that of the single calls if and only if no slot fails after the packet-number check |
| `Keys.CodesAgreeIff` | crates/librustls-mojo/src/quic.rs:733-806 | the per-slot codes equal those of the single calls if and only if no slot succeeds at or below a number that failed late before it |
| `Keys.SameOutcomeIff` | crates/librustls-mojo/src/quic.rs:733-806 | codes and final `last_local_pn` equal those of the single calls if and only if, besides, every late failure is followed by a success above it |
| `Keys.SameOutcomeWorkingIff` | crates/librustls-mojo/src/quic.rs:733-806 | under a working suite that is a condition on the arguments alone: packet numbers, payload lengths and buffer lengths |
| `Keys.BatchDiffers` | crates/librustls-mojo/src/quic.rs:733-806 | under every working suite, a two-slot batch whose codes differ from those of its single calls |
| `KeyTable.KeysEntry.constructor` | crates/librustls-mojo/src/quic.rs:22-27 | a fresh entry has no last packet number |
| `KeyTable.KeysEntry.LocalEncrypt` | crates/librustls-mojo/src/quic.rs:333-357 | the in-place single seal: buffer, return code and `last_local_pn` after every success and every failure |
| `KeyTable.KeysEntry.BatchEncrypt` | crates/librustls-mojo/src/quic.rs:756-799 | the batch loop on one memory, buffers overlapping or not: every byte, every per-slot code, the success count and `last_local_pn` are those of running the slots left to right |
| `KeyTable.KeysEntry.BatchProtect` | crates/librustls-mojo/src/quic.rs:689-717 | the same for header protection, for any packet-number offset |
| `KeyTable.KeysEntry.BatchUnprotect` | crates/librustls-mojo/src/quic.rs:558-589 | the same for removing it; the outputs of a failed slot are -1 and an untouched first byte |
| `KeyTable.SweepFrame` | crates/librustls-mojo/src/quic.rs:667-806 | a batch changes no byte outside the areas of its slots |
| `KeyTable.SweepApart` | crates/librustls-mojo/src/quic.rs:667-806 | a slot that has its buffer to itself works on its original bytes, and what it leaves stays, whatever the other slots do |
| `KeyTable.SweepIsRun` | crates/librustls-mojo/src/quic.rs:756-799 | a sealing batch on separate buffers has the results, packet numbers and ciphertexts of the run of its slots, headers untouched |
| `KeyTable.SealedSlotOpens` | crates/librustls-mojo/src/quic.rs:756-799 | with a working suite a slot with its buffer to itself is sealed if and only if payload and tag fit and its number is above all recorded before; its buffer then opens to the payload it held; a refused slot is untouched, one without room for the tag has its payload overwritten and no number recorded |
| `KeyTable.HpSlotRoundTrip` | crates/librustls-mojo/src/quic.rs:536-723 | protecting a slot and unprotecting it with matching keys restores the packet and reports the length its first byte announced |
| `KeyTable.BatchRoundTrip` | crates/librustls-mojo/src/quic.rs:1328-1365 | a protecting batch followed by the unprotecting batch restores every accepted slot that has its buffer to itself, and reports its length, whatever the other slots are |
| `KeyTable.FirstsRestored` | crates/librustls-mojo/src/quic.rs:558-589 | the first byte written out for each such slot is the one its packet had, and a refused slot's entry keeps its old value |
| `KeyTable.ProtectedIff` | crates/librustls-mojo/src/quic.rs:689-717 | with a working suite a slot is protected and reports 0 if and only if it has room for a sample and a packet-number length of 1 to 4 |
| `KeyTable.UnprotectedIff` | crates/librustls-mojo/src/quic.rs:558-589 | with a working suite a slot is unprotected if and only if it has room for a sample, and reports a length of 1 to 4 |
| `KeyTable.ReturnedCodes` | crates/librustls-mojo/src/quic.rs:667-806 | a batch returns -1 for a failed slot and the length for another, and the number of slots that succeeded |
| `KeyTable.MemoryRestored` | crates/librustls-mojo/src/quic.rs:1328-1365 | when that holds of every slot the two batches restore the whole memory |
| `Builder.PacketBuilder.constructor` | conformance/tls-conformance/src/quic_packet.rs:187-191 | a builder starts at packet number 0, with connection IDs of any length |
| `Builder.PacketBuilder.EncodeLong` | conformance/tls-conformance/src/quic_packet.rs:231-279 | appending, padding, in-place sealing and in-place protection yield exactly the specified packet, or a panic: a Length too large, a packet number the key entry has seen, or a suite that fails |
| `Builder.PacketBuilder.Encode1Rtt` | conformance/tls-conformance/src/quic_packet.rs:208-227 | the same for 1-RTT packets |
| `Builder.BuildHandshakePacket` | conformance/tls-conformance/src/lib.rs:665-718 | yields the same bytes as `encode_handshake` for equal connection IDs, packet number and keys, or an error where the suite fails |
| `Builder.BuildShortPacket` | conformance/tls-conformance/src/lib.rs:728-771 | yields the same bytes as `encode_1rtt`, or an error where the suite fails |
| `Handshake.PumpShadows` | conformance/tls-conformance/src/lib.rs:1325-1361 | one call of the discarding pump keeps the keys and Initial counter of the sending pump and sends exactly its Initial-space packets, byte for byte, if and only if the sending pump was not stuck on a Handshake packet it could not seal |
| `Handshake.PumpsShadow` | conformance/tls-conformance/src/lib.rs:1325-1361 | the same over every engine behaviour and every way of spreading it over calls |
| `Handshake.PumpSplit` | conformance/tls-conformance/src/lib.rs:976-1022 | cutting a trace into several pump calls changes nothing as long as no quiet emission cuts a call short |
| `Handshake.PumpKeepsNumbers` | conformance/tls-conformance/src/lib.rs:976-1022 | each number space stays numbered from 0 without a gap or a repeat |
| `Handshake.FinishedIsSent` | conformance/tls-conformance/src/lib.rs:976-1022 | from the Handshake keys on, a sending pump call that no failed seal halts sends every emission up to the 1-RTT keys, one consecutively numbered Handshake packet each, and nothing after |
| `Handshake.InitialIsSent` | conformance/tls-conformance/src/lib.rs:988-1008 | from the start, either pump call that is not halted sends every emission up to the Handshake keys in one consecutively numbered Initial packet each; the sending pump then everything up to 1-RTT in Handshake packets, the discarding one nothing |
| `Handshake.PumpInstalls` | conformance/tls-conformance/src/lib.rs:1010-1021 | a pump call that is not halted leaves the client with the latest Handshake and 1-RTT keys handed over |
| `Handshake.SendHaltsIff` | conformance/tls-conformance/src/lib.rs:999-1008 | under a working suite a packet ends the run if and only if it does not fit its Length field or the Initial key entry has seen its number, and it panics in Initial space |
| `Handshake.PumpGoesOn` | conformance/tls-conformance/src/lib.rs:976-1022 | with working suites, output that fits Initial packets and numbers that have not run out, neither pump is ever halted |
| `Handshake.SendingGoesOn` | conformance/tls-conformance/src/lib.rs:976-1022 | with suites that work, nothing halts it |
| `Handshake.PumpIsTrace` | conformance/tls-conformance/src/lib.rs:976-1022 | pumping the engine is pumping the list of its emissions until it falls quiet, and feeds it nothing |
| `Handshake.DiscardingIsSilent` | conformance/tls-conformance/src/lib.rs:1325-1361 | from the Handshake keys on the discarding pump sends nothing |
| `Handshake.PumpSpaces` | conformance/tls-conformance/src/lib.rs:976-1022 | no pump sends in 1-RTT space, the discarding pump not in Handshake space either, after a 1-RTT packet only Initial packets are sent, and the bytes on the wire stay those of the packets recorded |
| `Handshake.AssembledReadable` | conformance/tls-conformance/src/lib.rs:782-859 | an assembled packet opens, under a suite that works, to its packet number and exactly its CRYPTO frame and padding |
| `Handshake.AssembledSeen` | conformance/tls-conformance/src/lib.rs:665-771 | a receiver that honours offsets reads off every assembled packet its number space, its packet number and one CRYPTO frame at offset 0 with all the data |
| `Handshake.SpaceOnWire` | conformance/tls-conformance/src/lib.rs:1609-1646 | the number space of every packet on the wire can be told from its bytes without any key |
| `Harness.Harness.constructor` | conformance/tls-conformance/src/lib.rs:1399-1418 | the first flight: ClientHello in Initial 0, or one of the three ways to end before it |
| `Harness.Harness.PumpWriteHs` | conformance/tls-conformance/src/lib.rs:976-1022 | the sending pump's loop against an arbitrary engine, building every packet: keys, counters, packets and bytes sent, calls made, and the panic or error on a packet that cannot be built |
| `Harness.Harness.PumpDiscardingFinished` | conformance/tls-conformance/src/lib.rs:1325-1361 | the discarding pump's loop, likewise |
| `Harness.Harness.SendHandshake` | conformance/tls-conformance/src/lib.rs:999-1008 | one Handshake packet, built and sent, or an error and nothing sent |
| `Harness.Harness.ReceiveDatagram` | conformance/tls-conformance/src/lib.rs:1456-1508 | the walk over any datagram bytes: parse, pump ahead of a Handshake packet without keys, open, scan into the engine, with every way to end |
| `Harness.Harness.InjectAdversarial` | conformance/tls-conformance/src/lib.rs:1609-1646 | one injection builds and sends one packet in the requested space and sets the flag; without the keys, or if the suite fails, the run ends and the flag stays |
| `Harness.Harness.Iterate` | conformance/tls-conformance/src/lib.rs:1424-1547 | one pass of the loop of either driver |
| `Harness.Harness.DriveLoop` | conformance/tls-conformance/src/lib.rs:1112-1198 | the receive loops, for any list of datagrams and timeouts, reach exactly the specified session |
| `Driver.AdvanceInv` | conformance/tls-conformance/src/lib.rs:1424-1547 | every pass keeps: at most one injected packet, gapless numbering, nothing but Initial packets after a 1-RTT one, and injected as soon as the epoch's keys are there |
| `Driver.RunInv` | conformance/tls-conformance/src/lib.rs:1374-1547 | over every run, on any datagram bytes, with any engine and any suites: at most one injected packet, number 0, the given bytes; in Handshake mode it is the only Handshake-space packet, so the natural Finished never appears; in 1-RTT mode every Handshake-space packet precedes it |
| `Driver.DatagramsReadable` | conformance/tls-conformance/src/lib.rs:1374-1646 | over every run: each datagram sent was sealed with the Initial keys or with keys the engine handed over for its space, and in a run of at most 2^32 packets a peer whose matching suite works opens it to exactly the packet number recorded and one CRYPTO frame at offset 0 with the data recorded |
| `Driver.FirstFlight` | conformance/tls-conformance/src/lib.rs:1399-1411 | a run begins with the whole ClientHello in one Initial of at least 1200 bytes, packet number 0, offset 0; an engine with nothing to say, one with keys at once and a ClientHello that does not fit end the run, each its own way, with nothing sent |
| `Driver.FinishedRunLeaves` | conformance/tls-conformance/src/lib.rs:1424-1430 | once the engine has finished its handshake and the packet to inject is out, the next pass leaves the loop whatever comes in and sends nothing |
| `Driver.LoopLeftWhenDone` | conformance/tls-conformance/src/lib.rs:1424-1451 | over every run, an injecting driver leaves its loop only when the engine has finished its handshake and the packet is out, the plain one only when the engine has finished or a timeout came |
| `Driver.RunStays` | conformance/tls-conformance/src/lib.rs:1112-1198 | a run that is over stays as it is, whatever comes in |
| `Driver.TimeoutNeverSends` | conformance/tls-conformance/src/lib.rs:1434-1451 | over every run a timeout sends nothing; it leaves the loop in the plain driver or when the loop is left anyway, it ends the run with an error if and only if a 1-RTT injection waits between the Handshake and the 1-RTT keys, and otherwise changes nothing |
| `Flights.TimeoutEndsARun` | conformance/tls-conformance/src/lib.rs:1434-1451 | that window is reached: one empty datagram and a timeout end a run |
| `Flights.ReceiveSpecs` | conformance/tls-conformance/src/lib.rs:1126-1187 | a datagram that starts with any list of peer packets the session has keys for: it takes them one by one up to the first verdict, 0-RTT and Retry packets passed over, and goes on with the rest of the bytes |
| `Flights.TrailingBytes` | conformance/tls-conformance/src/lib.rs:1126-1141 | bytes behind the packets: a short header ends the walk, bytes that do not parse end the run |
| `Flights.VerdictEndsRun` | conformance/tls-conformance/src/lib.rs:1181-1187 | over every run: a packet that carries a close after any frames, a refused chunk or a cut frame, or that the AEAD rejects, ends the run with exactly that close or error; what stands before it is heard, nothing behind it or later is looked at, nothing more is sent |
| `Flights.FlightDelivered` | conformance/tls-conformance/src/lib.rs:1126-1187 | a coalesced Initial and Handshake flight of any contents, from its bytes on and with anything behind it: with Handshake keys handed over after the Initials' CRYPTO all of it reaches the engine in order, up to the first verdict; otherwise the run stops with the engine having heard exactly the Initials' CRYPTO |
| `Flights.FlightVerdictEndsRun` | conformance/tls-conformance/src/lib.rs:1456-1508 | over every run, a close or error in either part of such a flight is the verdict of the run and it stays there |
| `Flights.FlightAnswered` | conformance/tls-conformance/src/lib.rs:1189-1197 | one pass answers such a flight: everything emitted up to the Handshake keys in Initial packets, then the client's whole Finished, the injected packet in its place, or both in that order, by mode; only a packet that cannot be built prevents it, and with working suites none does |
| `Flights.SealFailureEndsARun` | conformance/tls-conformance/src/lib.rs:999-1008 | a suite that cannot seal ends a run, with nothing sent in its epoch |
| `Flights.WireStream` | conformance/tls-conformance/src/lib.rs:976-1022 | over every run with working suites, what a receiver that honours offsets reads off the wire in a number space is the data of the packets sent there, in order, every chunk at offset 0 |
| `Flights.SentStreamIff` | conformance/tls-conformance/src/lib.rs:976-1022 | so in a space the driver does not inject into the frames on the wire give it the stream the engine emitted if and only if at most one packet was sent there |
| `Flights.FlightArrives` | conformance/tls-conformance/src/lib.rs:1126-1187 | such flights exist from the first state of a run on, with one-byte packet numbers and any Handshake contents |
| `Handles.Counter.Allocate` | crates/librustls-mojo/src/handles.rs:27-38 | the fetch, the wrap-around and the pin compute the specified handle and counter |
| `Handles.HandleTable.Insert` | crates/librustls-mojo/src/handles.rs:57-61 | stores the value under the new handle, or nothing when the counter is exhausted |
| `Handles.HandleTable.With` | crates/librustls-mojo/src/handles.rs:65-68 | the closure's result on the stored value, or None |
| `Handles.HandleTable.WithMut` | crates/librustls-mojo/src/handles.rs:72-75 | updates exactly the one entry and returns the closure's result, or None |
| `Handles.HandleTable.Remove` | crates/librustls-mojo/src/handles.rs:78-80 | returns and removes exactly the one entry |
| `Handles.NthHandleExact` | crates/librustls-mojo/src/handles.rs:27-38 | the result of every call ever: 1, 2, ... up to the largest 32-bit integer, then None and that integer in alternation |
| `Handles.DistinctIff` | crates/librustls-mojo/src/handles.rs:22-38 | the handles of the first n calls are pairwise distinct if and only if n is at most 2^31 |
| `Handles.StepInv` | crates/librustls-mojo/src/handles.rs:57-80 | every atomic step of every thread keeps: an issued handle is held by one thread, or in one table, or gone, never two of these |
| `Handles.RunInv` | crates/librustls-mojo/src/handles.rs:57-80 | the same over every interleaving with at most 2^31 allocations |
| `Handles.IssuedDistinct` | crates/librustls-mojo/src/handles.rs:27-38 | over every such interleaving, across all tables, the handles issued are positive and pairwise distinct |
| `Handles.LookupStable` | crates/librustls-mojo/src/handles.rs:65-75 | a value stays under its handle until that key is updated or removed, whatever other threads do |
| `Handles.InsertThenLookup` | crates/librustls-mojo/src/handles.rs:57-75 | an insertion makes its value available under the handle it drew from its publication on, whatever other threads do between and after, until that key is updated or removed |
| `Handles.InsertIsSteps` | crates/librustls-mojo/src/handles.rs:57-61 | uninterrupted, the atomic steps are `HandleTable.Insert`: same handle, counter and table, other tables untouched |
| `Handles.RemovedForever` | crates/librustls-mojo/src/handles.rs:78-80 | a removed key never resolves again |
| `Connection.QuicConnEntry.constructor` | crates/librustls-mojo/src/quic_hs.rs:497-506 | a fresh connection has nothing pending and nothing captured |
| `Connection.QuicConnEntry.WriteHs` | crates/librustls-mojo/src/quic_hs.rs:548-591 | the pending guard, the short-buffer failure and the two key changes, with the whole new state |
| `Connection.QuicConnEntry.ReadHs` | crates/librustls-mojo/src/quic_hs.rs:632-681 | the server-side ingress hook, filling a fixed 38-byte array in place, and the cached alert |
| `Connection.QuicConnEntry.TakeKeys` | crates/librustls-mojo/src/quic_hs.rs:723-748 | empties the slot and stores its keys under the returned handle; the keys leave the slot even when no handle is left |
| `Connection.QuicConnEntry.TakeNextKeys` | crates/librustls-mojo/src/quic_hs.rs:767-823 | consumes the 1-RTT secrets and stores the derived keys under the returned handle |
| `Connection.QuicConnEntry.TakeAlert` | crates/librustls-mojo/src/quic_hs.rs:694-703 | returns the cached alert once |
| `Connection.QuicConnEntry.ReplayAuthenticator` | crates/librustls-mojo/src/quic_hs.rs:1203-1251 | 0 with the captured random, 1 before capture, -1 on a client |
| `Connection.PlayBalanced` | crates/librustls-mojo/src/quic_hs.rs:548-748 | over every run, with any buffers and any counter: changes reported are those taken, in order, plus the 0 or 1 pending; every change emitted is reported or lost; `take_next_keys` succeeds no more often than 1-RTT changes were reported |
| `Connection.PlayAnswers` | crates/librustls-mojo/src/quic_hs.rs:548-748 | over every run: a `write_hs` that succeeds returns the engine's bytes and kind 0, 1 or 2 exactly for no change, Handshake and 1-RTT keys; it fails exactly while a reported change waits or the buffer is short; what waits is the last change reported under its kind; the takes get something only while something waits; the alert call returns the alert of the latest failed `read_hs`, or 50, once |
| `Connection.NoKeyLostIff` | crates/librustls-mojo/src/quic_hs.rs:563-569 | every key the engine produced ends behind a handle or in the slot, in order, if and only if no `write_hs` met a buffer too short for output carrying a change and no `take_keys` met an exhausted counter |
| `Connection.KeyLostHappens` | crates/librustls-mojo/src/quic_hs.rs:563-569 | a two-call run that loses a key |
| `Connection.PlayHandles` | crates/librustls-mojo/src/quic_hs.rs:723-823 | as long as there is a handle for every draw from the shared counter, here or elsewhere, down to the last one: neither take fails for want of one, and the handles they return are positive and strictly increasing |
| `Connection.AccumulateCaptures` | crates/librustls-mojo/src/quic_hs.rs:632-654 | one call extends what has been captured exactly as its bytes extend the stream |
| `Connection.PlayCaptures` | crates/librustls-mojo/src/quic_hs.rs:632-654 | for every chunking and every run on a server: the random is present if and only if at least 38 bytes arrived and the first is 0x01, and it is bytes 6 to 38 of the concatenation |
| `Connection.CaptureIsFinal` | crates/librustls-mojo/src/quic_hs.rs:632-654 | once captured, the random never changes, whatever calls follow |
| `Connection.ClientNeverCaptures` | crates/librustls-mojo/src/quic_hs.rs:632-654 | a client connection captures nothing, over every run |
| `Decompress.GzipState.constructor` | crates/libcompress-mojo/src/zlib_wrapper.c:32-52 | counters start at zero |
| `Decompress.GzipState.CheckCaps` | crates/libcompress-mojo/src/zlib_wrapper.c:56-76 | the cap code in the source's order, with the 64-bit product |
| `Decompress.GzipState.Feed` | crates/libcompress-mojo/src/zlib_wrapper.c:84-120 | the whole new state and return code, for any answer of zlib to the 32-bit lengths it is handed |
| `Decompress.GzipState.Finish` | crates/libcompress-mojo/src/zlib_wrapper.c:123-149 | likewise, including the test on the input zlib left unread |
| `Decompress.BrotliState.constructor` | crates/libcompress-mojo/src/brotli_wrapper.c:25-41 | counters start at zero |
| `Decompress.BrotliState.CheckCaps` | crates/libcompress-mojo/src/brotli_wrapper.c:43-59 | the cap code in the source's order, with the 64-bit product |
| `Decompress.BrotliState.Feed` | crates/libcompress-mojo/src/brotli_wrapper.c:61-99 | the whole new state and return code, for any answer of brotli |
| `Decompress.BrotliState.Finish` | crates/libcompress-mojo/src/brotli_wrapper.c:101-132 | likewise |
| `Decompress.CastExactIff` | crates/libcompress-mojo/src/zlib_wrapper.c:102-114 | the count returned is the number of bytes produced, and the input counted is the input handed over, if and only if the length survives the cast to the library's type |
| `Decompress.RatioSound` | crates/libcompress-mojo/src/zlib_wrapper.c:65-74 | the ratio test never admits too much: exceeding the ratio is noticed even when the product wraps |
| `Decompress.RatioExactIff` | crates/libcompress-mojo/src/zlib_wrapper.c:65-74 | the test is exactly 100*out > ratio*in for every output count if and only if in*ratio is below 2^64 |
| `Decompress.SmallInputCapIsExact` | crates/libcompress-mojo/src/zlib_wrapper.c:56-76 | an input cap below 2^32 keeps the product below 2^64 |
| `Decompress.PlayWithinCaps` | crates/libcompress-mojo/src/zlib_wrapper.c:84-149 | over every run and every decoder, until a call fails: output and input caps hold of what was delivered and read; `out_total` is exact if and only if no buffer length was cut; the library has read exactly the bytes given if and only if no input length was cut and nothing was left over; and then the ratio cap holds too |
| `Decompress.PlayFollowsAnswers` | crates/libcompress-mojo/src/zlib_wrapper.c:84-149 | over every run without a failure, by the calls and answers alone: the stream is finished if and only if some answer has ended it; input given and output delivered are those of exactly the calls up to that one, and of the one zlib finish that takes up unread input |
| `Decompress.CallReturns` | crates/libcompress-mojo/src/zlib_wrapper.c:84-149 | the return code of every call up to the first failure: 0 and no change after the end, -2, -1, -3 or -4 if and only if input cap, library, output cap or ratio says so, in that order, else the bytes written |
| `Decompress.RatioEscapes` | crates/libcompress-mojo/src/zlib_wrapper.c:96-105 | a feed of 2^32 + 1024 bytes, and a feed of a mebibyte left unread after 1024, that pass a 1:1 ratio cap at 1024:1 |
| `Decompress.ReadsPrefix` | crates/libcompress-mojo/src/zlib_wrapper.c:102-107 | what a call reads is a prefix of its own input, and the rest is not offered again |
| `Decompress.LeftoverUnseen` | crates/libcompress-mojo/src/zlib_wrapper.c:107-119 | neither the return code nor a counter shows what was left unread |
| `Decompress.FirstFailureBound` | crates/libcompress-mojo/src/brotli_wrapper.c:61-132 | up to and including the first failing call, a fatal one too, total output is at most the output cap plus that call's buffer |
| `ClientHello.BuildSchemesBody` | conformance/tls-conformance/src/raw_client_hello.rs:140-153 | the loop yields the two-byte length and the five schemes |
| `ClientHello.AppendExtension` | conformance/tls-conformance/src/raw_client_hello.rs:85-89 | appends code, length and body |
| `ClientHello.Build` | conformance/tls-conformance/src/raw_client_hello.rs:181-239 | the step-by-step assembly yields the specified message, and an error exactly for an empty name or an empty protocol |
| `ClientHello.ReadExtensionsBuilt` | conformance/tls-conformance/src/raw_client_hello.rs:85-89 | an independent reader inverts any list of pushed extensions whose codes and bodies fit two bytes |
| `ClientHello.MessageSize` | conformance/tls-conformance/src/raw_client_hello.rs:181-239 | the message is 136 bytes plus name plus protocol, whatever they are |
| `ClientHello.ReadAlpnIff` | conformance/tls-conformance/src/raw_client_hello.rs:107-114 | the protocol list reads back as the one protocol if and only if that is shorter than 256 bytes |
| `ClientHello.ReadBodyIff` | conformance/tls-conformance/src/raw_client_hello.rs:189-231 | the body reads back to its fields and exactly the six extensions if and only if name and protocol together are at most 65446 bytes, and is rejected otherwise |
| `ClientHello.UnderstoodIff` | conformance/tls-conformance/src/raw_client_hello.rs:181-239 | a reader following RFC 8446 that looks extensions up by code point finds TLS 1.3, the cipher suite, x25519 with 32 zero bytes, the five signature schemes, the server name, the one protocol and nothing else, if and only if the protocol is at most 255 bytes and name and protocol together at most 65446 |
| `ClientHello.NoTransportParameters` | conformance/tls-conformance/src/raw_client_hello.rs:211-228 | for every name and protocol, a reader that accepts the message finds six extensions and no 0x0039 among them |
| `ClientHello.RandomIsCaptured` | crates/librustls-mojo/src/quic_hs.rs:632-654 | a server fed this message, cut into calls in any way and followed by anything, captures exactly its random |
| `TransportParams.OraclesAgree` | conformance/scripts/oracle_quic_transport_params.py:31-44 | the generators' three encoders give the bytes of the harness's entry encoder |
| `TransportParams.WalkLoop` | conformance/tls-conformance/src/lib.rs:1961-1973 | the cursor walk returns the entries of the specification, or reports the input it would panic on |
| `TransportParams.WalkEncoded` | conformance/tls-conformance/src/lib.rs:1833-1837 | walking any concatenation of entries returns exactly the list that built it |
| `TransportParams.WalkCut` | conformance/tls-conformance/src/lib.rs:1961-1973 | a block whose last entry is cut short anywhere makes the walk panic |
| `TransportParams.EncodeInjective` | conformance/tls-conformance/src/lib.rs:1833-1837 | no two different parameter lists share a block |

## Left out

- The Mojo protocol code in `navette/`: not part of this model. The server that captures ClientHello.random receives its packets there, so the capture is stated on the calls of the FFI.
- rustls, aws-lc-rs, zlib, brotli and quiche themselves: arbitrary functions here.
- Sockets, send errors, deadlines and environment variables: a run is a list of receive results of any length, and `send_to` succeeds. Building a packet may fail.
- The drain phases after a handshake or an injection send nothing and are not modelled; `drive_handshake_initial_inner` and the raw-ClientHello driver are modelled by their scanners, their walk and their opening step, not as loops.
- The 1100-byte refusal at the entry of the injection driver: one branch; the driver is modelled for injected bytes of any length.
- Null pointers, negative 32-bit lengths and invalid handles at the FFI boundary: single-branch facts.
- `usize` overflow in cursor arithmetic: positions are unbounded integers; a decoded varint is below 2^62, so no sum overflows 64 bits.
- `rlsm_keys_remote_decrypt`, `rlsm_keys_batch_decrypt`, key derivation, 0-RTT accessors, configuration and TCP forwarding: thin wrappers over rustls.
- The build without locks in `handles.rs`, the thread-local error strings and the timing outputs of `read_hs`.
- `parse_short_header` as a function of its own: its test is part of `OpenShort`.
- The concrete parameter blocks of the scenarios: any list of entries is covered.
- UTF-8 decoding of a close reason: the reason is kept as raw bytes.
- Random bytes: the ClientHello's random is an argument.
- Packets.OpenSealed: stated for packet numbers that fit their bytes, because otherwise the receiver opens with a different number (see PacketNumberRecovered).
- KeyTable.KeysEntry.BatchEncrypt: pointers stay inside one memory, as the FFI contract demands; a failed seal is taken to leave its buffer unchanged.
- KeyTable.KeysEntry.BatchProtect: at packet-number offset 0 the Rust code holds two mutable references to one byte; the model takes the writes in program order.
- KeyTable.KeysEntry.BatchUnprotect: likewise.
- KeyTable.BatchRoundTrip: for a slot with its buffer to itself that both calls treat alike (`Restorable`); a slot refused only by the first call is unprotected by the second, as the batch methods say.
- Builder.PacketBuilder.EncodeLong: the suite's sizes are fixed (16-byte tag, 5-byte mask), and outside Initial space a vector whose length needs more than 62 bits does not exist.
- Driver.RunInv: assumes an engine that falls quiet when drained (`Tls.Valid`), without which the source's pump does not return.
- Harness.Harness.SendHandshake: a packet too long for its Length field halts the model where the source would have run out of memory.
- Flights.WireStream: at most 2^32 packets per run, because packet numbers repeat on the wire after that.
- Handles.IssuedDistinct: stated up to 2^31 allocations, because the code repeats a handle after that (see DistinctIff).
- Decompress.PlayWithinCaps: buffers offered and input given sum to less than 2^64 over the run; the result's cast to a signed 64-bit integer is not modelled.
- Decompress.BrotliState.Feed: takes the specification state as a ghost argument, because brotli keeps no count of unread input.
