/**
 The packet assemblers: the stateful `PacketBuilder` over a key-table entry, and the two
 free-standing builders that use the TLS library's keys directly. All are proved to emit the
 packets of module `Packets`.
 */
module Builder {
  import opened Bytes
  import opened Protection
  import opened Packets
  import opened Keys
  import opened KeyTable
  import V = Varint

  /** The CRYPTO frame every assembler starts from. */
  method AssembleCrypto(crypto: seq<byte>) returns (qp: seq<byte>)
    requires |crypto| < V.LIMIT
    ensures qp == CryptoPayload(crypto)
  {
    qp := [0x06];
    qp := V.EncodeVarint(0, qp);
    qp := V.EncodeVarint(|crypto|, qp);
    qp := qp + crypto;
  }

  /** The long header up to the Length field. */
  method AssemblePrefix(packetType: nat, dcid: seq<byte>, scid: seq<byte>) returns (h: seq<byte>)
    requires packetType < 4
    ensures h == HeaderPrefix(packetType, dcid, scid)
  {
    h := [0xC0 + 0x10 * packetType + (PN_LEN - 1)];
    h := h + BigEndian(1, 4);
    h := h + [|dcid| % 0x100];
    h := h + dcid;
    h := h + [|scid| % 0x100];
    h := h + scid;
    ghost var before := h;
    if packetType == INITIAL { h := V.EncodeVarint(0, h); }
    PrefixParts(packetType, dcid, scid, before, h);
  }

  lemma PrefixParts(packetType: nat, dcid: seq<byte>, scid: seq<byte>, before: seq<byte>, h: seq<byte>)
    requires packetType < 4
    requires before == [0xC0 + 0x10 * packetType + (PN_LEN - 1)] + BigEndian(1, 4) + [|dcid| % 0x100] + dcid
                       + [|scid| % 0x100] + scid
    requires h == if packetType == INITIAL then before + V.Encode(0) else before
    ensures h == HeaderPrefix(packetType, dcid, scid)
  {
    hide BigEndian;
    hide V.Encode;
    var first, version := [0xC0 + 0x10 * packetType + (PN_LEN - 1)], BigEndian(1, 4);
    var d, s := [|dcid| % 0x100], [|scid| % 0x100];
    var field := if packetType == INITIAL then V.Encode(0) + [] else [];
    assert h == before + field;
    Assoc(first + version + d + dcid + s, scid, field);
    Assoc(first + version + d + dcid, s, scid + field);
    Assoc(first + version + d, dcid, s + (scid + field));
    Assoc(first + version, d, dcid + (s + (scid + field)));
    Assoc(first, version, d + (dcid + (s + (scid + field))));
  }

  /** Sealing in place, on a buffer that is plaintext and room for the tag. */
  lemma SealsWhole(last: Option<nat>, pn: nat, header: seq<byte>, plaintext: seq<byte>, keys: DirectionalKeys)
    requires keys.WellSized() && Fresh(last, pn)
    ensures var t := Encrypt(Single, last, Slot(pn, header, plaintext + Zeros(TAG_LEN), |plaintext|), keys);
            var ct := keys.seal(pn, header, plaintext);
            t.last == Some(pn) && (t.result.Some? <==> ct.Some?) && (ct.Some? ==> t.buf == ct.value)
  {
    var room := plaintext + Zeros(TAG_LEN);
    assert room[..|plaintext|] == plaintext;
    var ct := keys.seal(pn, header, plaintext);
    if ct.Some? { assert ct.value + room[|ct.value|..] == ct.value; }
  }

  /** Protecting in place, a packet that fills its buffer. */
  lemma ProtectsWhole(plain: seq<byte>, pnOffset: nat, keys: DirectionalKeys)
    requires keys.WellSized() && pnOffset + 4 + SAMPLE_LEN <= |plain|
    ensures var r := ProtectSlot(HpSlot(plain, pnOffset, PN_LEN), keys);
            match keys.mask(Sample(plain, pnOffset))
            case None => !r.1
            case Some(m) => r.1 && |m| == 5 && Patch(plain, 0, r.0) == Protect(plain, pnOffset, PN_LEN, m)
  {
    hide Protect;
  }

  class PacketBuilder {
    var dcid: seq<byte>
    var scid: seq<byte>
    var packetNumber: nat

    constructor (dcid: seq<byte>, scid: seq<byte>)
      ensures this.dcid == dcid && this.scid == scid && packetNumber == 0
    {
      this.dcid, this.scid, packetNumber := dcid, scid, 0;
    }

    /** Seal `plaintext` behind `h` and the packet number, protect, and move to the next number. None is
        the source's panic: the key entry refuses the number, or sealing or masking fails. */
    method Finish(h: seq<byte>, plaintext: seq<byte>, keys: KeysEntry) returns (pkt: Option<seq<byte>>)
      requires keys.local.WellSized() && h != []
      modifies `packetNumber, keys`lastLocalPn
      ensures pkt == if !Fresh(old(keys.lastLocalPn), old(packetNumber)) then None
                     else TrySeal(h, old(packetNumber), plaintext, keys.local)
      ensures keys.lastLocalPn == if Fresh(old(keys.lastLocalPn), old(packetNumber)) then Some(old(packetNumber))
                                  else old(keys.lastLocalPn)
      ensures packetNumber == if pkt.Some? then (old(packetNumber) + 1) % U64 else old(packetNumber)
    {
      hide Encrypt;
      hide ProtectSlot;
      hide Protect;
      hide Patch;
      hide BigEndian;
      var pn := packetNumber;
      var header := h + BigEndian(pn, PN_LEN);
      var room := plaintext + Zeros(TAG_LEN);
      var body := new byte[|room|](i requires 0 <= i < |room| => room[i]);
      assert body[..] == room;
      if Fresh(keys.lastLocalPn, pn) {
        SealsWhole(keys.lastLocalPn, pn, header, plaintext, keys.local);
      } else {
        RefusesStale(keys.lastLocalPn, Slot(pn, header, room, |plaintext|), keys.local);
      }
      var rc := keys.LocalEncrypt(pn, header, body, |plaintext|);
      if rc < 0 { return None; }
      var plain := header + body[..];
      var a := new byte[|plain|](i requires 0 <= i < |plain| => plain[i]);
      assert a[..] == plain && plain[0..|plain|] == plain;
      ProtectsWhole(plain, |h|, keys.local);
      var ok := keys.ProtectAt(a, 0, a.Length, |h|, PN_LEN);
      if !ok { return None; }
      packetNumber := (packetNumber + 1) % U64;
      pkt := Some(a[..]);
    }

    /** `encode_long`; None is a panic, on an Initial too long for its Length field too. */
    method EncodeLong(packetType: nat, crypto: seq<byte>, keys: KeysEntry) returns (pkt: Option<seq<byte>>)
      requires packetType < 4 && |crypto| < V.LIMIT && keys.local.WellSized()
      requires packetType != INITIAL ==> Buildable(packetType, dcid, scid, crypto)
      modifies `packetNumber, keys`lastLocalPn
      ensures var built := Buildable(packetType, dcid, scid, crypto);
              var usable := built && Fresh(old(keys.lastLocalPn), old(packetNumber));
              && pkt == (if !usable then None
                         else TrySeal(HeaderToPn(packetType, dcid, scid, crypto), old(packetNumber),
                                      Plaintext(packetType, dcid, scid, crypto), keys.local))
              && keys.lastLocalPn == (if usable then Some(old(packetNumber)) else old(keys.lastLocalPn))
      ensures packetNumber == if pkt.Some? then (old(packetNumber) + 1) % U64 else old(packetNumber)
    {
      hide HeaderPrefix;
      hide CryptoPayload;
      hide TrySeal;
      hide V.Encode;
      var qp := AssembleCrypto(crypto);
      var h := AssemblePrefix(packetType, dcid, scid);
      if packetType == INITIAL {
        var total := |h| + 2 + (PN_LEN + |qp| + TAG_LEN);
        if total < INITIAL_MIN_BYTES {
          qp := qp + Zeros(INITIAL_MIN_BYTES - total);
        } else {
          assert qp + Zeros(0) == qp;
        }
      }
      assert qp == Plaintext(packetType, dcid, scid, crypto);
      var length := PN_LEN + |qp| + TAG_LEN;
      if packetType == INITIAL {
        if length >= 0x4000 { return None; }
        h := h + TwoByteLength(length);
      } else {
        h := V.EncodeVarint(length, h);
      }
      assert h == HeaderToPn(packetType, dcid, scid, crypto);
      pkt := Finish(h, qp, keys);
    }

    /** `encode_1rtt` */
    method Encode1Rtt(payload: seq<byte>, keys: KeysEntry) returns (pkt: Option<seq<byte>>)
      requires keys.local.WellSized()
      modifies `packetNumber, keys`lastLocalPn
      ensures pkt == if !Fresh(old(keys.lastLocalPn), old(packetNumber)) then None
                     else TrySeal(ShortHeaderToPn(dcid), old(packetNumber), payload, keys.local)
      ensures packetNumber == if pkt.Some? then (old(packetNumber) + 1) % U64 else old(packetNumber)
    {
      var h := [0x40 + (PN_LEN - 1)];
      h := h + dcid;
      pkt := Finish(h, payload, keys);
    }
  }

  lemma RefusesStale(last: Option<nat>, s: Slot, keys: DirectionalKeys)
    requires keys.WellSized() && !Fresh(last, s.pn)
    ensures var t := Encrypt(Single, last, s, keys); t.last == last && t.result == None
  {
  }

  /** Seal and protect with the TLS library's keys; None is an error, from sealing, from masking, or
      from a packet with no room for a sample. */
  method SealAndProtect(h: seq<byte>, pn: nat, plaintext: seq<byte>, keys: DirectionalKeys)
    returns (pkt: Option<seq<byte>>)
    requires h != []
    ensures pkt == TrySeal(h, pn, plaintext, keys)
  {
    var header := h + BigEndian(pn, PN_LEN);
    var ct := keys.seal(pn, header, plaintext);
    if ct.None? { return None; }
    var p := header + ct.value;
    var so := |h| + 4;
    if |p| < so + 16 { return None; }
    var m := keys.mask(p[so..so + 16]);
    if m.None? || |m.value| != 5 { return None; }
    pkt := Some(Protect(p, |h|, PN_LEN, m.value));
  }

  /** `build_handshake_packet`: the same bytes as the builder's Handshake packet, or an error. */
  method BuildHandshakePacket(dcid: seq<byte>, scid: seq<byte>, pn: nat, crypto: seq<byte>, keys: DirectionalKeys)
    returns (pkt: Option<seq<byte>>)
    requires Buildable(HANDSHAKE, dcid, scid, crypto)
    ensures pkt == TrySeal(HeaderToPn(HANDSHAKE, dcid, scid, crypto), pn,
                           Plaintext(HANDSHAKE, dcid, scid, crypto), keys)
    ensures keys.Valid() ==> pkt == Some(LongPacket(HANDSHAKE, dcid, scid, pn, crypto, keys))
  {
    hide TrySeal;
    var qp := AssembleCrypto(crypto);
    var h := AssemblePrefix(HANDSHAKE, dcid, scid);
    h := V.EncodeVarint(PN_LEN + |qp| + TAG_LEN, h);
    pkt := SealAndProtect(h, pn, qp, keys);
    if keys.Valid() { TrySealWorks(h, pn, qp, keys); }
  }

  /** `build_short_header_crypto_packet`: the same bytes as the builder's 1-RTT packet, or an error. */
  method BuildShortPacket(dcid: seq<byte>, pn: nat, frame: seq<byte>, keys: DirectionalKeys)
    returns (pkt: Option<seq<byte>>)
    ensures pkt == TrySeal(ShortHeaderToPn(dcid), pn, frame, keys)
    ensures keys.Valid() ==> pkt == Some(ShortPacket(dcid, pn, frame, keys))
  {
    hide TrySeal;
    var h := [0x40 + (PN_LEN - 1)] + dcid;
    pkt := SealAndProtect(h, pn, frame, keys);
    if keys.Valid() { TrySealWorks(h, pn, frame, keys); }
  }
}
