/**
 Coalesced datagrams (section 12.2 of RFC 9000): walking one header by header, and what the walk
 makes of a datagram of a peer's packets.
 */
module Coalesced {
  import opened Bytes
  import opened Protection
  import opened Packets
  import opened Contents
  import V = Varint

  /** One packet cut out of a datagram. */
  datatype Slice = Slice(header: LongHeader, bytes: seq<byte>)

  datatype End = Exhausted | ShortHeader | Malformed

  datatype Walked = Walked(packets: seq<Slice>, end: End)

  /** The packets the walk visits, in order, and why it stops. A packet that parses always fits,
      so the source's "coalesced packet truncated" branch is never taken. */
  function Walk(d: seq<byte>): (r: Walked)
    decreases |d|
  {
    if d == [] then Walked([], Exhausted)
    else if d[0] < 0x80 then Walked([], ShortHeader)
    else
      match ParseLongHeader(d)
      case None => Walked([], Malformed)
      case Some(h) =>
        var n := h.payloadOffset + h.length;
        var w := Walk(d[n..]);
        Walked([Slice(h, d[..n])] + w.packets, w.end)
  }

  /** One step of the walk, after any packets already visited. */
  lemma WalkStep(d: seq<byte>, h: LongHeader, before: seq<Slice>)
    requires d != [] && d[0] >= 0x80 && ParseLongHeader(d) == Some(h)
    ensures var n := h.payloadOffset + h.length;
            var w, w' := Walk(d), Walk(d[n..]);
            before + w.packets == (before + [Slice(h, d[..n])]) + w'.packets && w.end == w'.end
  {
    hide Walk;
    var n := h.payloadOffset + h.length;
    WalkFirst(d, h);
    Regroup(before, Slice(h, d[..n]), Walk(d[n..]).packets);
  }

  lemma WalkFirst(d: seq<byte>, h: LongHeader)
    requires d != [] && d[0] >= 0x80 && ParseLongHeader(d) == Some(h)
    ensures var n := h.payloadOffset + h.length;
            var w' := Walk(d[n..]);
            Walk(d) == Walked([Slice(h, d[..n])] + w'.packets, w'.end)
  {
    hide ParseLongHeader;
  }

  lemma Regroup<T>(before: seq<T>, x: T, after: seq<T>)
    ensures before + ([x] + after) == (before + [x]) + after
  {
  }

  /** Where the walk stops. */
  lemma WalkEnd(d: seq<byte>, before: seq<Slice>)
    requires d == [] || d[0] < 0x80 || ParseLongHeader(d).None?
    ensures var w := Walk(d);
            && before + w.packets == before
            && w.end == if d == [] then Exhausted else if d[0] < 0x80 then ShortHeader else Malformed
  {
    hide ParseLongHeader;
  }

  /** The walk of the receive loops, with the source's offset cursor. */
  method WalkLoop(datagram: seq<byte>) returns (packets: seq<Slice>, end: End)
    ensures Walked(packets, end) == Walk(datagram)
  {
    hide ParseLongHeader;
    hide Walk;
    ghost var spec := Walk(datagram);
    packets := [];
    var offset := 0;
    assert datagram[0..] == datagram && [] + spec.packets == spec.packets;
    while offset < |datagram|
      invariant offset <= |datagram|
      invariant var w := Walk(datagram[offset..]); spec.packets == packets + w.packets && spec.end == w.end
    {
      var rest := datagram[offset..];
      if rest[0] < 0x80 {
        WalkEnd(rest, packets);
        return packets, ShortHeader;
      }
      var header := ParseLongHeader(rest);
      if header.None? {
        WalkEnd(rest, packets);
        return packets, Malformed;
      }
      var n := header.value.payloadOffset + header.value.length;
      WalkStep(rest, header.value, packets);
      assert rest[n..] == datagram[offset + n..];
      packets := packets + [Slice(header.value, rest[..n])];
      offset := offset + n;
    }
    WalkEnd(datagram[offset..], packets);
    end := Exhausted;
  }

  // ---------------------------------------------------------------------------------------
  // What was built is what arrives
  // ---------------------------------------------------------------------------------------

  /** What a packet carries: a payload sealed with the right keys, or any other ciphertext. */
  datatype Body = Sealed(content: Content) | Forged(ciphertext: seq<byte>)

  /** A long-header packet a peer may send, of any type, version and packet-number length. */
  datatype Spec = Spec(
    first: byte, version: nat, dcid: seq<byte>, scid: seq<byte>, token: seq<byte>, pn: nat, body: Body)
  {
    ghost predicate Valid() {
      && first >= 0x80 && version < U32 && |token| < V.LIMIT
      && |dcid| <= MAX_CID_LEN && |scid| <= MAX_CID_LEN && pn < Pow256(PnLength(first))
      && (body.Sealed? ==> body.content.Valid())
      && 4 + SAMPLE_LEN <= Length() < V.LIMIT
    }

    /** Packet number and ciphertext. */
    ghost function Length(): (r: nat)
      requires body.Sealed? ==> body.content.Valid()
    {
      PnLength(first) + match body
                        case Sealed(content) => |content.Bytes()| + TAG_LEN
                        case Forged(ciphertext) => |ciphertext|
    }

    ghost function Header(): (r: seq<byte>)
      requires Valid()
      ensures r != []
    {
      HeaderBytes(first, version, dcid, scid, token, Length())
    }

    /** The header as the AEAD sees it. */
    ghost function Associated(): (r: seq<byte>)
      requires Valid()
    {
      Header() + BigEndian(pn, PnLength(first))
    }

    ghost function Ciphertext(keys: DirectionalKeys): (r: seq<byte>)
      requires Valid() && keys.Valid()
      ensures PnLength(first) + |r| == Length()
    {
      match body
      case Sealed(content) => keys.seal(pn, Associated(), content.Bytes()).value
      case Forged(ciphertext) => ciphertext
    }

    /** The packet's bytes. */
    ghost function Build(keys: DirectionalKeys): (r: seq<byte>)
      requires Valid() && keys.Valid()
    {
      ProtectPacket(Header(), PnLength(first), pn, Ciphertext(keys), keys)
    }

    /** What a receiver with these keys gets out of it. */
    ghost function Reading(keys: DirectionalKeys): (r: Result<Opened, OpenError>)
      requires Valid()
    {
      match body
      case Sealed(content) => Ok(Opened(pn, content.Bytes()))
      case Forged(ciphertext) => OpenWith(pn, Associated(), ciphertext, keys)
    }
  }

  ghost predicate ValidSpecs(specs: seq<Spec>) {
    forall i :: 0 <= i < |specs| ==> specs[i].Valid()
  }

  ghost function KeysFor(s: Spec, initial: DirectionalKeys, handshake: DirectionalKeys): (r: DirectionalKeys)
    ensures initial.Valid() && handshake.Valid() ==> r.Valid()
  {
    if TypeBits(s.first) == INITIAL then initial else handshake
  }

  ghost function Datagram(specs: seq<Spec>, initial: DirectionalKeys, handshake: DirectionalKeys): (r: seq<byte>)
    requires ValidSpecs(specs) && initial.Valid() && handshake.Valid()
  {
    if specs == [] then []
    else specs[0].Build(KeysFor(specs[0], initial, handshake)) + Datagram(specs[1..], initial, handshake)
  }

  /** Packet i of the walk is exactly the i-th packet sent, and opens to what it carries. */
  ghost predicate Matches(specs: seq<Spec>, packets: seq<Slice>, initial: DirectionalKeys, handshake: DirectionalKeys)
    requires ValidSpecs(specs) && initial.Valid() && handshake.Valid()
  {
    && |specs| <= |packets|
    && forall i :: 0 <= i < |specs| ==> MatchesOne(specs[i], packets[i], KeysFor(specs[i], initial, handshake))
  }

  ghost predicate MatchesOne(s: Spec, p: Slice, keys: DirectionalKeys)
    requires s.Valid() && keys.Valid()
  {
    && p.bytes == s.Build(keys)
    && p.header.packetType == TypeBits(s.first) && p.header.version == s.version
    && p.header.dcid == s.dcid && p.header.scid == s.scid
    && (p.header.packetType == INITIAL ==> p.header.token == s.token)
    && OpenLong(p.bytes, p.header, keys) == s.Reading(keys)
  }

  lemma WalkOne(s: Spec, keys: DirectionalKeys, rest: seq<byte>)
    requires s.Valid() && keys.Valid()
    ensures var w, w' := Walk(s.Build(keys) + rest), Walk(rest);
            && w.packets != [] && MatchesOne(s, w.packets[0], keys)
            && w.packets[1..] == w'.packets && w.end == w'.end
  {
    hide ParseLongHeader;
    hide ProtectPacket;
    hide OpenLong;
    hide Walk;
    hide Content.Bytes;
    hide HeaderBytes;
    var pkt, ct := s.Build(keys), s.Ciphertext(keys);
    LongRoundTrip(s.first, s.version, s.dcid, s.scid, s.token, s.pn, ct, keys, rest);
    assert (pkt + rest)[..|pkt|] == pkt && (pkt + rest)[|pkt|..] == rest;
    WalkFirst(pkt + rest, ParseLongHeader(pkt + rest).value);
  }

  /** The walk yields exactly the packets that were concatenated, in order, and then whatever the
      rest of the datagram yields. */
  lemma {:induction false} WalkBuilt(
    specs: seq<Spec>, initial: DirectionalKeys, handshake: DirectionalKeys, rest: seq<byte>)
    requires ValidSpecs(specs) && initial.Valid() && handshake.Valid()
    ensures var w, w' := Walk(Datagram(specs, initial, handshake) + rest), Walk(rest);
            && Matches(specs, w.packets, initial, handshake)
            && w.packets[|specs|..] == w'.packets && w.end == w'.end
    decreases |specs|
  {
    hide MatchesOne;
    hide Spec.Build;
    hide Spec.Valid;
    hide Walk;
    hide KeysFor;
    if specs == [] {
      assert Datagram(specs, initial, handshake) + rest == rest;
    } else {
      var tail, keys := Datagram(specs[1..], initial, handshake), KeysFor(specs[0], initial, handshake);
      Assoc(specs[0].Build(keys), tail, rest);
      WalkBuilt(specs[1..], initial, handshake, rest);
      WalkOne(specs[0], keys, tail + rest);
      var w, w' := Walk(Datagram(specs, initial, handshake) + rest), Walk(tail + rest);
      assert forall i :: 0 <= i < |w'.packets| ==> w.packets[i + 1] == w.packets[1..][i];
      assert w.packets[|specs|..] == w.packets[1..][|specs| - 1..];
    }
  }
}
