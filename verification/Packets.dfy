/**
 QUIC packets on the wire (sections 17.2, 17.3.1 and 14.1 of RFC 9000): what the builders
 emit, and how a received packet is parsed, unprotected and opened.
 */
module Packets {
  import opened Bytes
  import opened Protection
  import V = Varint

  const MAX_CID_LEN := 20
  const INITIAL_MIN_BYTES := 1200
  const PN_LEN := 4

  const INITIAL := 0
  const HANDSHAKE := 2

  // ---------------------------------------------------------------------------------------
  // Building
  // ---------------------------------------------------------------------------------------

  /** One CRYPTO frame at offset 0. */
  function CryptoPayload(crypto: seq<byte>): (r: seq<byte>)
    requires |crypto| < V.LIMIT
  {
    [0x06] + (V.Encode(0) + (V.Encode(|crypto|) + crypto))
  }

  /** The type bits of a long header's first byte. */
  function TypeBits(first: byte): (r: nat)
    ensures r < 4
  {
    (first / 0x10) % 4
  }

  /** A long header before its Length field; only an Initial carries a token. */
  function LongPrefix(first: byte, version: nat, dcid: seq<byte>, scid: seq<byte>, token: seq<byte>): (r: seq<byte>)
    requires |token| < V.LIMIT
  {
    [first] + (BigEndian(version, 4) + ([|dcid| % 0x100] + (dcid + ([|scid| % 0x100] + (scid
    + (if TypeBits(first) == INITIAL then V.Encode(|token|) + token else []))))))
  }

  /** The one the builders write: version 1, a four-byte packet number and an empty token. */
  function HeaderPrefix(packetType: nat, dcid: seq<byte>, scid: seq<byte>): (r: seq<byte>)
    requires packetType < 4
  {
    LongPrefix(0xC0 + 0x10 * packetType + (PN_LEN - 1), 1, dcid, scid, [])
  }

  /** PADDING needed to bring an Initial to 1200 bytes, given a two-byte Length field. */
  function PaddingLength(prefixLength: nat, payloadLength: nat): (r: nat) {
    var total := prefixLength + 2 + PN_LEN + payloadLength + TAG_LEN;
    if total < INITIAL_MIN_BYTES then INITIAL_MIN_BYTES - total else 0
  }

  /** The bytes that get sealed: CRYPTO frame, then PADDING in an Initial. */
  function Plaintext(packetType: nat, dcid: seq<byte>, scid: seq<byte>, crypto: seq<byte>): (r: seq<byte>)
    requires packetType < 4 && |crypto| < V.LIMIT
  {
    var qp := CryptoPayload(crypto);
    if packetType == INITIAL then qp + Zeros(PaddingLength(|HeaderPrefix(packetType, dcid, scid)|, |qp|)) else qp
  }

  /** The Length field counts packet number, ciphertext and tag. */
  function LengthField(packetType: nat, dcid: seq<byte>, scid: seq<byte>, crypto: seq<byte>): (r: nat)
    requires packetType < 4 && |crypto| < V.LIMIT
  {
    PN_LEN + |Plaintext(packetType, dcid, scid, crypto)| + TAG_LEN
  }

  /** What the source demands of its inputs: an Initial's Length fits its forced two bytes. */
  predicate Buildable(packetType: nat, dcid: seq<byte>, scid: seq<byte>, crypto: seq<byte>) {
    && packetType < 4 && |crypto| < V.LIMIT
    && LengthField(packetType, dcid, scid, crypto) < (if packetType == INITIAL then 0x4000 else V.LIMIT)
  }

  /** A Length written into two bytes with the varint tag 01. */
  function TwoByteLength(n: nat): (r: seq<byte>)
    requires n < 0x4000
  {
    Pow256Values();
    V.Tag(n, 2);
    var b := BigEndian(n, 2);
    [b[0] + 0x40, b[1]]
  }

  /** The header up to the packet number. */
  function HeaderToPn(packetType: nat, dcid: seq<byte>, scid: seq<byte>, crypto: seq<byte>): (r: seq<byte>)
    requires Buildable(packetType, dcid, scid, crypto)
    ensures r != []
  {
    var length := LengthField(packetType, dcid, scid, crypto);
    HeaderPrefix(packetType, dcid, scid) + (if packetType == INITIAL then TwoByteLength(length) else V.Encode(length))
  }

  /** Put a packet number of n bytes between header and ciphertext, and protect. */
  ghost function ProtectPacket(headerToPn: seq<byte>, n: nat, pn: nat, ct: seq<byte>, keys: DirectionalKeys)
    : (r: seq<byte>)
    requires keys.Valid() && headerToPn != [] && 1 <= n <= 4 && n + |ct| >= 4 + SAMPLE_LEN
    ensures |r| == |headerToPn| + n + |ct|
  {
    var pkt := headerToPn + BigEndian(pn, n) + ct;
    Protect(pkt, |headerToPn|, n, keys.mask(Sample(pkt, |headerToPn|)).value)
  }

  /** Seal a payload behind header and packet number, then protect. */
  ghost function SealNumbered(headerToPn: seq<byte>, n: nat, pn: nat, plaintext: seq<byte>, keys: DirectionalKeys)
    : (r: seq<byte>)
    requires keys.Valid() && headerToPn != [] && 1 <= n <= 4 && n + |plaintext| >= 4
    ensures |r| == |headerToPn| + n + |plaintext| + TAG_LEN
  {
    ProtectPacket(headerToPn, n, pn, keys.seal(pn, headerToPn + BigEndian(pn, n), plaintext).value, keys)
  }

  /** What the builders do: the packet number always takes four bytes. */
  ghost function SealPacket(headerToPn: seq<byte>, pn: nat, plaintext: seq<byte>, keys: DirectionalKeys): (r: seq<byte>)
    requires keys.Valid() && headerToPn != []
    ensures |r| == |headerToPn| + PN_LEN + |plaintext| + TAG_LEN
  {
    SealNumbered(headerToPn, PN_LEN, pn, plaintext, keys)
  }

  /** The same with a suite that may fail: None where sealing or masking reports an error. */
  function TrySeal(headerToPn: seq<byte>, pn: nat, plaintext: seq<byte>, keys: DirectionalKeys)
    : (r: Option<seq<byte>>)
    requires headerToPn != []
  {
    var header := headerToPn + BigEndian(pn, PN_LEN);
    match keys.seal(pn, header, plaintext)
    case None => None
    case Some(ct) =>
      var pkt := header + ct;
      if |pkt| < |headerToPn| + 4 + SAMPLE_LEN then None
      else
        match keys.mask(Sample(pkt, |headerToPn|))
        case None => None
        case Some(m) => if |m| != 5 then None else Some(Protect(pkt, |headerToPn|, PN_LEN, m))
  }

  /** A working suite always succeeds. */
  lemma TrySealWorks(headerToPn: seq<byte>, pn: nat, plaintext: seq<byte>, keys: DirectionalKeys)
    requires headerToPn != [] && keys.Valid()
    ensures TrySeal(headerToPn, pn, plaintext, keys) == Some(SealPacket(headerToPn, pn, plaintext, keys))
  {
    hide Protect;
  }

  ghost function LongPacket(
    packetType: nat, dcid: seq<byte>, scid: seq<byte>, pn: nat, crypto: seq<byte>, keys: DirectionalKeys)
    : (r: seq<byte>)
    requires Buildable(packetType, dcid, scid, crypto) && keys.Valid()
  {
    SealPacket(HeaderToPn(packetType, dcid, scid, crypto), pn, Plaintext(packetType, dcid, scid, crypto), keys)
  }

  /** A 1-RTT header up to the packet number. */
  function ShortHeaderToPn(dcid: seq<byte>): (r: seq<byte>)
    ensures r != []
  {
    [0x40 + (PN_LEN - 1)] + dcid
  }

  ghost function ShortPacket(dcid: seq<byte>, pn: nat, payload: seq<byte>, keys: DirectionalKeys): (r: seq<byte>)
    requires keys.Valid()
  {
    SealPacket(ShortHeaderToPn(dcid), pn, payload, keys)
  }

  lemma PrefixLength(packetType: nat, dcid: seq<byte>, scid: seq<byte>)
    requires packetType < 4
    ensures |HeaderPrefix(packetType, dcid, scid)| == 7 + |dcid| + |scid| + (if packetType == INITIAL then 1 else 0)
  {
    LongPrefixLength(0xC0 + 0x10 * packetType + (PN_LEN - 1), 1, dcid, scid, []);
  }

  lemma LongPrefixLength(first: byte, version: nat, dcid: seq<byte>, scid: seq<byte>, token: seq<byte>)
    requires |token| < V.LIMIT
    ensures |LongPrefix(first, version, dcid, scid, token)|
         == 7 + |dcid| + |scid| + (if TypeBits(first) == INITIAL then |V.Encode(|token|)| + |token| else 0)
  {
  }

  /** An Initial is exactly as long as it needs to be, and never shorter than 1200 bytes. */
  lemma InitialSize(dcid: seq<byte>, scid: seq<byte>, pn: nat, crypto: seq<byte>, keys: DirectionalKeys)
    requires Buildable(INITIAL, dcid, scid, crypto) && keys.Valid()
    ensures var unpadded := 8 + |dcid| + |scid| + 2 + PN_LEN + |CryptoPayload(crypto)| + TAG_LEN;
            |LongPacket(INITIAL, dcid, scid, pn, crypto, keys)| == (if unpadded < 1200 then 1200 else unpadded)
  {
    PrefixLength(INITIAL, dcid, scid);
  }

  /** The forced two-byte Length is the minimal varint, because padding keeps it above 63. */
  lemma LengthIsMinimalVarint(packetType: nat, dcid: seq<byte>, scid: seq<byte>, crypto: seq<byte>)
    requires Buildable(packetType, dcid, scid, crypto) && |dcid| <= MAX_CID_LEN && |scid| <= MAX_CID_LEN
    ensures HeaderToPn(packetType, dcid, scid, crypto)
         == HeaderPrefix(packetType, dcid, scid) + V.Encode(LengthField(packetType, dcid, scid, crypto))
  {
    PrefixLength(packetType, dcid, scid);
  }

  // ---------------------------------------------------------------------------------------
  // Parsing
  // ---------------------------------------------------------------------------------------

  datatype LongHeader = LongHeader(
    version: nat, packetType: nat, dcid: seq<byte>, scid: seq<byte>, token: seq<byte>,
    payloadOffset: nat, length: nat)

  /** A length-prefixed connection ID at index i. */
  function ParseCid(buf: seq<byte>, i: nat): (r: Option<seq<byte>>)
    ensures r.Some? ==> i + 1 + |r.value| <= |buf| && |r.value| <= MAX_CID_LEN
  {
    if i >= |buf| then None
    else
      var n: nat := buf[i];
      if n > MAX_CID_LEN || |buf| < i + 1 + n then None else Some(buf[i + 1..i + 1 + n])
  }

  datatype Token = Token(bytes: seq<byte>, next: nat)

  function ParseToken(buf: seq<byte>, i: nat, packetType: nat): (r: Option<Token>)
    requires i <= |buf|
    ensures r.Some? ==> i <= r.value.next <= |buf|
  {
    if packetType != INITIAL then Some(Token([], i))
    else
      match V.Decode(buf[i..])
      case None => None
      case Some(d) =>
        V.DecodeBounds(buf[i..]);
        var j := i + d.size;
        if |buf| < j + d.value then None else Some(Token(buf[j..j + d.value], j + d.value))
  }

  /** `parse_long_header` */
  function ParseLongHeader(buf: seq<byte>): (r: Option<LongHeader>)
    ensures r.Some? ==> 7 <= r.value.payloadOffset && r.value.payloadOffset + r.value.length <= |buf|
    ensures r.Some? ==> |r.value.dcid| <= 20 && |r.value.scid| <= 20
  {
    if |buf| < 7 || buf[0] < 0x80 then None
    else
      match ParseCid(buf, 5)
      case None => None
      case Some(dcid) =>
        match ParseCid(buf, 6 + |dcid|)
        case None => None
        case Some(scid) => ParseTokenAndLength(buf, TypeBits(buf[0]), dcid, scid)
  }

  function ParseTokenAndLength(buf: seq<byte>, packetType: nat, dcid: seq<byte>, scid: seq<byte>)
    : (r: Option<LongHeader>)
    requires 7 + |dcid| + |scid| <= |buf|
    ensures r.Some? ==> 7 <= r.value.payloadOffset && r.value.payloadOffset + r.value.length <= |buf|
    ensures r.Some? ==> r.value.dcid == dcid && r.value.scid == scid
  {
    match ParseToken(buf, 7 + |dcid| + |scid|, packetType)
    case None => None
    case Some(token) =>
      match V.Decode(buf[token.next..])
      case None => None
      case Some(d) =>
        V.DecodeBounds(buf[token.next..]);
        var i := token.next + d.size;
        if |buf| < i + d.value then None
        else Some(LongHeader(FromBigEndian(buf[1..5]), packetType, dcid, scid, token.bytes, i, d.value))
  }

  /** `buf` starts with `h`, the first byte excepted. */
  ghost predicate AgreeAfterFirst(buf: seq<byte>, h: seq<byte>) {
    |h| <= |buf| && forall i :: 1 <= i < |h| ==> buf[i] == h[i]
  }

  /** Header protection leaves every field up to the packet number readable: any bytes that agree
      with a built header except in the low nibble of the first byte parse to its fields. */
  lemma ParseBuiltHeader(packetType: nat, dcid: seq<byte>, scid: seq<byte>, crypto: seq<byte>, buf: seq<byte>)
    requires Buildable(packetType, dcid, scid, crypto) && |dcid| <= MAX_CID_LEN && |scid| <= MAX_CID_LEN
    requires var h := HeaderToPn(packetType, dcid, scid, crypto);
             && |h| + LengthField(packetType, dcid, scid, crypto) <= |buf|
             && buf[0] / 0x10 == 0xC + packetType && AgreeAfterFirst(buf, h)
    ensures ParseLongHeader(buf) == Some(LongHeader(1, packetType, dcid, scid, [],
              |HeaderToPn(packetType, dcid, scid, crypto)|, LengthField(packetType, dcid, scid, crypto)))
  {
    hide LongPrefix;
    hide ParseLongHeader;
    hide AgreeAfterFirst;
    hide Plaintext;
    hide TwoByteLength;
    hide V.Encode;
    LengthIsMinimalVarint(packetType, dcid, scid, crypto);
    var first := 0xC0 + 0x10 * packetType + (PN_LEN - 1);
    ParseHeaderBytes(first, 1, dcid, scid, [], LengthField(packetType, dcid, scid, crypto), buf);
  }

  /** A long header with its Length field. */
  function HeaderBytes(
    first: byte, version: nat, dcid: seq<byte>, scid: seq<byte>, token: seq<byte>, length: nat): (r: seq<byte>)
    requires |token| < V.LIMIT && length < V.LIMIT
    ensures r != []
  {
    LongPrefix(first, version, dcid, scid, token) + V.Encode(length)
  }

  /** Every long header of whatever type, version, connection IDs and token is read back in full, even
      while the low bits of its first byte are masked, and its Length with it. */
  lemma ParseHeaderBytes(
    first: byte, version: nat, dcid: seq<byte>, scid: seq<byte>, token: seq<byte>, length: nat, buf: seq<byte>)
    requires version < U32 && |token| < V.LIMIT && length < V.LIMIT
    requires |dcid| <= 20 && |scid| <= 20 && first >= 0x80
    requires var h := HeaderBytes(first, version, dcid, scid, token, length);
             && |h| + length <= |buf| && buf[0] / 0x10 == first / 0x10 && AgreeAfterFirst(buf, h)
    ensures ParseLongHeader(buf)
         == Some(LongHeader(version, TypeBits(first), dcid, scid, if TypeBits(first) == INITIAL then token else [],
                            |HeaderBytes(first, version, dcid, scid, token, length)|, length))
  {
    hide LongPrefix;
    hide AgreeAfterFirst;
    hide ParseLongHeader;
    hide ParseCid;
    hide ParseToken;
    hide V.Encode;
    hide V.Decode;
    hide FromBigEndian;
    var prefix, field := LongPrefix(first, version, dcid, scid, token), V.Encode(length);
    LongPrefixLength(first, version, dcid, scid, token);
    AgreeSplit(buf, prefix, field);
    ParsePrefix(first, version, dcid, scid, token, buf);
    V.EncodeDecode(length, buf[|prefix + field|..]);
    ParseAssembled(buf, TypeBits(first), dcid, scid, if TypeBits(first) == INITIAL then token else [], |prefix|,
                   V.Decoded(length, |field|));
  }

  lemma AgreeSplit(buf: seq<byte>, prefix: seq<byte>, field: seq<byte>)
    requires prefix != [] && AgreeAfterFirst(buf, prefix + field)
    ensures AgreeAfterFirst(buf, prefix)
    ensures buf[|prefix|..] == field + buf[|prefix + field|..]
  {
    var h := prefix + field;
    forall k | 1 <= k < |prefix| ensures buf[k] == prefix[k] { assert h[k] == prefix[k]; }
    forall k | |prefix| <= k < |h| ensures buf[k] == field[k - |prefix|] { assert h[k] == field[k - |prefix|]; }
  }

  lemma ParseAssembled(
    buf: seq<byte>, packetType: nat, dcid: seq<byte>, scid: seq<byte>, token: seq<byte>, i: nat, d: V.Decoded)
    requires 7 <= i <= |buf| && buf[0] >= 0x80 && TypeBits(buf[0]) == packetType
    requires ParseCid(buf, 5) == Some(dcid) && ParseCid(buf, 6 + |dcid|) == Some(scid)
    requires ParseToken(buf, 7 + |dcid| + |scid|, packetType) == Some(Token(token, i))
    requires V.Decode(buf[i..]) == Some(d) && i + d.size + d.value <= |buf|
    ensures ParseLongHeader(buf)
         == Some(LongHeader(FromBigEndian(buf[1..5]), packetType, dcid, scid, token, i + d.size, d.value))
  {
    hide ParseToken;
    hide ParseCid;
    hide V.Decode;
    hide FromBigEndian;
    hide TypeBits;
  }

  lemma ParsePrefix(
    first: byte, version: nat, dcid: seq<byte>, scid: seq<byte>, token: seq<byte>, buf: seq<byte>)
    requires version < U32 && |token| < V.LIMIT && |dcid| <= MAX_CID_LEN && |scid| <= MAX_CID_LEN
    requires AgreeAfterFirst(buf, LongPrefix(first, version, dcid, scid, token))
    ensures |buf| >= 7 && FromBigEndian(buf[1..5]) == version
    ensures ParseCid(buf, 5) == Some(dcid)
    ensures ParseCid(buf, 6 + |dcid|) == Some(scid)
    ensures ParseToken(buf, 7 + |dcid| + |scid|, TypeBits(first))
         == Some(Token(if TypeBits(first) == INITIAL then token else [],
                       |LongPrefix(first, version, dcid, scid, token)|))
  {
    hide LongPrefix;
    hide AgreeAfterFirst;
    hide FromBigEndian;
    hide BigEndian;
    hide ParseToken;
    hide TypeBits;
    hide V.Encode;
    var p, i := LongPrefix(first, version, dcid, scid, token), 7 + |dcid| + |scid|;
    LongPrefixLength(first, version, dcid, scid, token);
    PrefixFields(first, version, dcid, scid, token);
    Pow256Values();
    BigEndianRoundTrip(version, 4);
    AgreeSlice(buf, p, 1, 5);
    AgreeSlice(buf, p, 5, 6);
    AgreeSlice(buf, p, 6, 6 + |dcid|);
    AgreeSlice(buf, p, 6 + |dcid|, 7 + |dcid|);
    AgreeSlice(buf, p, 7 + |dcid|, i);
    AgreeSlice(buf, p, i, |p|);
    assert buf[5] == buf[5..6][0] && buf[6 + |dcid|] == buf[6 + |dcid|..7 + |dcid|][0];
    ParseTokenField(buf, i, |p|, TypeBits(first), token);
  }

  lemma ParseTokenField(buf: seq<byte>, i: nat, end: nat, packetType: nat, token: seq<byte>)
    requires |token| < V.LIMIT && i <= end <= |buf|
    requires buf[i..end] == if packetType == INITIAL then V.Encode(|token|) + token else []
    ensures ParseToken(buf, i, packetType) == Some(Token(if packetType == INITIAL then token else [], end))
  {
    hide V.Encode;
    hide V.Decode;
    if packetType == INITIAL {
      var e := V.Encode(|token|);
      Slices(buf, i, end, e, token);
      V.EncodeDecode(|token|, token + buf[end..]);
    }
  }

  lemma Slices(buf: seq<byte>, i: nat, end: nat, a: seq<byte>, b: seq<byte>)
    requires i <= end <= |buf| && buf[i..end] == a + b
    ensures end == i + |a| + |b| && buf[i..] == a + (b + buf[end..]) && buf[i + |a|..end] == b
  {
    assert buf[i..] == buf[i..end] + buf[end..];
    Assoc(a, b, buf[end..]);
    assert buf[i + |a|..end] == buf[i..end][|a|..];
  }

  lemma PrefixFields(first: byte, version: nat, dcid: seq<byte>, scid: seq<byte>, token: seq<byte>)
    requires |token| < V.LIMIT && |dcid| <= MAX_CID_LEN && |scid| <= MAX_CID_LEN
    ensures var p, i := LongPrefix(first, version, dcid, scid, token), 7 + |dcid| + |scid|;
            && i <= |p| && p[1..5] == BigEndian(version, 4) && p[5..6] == [|dcid|] && p[6..6 + |dcid|] == dcid
            && p[6 + |dcid|..7 + |dcid|] == [|scid|] && p[7 + |dcid|..i] == scid
            && p[i..|p|] == if TypeBits(first) == INITIAL then V.Encode(|token|) + token else []
  {
    hide BigEndian;
    hide TypeBits;
    hide V.Encode;
    var field := if TypeBits(first) == INITIAL then V.Encode(|token|) + token else [];
    var p, version' := LongPrefix(first, version, dcid, scid, token), BigEndian(version, 4);
    Tail(first, version' + ([|dcid| % 0x100] + (dcid + ([|scid| % 0x100] + (scid + field)))));
    assert |dcid| % 0x100 == |dcid| && |scid| % 0x100 == |scid|;
    hide LongPrefix;
    SixFields(p, version', [|dcid|], dcid, [|scid|], scid, field);
  }

  lemma Tail(first: byte, rest: seq<byte>)
    ensures ([first] + rest)[1..] == rest
  {
  }

  lemma SixFields(p: seq<byte>, a: seq<byte>, b: seq<byte>, c: seq<byte>, d: seq<byte>, e: seq<byte>, f: seq<byte>)
    requires 1 <= |p| && p[1..] == a + (b + (c + (d + (e + f))))
    ensures var i := 1 + |a|;
            var j := i + |b|;
            var k := j + |c|;
            var l := k + |d|;
            var m := l + |e|;
            && m <= |p| && p[1..i] == a && p[i..j] == b && p[j..k] == c && p[k..l] == d && p[l..m] == e
            && p[m..|p|] == f
  {
    NextField(p, 1, a, b + (c + (d + (e + f))));
    NextField(p, 1 + |a|, b, c + (d + (e + f)));
    NextField(p, 1 + |a| + |b|, c, d + (e + f));
    NextField(p, 1 + |a| + |b| + |c|, d, e + f);
    NextField(p, 1 + |a| + |b| + |c| + |d|, e, f);
  }

  lemma NextField(p: seq<byte>, i: nat, a: seq<byte>, b: seq<byte>)
    requires i <= |p| && p[i..] == a + b
    ensures i + |a| <= |p| && p[i..i + |a|] == a && p[i + |a|..] == b
  {
    assert p[i..i + |a|] == p[i..][..|a|] && p[i + |a|..] == p[i..][|a|..];
  }

  lemma AgreeSlice(buf: seq<byte>, p: seq<byte>, from: nat, to: nat)
    requires AgreeAfterFirst(buf, p) && 1 <= from <= to <= |p|
    ensures to <= |buf| && buf[from..to] == p[from..to]
  {
    assert forall k :: from <= k < to ==> buf[k] == p[k];
  }

  /** A header that parses does so whatever follows. */
  lemma ParseExtends(buf: seq<byte>, more: seq<byte>)
    requires ParseLongHeader(buf).Some?
    ensures ParseLongHeader(buf + more) == ParseLongHeader(buf)
  {
    hide V.Decode;
    hide FromBigEndian;
    var h := ParseLongHeader(buf).value;
    var dcid := ParseCid(buf, 5).value;
    var scid := ParseCid(buf, 6 + |dcid|).value;
    var token := ParseToken(buf, 7 + |dcid| + |scid|, TypeBits(buf[0])).value;
    CidExtends(buf, more, 5);
    CidExtends(buf, more, 6 + |dcid|);
    TokenExtends(buf, more, 7 + |dcid| + |scid|, TypeBits(buf[0]));
    DecodeExtendsAt(buf, more, token.next);
    assert (buf + more)[1..5] == buf[1..5] && (buf + more)[0] == buf[0];
    hide ParseCid;
    hide ParseToken;
  }

  lemma CidExtends(buf: seq<byte>, more: seq<byte>, i: nat)
    requires ParseCid(buf, i).Some?
    ensures ParseCid(buf + more, i) == ParseCid(buf, i)
  {
    var n: nat := buf[i];
    assert (buf + more)[i] == buf[i] && (buf + more)[i + 1..i + 1 + n] == buf[i + 1..i + 1 + n];
  }

  lemma DecodeExtendsAt(buf: seq<byte>, more: seq<byte>, i: nat)
    requires i <= |buf| && V.Decode(buf[i..]).Some?
    ensures V.Decode((buf + more)[i..]) == V.Decode(buf[i..])
  {
    assert (buf + more)[i..] == buf[i..] + more;
    V.DecodeExtends(buf[i..], more);
  }

  lemma TokenExtends(buf: seq<byte>, more: seq<byte>, i: nat, packetType: nat)
    requires i <= |buf| && ParseToken(buf, i, packetType).Some?
    ensures ParseToken(buf + more, i, packetType) == ParseToken(buf, i, packetType)
  {
    hide V.Decode;
    if packetType == INITIAL {
      DecodeExtendsAt(buf, more, i);
      var d := V.Decode(buf[i..]).value;
      V.DecodeBounds(buf[i..]);
      var j := i + d.size;
      assert (buf + more)[j..j + d.value] == buf[j..j + d.value];
    }
  }

  /** A packet cut anywhere short of its Length's end does not parse. */
  lemma ParseCut(first: byte, version: nat, dcid: seq<byte>, scid: seq<byte>, token: seq<byte>, length: nat,
                 buf: seq<byte>)
    requires version < U32 && |token| < V.LIMIT && length < V.LIMIT
    requires |dcid| <= MAX_CID_LEN && |scid| <= MAX_CID_LEN && first >= 0x80
    requires var h := HeaderBytes(first, version, dcid, scid, token, length);
             && 0 < |buf| < |h| + length && buf[0] / 0x10 == first / 0x10
             && forall i :: 1 <= i < Min(|buf|, |h|) ==> buf[i] == h[i]
    ensures ParseLongHeader(buf) == None
  {
    hide HeaderBytes;
    hide ParseLongHeader;
    var h := HeaderBytes(first, version, dcid, scid, token, length);
    var more := (h + Zeros(length))[|buf|..];
    var full := buf + more;
    assert AgreeAfterFirst(full, h);
    ParseHeaderBytes(first, version, dcid, scid, token, length, full);
    if ParseLongHeader(buf).Some? { ParseExtends(buf, more); }
  }

  // ---------------------------------------------------------------------------------------
  // Unprotecting and opening
  // ---------------------------------------------------------------------------------------

  /** `Panic` is the slice `buf[header_len..end]` taken with `header_len > end`. */
  datatype OpenError = TooShort | HpFailed | Truncated | AeadFailed | Panic

  datatype Opened = Opened(pn: nat, plaintext: seq<byte>)

  /** The step shared by the long- and short-header paths, on an unprotected packet. */
  function OpenUnprotected(buf: seq<byte>, pnOffset: nat, end: nat, keys: DirectionalKeys)
    : (r: Result<Opened, OpenError>)
    requires pnOffset + 4 <= |buf|
  {
    var headerLen := pnOffset + PnLength(buf[0]);
    var pn := FromBigEndian(buf[pnOffset..headerLen]);
    if |buf| < end then Err(Truncated)
    else if end < headerLen then Err(Panic)
    else
      match keys.open(pn, buf[..headerLen], buf[headerLen..end])
      case None => Err(AeadFailed)
      case Some(pt) => Ok(Opened(pn, pt))
  }

  function OpenAt(pkt: seq<byte>, pnOffset: nat, end: nat, keys: DirectionalKeys): (r: Result<Opened, OpenError>)
    ensures r == Err(TooShort) <==> |pkt| < pnOffset + 20
    ensures |pkt| >= pnOffset + 20 && keys.mask(Sample(pkt, pnOffset)).None? ==> r == Err(HpFailed)
    ensures |pkt| < end ==> r in {Err(TooShort), Err(HpFailed), Err(Truncated)}
  {
    if |pkt| < pnOffset + 4 + SAMPLE_LEN then Err(TooShort)
    else
      match keys.mask(Sample(pkt, pnOffset))
      case None => Err(HpFailed)
      case Some(m) =>
        if |m| != 5 then Err(HpFailed)
        else OpenUnprotected(Unprotect(pkt, pnOffset, m), pnOffset, end, keys)
  }

  /** `decrypt_initial_inplace` and `decrypt_long_with_rustls` */
  function OpenLong(pkt: seq<byte>, header: LongHeader, keys: DirectionalKeys): (r: Result<Opened, OpenError>)
  {
    OpenAt(pkt, header.payloadOffset, header.payloadOffset + header.length, keys)
  }

  /** `decrypt_short_with_rustls`: the ciphertext runs to the end of the datagram. */
  function OpenShort(pkt: seq<byte>, dcidLength: nat, keys: DirectionalKeys): (r: Result<Opened, OpenError>)
    ensures r.Ok? ==> pkt != [] && pkt[0] < 0x80
  {
    if pkt == [] || pkt[0] >= 0x80 then Err(TooShort) else OpenAt(pkt, 1 + dcidLength, |pkt|, keys)
  }

  /** What the AEAD makes of a ciphertext under a packet number and a header. */
  function OpenWith(pn: nat, header: seq<byte>, ct: seq<byte>, keys: DirectionalKeys): (r: Result<Opened, OpenError>) {
    match keys.open(pn, header, ct) case None => Err(AeadFailed) case Some(pt) => Ok(Opened(pn, pt))
  }

  /** A protected packet's sample survives protection, so the receiver derives the same mask. */
  lemma Unprotects(headerToPn: seq<byte>, n: nat, pn: nat, ct: seq<byte>, keys: DirectionalKeys)
    requires keys.Valid() && headerToPn != [] && n + |ct| >= 4 + SAMPLE_LEN && PnLength(headerToPn[0]) == n
    ensures var pkt := ProtectPacket(headerToPn, n, pn, ct, keys);
            var m := keys.mask(Sample(pkt, |headerToPn|)).value;
            Unprotect(pkt, |headerToPn|, m) == headerToPn + BigEndian(pn, n) + ct
  {
    hide Protect;
    hide Unprotect;
    var plain := headerToPn + BigEndian(pn, n) + ct;
    assert plain[0] == headerToPn[0];
    var m := keys.mask(Sample(plain, |headerToPn|)).value;
    ProtectFrame(plain, |headerToPn|, n, m);
    UnprotectProtect(plain, |headerToPn|, n, m);
  }

  /** The sample is ciphertext: the 16 bytes that follow a packet number taken to be four bytes long. */
  lemma SampleIsCiphertext(headerToPn: seq<byte>, n: nat, pn: nat, ct: seq<byte>)
    requires 1 <= n <= 4 && n + |ct| >= 4 + SAMPLE_LEN
    ensures Sample(headerToPn + BigEndian(pn, n) + ct, |headerToPn|) == ct[4 - n..20 - n]
  {
  }

  /** A receiver opens a protected packet with the value its packet-number bytes carry, whatever their
      number: there is no reconstruction from a window. That is the sender's number if and only if it
      fits them. */
  lemma PacketNumberRecovered(headerToPn: seq<byte>, n: nat, pn: nat, ct: seq<byte>, keys: DirectionalKeys)
    requires keys.Valid() && headerToPn != [] && n + |ct| >= 4 + SAMPLE_LEN && PnLength(headerToPn[0]) == n
    ensures var pkt := ProtectPacket(headerToPn, n, pn, ct, keys);
            OpenAt(pkt, |headerToPn|, |pkt|, keys)
            == OpenWith(pn % Pow256(n), headerToPn + BigEndian(pn, n), ct, keys)
    ensures pn % Pow256(n) == pn <==> pn < Pow256(n)
  {
    hide ProtectPacket;
    hide OpenUnprotected;
    hide Unprotect;
    hide Sample;
    hide Pow256;
    Unprotects(headerToPn, n, pn, ct, keys);
    OpensPlain(headerToPn, n, pn, ct, keys);
    ModuloIff(pn, Pow256(n));
  }

  lemma ModuloIff(v: nat, m: nat)
    requires m > 0
    ensures v % m == v <==> v < m
  {
  }

  lemma OpensPlain(headerToPn: seq<byte>, n: nat, pn: nat, ct: seq<byte>, keys: DirectionalKeys)
    requires headerToPn != [] && n + |ct| >= 4 + SAMPLE_LEN && PnLength(headerToPn[0]) == n
    ensures var plain := headerToPn + BigEndian(pn, n) + ct;
            OpenUnprotected(plain, |headerToPn|, |plain|, keys)
            == OpenWith(pn % Pow256(n), headerToPn + BigEndian(pn, n), ct, keys)
  {
    hide BigEndian;
    hide FromBigEndian;
    hide Pow256;
    var i, header := |headerToPn|, headerToPn + BigEndian(pn, n);
    var plain := header + ct;
    assert plain[0] == headerToPn[0] && plain[i..i + n] == BigEndian(pn, n);
    assert plain[..i + n] == header && plain[i + n..|plain|] == ct;
    BigEndianValue(pn, n);
  }

  /** Opening undoes sealing for every header and payload and every packet-number length, provided the
      packet number fits the bytes that carry it. */
  lemma OpenSealed(headerToPn: seq<byte>, n: nat, pn: nat, plaintext: seq<byte>, keys: DirectionalKeys)
    requires keys.Valid() && headerToPn != [] && n + |plaintext| >= 4 && PnLength(headerToPn[0]) == n
    requires pn < Pow256(n)
    ensures var pkt := SealNumbered(headerToPn, n, pn, plaintext, keys);
            OpenAt(pkt, |headerToPn|, |pkt|, keys) == Ok(Opened(pn, plaintext))
  {
    hide ProtectPacket;
    hide OpenAt;
    hide Pow256;
    var header := headerToPn + BigEndian(pn, n);
    PacketNumberRecovered(headerToPn, n, pn, keys.seal(pn, header, plaintext).value, keys);
  }

  /** A long-header packet of any type, version and packet-number length parses to its fields, whatever
      follows it in the datagram, and opens to what the AEAD makes of its ciphertext. */
  lemma LongRoundTrip(first: byte, version: nat, dcid: seq<byte>, scid: seq<byte>, token: seq<byte>, pn: nat,
                      ct: seq<byte>, keys: DirectionalKeys, rest: seq<byte>)
    requires keys.Valid() && first >= 0x80 && version < U32 && |token| < V.LIMIT
    requires |dcid| <= MAX_CID_LEN && |scid| <= MAX_CID_LEN
    requires 4 + SAMPLE_LEN <= PnLength(first) + |ct| < V.LIMIT
    ensures var n := PnLength(first);
            var h := HeaderBytes(first, version, dcid, scid, token, n + |ct|);
            var pkt := ProtectPacket(h, n, pn, ct, keys);
            var parsed := LongHeader(version, TypeBits(first), dcid, scid,
                                     if TypeBits(first) == INITIAL then token else [], |h|, n + |ct|);
            && ParseLongHeader(pkt + rest) == Some(parsed) && (pkt + rest)[0] >= 0x80
            && OpenLong(pkt, parsed, keys) == OpenWith(pn % Pow256(n), h + BigEndian(pn, n), ct, keys)
  {
    hide ParseLongHeader;
    hide HeaderBytes;
    hide ProtectPacket;
    hide OpenAt;
    hide OpenWith;
    hide Pow256;
    hide DirectionalKeys.Valid;
    hide AgreeAfterFirst;
    var n := PnLength(first);
    var h := HeaderBytes(first, version, dcid, scid, token, n + |ct|);
    HeaderBytesFirst(first, version, dcid, scid, token, n + |ct|);
    ProtectedHeader(h, n, pn, ct, keys, rest);
    ParseHeaderBytes(first, version, dcid, scid, token, n + |ct|, ProtectPacket(h, n, pn, ct, keys) + rest);
    PacketNumberRecovered(h, n, pn, ct, keys);
  }

  lemma HeaderBytesFirst(
    first: byte, version: nat, dcid: seq<byte>, scid: seq<byte>, token: seq<byte>, length: nat)
    requires |token| < V.LIMIT && length < V.LIMIT
    ensures HeaderBytes(first, version, dcid, scid, token, length)[0] == first
  {
    LongPrefixLength(first, version, dcid, scid, token);
  }

  /** Long-header packets the builders make survive the trip. */
  lemma BuiltRoundTrip(packetType: nat, dcid: seq<byte>, scid: seq<byte>, pn: nat, crypto: seq<byte>,
                       keys: DirectionalKeys, rest: seq<byte>)
    requires Buildable(packetType, dcid, scid, crypto) && keys.Valid()
    requires |dcid| <= MAX_CID_LEN && |scid| <= MAX_CID_LEN
    ensures var pkt := LongPacket(packetType, dcid, scid, pn, crypto, keys);
            var h := ParseLongHeader(pkt + rest);
            && h.Some? && h.value.packetType == packetType && h.value.version == 1
            && h.value.dcid == dcid && h.value.scid == scid && h.value.token == []
            && h.value.payloadOffset + h.value.length == |pkt|
            && (pn < U32 ==>
                  OpenLong(pkt, h.value, keys) == Ok(Opened(pn, Plaintext(packetType, dcid, scid, crypto))))
  {
    hide ParseLongHeader;
    hide LongPrefix;
    hide CryptoPayload;
    hide ProtectPacket;
    hide OpenLong;
    hide Plaintext;
    var first := 0xC0 + 0x10 * packetType + (PN_LEN - 1);
    var pt := Plaintext(packetType, dcid, scid, crypto);
    LengthIsMinimalVarint(packetType, dcid, scid, crypto);
    var h := HeaderBytes(first, 1, dcid, scid, [], PN_LEN + |pt| + TAG_LEN);
    Pow256Values();
    var ct := keys.seal(pn, h + BigEndian(pn, PN_LEN), pt).value;
    LongRoundTrip(first, 1, dcid, scid, [], pn, ct, keys, rest);
  }

  lemma HeaderFirstByte(packetType: nat, dcid: seq<byte>, scid: seq<byte>, crypto: seq<byte>)
    requires Buildable(packetType, dcid, scid, crypto)
    ensures var h := HeaderToPn(packetType, dcid, scid, crypto);
            h != [] && h[0] == 0xC0 + 0x10 * packetType + 3 && PnLength(h[0]) == PN_LEN
  {
    PrefixLength(packetType, dcid, scid);
  }

  /** Protection leaves the header readable: only the protected bits of the first byte change. */
  lemma ProtectedHeader(
    headerToPn: seq<byte>, n: nat, pn: nat, ct: seq<byte>, keys: DirectionalKeys, rest: seq<byte>)
    requires keys.Valid() && headerToPn != [] && 1 <= n <= 4 && n + |ct| >= 4 + SAMPLE_LEN
    ensures var buf := ProtectPacket(headerToPn, n, pn, ct, keys) + rest;
            && AgreeAfterFirst(buf, headerToPn)
            && (headerToPn[0] >= 0x80 ==> buf[0] / 0x10 == headerToPn[0] / 0x10)
            && (headerToPn[0] < 0x80 ==> buf[0] / 0x20 == headerToPn[0] / 0x20)
  {
    hide Protect;
    hide MaskFirst;
    var plain := headerToPn + BigEndian(pn, n) + ct;
    var m := keys.mask(Sample(plain, |headerToPn|)).value;
    assert plain[0] == headerToPn[0];
    MaskFirstInvolutive(plain[0], m[0]);
    ProtectFrame(plain, |headerToPn|, n, m);
    var p := Protect(plain, |headerToPn|, n, m);
    forall i | 1 <= i < |headerToPn| ensures (p + rest)[i] == headerToPn[i] {
      assert p[i] == p[1..|headerToPn|][i - 1] && plain[i] == plain[1..|headerToPn|][i - 1];
    }
  }

  /** 1-RTT packets of any packet-number length survive the trip when the receiver knows the length of
      the connection ID, which stands in clear behind the first byte. */
  lemma ShortRoundTrip(first: byte, dcid: seq<byte>, pn: nat, payload: seq<byte>, keys: DirectionalKeys)
    requires keys.Valid() && first < 0x80 && PnLength(first) + |payload| >= 4
    ensures var pkt := SealNumbered([first] + dcid, PnLength(first), pn, payload, keys);
            && (pn < Pow256(PnLength(first)) ==> OpenShort(pkt, |dcid|, keys) == Ok(Opened(pn, payload)))
            && pkt[0] / 0x20 == first / 0x20 && pkt[1..1 + |dcid|] == dcid
  {
    hide ProtectPacket;
    hide OpenAt;
    hide Pow256;
    var h, n := [first] + dcid, PnLength(first);
    var ct := keys.seal(pn, h + BigEndian(pn, n), payload).value;
    ProtectedHeader(h, n, pn, ct, keys, []);
    var pkt := SealNumbered(h, n, pn, payload, keys);
    assert pkt + [] == pkt;
    if pn < Pow256(n) { OpenSealed(h, n, pn, payload, keys); }
    forall i | 0 <= i < |dcid| ensures pkt[1 + i] == dcid[i] { assert h[1 + i] == dcid[i]; }
  }

  /** The first byte the 1-RTT builders write, and the connection ID behind it. */
  lemma BuiltShortRoundTrip(dcid: seq<byte>, pn: nat, payload: seq<byte>, keys: DirectionalKeys)
    requires keys.Valid()
    ensures var pkt := ShortPacket(dcid, pn, payload, keys);
            && (pn < U32 ==> OpenShort(pkt, |dcid|, keys) == Ok(Opened(pn, payload)))
            && pkt[0] / 0x20 == 2 && pkt[1..1 + |dcid|] == dcid
  {
    hide SealNumbered;
    hide OpenShort;
    Pow256Values();
    ShortRoundTrip(0x43, dcid, pn, payload, keys);
  }

  /** A packet cut out of a datagram at its Length fails to open for two reasons only, under a working
      suite: it has no room for a sample, or the AEAD refuses it. */
  lemma CutPacketErrors(pkt: seq<byte>, header: LongHeader, keys: DirectionalKeys)
    requires keys.Valid() && |pkt| == header.payloadOffset + header.length
    ensures var r := OpenLong(pkt, header, keys);
            && (r == Err(TooShort) <==> header.length < 4 + SAMPLE_LEN)
            && (header.length >= 4 + SAMPLE_LEN ==>
                  var i := header.payloadOffset;
                  var buf := Unprotect(pkt, i, keys.mask(Sample(pkt, i)).value);
                  var j := i + PnLength(buf[0]);
                  r == OpenWith(FromBigEndian(buf[i..j]), buf[..j], buf[j..], keys))
  {
    hide Unprotect;
    hide FromBigEndian;
    if header.length >= 4 + SAMPLE_LEN {
      var i := header.payloadOffset;
      var buf := Unprotect(pkt, i, keys.mask(Sample(pkt, i)).value);
      var j := i + PnLength(buf[0]);
      assert buf[j..|pkt|] == buf[j..];
    }
  }

  /** Where a whole datagram is opened without first cutting it at the Length field, a Length
      smaller than the packet number it must cover makes the source slice backwards; nothing
      else does. A packet cut at its Length never does. */
  lemma PanicIff(pkt: seq<byte>, header: LongHeader, keys: DirectionalKeys)
    requires ParseLongHeader(pkt) == Some(header) && keys.Valid()
    ensures OpenLong(pkt, header, keys) == Err(Panic) <==>
            var i := header.payloadOffset;
            && i + 20 <= |pkt|
            && header.length < PnLength(MaskFirst(pkt[0], keys.mask(Sample(pkt, i)).value[0]))
    ensures OpenLong(pkt[..header.payloadOffset + header.length], header, keys) != Err(Panic)
  {
  }

  /** The backward slice can be reached, under every working suite: an Initial whose Length field is
      zero. */
  lemma PanicHappens(keys: DirectionalKeys)
    requires keys.Valid()
    ensures var pkt: seq<byte> := [0xC3] + Zeros(28);
            && ParseLongHeader(pkt) == Some(LongHeader(0, INITIAL, [], [], [], 9, 0))
            && OpenLong(pkt, ParseLongHeader(pkt).value, keys) == Err(Panic)
  {
    hide ParseLongHeader;
    hide OpenAt;
    hide MaskFirst;
    var pkt: seq<byte> := [0xC3] + Zeros(28);
    ParseZeroLength(pkt);
    PanicIff(pkt, LongHeader(0, INITIAL, [], [], [], 9, 0), keys);
  }

  lemma ParseZeroLength(pkt: seq<byte>)
    requires pkt == [0xC3] + Zeros(28)
    ensures ParseLongHeader(pkt) == Some(LongHeader(0, INITIAL, [], [], [], 9, 0))
  {
    assert pkt[7..] == V.Encode(0) + pkt[8..] && pkt[8..] == V.Encode(0) + pkt[9..];
    V.EncodeDecode(0, pkt[8..]);
    V.EncodeDecode(0, pkt[9..]);
    ZerosValue(4);
    assert pkt[1..5] == Zeros(4);
    assert ParseCid(pkt, 5) == Some([]) && ParseCid(pkt, 6) == Some([]);
    assert pkt[8..8] == [];
    assert ParseToken(pkt, 7, INITIAL) == Some(Token([], 8));
    ParseAssembled(pkt, INITIAL, [], [], [], 8, V.Decoded(0, 1));
  }

  lemma {:induction false} ZerosValue(n: nat)
    ensures FromBigEndian(Zeros(n)) == 0
  {
    if n > 0 {
      assert Zeros(n)[..n - 1] == Zeros(n - 1);
      ZerosValue(n - 1);
    }
  }
}
