/**
 QUIC variable-length integers (section 16 of RFC 9000): the encoder and decoder of the
 wire-level harness, and the independent encoder of the vector generators.
 */
module Varint {
  import opened Bytes

  const LIMIT := 0x4000_0000_0000_0000 // 2^62

  /** A decoded integer and the number of bytes it occupied. */
  datatype Decoded = Decoded(value: nat, size: nat)

  function Width(v: nat): (r: nat) {
    if v < 0x40 then 1 else if v < 0x4000 then 2 else if v < 0x4000_0000 then 4 else 8
  }

  /** The harness encoder. The two top bits of b[0] are clear, so `b[0] | tag` is an addition. */
  function Encode(v: nat): (r: seq<byte>)
    requires v < LIMIT
    ensures |r| == Width(v)
  {
    Pow256Values();
    if v < 0x40 then [v]
    else if v < 0x4000 then var b := BigEndian(v, 2); Tag(v, 2); [b[0] + 0x40, b[1]]
    else if v < 0x4000_0000 then var b := BigEndian(v, 4); Tag(v, 4); [b[0] + 0x80, b[1], b[2], b[3]]
    else var b := BigEndian(v, 8); Tag(v, 8); [b[0] + 0xC0] + b[1..]
  }

  /** The vector generators' encoder: `(value | tag).to_bytes(n, "big")`. */
  function EncodeOracle(v: nat): (r: seq<byte>)
    requires v < LIMIT
  {
    if v <= 63 then [v]
    else if v <= 16383 then BigEndian(v + 0x4000, 2)
    else if v <= 1073741823 then BigEndian(v + 0x8000_0000, 4)
    else BigEndian(v + 0xC000_0000_0000_0000, 8)
  }

  /** `1 << (first >> 6)` */
  function Size(first: byte): (r: nat) {
    if first < 0x40 then 1 else if first < 0x80 then 2 else if first < 0xC0 then 4 else 8
  }

  function Decode(buf: seq<byte>): (r: Option<Decoded>) {
    if buf == [] || |buf| < Size(buf[0]) then None
    else Some(Decoded(FromBigEndian([buf[0] % 0x40] + buf[1..Size(buf[0])]), Size(buf[0])))
  }

  /** The first byte of an n-byte field holding v < 2^(8n-2) is below 0x40. */
  lemma {:induction false} Tag(v: nat, n: nat)
    requires n > 0 && v < 0x40 * Pow256(n - 1)
    ensures BigEndian(v, n)[0] < 0x40
  {
    if n > 1 { Tag(v / 0x100, n - 1); }
  }

  /** Adding a tag to the top byte before or after serialising gives the same bytes. */
  lemma {:induction false} TagCommutes(v: nat, n: nat, tag: nat)
    requires n > 0 && tag <= 0xC0 && v < 0x40 * Pow256(n - 1)
    ensures BigEndian(v, n)[0] < 0x40
    ensures BigEndian(v + tag * Pow256(n - 1), n) == [BigEndian(v, n)[0] + tag] + BigEndian(v, n)[1..]
  {
    Tag(v, n);
    if n > 1 {
      var t := tag * Pow256(n - 2);
      assert tag * Pow256(n - 1) == 0x100 * t;
      TagCommutes(v / 0x100, n - 1, tag);
      assert (v + 0x100 * t) / 0x100 == v / 0x100 + t;
    } else {
      assert BigEndian(v, 1) == [v] && BigEndian(v + tag, 1) == [v + tag];
    }
  }

  /** Both encoders produce the same bytes for every value. */
  lemma EncodersAgree(v: nat)
    requires v < LIMIT
    ensures Encode(v) == EncodeOracle(v)
  {
    Pow256Values();
    if v >= 0x4000_0000 { TagCommutes(v, 8, 0xC0); }
    else if v >= 0x4000 { TagCommutes(v, 4, 0x80); }
    else if v >= 0x40 { TagCommutes(v, 2, 0x40); }
  }

  /** The first byte of an encoding announces its size, and under the tag lie the big-endian bytes. */
  lemma Encoded(v: nat)
    requires v < LIMIT
    ensures var e := Encode(v);
            Size(e[0]) == |e| && [e[0] % 0x40] + e[1..] == BigEndian(v, |e|)
  {
    Pow256Values();
    if v < 0x40 {
      assert BigEndian(v, 1) == [v];
    } else {
      Tag(v, Width(v));
    }
  }

  /** What is encoded is decoded exactly, whatever bytes follow. */
  lemma EncodeDecode(v: nat, suffix: seq<byte>)
    requires v < LIMIT
    ensures Decode(Encode(v) + suffix) == Some(Decoded(v, |Encode(v)|))
  {
    hide Encode;
    hide BigEndian;
    hide FromBigEndian;
    hide Pow256;
    var e := Encode(v);
    Encoded(v);
    Pow256Values();
    BigEndianRoundTrip(v, |e|);
    assert (e + suffix)[0] == e[0] && (e + suffix)[1..|e|] == e[1..];
  }

  /** What follows a varint does not matter. */
  lemma DecodeExtends(s: seq<byte>, more: seq<byte>)
    requires Decode(s).Some?
    ensures Decode(s + more) == Decode(s)
  {
    assert (s + more)[0] == s[0] && (s + more)[1..Size(s[0])] == s[1..Size(s[0])];
  }

  /** A varint cut short is not decoded. */
  lemma DecodeCut(v: nat, k: nat)
    requires v < LIMIT && k < |Encode(v)|
    ensures Decode(Encode(v)[..k]) == None
  {
    Encoded(v);
  }

  /** Every successful decode stays in range, and no shorter string encodes the same value. */
  lemma DecodeBounds(buf: seq<byte>)
    requires Decode(buf).Some?
    ensures var d := Decode(buf).value;
            d.value < LIMIT && Width(d.value) <= d.size <= |buf| && d.size in {1, 2, 4, 8}
  {
    var n := Size(buf[0]);
    var s := [buf[0] % 0x40] + buf[1..n];
    TopBitsBound(s);
    Pow256Values();
  }

  lemma {:induction false} TopBitsBound(s: seq<byte>)
    requires s != [] && s[0] < 0x40
    ensures FromBigEndian(s) < 0x40 * Pow256(|s| - 1)
  {
    if |s| == 1 {
      assert FromBigEndian(s) == FromBigEndian(s[..0]) * 0x100 + s[0];
    } else {
      TopBitsBound(s[..|s| - 1]);
    }
  }

  /** No encoding is a prefix of another, so a value and what follows it are recovered together. */
  lemma PrefixFree(v: nat, w: nat, s: seq<byte>, t: seq<byte>)
    requires v < LIMIT && w < LIMIT
    requires Encode(v) + s == Encode(w) + t
    ensures v == w && s == t
  {
    EncodeDecode(v, s);
    EncodeDecode(w, t);
    assert s == (Encode(v) + s)[|Encode(v)|..];
    assert t == (Encode(w) + t)[|Encode(w)|..];
  }

  /** `encode_varint`: append to a byte vector. */
  method EncodeVarint(v: nat, out: seq<byte>) returns (out': seq<byte>)
    requires v < LIMIT
    ensures out' == out + Encode(v)
  {
    Pow256Values();
    if v < 0x40 {
      out' := out + [v];
    } else if v < 0x4000 {
      var b := BigEndian(v, 2);
      Tag(v, 2);
      out' := out + [b[0] + 0x40, b[1]];
    } else if v < 0x4000_0000 {
      var b := BigEndian(v, 4);
      Tag(v, 4);
      out' := out + [b[0] + 0x80, b[1], b[2], b[3]];
    } else {
      var b := BigEndian(v, 8);
      Tag(v, 8);
      out' := out + [b[0] + 0xC0];
      out' := out' + b[1..];
    }
  }

  /** `decode_varint`: fold the bytes after the first into an accumulator. */
  method DecodeVarint(buf: seq<byte>) returns (r: Option<Decoded>)
    ensures r == Decode(buf)
  {
    if buf == [] { return None; }
    var first := buf[0];
    var len := Size(first);
    if |buf| < len { return None; }
    var v: nat := first % 0x40;
    var i := 1;
    ghost var s := [first % 0x40] + buf[1..len];
    assert s[..1] == [s[0]] && FromBigEndian([s[0]]) == FromBigEndian([s[0]][..0]) * 0x100 + s[0];
    while i < len
      invariant 1 <= i <= len
      invariant v == FromBigEndian(s[..i])
    {
      assert s[..i + 1][..i] == s[..i] && s[i] == buf[i];
      v := v * 0x100 + buf[i];
      i := i + 1;
    }
    assert s[..len] == s;
    return Some(Decoded(v, len));
  }
}
