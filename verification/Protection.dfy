/**
 Packet protection (sections 5.3 and 5.4 of RFC 9001). The AEAD and the header-protection
 cipher are foreign code: they enter as arbitrary functions, constrained only by `Valid`.
 */
module Protection {
  import opened Bytes

  const TAG_LEN := 16
  const SAMPLE_LEN := 16

  /** One direction's keys. `seal` and `mask` are None when the underlying library reports an error. */
  datatype DirectionalKeys = DirectionalKeys(
    seal: (nat, seq<byte>, seq<byte>) -> Option<seq<byte>>,
    open: (nat, seq<byte>, seq<byte>) -> Option<seq<byte>>,
    mask: seq<byte> -> Option<seq<byte>>)
  {
    /** Ciphertexts carry a 16-byte tag and header masks have five bytes. */
    ghost predicate WellSized() {
      && (forall pn: nat, aad, pt :: seal(pn, aad, pt).Some? ==> |seal(pn, aad, pt).value| == |pt| + TAG_LEN)
      && (forall sample :: mask(sample).Some? ==> |mask(sample).value| == 5)
    }

    /** A working suite: sealing and masking never fail, and opening undoes sealing. */
    ghost predicate Valid() {
      && WellSized()
      && (forall pn: nat, aad, pt ::
            seal(pn, aad, pt).Some? && open(pn, aad, seal(pn, aad, pt).value) == Some(pt))
      && (forall sample :: mask(sample).Some?)
    }
  }

  /** A suite meeting `Valid`, so the statements quantified over valid suites are not vacuous. */
  const TOY := DirectionalKeys(
    (pn, aad, pt) => Some(pt + BigEndian(pn, TAG_LEN)),
    (pn, aad, ct) => if |ct| < TAG_LEN then None else Some(ct[..|ct| - TAG_LEN]),
    sample => Some(BigEndian(FromBigEndian(sample), 5)))

  lemma ToyIsValid()
    ensures TOY.Valid()
  {
    forall pn: nat, aad: seq<byte>, pt: seq<byte>
      ensures TOY.open(pn, aad, TOY.seal(pn, aad, pt).value) == Some(pt)
    {
      var ct := pt + BigEndian(pn, TAG_LEN);
      assert ct[..|ct| - TAG_LEN] == pt;
    }
  }

  // ---------------------------------------------------------------------------------------
  // Header protection
  // ---------------------------------------------------------------------------------------

  /** Four protected bits in a long header's first byte, five in a short header's. */
  function MaskFirst(first: byte, m: byte): (r: byte) {
    Xor(first, if first >= 0x80 then m % 0x10 else m % 0x20)
  }

  /** The packet-number length a first byte announces. */
  function PnLength(first: byte): (r: nat)
    ensures 1 <= r <= 4
  {
    first % 4 + 1
  }

  /** The sample is the 16 bytes that start four bytes after the packet number does. */
  function Sample(pkt: seq<byte>, pnOffset: nat): (r: seq<byte>)
    requires pnOffset + 4 + SAMPLE_LEN <= |pkt|
  {
    pkt[pnOffset + 4..pnOffset + 4 + SAMPLE_LEN]
  }

  function MaskByte(b: byte, i: nat, from: nat, count: nat, m: seq<byte>): (r: byte)
    requires count <= 4 && |m| == 5
  {
    if from <= i < from + count then Xor(b, m[1 + i - from]) else b
  }

  /** Mask `count` bytes from a position on. */
  function MaskRun(s: seq<byte>, from: nat, count: nat, m: seq<byte>): (r: seq<byte>)
    requires count <= 4 && |m| == 5 && from + count <= |s|
    ensures |r| == |s|
  {
    seq<byte>(|s|, i requires 0 <= i < |s| => MaskByte(s[i], i, from, count, m))
  }

  /** Replace the first byte and then mask the first `count` packet-number bytes. */
  function ApplyMask(pkt: seq<byte>, first: byte, pnOffset: nat, count: nat, m: seq<byte>): (r: seq<byte>)
    requires count <= 4 && |m| == 5 && pkt != [] && pnOffset + count <= |pkt|
    ensures |r| == |pkt|
  {
    MaskRun(pkt[0 := first], pnOffset, count, m)
  }

  /** Header protection with a packet-number slice of `pnLength` bytes; the cipher masks no more
      bytes than the plain first byte announces. */
  function Protect(pkt: seq<byte>, pnOffset: nat, pnLength: nat, m: seq<byte>): (r: seq<byte>)
    requires pnLength <= 4 && |m| == 5 && pnOffset + 4 + SAMPLE_LEN <= |pkt|
    ensures |r| == |pkt|
  {
    ApplyMask(pkt, MaskFirst(pkt[0], m[0]), pnOffset, Min(pnLength, PnLength(pkt[0])), m)
  }

  /** Removing it: the first byte is unmasked before the packet-number length is read from it. */
  function Unprotect(pkt: seq<byte>, pnOffset: nat, m: seq<byte>): (r: seq<byte>)
    requires |m| == 5 && pnOffset + 4 + SAMPLE_LEN <= |pkt|
    ensures |r| == |pkt|
  {
    var first := MaskFirst(pkt[0], m[0]);
    ApplyMask(pkt, first, pnOffset, PnLength(first), m)
  }

  lemma MaskFirstInvolutive(first: byte, m: byte)
    ensures MaskFirst(MaskFirst(first, m), m) == first
    ensures first >= 0x80 ==> MaskFirst(first, m) / 0x10 == first / 0x10
    ensures first < 0x80 ==> MaskFirst(first, m) / 0x20 == first / 0x20
    ensures (first >= 0x80) == (MaskFirst(first, m) >= 0x80)
  {
    if first >= 0x80 {
      XorLowNibble(first, m % 0x10);
      XorInvolutive(first, m % 0x10);
    } else {
      XorLowFive(first, m % 0x20);
      XorInvolutive(first, m % 0x20);
    }
  }

  /** Of the first byte exactly the protected bits are masked: the low four of a long header, the low
      five of a short one. */
  lemma MaskFirstExact(first: byte, m: byte)
    ensures first >= 0x80 ==> MaskFirst(first, m) % 0x10 == Xor(first, m) % 0x10
    ensures first < 0x80 ==> MaskFirst(first, m) % 0x20 == Xor(first, m) % 0x20
  {
    var k := if first >= 0x80 then 4 else 5;
    assert Pow2(4) == 0x10 && Pow2(5) == 0x20;
    hide XorBits;
    hide Pow2;
    var low := m % Pow2(k);
    assert low % Pow2(k) == low;
    XorBitsLow(first, m, 8, k);
    XorBitsLow(first, low, 8, k);
  }

  /** Protection touches neither the sample nor anything outside the first byte and the packet number,
      whose k-th byte it masks with byte k + 1 of the mask. */
  lemma ProtectFrame(pkt: seq<byte>, pnOffset: nat, pnLength: nat, m: seq<byte>)
    requires pnLength <= 4 && |m| == 5 && 1 <= pnOffset && pnOffset + 4 + SAMPLE_LEN <= |pkt|
    ensures var p, n := Protect(pkt, pnOffset, pnLength, m), Min(pnLength, PnLength(pkt[0]));
            && Sample(p, pnOffset) == Sample(pkt, pnOffset)
            && p[0] == MaskFirst(pkt[0], m[0])
            && p[1..pnOffset] == pkt[1..pnOffset] && p[pnOffset + n..] == pkt[pnOffset + n..]
            && forall i :: pnOffset <= i < pnOffset + n ==> p[i] == Xor(pkt[i], m[1 + i - pnOffset])
  {
    hide Xor;
  }

  /** Unprotecting undoes protecting whenever the caller's packet-number slice is no shorter than
      the length the first byte announces. */
  lemma UnprotectProtect(pkt: seq<byte>, pnOffset: nat, pnLength: nat, m: seq<byte>)
    requires pnLength <= 4 && |m| == 5 && 1 <= pnOffset && pnOffset + 4 + SAMPLE_LEN <= |pkt|
    requires PnLength(pkt[0]) <= pnLength
    ensures Unprotect(Protect(pkt, pnOffset, pnLength, m), pnOffset, m) == pkt
  {
    MaskFirstInvolutive(pkt[0], m[0]);
    forall i: nat | pnOffset <= i < pnOffset + PnLength(pkt[0])
      ensures Xor(Xor(pkt[i], m[1 + i - pnOffset]), m[1 + i - pnOffset]) == pkt[i]
    {
      XorInvolutive(pkt[i], m[1 + i - pnOffset]);
    }
  }

  /** The condition is exact: with a shorter slice, or a packet number that starts at the first
      byte itself, some mask leaves the packet damaged. */
  lemma ProtectionUndoneIff(pkt: seq<byte>, pnOffset: nat, pnLength: nat)
    requires pnLength <= 4 && pnOffset + 4 + SAMPLE_LEN <= |pkt|
    ensures (forall m: seq<byte> | |m| == 5 :: Unprotect(Protect(pkt, pnOffset, pnLength, m), pnOffset, m) == pkt)
        <==> 1 <= pnOffset && PnLength(pkt[0]) <= pnLength
  {
    if 1 <= pnOffset && PnLength(pkt[0]) <= pnLength {
      forall m: seq<byte> | |m| == 5
        ensures Unprotect(Protect(pkt, pnOffset, pnLength, m), pnOffset, m) == pkt
      {
        UnprotectProtect(pkt, pnOffset, pnLength, m);
      }
    } else if pnLength < PnLength(pkt[0]) {
      ShortSliceDamages(pkt, pnOffset, pnLength);
    } else {
      OffsetZeroDamages(pkt, pnLength);
    }
  }

  lemma FlipLowBit(b: byte)
    ensures Xor(b, 1) == if b % 2 == 0 then b + 1 else b - 1
  {
    hide XorBits;
    hide Pow2;
    Pow2Of8();
    XorBitsHalf(b, 1, 8);
    XorBitsZero(b / 2, 7);
  }

  lemma KeepByte(b: byte)
    ensures Xor(b, 0) == b
  {
    Pow2Of8();
    XorBitsZero(b, 8);
  }

  lemma ShortSliceDamages(pkt: seq<byte>, pnOffset: nat, pnLength: nat)
    requires pnOffset + 4 + SAMPLE_LEN <= |pkt| && pnLength < PnLength(pkt[0])
    ensures exists m: seq<byte> :: |m| == 5 && Unprotect(Protect(pkt, pnOffset, pnLength, m), pnOffset, m) != pkt
  {
    hide Xor;
    var m := if pnLength == 0 then [0, 1, 0, 0, 0] else [0, 0, 1, 1, 1];
    var i := pnOffset + pnLength;
    KeepByte(pkt[0]);
    FlipLowBit(pkt[i]);
    assert Protect(pkt, pnOffset, pnLength, m)[0] == pkt[0];
    assert Protect(pkt, pnOffset, pnLength, m)[i] == pkt[i];
    assert Unprotect(Protect(pkt, pnOffset, pnLength, m), pnOffset, m)[i] == Xor(pkt[i], 1);
  }

  /** Masking the packet number then changes the length the receiver reads off the first byte. */
  lemma OffsetZeroDamages(pkt: seq<byte>, pnLength: nat)
    requires 4 + SAMPLE_LEN <= |pkt| && PnLength(pkt[0]) <= pnLength <= 4
    ensures exists m: seq<byte> :: |m| == 5 && Unprotect(Protect(pkt, 0, pnLength, m), 0, m) != pkt
  {
    hide Xor;
    var m: seq<byte> := [0, 1, 1, 1, 1];
    var p := Protect(pkt, 0, pnLength, m);
    var n, n' := PnLength(pkt[0]), PnLength(Xor(pkt[0], 1));
    KeepByte(pkt[0]);
    FlipLowBit(pkt[0]);
    assert p[0] == Xor(pkt[0], 1);
    KeepByte(p[0]);
    var i := Min(n, n');
    FlipLowBit(pkt[i]);
    assert Unprotect(p, 0, m)[i] == Xor(pkt[i], 1);
  }
}
