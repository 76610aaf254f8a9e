/**
 What a decrypted payload may hold: encoded frames, and after them nothing, a CONNECTION_CLOSE, a CRYPTO
 frame the engine refuses, a frame cut short, or a frame type the scanner does not know. And what the
 payloads the builders make hold, for a receiver that reads CRYPTO offsets.
 */
module Contents {
  import opened Bytes
  import opened Frames
  import opened Packets
  import V = Varint

  // ---------------------------------------------------------------------------------------
  // Frames field by field
  // ---------------------------------------------------------------------------------------

  /** One field of a frame, and the error a scanner reports when it is cut short. */
  datatype Field = Field(error: ScanError, bytes: seq<byte>)

  ghost function Number(e: ScanError, v: nat): (r: Field)
    requires v < V.LIMIT
  {
    Field(e, V.Encode(v))
  }

  ghost function RangeFields(ranges: seq<Range>): (r: seq<Field>)
    requires ValidRanges(ranges)
  {
    if ranges == [] then []
    else [Number(AckGap, ranges[0].gap), Number(AckRangeLength, ranges[0].length)] + RangeFields(ranges[1..])
  }

  ghost function EcnFields(ecn: Option<Ecn>): (r: seq<Field>)
    requires ecn.Some? ==> ecn.value.ect0 < V.LIMIT && ecn.value.ect1 < V.LIMIT && ecn.value.ce < V.LIMIT
  {
    match ecn
    case None => []
    case Some(e) => [Number(AckEcnCount, e.ect0), Number(AckEcnCount, e.ect1), Number(AckEcnCount, e.ce)]
  }

  /** The fields after the type byte (sections 19.3, 19.6 and 19.15 of RFC 9000). */
  ghost function Layout(f: Frame): (r: seq<Field>)
    requires f.Valid()
  {
    match f
    case Ack(largest, delay, first, ranges, ecn) =>
      [Number(AckLargest, largest), Number(AckDelay, delay), Number(AckRangeCount, |ranges|),
       Number(AckFirstRange, first)] + (RangeFields(ranges) + EcnFields(ecn))
    case Crypto(offset, data) => [Number(CryptoOffset, offset), Number(CryptoLength, |data|), Field(CryptoData, data)]
    case NewConnectionId(sequence, retire, cid, token) =>
      [Number(NcidSequence, sequence), Number(NcidRetire, retire), Field(NcidLength, [|cid|]),
       Field(NcidTail, cid + token)]
    case _ => []
  }

  ghost function Joined(fields: seq<Field>): (r: seq<byte>) {
    if fields == [] then [] else fields[0].bytes + Joined(fields[1..])
  }

  /** The error of the field that a cut after k bytes falls into. */
  ghost function CutError(fields: seq<Field>, k: nat): (r: ScanError)
    requires k < |Joined(fields)|
  {
    if k < |fields[0].bytes| then fields[0].error else CutError(fields[1..], k - |fields[0].bytes|)
  }

  lemma {:induction false} CutErrorAppend(x: seq<Field>, y: seq<Field>, k: nat)
    requires k < |Joined(x)| + |Joined(y)|
    ensures Joined(x + y) == Joined(x) + Joined(y)
    ensures CutError(x + y, k) == if k < |Joined(x)| then CutError(x, k) else CutError(y, k - |Joined(x)|)
    decreases |x|
  {
    JoinedAppend(x, y);
    if x == [] {
      assert x + y == y;
    } else {
      assert (x + y)[1..] == x[1..] + y;
      if k >= |x[0].bytes| {
        JoinedAppend(x[1..], y);
        CutErrorAppend(x[1..], y, k - |x[0].bytes|);
      }
    }
  }

  lemma {:induction false} JoinedAppend(x: seq<Field>, y: seq<Field>)
    ensures Joined(x + y) == Joined(x) + Joined(y)
    decreases |x|
  {
    if x == [] {
      assert x + y == y;
    } else {
      assert (x + y)[1..] == x[1..] + y;
      JoinedAppend(x[1..], y);
    }
  }

  lemma CutErrorStep(field: Field, rest: seq<Field>, k: nat)
    ensures Joined([field] + rest) == field.bytes + Joined(rest)
    ensures k < |field.bytes| ==> CutError([field] + rest, k) == field.error
    ensures |field.bytes| <= k < |field.bytes| + |Joined(rest)| ==>
              CutError([field] + rest, k) == CutError(rest, k - |field.bytes|)
  {
    assert ([field] + rest)[1..] == rest;
  }

  /** A varint that is cut fails its field; one that is not leaves the cut to what follows. */
  lemma TakeCut(v: nat, rest: seq<byte>, k: nat, e: ScanError)
    requires v < V.LIMIT && k <= |V.Encode(v) + rest|
    ensures var n := |V.Encode(v)|;
            Take((V.Encode(v) + rest)[..k], e) == if k < n then Err(e) else Ok(Taken(v, rest[..k - n]))
  {
    var n := |V.Encode(v)|;
    if k < n {
      assert (V.Encode(v) + rest)[..k] == V.Encode(v)[..k];
      V.DecodeCut(v, k);
    } else {
      assert (V.Encode(v) + rest)[..k] == V.Encode(v) + rest[..k - n];
      TakeEncoded(v, rest[..k - n], e);
    }
  }

  lemma {:induction false} JoinedRanges(ranges: seq<Range>)
    requires ValidRanges(ranges)
    ensures Joined(RangeFields(ranges)) == EncodeRanges(ranges)
    decreases |ranges|
  {
    if ranges != [] {
      JoinedRanges(ranges[1..]);
      var rest := RangeFields(ranges[1..]);
      var gap, len := Number(AckGap, ranges[0].gap), Number(AckRangeLength, ranges[0].length);
      assert RangeFields(ranges) == [gap] + ([len] + rest);
      CutErrorStep(gap, [len] + rest, 0);
      CutErrorStep(len, rest, 0);
    }
  }

  lemma {:induction false} SkipRangesCut(ranges: seq<Range>, k: nat)
    requires ValidRanges(ranges) && k < |Joined(RangeFields(ranges))|
    ensures SkipRanges(Joined(RangeFields(ranges))[..k], |ranges|) == Err(CutError(RangeFields(ranges), k))
    decreases |ranges|
  {
    hide Take;
    hide V.Encode;
    var rest := RangeFields(ranges[1..]);
    var gap, len := Number(AckGap, ranges[0].gap), Number(AckRangeLength, ranges[0].length);
    assert RangeFields(ranges) == [gap] + ([len] + rest);
    CutErrorStep(gap, [len] + rest, k);
    TakeCut(ranges[0].gap, len.bytes + Joined(rest), k, AckGap);
    if k >= |gap.bytes| {
      var k' := k - |gap.bytes|;
      CutErrorStep(len, rest, k');
      TakeCut(ranges[0].length, Joined(rest), k', AckRangeLength);
      if k' >= |len.bytes| { SkipRangesCut(ranges[1..], k' - |len.bytes|); }
    } else {
      CutErrorStep(len, rest, 0);
    }
  }

  lemma JoinedEcn(ecn: Option<Ecn>)
    requires ecn.Some? ==> ecn.value.ect0 < V.LIMIT && ecn.value.ect1 < V.LIMIT && ecn.value.ce < V.LIMIT
    ensures Joined(EcnFields(ecn)) == EncodeEcn(ecn)
  {
    if ecn.Some? {
      var e := ecn.value;
      var a, b, c := Number(AckEcnCount, e.ect0), Number(AckEcnCount, e.ect1), Number(AckEcnCount, e.ce);
      JoinThree(a, b, c);
    }
  }

  lemma {:induction false} OnlyError(fields: seq<Field>, k: nat, e: ScanError)
    requires k < |Joined(fields)| && forall i :: 0 <= i < |fields| ==> fields[i].error == e
    ensures CutError(fields, k) == e
    decreases |fields|
  {
    if k >= |fields[0].bytes| { OnlyError(fields[1..], k - |fields[0].bytes|, e); }
  }

  lemma SkipCountsCut(ecn: Option<Ecn>, k: nat)
    requires ecn.Some? ==> ecn.value.ect0 < V.LIMIT && ecn.value.ect1 < V.LIMIT && ecn.value.ce < V.LIMIT
    requires k < |EncodeEcn(ecn)|
    ensures ecn.Some? && SkipCounts(EncodeEcn(ecn)[..k], 3) == Err(AckEcnCount)
  {
    hide Take;
    hide V.Encode;
    var e := ecn.value;
    var a, b, c := V.Encode(e.ect0), V.Encode(e.ect1), V.Encode(e.ce);
    TakeCut(e.ect0, b + c, k, AckEcnCount);
    if k >= |a| {
      TakeCut(e.ect1, c, k - |a|, AckEcnCount);
      if k - |a| >= |b| {
        assert c + [] == c;
        TakeCut(e.ce, [], k - |a| - |b|, AckEcnCount);
        assert SkipCounts(c[..k - |a| - |b|], 1) == Err(AckEcnCount);
      }
      assert SkipCounts((b + c)[..k - |a|], 2) == Err(AckEcnCount);
    }
  }

  /** Ranges and ECN counts cut short. */
  lemma SkipTailCut(ranges: seq<Range>, ecn: Option<Ecn>, k: nat)
    requires ValidRanges(ranges)
    requires ecn.Some? ==> ecn.value.ect0 < V.LIMIT && ecn.value.ect1 < V.LIMIT && ecn.value.ce < V.LIMIT
    requires var fields := RangeFields(ranges) + EcnFields(ecn); k < |Joined(fields)|
    ensures var fields := RangeFields(ranges) + EcnFields(ecn);
            var s' := SkipRanges(Joined(fields)[..k], |ranges|);
            (if s'.Err? then s' else SkipCounts(s'.value, if ecn.Some? then 3 else 0)) == Err(CutError(fields, k))
  {
    hide SkipRanges;
    hide SkipCounts;
    hide EcnFields;
    hide RangeFields;
    hide Joined;
    hide EncodeEcn;
    hide EncodeRanges;
    var x, y := RangeFields(ranges), EcnFields(ecn);
    JoinedAppend(x, y);
    CutErrorAppend(x, y, k);
    var n := |Joined(x)|;
    if k < n {
      assert (Joined(x) + Joined(y))[..k] == Joined(x)[..k];
      SkipRangesCut(ranges, k);
    } else {
      JoinedRanges(ranges);
      JoinedEcn(ecn);
      assert (Joined(x) + Joined(y))[..k] == Joined(x) + Joined(y)[..k - n];
      SkipRangesEncoded(ranges, Joined(y)[..k - n]);
      SkipCountsCut(ecn, k - n);
      EcnErrors(ecn);
      OnlyError(y, k - n, AckEcnCount);
    }
  }

  lemma EcnErrors(ecn: Option<Ecn>)
    requires ecn.Some? ==> ecn.value.ect0 < V.LIMIT && ecn.value.ect1 < V.LIMIT && ecn.value.ce < V.LIMIT
    ensures forall i :: 0 <= i < |EcnFields(ecn)| ==> EcnFields(ecn)[i].error == AckEcnCount
  {
  }

  lemma SkipAckCut(f: Frame, k: nat)
    requires f.Ack? && f.Valid() && k < |Joined(Layout(f))|
    ensures SkipAck(Joined(Layout(f))[..k], f.ecn.Some?) == Err(CutError(Layout(f), k))
  {
    hide Take;
    hide V.Encode;
    hide SkipRanges;
    hide SkipCounts;
    hide EcnFields;
    hide RangeFields;
    var a, b := Number(AckLargest, f.largest), Number(AckDelay, f.delay);
    var c, d := Number(AckRangeCount, |f.ranges|), Number(AckFirstRange, f.first);
    var tail := RangeFields(f.ranges) + EcnFields(f.ecn);
    assert Layout(f) == [a] + ([b] + ([c] + ([d] + tail)));
    hide Layout;
    hide Joined;
    hide CutError;
    CutErrorStep(a, [b] + ([c] + ([d] + tail)), k);
    TakeCut(f.largest, Joined([b] + ([c] + ([d] + tail))), k, AckLargest);
    if k >= |a.bytes| {
      var k1 := k - |a.bytes|;
      CutErrorStep(b, [c] + ([d] + tail), k1);
      TakeCut(f.delay, Joined([c] + ([d] + tail)), k1, AckDelay);
      if k1 >= |b.bytes| {
        var k2 := k1 - |b.bytes|;
        CutErrorStep(c, [d] + tail, k2);
        TakeCut(|f.ranges|, Joined([d] + tail), k2, AckRangeCount);
        if k2 >= |c.bytes| {
          var k3 := k2 - |c.bytes|;
          CutErrorStep(d, tail, k3);
          TakeCut(f.first, Joined(tail), k3, AckFirstRange);
          if k3 >= |d.bytes| { SkipTailCut(f.ranges, f.ecn, k3 - |d.bytes|); }
        }
      }
    }
  }

  lemma TakeCryptoCut(f: Frame, k: nat)
    requires f.Crypto? && f.Valid() && k < |Joined(Layout(f))|
    ensures TakeCrypto(Joined(Layout(f))[..k]) == Err(CutError(Layout(f), k))
  {
    hide Take;
    hide V.Encode;
    var o, l, d := Number(CryptoOffset, f.offset), Number(CryptoLength, |f.data|), Field(CryptoData, f.data);
    assert Layout(f) == [o] + ([l] + ([d] + []));
    CutErrorStep(o, [l] + ([d] + []), k);
    TakeCut(f.offset, Joined([l] + ([d] + [])), k, CryptoOffset);
    if k >= |o.bytes| {
      var k1 := k - |o.bytes|;
      CutErrorStep(l, [d] + [], k1);
      TakeCut(|f.data|, Joined([d] + []), k1, CryptoLength);
      if k1 >= |l.bytes| { CutErrorStep(d, [], k1 - |l.bytes|); }
    }
  }

  lemma SkipNcidCut(f: Frame, k: nat)
    requires f.NewConnectionId? && f.Valid() && k < |Joined(Layout(f))|
    ensures SkipNcid(Joined(Layout(f))[..k]) == Err(CutError(Layout(f), k))
  {
    hide Take;
    hide V.Encode;
    var a, b := Number(NcidSequence, f.sequence), Number(NcidRetire, f.retire);
    var n, t := Field(NcidLength, [|f.cid|]), Field(NcidTail, f.cid + f.token);
    assert Layout(f) == [a] + ([b] + ([n] + ([t] + [])));
    hide Joined;
    hide CutError;
    CutErrorStep(a, [b] + ([n] + ([t] + [])), k);
    TakeCut(f.sequence, Joined([b] + ([n] + ([t] + []))), k, NcidSequence);
    if k >= |a.bytes| {
      var k1 := k - |a.bytes|;
      CutErrorStep(b, [n] + ([t] + []), k1);
      TakeCut(f.retire, Joined([n] + ([t] + [])), k1, NcidRetire);
      if k1 >= |b.bytes| {
        var k2 := k1 - |b.bytes|;
        CutErrorStep(n, [t] + [], k2);
        if k2 >= 1 {
          CutErrorStep(t, [], k2 - 1);
          NothingJoined();
          assert Joined([n] + ([t] + []))[..k2][0] == |f.cid|;
        }
      }
    }
  }

  lemma NothingJoined()
    ensures Joined([]) == []
  {
  }

  lemma JoinFour(a: Field, b: Field, c: Field, d: Field, rest: seq<Field>)
    ensures Joined([a, b, c, d] + rest) == a.bytes + (b.bytes + (c.bytes + (d.bytes + Joined(rest))))
  {
    hide Joined;
    assert [a, b, c, d] + rest == [a] + ([b] + ([c] + ([d] + rest)));
    CutErrorStep(a, [b] + ([c] + ([d] + rest)), 0);
    CutErrorStep(b, [c] + ([d] + rest), 0);
    CutErrorStep(c, [d] + rest, 0);
    CutErrorStep(d, rest, 0);
  }

  lemma JoinThree(a: Field, b: Field, c: Field)
    ensures Joined([a, b, c]) == a.bytes + (b.bytes + c.bytes)
  {
    hide Joined;
    NothingJoined();
    assert [a, b, c] == [a] + ([b] + ([c] + []));
    CutErrorStep(a, [b] + ([c] + []), 0);
    CutErrorStep(b, [c] + [], 0);
    CutErrorStep(c, [], 0);
    assert c.bytes + [] == c.bytes;
  }

  /** The layout is the encoding. */
  lemma EncodedLayout(f: Frame)
    requires f.Valid()
    ensures EncodeFrame(f) == [TypeOf(f)] + Joined(Layout(f))
  {
    hide V.Encode;
    hide Joined;
    hide RangeFields;
    hide EcnFields;
    hide EncodeRanges;
    hide EncodeEcn;
    NothingJoined();
    match f {
      case Ack(largest, delay, first, ranges, ecn) =>
        var x, y := RangeFields(ranges), EcnFields(ecn);
        JoinedRanges(ranges);
        JoinedEcn(ecn);
        JoinedAppend(x, y);
        JoinFour(Number(AckLargest, largest), Number(AckDelay, delay), Number(AckRangeCount, |ranges|),
                 Number(AckFirstRange, first), x + y);
      case Crypto(offset, data) =>
        JoinThree(Number(CryptoOffset, offset), Number(CryptoLength, |data|), Field(CryptoData, data));
      case NewConnectionId(sequence, retire, cid, token) =>
        var a, b, n := Number(NcidSequence, sequence), Number(NcidRetire, retire), Field(NcidLength, [|cid|]);
        var t := Field(NcidTail, cid + token);
        JoinFour(a, b, n, t, []);
        assert [a, b, n, t] + [] == [a, b, n, t] && t.bytes + [] == t.bytes;
      case _ =>
        assert [TypeOf(f)] + [] == [TypeOf(f)];
    }
  }

  /** A frame cut anywhere after its type byte stops the scan with the error of the field that is cut. */
  lemma ScanCut(f: Frame, kept: nat, engine: Engine, fed: seq<seq<byte>>)
    requires f.Valid() && 1 <= kept < |EncodeFrame(f)|
    ensures kept - 1 < |Joined(Layout(f))|
    ensures ScanFull(EncodeFrame(f)[..kept], engine, fed) == Scan(Failed(CutError(Layout(f), kept - 1)), fed)
  {
    hide EncodeFrame;
    hide SkipAck;
    hide TakeCrypto;
    hide SkipNcid;
    hide Joined;
    hide CutError;
    hide Frame.Valid;
    EncodedLayout(f);
    var s, k := EncodeFrame(f)[..kept], kept - 1;
    assert s[0] == TypeOf(f) && s[1..] == Joined(Layout(f))[..k];
    NothingJoined();
    match f {
      case Ack(_, _, _, _, _) => SkipAckCut(f, k);
      case Crypto(_, _) => TakeCryptoCut(f, k);
      case NewConnectionId(_, _, _, _) => SkipNcidCut(f, k);
      case _ => assert false;
    }
  }

  lemma ParseCloseBodyCut(c: Close, k: nat)
    requires c.Valid() && k < |EncodeCloseBody(c)|
    ensures ParseCloseBody(EncodeCloseBody(c)[..k], c.Report().frameType) == Err(CloseMalformed)
  {
    hide Take;
    hide V.Encode;
    var code, length := V.Encode(c.errorCode), V.Encode(|c.reason|);
    var tail := length + c.reason;
    var body := if c.trigger.Some? then V.Encode(c.trigger.value) + tail else tail;
    TakeCut(c.errorCode, body, k, CloseMalformed);
    if k >= |code| {
      var k1 := k - |code|;
      if c.trigger.Some? { TakeCut(c.trigger.value, tail, k1, CloseMalformed); }
      var k2 := if c.trigger.Some? then k1 - |V.Encode(c.trigger.value)| else k1;
      if k2 >= 0 { TakeCut(|c.reason|, c.reason, k2, CloseMalformed); }
    }
  }

  lemma ScanCutClose(c: Close, kept: nat, engine: Engine, fed: seq<seq<byte>>)
    requires c.Valid() && 1 <= kept < |EncodeClose(c)|
    ensures ScanFull(EncodeClose(c)[..kept], engine, fed) == Scan(Failed(CloseMalformed), fed)
  {
    hide EncodeCloseBody;
    hide ParseCloseBody;
    var s := EncodeClose(c)[..kept];
    assert s[0] == c.Report().frameType && s[1..] == EncodeCloseBody(c)[..kept - 1];
    ParseCloseBodyCut(c, kept - 1);
    ScanFullAtClose(s, engine, fed);
  }

  // ---------------------------------------------------------------------------------------
  // Payloads
  // ---------------------------------------------------------------------------------------

  datatype Stop =
    | Whole
    | Closing(close: Close, suffix: seq<byte>)
    | Refused(frame: Frame, suffix: seq<byte>)
    | CutShort(frame: Frame, kept: nat)
    | CutClose(close: Close, kept: nat)
    | Foreign(kind: byte, suffix: seq<byte>)

  const KNOWN: set<byte> := {0x00, 0x01, 0x02, 0x03, 0x06, 0x18, 0x1c, 0x1d, 0x1e}

  datatype Content = Content(frames: seq<Frame>, ending: Stop) {
    ghost predicate Valid() {
      && ValidFrames(frames)
      && match ending
         case Whole => true
         case Closing(close, _) => close.Valid()
         case Refused(frame, _) => frame.Crypto? && frame.Valid()
         case CutShort(frame, kept) => frame.Valid() && 1 <= kept < |EncodeFrame(frame)|
         case CutClose(close, kept) => close.Valid() && 1 <= kept < |EncodeClose(close)|
         case Foreign(kind, _) => kind !in KNOWN
    }

    ghost function End(): (r: seq<byte>)
      requires Valid()
    {
      match ending
      case Whole => []
      case Closing(close, suffix) => EncodeClose(close) + suffix
      case Refused(frame, suffix) => EncodeFrame(frame) + suffix
      case CutShort(frame, kept) => EncodeFrame(frame)[..kept]
      case CutClose(close, kept) => EncodeClose(close)[..kept]
      case Foreign(kind, suffix) => [kind] + suffix
    }

    ghost function Bytes(): (r: seq<byte>)
      requires Valid()
    {
      EncodeFrames(frames) + End()
    }

    /** Every chunk the engine is given. */
    ghost function Told(): (r: seq<seq<byte>>)
      requires Valid()
    {
      Payloads(frames) + if ending.Refused? then [ending.frame.data] else []
    }

    /** What the harness learns from the payload. */
    ghost function Lesson(): (r: Outcome)
      requires Valid()
    {
      match ending
      case Closing(close, _) => Closed(close.Report())
      case Refused(_, _) => Failed(ReadHs)
      case CutShort(frame, kept) => EncodedLayout(frame); Failed(CutError(Layout(frame), kept - 1))
      case CutClose(_, _) => Failed(CloseMalformed)
      case _ => Quiet
    }
  }

  /** The engine takes the payload as the content says: everything but a refused chunk. */
  ghost predicate Suits(content: Content, engine: Engine, fed: seq<seq<byte>>) {
    && Accepts(engine, fed, Payloads(content.frames))
    && (content.ending.Refused? && content.ending.frame.Crypto? ==>
          !engine(fed + Payloads(content.frames), content.ending.frame.data))
  }

  lemma ScanRefused(f: Frame, suffix: seq<byte>, engine: Engine, fed: seq<seq<byte>>)
    requires f.Crypto? && f.Valid() && !engine(fed, f.data)
    ensures ScanFull(EncodeFrame(f) + suffix, engine, fed) == Scan(Failed(ReadHs), fed + [f.data])
  {
    hide EncodeFrame;
    hide TakeCrypto;
    StartsWithType(f);
    var s := EncodeFrame(f) + suffix;
    assert s[0] == 0x06 && s[1..] == EncodeFrame(f)[1..] + suffix;
    TakeCryptoEncoded(f, suffix);
  }

  lemma ScanForeign(kind: byte, suffix: seq<byte>, engine: Engine, fed: seq<seq<byte>>)
    requires kind !in KNOWN
    ensures ScanFull([kind] + suffix, engine, fed) == Scan(Quiet, fed)
  {
    hide SkipAck;
    hide TakeCrypto;
    hide SkipNcid;
    hide CloseOutcome;
    assert ([kind] + suffix)[0] == kind;
  }

  /** The full scanner on every such payload: what it reports, and every chunk the engine is given, in
      order. A close, a refused chunk and a cut frame stop it; an unknown frame type stops it quietly. */
  lemma ScanContent(content: Content, engine: Engine, fed: seq<seq<byte>>)
    requires content.Valid() && Suits(content, engine, fed)
    ensures ScanFull(content.Bytes(), engine, fed) == Scan(content.Lesson(), fed + content.Told())
  {
    hide ScanFull;
    hide EncodeFrame;
    hide EncodeFrames;
    hide EncodeClose;
    hide Accepts;
    hide CutError;
    hide Layout;
    var fed' := fed + Payloads(content.frames);
    ScanFullFrames(content.frames, content.End(), engine, fed);
    assert Payloads(content.frames) + [] == Payloads(content.frames);
    match content.ending {
      case Whole => ScanNothing(engine, fed');
      case Closing(close, suffix) => ScanFullClose(close, suffix, engine, fed');
      case Refused(frame, suffix) =>
        ScanRefused(frame, suffix, engine, fed');
        assert fed' + [frame.data] == fed + (Payloads(content.frames) + [frame.data]);
      case CutShort(frame, kept) => ScanCut(frame, kept, engine, fed');
      case CutClose(close, kept) => ScanCutClose(close, kept, engine, fed');
      case Foreign(kind, suffix) => ScanForeign(kind, suffix, engine, fed');
    }
  }

  lemma ScanNothing(engine: Engine, fed: seq<seq<byte>>)
    ensures ScanFull([], engine, fed) == Scan(Quiet, fed)
  {
  }

  // ---------------------------------------------------------------------------------------
  // What the builders send, to a receiver that reads offsets
  // ---------------------------------------------------------------------------------------

  /** The CRYPTO frames of a payload that holds nothing else but PADDING. */
  ghost function ReadCrypto(s: seq<byte>): (r: Option<seq<Frame>>)
    decreases |s|
  {
    if s == [] then Some([])
    else if s[0] == 0x00 then ReadCrypto(s[1..])
    else if s[0] != 0x06 then None
    else
      var offset := Take(s[1..], CryptoOffset);
      if offset.Err? then None
      else
        var length := Take(offset.value.rest, CryptoLength);
        if length.Err? || |length.value.rest| < length.value.value then None
        else
          var data, rest := length.value.rest[..length.value.value], length.value.rest[length.value.value..];
          match ReadCrypto(rest)
          case None => None
          case Some(frames) => Some([Crypto(offset.value.value, data)] + frames)
  }

  lemma ReadCryptoFrame(f: Frame, rest: seq<byte>)
    requires f.Crypto? && f.Valid() && ReadCrypto(rest).Some?
    ensures ReadCrypto(EncodeFrame(f) + rest) == Some([f] + ReadCrypto(rest).value)
  {
    hide Take;
    hide V.Encode;
    var o, l := V.Encode(f.offset), V.Encode(|f.data|);
    Assoc(o, l + f.data, rest);
    Assoc(l, f.data, rest);
    var s := EncodeFrame(f) + rest;
    assert s[0] == 0x06 && s[1..] == o + (l + (f.data + rest));
    TakeEncoded(f.offset, l + (f.data + rest), CryptoOffset);
    TakeEncoded(|f.data|, f.data + rest, CryptoLength);
    assert (f.data + rest)[..|f.data|] == f.data && (f.data + rest)[|f.data|..] == rest;
  }

  ghost function Paddings(n: nat): (r: seq<Frame>)
    ensures |r| == n
  {
    seq(n, _ => Padding)
  }

  lemma {:induction false} PaddingBytes(n: nat)
    ensures ValidFrames(Paddings(n)) && EncodeFrames(Paddings(n)) == Zeros(n) && ReadCrypto(Zeros(n)) == Some([])
  {
    if n > 0 {
      assert Paddings(n)[1..] == Paddings(n - 1);
      assert Zeros(n)[1..] == Zeros(n - 1);
      PaddingBytes(n - 1);
    }
  }

  /** The payload of every packet the builders make, in every number space, is one CRYPTO frame at offset 0
      that carries all the data, and then PADDING frames; a receiver that honours offsets reads that frame. */
  lemma BuiltFrames(packetType: nat, dcid: seq<byte>, scid: seq<byte>, crypto: seq<byte>)
    requires packetType < 4 && |crypto| < V.LIMIT
    ensures var n := if packetType == INITIAL
                     then PaddingLength(|HeaderPrefix(packetType, dcid, scid)|, |CryptoPayload(crypto)|) else 0;
            var frames := [Crypto(0, crypto)] + Paddings(n);
            ValidFrames(frames) && Plaintext(packetType, dcid, scid, crypto) == EncodeFrames(frames)
    ensures CryptoPayload(crypto) == EncodeFrame(Crypto(0, crypto))
    ensures ReadCrypto(Plaintext(packetType, dcid, scid, crypto)) == Some([Crypto(0, crypto)])
    ensures ReadCrypto(CryptoPayload(crypto)) == Some([Crypto(0, crypto)])
  {
    hide CryptoPayload;
    hide EncodeFrame;
    hide EncodeFrames;
    hide ReadCrypto;
    hide HeaderPrefix;
    hide Plaintext;
    var n := if packetType == INITIAL
             then PaddingLength(|HeaderPrefix(packetType, dcid, scid)|, |CryptoPayload(crypto)|) else 0;
    CryptoThenPadding(crypto, n);
    CryptoThenPadding(crypto, 0);
    PlaintextParts(packetType, dcid, scid, crypto, n);
    assert CryptoPayload(crypto) + Zeros(0) == CryptoPayload(crypto);
  }

  lemma PlaintextParts(packetType: nat, dcid: seq<byte>, scid: seq<byte>, crypto: seq<byte>, n: nat)
    requires packetType < 4 && |crypto| < V.LIMIT
    requires n == if packetType == INITIAL
                  then PaddingLength(|HeaderPrefix(packetType, dcid, scid)|, |CryptoPayload(crypto)|) else 0
    ensures Plaintext(packetType, dcid, scid, crypto) == CryptoPayload(crypto) + Zeros(n)
  {
    hide CryptoPayload;
    hide HeaderPrefix;
    assert CryptoPayload(crypto) + Zeros(0) == CryptoPayload(crypto);
  }

  lemma CryptoThenPadding(crypto: seq<byte>, n: nat)
    requires |crypto| < V.LIMIT
    ensures CryptoPayload(crypto) == EncodeFrame(Crypto(0, crypto))
    ensures var frames, s := [Crypto(0, crypto)] + Paddings(n), CryptoPayload(crypto) + Zeros(n);
            ValidFrames(frames) && EncodeFrames(frames) == s && ReadCrypto(s) == Some([Crypto(0, crypto)])
  {
    hide V.Encode;
    hide ReadCrypto;
    var f := Crypto(0, crypto);
    PaddingBytes(n);
    ReadCryptoFrame(f, Zeros(n));
    assert ([f] + Paddings(n))[1..] == Paddings(n) && [f] + [] == [f];
  }

  /** A built payload feeds the engine its CRYPTO bytes and nothing else, however much PADDING follows. */
  lemma ScanPlaintext(
    packetType: nat, dcid: seq<byte>, scid: seq<byte>, crypto: seq<byte>, engine: Engine, fed: seq<seq<byte>>)
    requires packetType < 4 && |crypto| < V.LIMIT && engine(fed, crypto)
    ensures ScanFull(Plaintext(packetType, dcid, scid, crypto), engine, fed) == Scan(Quiet, fed + [crypto])
  {
    hide Plaintext;
    hide ScanFull;
    hide EncodeFrames;
    hide CryptoPayload;
    hide HeaderPrefix;
    BuiltFrames(packetType, dcid, scid, crypto);
    var n := if packetType == INITIAL
             then PaddingLength(|HeaderPrefix(packetType, dcid, scid)|, |CryptoPayload(crypto)|) else 0;
    var frames := [Crypto(0, crypto)] + Paddings(n);
    assert frames[1..] == Paddings(n);
    NoPayloads(n);
    assert Payloads(frames) == [crypto] + [];
    assert Accepts(engine, fed + [crypto], []);
    assert EncodeFrames(frames) + [] == EncodeFrames(frames);
    ScanFullFrames(frames, [], engine, fed);
    ScanNothing(engine, fed + Payloads(frames));
  }

  lemma {:induction false} NoPayloads(n: nat)
    ensures Payloads(Paddings(n)) == []
  {
    if n > 0 {
      assert Paddings(n)[1..] == Paddings(n - 1);
      NoPayloads(n - 1);
    }
  }
}
