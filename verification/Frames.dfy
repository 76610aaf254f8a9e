/**
 QUIC frames (section 19 of RFC 9000): the encodings the vector generators build, and the
 three hand-written scanners that walk a decrypted payload looking for CONNECTION_CLOSE.

 The scanners are specified on the bytes still to be read; `ScanInitial` and its siblings
 are the source's cursor loops and are proved equal to these specifications.
 */
module Frames {
  import opened Bytes
  import V = Varint

  /** CONNECTION_CLOSE as the harness reports it; the reason is kept as raw bytes. */
  datatype ConnectionClose = ConnectionClose(errorCode: nat, frameType: byte, reason: seq<byte>)

  datatype ScanError =
    | AckLargest | AckDelay | AckRangeCount | AckFirstRange | AckGap | AckRangeLength | AckEcnCount
    | CryptoOffset | CryptoLength | CryptoData | ReadHs
    | NcidSequence | NcidRetire | NcidLength | NcidTail
    | CloseMalformed

  /** Ok(Some(cc)), Ok(None) and Err(e) of the scanners. */
  datatype Outcome = Closed(cc: ConnectionClose) | Quiet | Failed(error: ScanError)

  // ---------------------------------------------------------------------------------------
  // Parsing steps
  // ---------------------------------------------------------------------------------------

  datatype Taken = Taken(value: nat, rest: seq<byte>)

  /** Read one varint off the front, or fail with the error of the field being read. */
  function Take(s: seq<byte>, e: ScanError): (r: Result<Taken, ScanError>)
    ensures r.Ok? ==> |r.value.rest| < |s| && r.value.value < V.LIMIT
  {
    match V.Decode(s)
    case None => Err(e)
    case Some(d) => V.DecodeBounds(s); Ok(Taken(d.value, s[d.size..]))
  }

  /** One ACK range: a Gap and a Range Length varint. */
  function SkipRange(s: seq<byte>): (r: Result<seq<byte>, ScanError>)
    ensures r.Ok? ==> |r.value| + 2 <= |s|
  {
    var gap :- Take(s, AckGap);
    var len :- Take(gap.rest, AckRangeLength);
    Ok(len.rest)
  }

  function SkipRanges(s: seq<byte>, n: nat): (r: Result<seq<byte>, ScanError>)
    decreases n
  {
    if n == 0 then Ok(s) else var rest :- SkipRange(s); SkipRanges(rest, n - 1)
  }

  function SkipCounts(s: seq<byte>, n: nat): (r: Result<seq<byte>, ScanError>)
    decreases n
  {
    if n == 0 then Ok(s) else var c :- Take(s, AckEcnCount); SkipCounts(c.rest, n - 1)
  }

  /** The body of an ACK (ecn = false) or ACK_ECN frame, after the type byte. */
  function SkipAck(s: seq<byte>, ecn: bool): (r: Result<seq<byte>, ScanError>) {
    var largest :- Take(s, AckLargest);
    var delay :- Take(largest.rest, AckDelay);
    var count :- Take(delay.rest, AckRangeCount);
    var first :- Take(count.rest, AckFirstRange);
    var s' :- SkipRanges(first.rest, count.value);
    SkipCounts(s', if ecn then 3 else 0)
  }

  datatype CryptoBody = CryptoBody(data: seq<byte>, rest: seq<byte>)

  function TakeCrypto(s: seq<byte>): (r: Result<CryptoBody, ScanError>)
    ensures r.Ok? ==> |r.value.rest| < |s|
  {
    var offset :- Take(s, CryptoOffset);
    var len :- Take(offset.rest, CryptoLength);
    if |len.rest| < len.value then Err(CryptoData)
    else Ok(CryptoBody(len.rest[..len.value], len.rest[len.value..]))
  }

  function SkipNcid(s: seq<byte>): (r: Result<seq<byte>, ScanError>)
    ensures r.Ok? ==> |r.value| < |s|
  {
    var sequence :- Take(s, NcidSequence);
    var retire :- Take(sequence.rest, NcidRetire);
    SkipCidAndToken(retire.rest)
  }

  /** A length byte, that many connection ID bytes and a 16-byte reset token. */
  function SkipCidAndToken(s: seq<byte>): (r: Result<seq<byte>, ScanError>)
    ensures r.Ok? ==> |r.value| < |s|
  {
    if s == [] then Err(NcidLength)
    else
      var n: nat := s[0];
      if |s| < 1 + n + 16 then Err(NcidTail) else Ok(s[1 + n + 16..])
  }

  /** `parse_connection_close`, from the frame-type byte on. */
  function ParseClose(s: seq<byte>): (r: Option<ConnectionClose>)
  {
    if s == [] || (s[0] != 0x1c && s[0] != 0x1d) then None
    else
      match ParseCloseBody(s[1..], s[0])
      case Ok(cc) => Some(cc)
      case Err(_) => None
  }

  function ParseCloseBody(s: seq<byte>, frameType: byte): (r: Result<ConnectionClose, ScanError>) {
    var code :- Take(s, CloseMalformed);
    var trigger :- if frameType == 0x1c then Take(code.rest, CloseMalformed) else Ok(code);
    var len :- Take(trigger.rest, CloseMalformed);
    if |len.rest| < len.value then Err(CloseMalformed)
    else Ok(ConnectionClose(code.value, frameType, len.rest[..len.value]))
  }

  function CloseOutcome(s: seq<byte>): (r: Outcome) {
    match ParseClose(s) case Some(cc) => Closed(cc) case None => Failed(CloseMalformed)
  }

  lemma {:induction false} SkipRangesShrinks(s: seq<byte>, n: nat)
    ensures SkipRanges(s, n).Ok? ==> |SkipRanges(s, n).value| + 2 * n <= |s|
    decreases n
  {
    hide SkipRange;
    if n > 0 && SkipRange(s).Ok? { SkipRangesShrinks(SkipRange(s).value, n - 1); }
  }

  lemma SkipAckShrinks(s: seq<byte>, ecn: bool)
    ensures SkipAck(s, ecn).Ok? ==> |SkipAck(s, ecn).value| < |s|
  {
    if SkipAck(s, ecn).Ok? {
      var count := Take(Take(Take(s, AckLargest).value.rest, AckDelay).value.rest, AckRangeCount).value;
      var first := Take(count.rest, AckFirstRange).value;
      SkipRangesShrinks(first.rest, count.value);
      SkipCountsShrinks(SkipRanges(first.rest, count.value).value, if ecn then 3 else 0);
    }
  }

  lemma {:induction false} SkipCountsShrinks(s: seq<byte>, n: nat)
    ensures SkipCounts(s, n).Ok? ==> |SkipCounts(s, n).value| <= |s|
    decreases n
  {
    if n > 0 && Take(s, AckEcnCount).Ok? { SkipCountsShrinks(Take(s, AckEcnCount).value.rest, n - 1); }
  }

  // ---------------------------------------------------------------------------------------
  // The three scanners
  // ---------------------------------------------------------------------------------------

  /** The walk inlined in `drive_handshake_initial_inner`: PADDING, PING, ACK and close only. */
  function ScanInline(s: seq<byte>): (r: Outcome)
    decreases |s|
  {
    if s == [] then Quiet
    else if s[0] <= 1 then ScanInline(s[1..])
    else if s[0] <= 3 then
      SkipAckShrinks(s[1..], s[0] == 3);
      match SkipAck(s[1..], s[0] == 3) case Err(e) => Failed(e) case Ok(rest) => ScanInline(rest)
    else if s[0] == 0x1c || s[0] == 0x1d then CloseOutcome(s)
    else Quiet
  }

  /** `scan_initial_plaintext_for_cc`: also steps over CRYPTO. */
  function ScanInitial(s: seq<byte>): (r: Outcome)
    decreases |s|
  {
    if s == [] then Quiet
    else if s[0] <= 1 then ScanInitial(s[1..])
    else if s[0] <= 3 then
      SkipAckShrinks(s[1..], s[0] == 3);
      match SkipAck(s[1..], s[0] == 3) case Err(e) => Failed(e) case Ok(rest) => ScanInitial(rest)
    else if s[0] == 6 then
      match TakeCrypto(s[1..]) case Err(e) => Failed(e) case Ok(c) => ScanInitial(c.rest)
    else if s[0] == 0x1c || s[0] == 0x1d then CloseOutcome(s)
    else Quiet
  }

  /** A TLS engine as the scanner sees it: does it accept this chunk after those it was fed? */
  type Engine = (seq<seq<byte>>, seq<byte>) -> bool

  /** Outcome of the full scanner together with every chunk `read_hs` has been given. */
  datatype Scan = Scan(outcome: Outcome, fed: seq<seq<byte>>)

  /** `scan_plaintext_into_rustls`: feeds CRYPTO data to the engine, steps over
      NEW_CONNECTION_ID and HANDSHAKE_DONE. */
  function ScanFull(s: seq<byte>, engine: Engine, fed: seq<seq<byte>>): (r: Scan)
    decreases |s|
  {
    if s == [] then Scan(Quiet, fed)
    else if s[0] <= 1 || s[0] == 0x1e then ScanFull(s[1..], engine, fed)
    else if s[0] <= 3 then
      SkipAckShrinks(s[1..], s[0] == 3);
      match SkipAck(s[1..], s[0] == 3)
      case Err(e) => Scan(Failed(e), fed)
      case Ok(rest) => ScanFull(rest, engine, fed)
    else if s[0] == 6 then
      match TakeCrypto(s[1..])
      case Err(e) => Scan(Failed(e), fed)
      case Ok(c) =>
        if engine(fed, c.data) then ScanFull(c.rest, engine, fed + [c.data])
        else Scan(Failed(ReadHs), fed + [c.data])
    else if s[0] == 0x18 then
      match SkipNcid(s[1..])
      case Err(e) => Scan(Failed(e), fed)
      case Ok(rest) => ScanFull(rest, engine, fed)
    else if s[0] == 0x1c || s[0] == 0x1d then Scan(CloseOutcome(s), fed)
    else Scan(Quiet, fed)
  }

  // ---------------------------------------------------------------------------------------
  // Encodings, and the scanners on encoded frames
  // ---------------------------------------------------------------------------------------

  datatype Range = Range(gap: nat, length: nat)
  datatype Ecn = Ecn(ect0: nat, ect1: nat, ce: nat)

  datatype Frame =
    | Padding
    | Ping
    | Ack(largest: nat, delay: nat, first: nat, ranges: seq<Range>, ecn: Option<Ecn>)
    | Crypto(offset: nat, data: seq<byte>)
    | NewConnectionId(sequence: nat, retire: nat, cid: seq<byte>, token: seq<byte>)
    | HandshakeDone
  {
    /** The field widths of the wire format. */
    ghost predicate Valid() {
      match this
      case Ack(largest, delay, first, ranges, ecn) =>
        && largest < V.LIMIT && delay < V.LIMIT && first < V.LIMIT && |ranges| < V.LIMIT
        && ValidRanges(ranges)
        && (ecn.Some? ==> ecn.value.ect0 < V.LIMIT && ecn.value.ect1 < V.LIMIT && ecn.value.ce < V.LIMIT)
      case Crypto(offset, data) => offset < V.LIMIT && |data| < V.LIMIT
      case NewConnectionId(sequence, retire, cid, token) =>
        sequence < V.LIMIT && retire < V.LIMIT && |cid| < 0x100 && |token| == 16
      case _ => true
    }
  }

  ghost predicate ValidRanges(ranges: seq<Range>) {
    forall i :: 0 <= i < |ranges| ==> ranges[i].gap < V.LIMIT && ranges[i].length < V.LIMIT
  }

  ghost predicate ValidFrames(frames: seq<Frame>) {
    forall i :: 0 <= i < |frames| ==> frames[i].Valid()
  }

  ghost function EncodeRanges(ranges: seq<Range>): seq<byte>
    requires ValidRanges(ranges)
  {
    if ranges == [] then []
    else V.Encode(ranges[0].gap) + (V.Encode(ranges[0].length) + EncodeRanges(ranges[1..]))
  }

  ghost function EncodeEcn(ecn: Option<Ecn>): seq<byte>
    requires ecn.Some? ==> ecn.value.ect0 < V.LIMIT && ecn.value.ect1 < V.LIMIT && ecn.value.ce < V.LIMIT
  {
    match ecn
    case None => []
    case Some(e) => V.Encode(e.ect0) + (V.Encode(e.ect1) + V.Encode(e.ce))
  }

  ghost function EncodeFrame(f: Frame): seq<byte>
    requires f.Valid()
  {
    match f
    case Padding => [0x00]
    case Ping => [0x01]
    case Ack(largest, delay, first, ranges, ecn) =>
      [if ecn.Some? then 0x03 else 0x02] + (V.Encode(largest) + (V.Encode(delay)
      + (V.Encode(|ranges|) + (V.Encode(first) + (EncodeRanges(ranges) + EncodeEcn(ecn))))))
    case Crypto(offset, data) => [0x06] + (V.Encode(offset) + (V.Encode(|data|) + data))
    case NewConnectionId(sequence, retire, cid, token) =>
      [0x18] + (V.Encode(sequence) + (V.Encode(retire) + ([|cid|] + (cid + token))))
    case HandshakeDone => [0x1e]
  }

  ghost function EncodeFrames(frames: seq<Frame>): seq<byte>
    requires ValidFrames(frames)
  {
    if frames == [] then [] else EncodeFrame(frames[0]) + EncodeFrames(frames[1..])
  }

  /** The CRYPTO payloads of a frame sequence, in order. */
  ghost function Payloads(frames: seq<Frame>): seq<seq<byte>> {
    if frames == [] then []
    else (if frames[0].Crypto? then [frames[0].data] else []) + Payloads(frames[1..])
  }

  /** A transport close names the frame type that triggered it, an application close does not. */
  datatype Close = Close(errorCode: nat, trigger: Option<nat>, reason: seq<byte>) {
    ghost predicate Valid() {
      errorCode < V.LIMIT && |reason| < V.LIMIT && (trigger.Some? ==> trigger.value < V.LIMIT)
    }
    function Report(): ConnectionClose {
      ConnectionClose(errorCode, if trigger.Some? then 0x1c else 0x1d, reason)
    }
  }

  ghost function EncodeClose(c: Close): seq<byte>
    requires c.Valid()
  {
    [c.Report().frameType] + EncodeCloseBody(c)
  }

  lemma TakeEncoded(v: nat, rest: seq<byte>, e: ScanError)
    requires v < V.LIMIT
    ensures Take(V.Encode(v) + rest, e) == Ok(Taken(v, rest))
  {
    V.EncodeDecode(v, rest);
  }

  lemma {:induction false} SkipRangesEncoded(ranges: seq<Range>, rest: seq<byte>)
    requires ValidRanges(ranges)
    ensures SkipRanges(EncodeRanges(ranges) + rest, |ranges|) == Ok(rest)
    decreases |ranges|
  {
    if ranges == [] {
      assert EncodeRanges(ranges) + rest == rest;
    } else {
      var tail := EncodeRanges(ranges[1..]);
      var gap, len := V.Encode(ranges[0].gap), V.Encode(ranges[0].length);
      Assoc(gap, len + tail, rest);
      Assoc(len, tail, rest);
      TakeEncoded(ranges[0].gap, len + (tail + rest), AckGap);
      TakeEncoded(ranges[0].length, tail + rest, AckRangeLength);
      assert SkipRange(EncodeRanges(ranges) + rest) == Ok(tail + rest);
      SkipRangesEncoded(ranges[1..], rest);
    }
  }

  lemma SkipCountsEncoded(ecn: Option<Ecn>, rest: seq<byte>)
    requires ecn.Some? ==> ecn.value.ect0 < V.LIMIT && ecn.value.ect1 < V.LIMIT && ecn.value.ce < V.LIMIT
    ensures SkipCounts(EncodeEcn(ecn) + rest, if ecn.Some? then 3 else 0) == Ok(rest)
  {
    match ecn {
      case None => assert EncodeEcn(ecn) + rest == rest;
      case Some(e) =>
        var a, b, c := V.Encode(e.ect0), V.Encode(e.ect1), V.Encode(e.ce);
        Assoc(a, b + c, rest);
        Assoc(b, c, rest);
        TakeEncoded(e.ect0, b + (c + rest), AckEcnCount);
        TakeEncoded(e.ect1, c + rest, AckEcnCount);
        TakeEncoded(e.ce, rest, AckEcnCount);
        assert SkipCounts(c + rest, 1) == SkipCounts(rest, 0);
        assert SkipCounts(b + (c + rest), 2) == SkipCounts(c + rest, 1);
    }
  }

  lemma SkipAckEncoded(f: Frame, rest: seq<byte>)
    requires f.Ack? && f.Valid()
    ensures SkipAck(EncodeFrame(f)[1..] + rest, f.ecn.Some?) == Ok(rest)
  {
    var a, b, c, d := V.Encode(f.largest), V.Encode(f.delay), V.Encode(|f.ranges|), V.Encode(f.first);
    var r, e := EncodeRanges(f.ranges), EncodeEcn(f.ecn);
    Assoc(a, b + (c + (d + (r + e))), rest);
    Assoc(b, c + (d + (r + e)), rest);
    Assoc(c, d + (r + e), rest);
    Assoc(d, r + e, rest);
    Assoc(r, e, rest);
    assert EncodeFrame(f)[1..] + rest == a + (b + (c + (d + (r + (e + rest)))));
    TakeEncoded(f.largest, b + (c + (d + (r + (e + rest)))), AckLargest);
    TakeEncoded(f.delay, c + (d + (r + (e + rest))), AckDelay);
    TakeEncoded(|f.ranges|, d + (r + (e + rest)), AckRangeCount);
    TakeEncoded(f.first, r + (e + rest), AckFirstRange);
    SkipRangesEncoded(f.ranges, e + rest);
    SkipCountsEncoded(f.ecn, rest);
  }

  lemma TakeCryptoEncoded(f: Frame, rest: seq<byte>)
    requires f.Crypto? && f.Valid()
    ensures TakeCrypto(EncodeFrame(f)[1..] + rest) == Ok(CryptoBody(f.data, rest))
  {
    var o, l := V.Encode(f.offset), V.Encode(|f.data|);
    Assoc(o, l + f.data, rest);
    Assoc(l, f.data, rest);
    assert EncodeFrame(f)[1..] + rest == o + (l + (f.data + rest));
    TakeEncoded(f.offset, l + (f.data + rest), CryptoOffset);
    TakeEncoded(|f.data|, f.data + rest, CryptoLength);
  }

  lemma SkipNcidEncoded(f: Frame, rest: seq<byte>)
    requires f.NewConnectionId? && f.Valid()
    ensures SkipNcid(EncodeFrame(f)[1..] + rest) == Ok(rest)
  {
    var a, b, c := V.Encode(f.sequence), V.Encode(f.retire), [|f.cid|] + (f.cid + f.token);
    Assoc(a, b + c, rest);
    Assoc(b, c, rest);
    assert EncodeFrame(f)[1..] + rest == a + (b + (c + rest));
    TakeEncoded(f.sequence, b + (c + rest), NcidSequence);
    TakeEncoded(f.retire, c + rest, NcidRetire);
    assert (c + rest)[1 + |f.cid| + 16..] == rest;
  }

  lemma CloseReasonEncoded(reason: seq<byte>, rest: seq<byte>)
    requires |reason| < V.LIMIT
    ensures Take((V.Encode(|reason|) + reason) + rest, CloseMalformed) == Ok(Taken(|reason|, reason + rest))
    ensures (reason + rest)[..|reason|] == reason
  {
    Assoc(V.Encode(|reason|), reason, rest);
    TakeEncoded(|reason|, reason + rest, CloseMalformed);
  }

  /** The fields after the type byte of a close frame. */
  ghost function EncodeCloseBody(c: Close): seq<byte>
    requires c.Valid()
  {
    var tail := V.Encode(|c.reason|) + c.reason;
    V.Encode(c.errorCode) + (if c.trigger.Some? then V.Encode(c.trigger.value) + tail else tail)
  }

  lemma CloseBodyEncoded(c: Close, rest: seq<byte>)
    requires c.Valid()
    ensures ParseCloseBody(EncodeCloseBody(c) + rest, c.Report().frameType) == Ok(c.Report())
  {
    var code, tail := V.Encode(c.errorCode), V.Encode(|c.reason|) + c.reason;
    var body := if c.trigger.Some? then V.Encode(c.trigger.value) + tail else tail;
    Assoc(code, body, rest);
    TakeEncoded(c.errorCode, body + rest, CloseMalformed);
    CloseReasonEncoded(c.reason, rest);
    if c.trigger.Some? {
      Assoc(V.Encode(c.trigger.value), tail, rest);
      TakeEncoded(c.trigger.value, tail + rest, CloseMalformed);
    }
  }

  lemma CloseEncoded(c: Close, rest: seq<byte>)
    requires c.Valid()
    ensures ParseClose(EncodeClose(c) + rest) == Some(c.Report())
  {
    CloseBodyEncoded(c, rest);
    Assoc([c.Report().frameType], EncodeCloseBody(c), rest);
    ParseCloseStep(c.Report().frameType, EncodeCloseBody(c) + rest);
  }

  lemma ParseCloseStep(frameType: byte, body: seq<byte>)
    requires frameType in {0x1c, 0x1d} && ParseCloseBody(body, frameType).Ok?
    ensures ParseClose([frameType] + body) == Some(ParseCloseBody(body, frameType).value)
  {
    assert ([frameType] + body)[1..] == body;
  }

  /** Does the engine accept these chunks one after the other? */
  ghost predicate Accepts(engine: Engine, fed: seq<seq<byte>>, chunks: seq<seq<byte>>)
    decreases |chunks|
  {
    chunks == [] || (engine(fed, chunks[0]) && Accepts(engine, fed + [chunks[0]], chunks[1..]))
  }

  /** The byte a frame starts with. */
  function TypeOf(f: Frame): (r: byte) {
    match f
    case Padding => 0x00
    case Ping => 0x01
    case Ack(_, _, _, _, ecn) => if ecn.Some? then 0x03 else 0x02
    case Crypto(_, _) => 0x06
    case NewConnectionId(_, _, _, _) => 0x18
    case HandshakeDone => 0x1e
  }

  lemma StartsWithType(f: Frame)
    requires f.Valid()
    ensures EncodeFrame(f) != [] && EncodeFrame(f)[0] == TypeOf(f)
    ensures f.Padding? || f.Ping? || f.HandshakeDone? ==> EncodeFrame(f)[1..] == []
  {
    hide V.Encode;
    hide EncodeRanges;
  }

  /** One encoded frame is stepped over, and only a CRYPTO frame reaches the engine. */
  lemma ScanFullFrame(f: Frame, rest: seq<byte>, engine: Engine, fed: seq<seq<byte>>)
    requires f.Valid() && (f.Crypto? ==> engine(fed, f.data))
    ensures ScanFull(EncodeFrame(f) + rest, engine, fed)
         == ScanFull(rest, engine, if f.Crypto? then fed + [f.data] else fed)
  {
    hide EncodeFrame;
    hide SkipAck;
    hide TakeCrypto;
    hide SkipNcid;
    hide Frame.Valid;
    StartsWithType(f);
    var s := EncodeFrame(f) + rest;
    assert s[0] == TypeOf(f) && s[1..] == EncodeFrame(f)[1..] + rest;
    match f {
      case Ack(_, _, _, _, _) => SkipAckEncoded(f, rest);
      case Crypto(_, _) => TakeCryptoEncoded(f, rest);
      case NewConnectionId(_, _, _, _) => SkipNcidEncoded(f, rest);
      case _ => assert s[1..] == rest;
    }
  }

  lemma PayloadsStep(frames: seq<Frame>, engine: Engine, fed: seq<seq<byte>>)
    requires frames != [] && Accepts(engine, fed, Payloads(frames))
    ensures var f := frames[0];
            var fed' := if f.Crypto? then fed + [f.data] else fed;
            && (f.Crypto? ==> engine(fed, f.data))
            && Accepts(engine, fed', Payloads(frames[1..]))
            && fed' + Payloads(frames[1..]) == fed + Payloads(frames)
  {
    if frames[0].Crypto? {
      assert Payloads(frames)[1..] == Payloads(frames[1..]);
    } else {
      assert Payloads(frames) == Payloads(frames[1..]);
    }
  }

  lemma ScanFullAtClose(s: seq<byte>, engine: Engine, fed: seq<seq<byte>>)
    requires s != [] && s[0] in {0x1c, 0x1d}
    ensures ScanFull(s, engine, fed) == Scan(CloseOutcome(s), fed)
  {
  }

  lemma ScanFullClose(c: Close, suffix: seq<byte>, engine: Engine, fed: seq<seq<byte>>)
    requires c.Valid()
    ensures ScanFull(EncodeClose(c) + suffix, engine, fed) == Scan(Closed(c.Report()), fed)
  {
    CloseEncoded(c, suffix);
    ScanFullAtClose(EncodeClose(c) + suffix, engine, fed);
  }

  lemma EncodeFramesStep(frames: seq<Frame>, tail: seq<byte>)
    requires frames != [] && ValidFrames(frames)
    ensures EncodeFrames(frames) + tail == EncodeFrame(frames[0]) + (EncodeFrames(frames[1..]) + tail)
  {
    Assoc(EncodeFrame(frames[0]), EncodeFrames(frames[1..]), tail);
  }

  /** Encoded frames are walked to their end, and the engine is fed exactly the CRYPTO payloads. */
  lemma {:induction false} ScanFullFrames(
    frames: seq<Frame>, tail: seq<byte>, engine: Engine, fed: seq<seq<byte>>)
    requires ValidFrames(frames) && Accepts(engine, fed, Payloads(frames))
    ensures ScanFull(EncodeFrames(frames) + tail, engine, fed) == ScanFull(tail, engine, fed + Payloads(frames))
    decreases |frames|
  {
    if frames == [] {
      assert EncodeFrames(frames) + tail == tail;
      assert fed + Payloads(frames) == fed;
    } else {
      var f, rest := frames[0], EncodeFrames(frames[1..]);
      EncodeFramesStep(frames, tail);
      PayloadsStep(frames, engine, fed);
      ScanFullFrame(f, rest + tail, engine, fed);
      ScanFullFrames(frames[1..], tail, engine, if f.Crypto? then fed + [f.data] else fed);
    }
  }

  /** On encoded frames followed by an encoded close and anything after it, the full scanner
      reports exactly that close and has fed the engine exactly the CRYPTO payloads in order. */
  lemma ScanFullEncoded(
    frames: seq<Frame>, c: Close, suffix: seq<byte>, engine: Engine, fed: seq<seq<byte>>)
    requires ValidFrames(frames) && c.Valid() && Accepts(engine, fed, Payloads(frames))
    ensures ScanFull(EncodeFrames(frames) + (EncodeClose(c) + suffix), engine, fed)
         == Scan(Closed(c.Report()), fed + Payloads(frames))
  {
    ScanFullFrames(frames, EncodeClose(c) + suffix, engine, fed);
    ScanFullClose(c, suffix, engine, fed + Payloads(frames));
  }

  // ---------------------------------------------------------------------------------------
  // CRYPTO offsets
  // ---------------------------------------------------------------------------------------

  function Flatten(chunks: seq<seq<byte>>): (r: seq<byte>)
    decreases |chunks|
  {
    if chunks == [] then [] else chunks[0] + Flatten(chunks[1..])
  }

  /** For every byte the engine is fed, its position in the CRYPTO stream as the frames' offsets
      give it (section 19.6 of RFC 9000). */
  ghost function Positions(frames: seq<Frame>): (r: seq<nat>)
    decreases |frames|
  {
    if frames == [] then []
    else if !frames[0].Crypto? then Positions(frames[1..])
    else seq(|frames[0].data|, i requires 0 <= i => frames[0].offset + i) + Positions(frames[1..])
  }

  /** CRYPTO frames that carry data follow one another without gap, overlap or reordering. */
  ghost predicate InOrder(frames: seq<Frame>, at: nat)
    decreases |frames|
  {
    frames == [] ||
    if frames[0].Crypto?
    then (frames[0].data == [] || frames[0].offset == at) && InOrder(frames[1..], at + |frames[0].data|)
    else InOrder(frames[1..], at)
  }

  /** There is one position for every byte fed. */
  lemma {:induction false} PositionsCover(frames: seq<Frame>)
    ensures |Positions(frames)| == |Flatten(Payloads(frames))|
    decreases |frames|
  {
    if frames != [] {
      PositionsCover(frames[1..]);
      if frames[0].Crypto? {
        assert Payloads(frames)[1..] == Payloads(frames[1..]);
      } else {
        assert Payloads(frames) == Payloads(frames[1..]);
      }
    }
  }

  ghost predicate Counts(p: seq<nat>, at: nat) {
    forall k :: 0 <= k < |p| ==> p[k] == at + k
  }

  lemma CountsAppend(p: seq<nat>, q: seq<nat>, at: nat)
    ensures Counts(p + q, at) <==> Counts(p, at) && Counts(q, at + |p|)
  {
    if Counts(p + q, at) {
      forall k | 0 <= k < |p| ensures p[k] == at + k { assert p[k] == (p + q)[k]; }
      forall k | 0 <= k < |q| ensures q[k] == at + |p| + k { assert q[k] == (p + q)[|p| + k]; }
    }
  }

  /** The scanner ignores offsets and feeds payloads as they come. So the engine is fed the stream
      the offsets define, each byte at its own position, if and only if the frames are in order. */
  lemma {:induction false} StreamFedIff(frames: seq<Frame>, at: nat)
    ensures Counts(Positions(frames), at) <==> InOrder(frames, at)
    decreases |frames|
  {
    if frames != [] && frames[0].Crypto? {
      var f := frames[0];
      var p := seq(|f.data|, i requires 0 <= i => f.offset + i);
      StreamFedIff(frames[1..], at + |p|);
      CountsAppend(p, Positions(frames[1..]), at);
      assert p != [] ==> p[0] == f.offset;
    } else if frames != [] {
      StreamFedIff(frames[1..], at);
    }
  }

  /** On encoded frames the scanner feeds the engine one byte for every stream position the offsets name,
      in arrival order; that is the stream from `at` on if and only if the frames are in order. */
  lemma ScannedStreamIff(frames: seq<Frame>, tail: seq<byte>, engine: Engine, fed: seq<seq<byte>>, at: nat)
    requires ValidFrames(frames) && Accepts(engine, fed, Payloads(frames))
    ensures ScanFull(EncodeFrames(frames) + tail, engine, fed) == ScanFull(tail, engine, fed + Payloads(frames))
    ensures |Flatten(Payloads(frames))| == |Positions(frames)|
    ensures Counts(Positions(frames), at) <==> InOrder(frames, at)
  {
    ScanFullFrames(frames, tail, engine, fed);
    PositionsCover(frames);
    StreamFedIff(frames, at);
  }

  /** What the builders emit for these chunks: every frame at offset 0. */
  ghost function AtZero(chunks: seq<seq<byte>>): (r: seq<Frame>)
    decreases |chunks|
  {
    if chunks == [] then [] else [Crypto(0, chunks[0])] + AtZero(chunks[1..])
  }

  ghost function Carrying(chunks: seq<seq<byte>>): (r: nat)
    decreases |chunks|
  {
    if chunks == [] then 0 else (if chunks[0] == [] then 0 else 1) + Carrying(chunks[1..])
  }

  /** Frames that are all built at offset 0 are in order if and only if at most one of them carries
      data: a second emission of the engine in the same number space is sent at a wrong offset. */
  lemma {:induction false} BuiltInOrderIff(chunks: seq<seq<byte>>, at: nat)
    ensures InOrder(AtZero(chunks), at) <==> Carrying(chunks) <= if at == 0 then 1 else 0
    decreases |chunks|
  {
    if chunks != [] {
      assert AtZero(chunks)[1..] == AtZero(chunks[1..]);
      BuiltInOrderIff(chunks[1..], at + |chunks[0]|);
    }
  }

  // ---------------------------------------------------------------------------------------
  // The scanners refine one another
  // ---------------------------------------------------------------------------------------

  /** The bytes the inline scanner has not looked past when it stops. */
  function InlineStop(s: seq<byte>): (r: seq<byte>)
    decreases |s|
  {
    if s == [] then s
    else if s[0] <= 1 then InlineStop(s[1..])
    else if s[0] <= 3 then
      SkipAckShrinks(s[1..], s[0] == 3);
      match SkipAck(s[1..], s[0] == 3) case Err(_) => s case Ok(rest) => InlineStop(rest)
    else s
  }

  /** The CRYPTO payloads `ScanInitial` steps over, and the bytes it stops at. */
  datatype Passed = Passed(payloads: seq<seq<byte>>, stop: seq<byte>)

  function InitialPassed(s: seq<byte>): (r: Passed)
    decreases |s|
  {
    if s == [] then Passed([], s)
    else if s[0] <= 1 then InitialPassed(s[1..])
    else if s[0] <= 3 then
      SkipAckShrinks(s[1..], s[0] == 3);
      match SkipAck(s[1..], s[0] == 3) case Err(_) => Passed([], s) case Ok(rest) => InitialPassed(rest)
    else if s[0] == 6 then
      match TakeCrypto(s[1..])
      case Err(_) => Passed([], s)
      case Ok(c) => var p := InitialPassed(c.rest); Passed([c.data] + p.payloads, p.stop)
    else Passed([], s)
  }

  /** On every input: whatever close or error the inline scanner reports, `ScanInitial` reports
      too; and when the inline scanner gives up, `ScanInitial` differs only by what it finds
      from a CRYPTO frame on. */
  lemma {:induction false} InlineRefined(s: seq<byte>)
    ensures ScanInline(s) != Quiet ==> ScanInitial(s) == ScanInline(s)
    ensures ScanInline(s) == Quiet ==> ScanInitial(s) == ScanInitial(InlineStop(s))
    ensures ScanInline(s) == Quiet && ScanInitial(s) != Quiet ==> InlineStop(s) != [] && InlineStop(s)[0] == 6
    decreases |s|
  {
    if s != [] && s[0] <= 1 {
      InlineRefined(s[1..]);
    } else if s != [] && s[0] <= 3 {
      SkipAckShrinks(s[1..], s[0] == 3);
      if SkipAck(s[1..], s[0] == 3).Ok? { InlineRefined(SkipAck(s[1..], s[0] == 3).value); }
    }
  }

  /** On every input whose CRYPTO payloads the engine accepts: the full scanner reports the close
      or error `ScanInitial` reports, having fed exactly the payloads `ScanInitial` stepped over;
      and when `ScanInitial` gives up it carries on from that point, which it can only do past a
      NEW_CONNECTION_ID or HANDSHAKE_DONE frame. */
  lemma {:induction false} InitialRefined(s: seq<byte>, engine: Engine, fed: seq<seq<byte>>)
    requires Accepts(engine, fed, InitialPassed(s).payloads)
    ensures var p := InitialPassed(s);
            ScanInitial(s) != Quiet ==> ScanFull(s, engine, fed) == Scan(ScanInitial(s), fed + p.payloads)
    ensures var p := InitialPassed(s);
            ScanInitial(s) == Quiet ==> ScanFull(s, engine, fed) == ScanFull(p.stop, engine, fed + p.payloads)
    ensures ScanInitial(s) == Quiet && ScanFull(s, engine, fed).outcome != Quiet
            ==> InitialPassed(s).stop != [] && InitialPassed(s).stop[0] in {0x18, 0x1e}
    decreases |s|
  {
    if s == [] {
      assert fed + [] == fed;
    } else if s[0] <= 1 {
      InitialRefined(s[1..], engine, fed);
    } else if s[0] <= 3 {
      SkipAckShrinks(s[1..], s[0] == 3);
      var r := SkipAck(s[1..], s[0] == 3);
      if r.Ok? { InitialRefined(r.value, engine, fed); } else { assert fed + [] == fed; }
    } else if s[0] == 6 {
      var r := TakeCrypto(s[1..]);
      if r.Ok? {
        var p := InitialPassed(r.value.rest);
        assert InitialPassed(s).payloads[0] == r.value.data && InitialPassed(s).payloads[1..] == p.payloads;
        InitialRefined(r.value.rest, engine, fed + [r.value.data]);
        assert fed + [r.value.data] + p.payloads == fed + InitialPassed(s).payloads;
      } else {
        assert fed + [] == fed;
      }
    } else {
      assert fed + [] == fed;
    }
  }

  // ---------------------------------------------------------------------------------------
  // The source's cursor loops
  // ---------------------------------------------------------------------------------------

  /** A cursor result stands for a specification result: same error, or the bytes left agree. */
  ghost predicate At(b: seq<byte>, r: Result<nat, ScanError>, spec: Result<seq<byte>, ScanError>) {
    match r
    case Err(e) => spec == Err(e)
    case Ok(p) => p <= |b| && spec == Ok(b[p..])
  }

  /** `decode_varint(&b[p..]).ok_or_else(..)?` and the cursor step after it. */
  method ReadVarint(b: seq<byte>, p: nat, e: ScanError) returns (value: nat, r: Result<nat, ScanError>)
    requires p <= |b|
    ensures match r
            case Err(x) => x == e && Take(b[p..], e) == Err(e)
            case Ok(p') => p < p' <= |b| && Take(b[p..], e) == Ok(Taken(value, b[p'..]))
  {
    var d := V.DecodeVarint(b[p..]);
    match d
    case None => value, r := 0, Err(e);
    case Some(d) =>
      V.DecodeBounds(b[p..]);
      assert b[p..][d.size..] == b[p + d.size..];
      value, r := d.value, Ok(p + d.size);
  }

  method SkipRangeAt(b: seq<byte>, p: nat) returns (r: Result<nat, ScanError>)
    requires p <= |b|
    ensures At(b, r, SkipRange(b[p..])) && (r.Ok? ==> p + 2 <= r.value)
  {
    var _, gap := ReadVarint(b, p, AckGap);
    if gap.Err? { return gap; }
    var _, len := ReadVarint(b, gap.value, AckRangeLength);
    return len;
  }

  /** The range loop of an ACK frame. However many ranges the frame claims, the iterations that
      complete are at most half the bytes left. */
  method SkipRangesLoop(b: seq<byte>, p0: nat, count: nat)
    returns (r: Result<nat, ScanError>, completed: nat)
    requires p0 <= |b|
    ensures At(b, r, SkipRanges(b[p0..], count))
    ensures completed <= count && (r.Ok? ==> completed == count)
    ensures 2 * completed <= |b| - p0
  {
    var p := p0;
    completed := 0;
    ghost var spec, left := SkipRanges(b[p0..], count), count;
    while completed < count
      invariant left == count - completed && p0 + 2 * completed <= p <= |b|
      invariant spec == SkipRanges(b[p..], left)
    {
      var p' := SkipRangeAt(b, p);
      if p'.Err? {
        assert SkipRanges(b[p..], left) == Err(p'.error);
        return p', completed;
      }
      assert SkipRanges(b[p..], left) == SkipRanges(b[p'.value..], left - 1);
      p := p'.value;
      completed, left := completed + 1, left - 1;
    }
    return Ok(p), completed;
  }

  method SkipCountsLoop(b: seq<byte>, p0: nat, count: nat) returns (r: Result<nat, ScanError>)
    requires p0 <= |b|
    ensures At(b, r, SkipCounts(b[p0..], count)) && (r.Ok? ==> p0 <= r.value)
  {
    var p, i := p0, 0;
    ghost var spec, left := SkipCounts(b[p0..], count), count;
    while i < count
      invariant left == count - i && p0 <= p <= |b|
      invariant spec == SkipCounts(b[p..], left)
    {
      var _, c := ReadVarint(b, p, AckEcnCount);
      if c.Err? {
        assert SkipCounts(b[p..], left) == Err(AckEcnCount);
        return c;
      }
      assert SkipCounts(b[p..], left) == SkipCounts(b[c.value..], left - 1);
      p := c.value;
      i, left := i + 1, left - 1;
    }
    return Ok(p);
  }

  method SkipAckAt(b: seq<byte>, p0: nat, ecn: bool) returns (r: Result<nat, ScanError>)
    requires p0 <= |b|
    ensures At(b, r, SkipAck(b[p0..], ecn)) && (r.Ok? ==> p0 < r.value)
  {
    var largest, p1 := ReadVarint(b, p0, AckLargest);
    if p1.Err? { return p1; }
    var delay, p2 := ReadVarint(b, p1.value, AckDelay);
    if p2.Err? { return p2; }
    var count, p3 := ReadVarint(b, p2.value, AckRangeCount);
    if p3.Err? { return p3; }
    var first, p4 := ReadVarint(b, p3.value, AckFirstRange);
    if p4.Err? { return p4; }
    var p5, _ := SkipRangesLoop(b, p4.value, count);
    if p5.Err? { return p5; }
    SkipRangesShrinks(b[p4.value..], count);
    r := SkipCountsLoop(b, p5.value, if ecn then 3 else 0);
  }

  /** The inline loop of `drive_handshake_initial_inner`. */
  method ScanInlineLoop(b: seq<byte>) returns (r: Outcome)
    ensures r == ScanInline(b)
  {
    hide SkipAck;
    hide TakeCrypto;
    hide CloseOutcome;
    var i := 0;
    while i < |b|
      invariant i <= |b| && ScanInline(b) == ScanInline(b[i..])
    {
      var ft := b[i];
      assert b[i..][1..] == b[i + 1..];
      if ft == 0x00 || ft == 0x01 {
        i := i + 1;
      } else if ft == 0x02 || ft == 0x03 {
        var p := SkipAckAt(b, i + 1, ft == 0x03);
        if p.Err? { return Failed(p.error); }
        i := p.value;
      } else if ft == 0x1c || ft == 0x1d {
        return CloseOutcome(b[i..]);
      } else {
        break;
      }
    }
    return Quiet;
  }

  method TakeCryptoAt(b: seq<byte>, p0: nat) returns (data: seq<byte>, r: Result<nat, ScanError>)
    requires p0 <= |b|
    ensures match r
            case Err(e) => TakeCrypto(b[p0..]) == Err(e)
            case Ok(p) => p0 < p <= |b| && TakeCrypto(b[p0..]) == Ok(CryptoBody(data, b[p..]))
  {
    hide Take;
    data := [];
    var offset, p1 := ReadVarint(b, p0, CryptoOffset);
    if p1.Err? { return data, p1; }
    var len, p2 := ReadVarint(b, p1.value, CryptoLength);
    if p2.Err? { return data, p2; }
    var p := p2.value;
    if |b| < p + len { return data, Err(CryptoData); }
    SliceParts(b, p, len);
    return b[p..p + len], Ok(p + len);
  }

  lemma SliceParts(b: seq<byte>, p: nat, n: nat)
    requires p + n <= |b|
    ensures b[p..][..n] == b[p..p + n] && b[p..][n..] == b[p + n..]
  {
  }

  /** `scan_initial_plaintext_for_cc` */
  method ScanInitialLoop(b: seq<byte>) returns (r: Outcome)
    ensures r == ScanInitial(b)
  {
    hide SkipAck;
    hide TakeCrypto;
    hide CloseOutcome;
    var i := 0;
    while i < |b|
      invariant i <= |b| && ScanInitial(b) == ScanInitial(b[i..])
    {
      var ft := b[i];
      assert b[i..][1..] == b[i + 1..];
      if ft == 0x00 || ft == 0x01 {
        i := i + 1;
      } else if ft == 0x02 || ft == 0x03 {
        var p := SkipAckAt(b, i + 1, ft == 0x03);
        if p.Err? { return Failed(p.error); }
        i := p.value;
      } else if ft == 0x06 {
        var _, p := TakeCryptoAt(b, i + 1);
        if p.Err? { return Failed(p.error); }
        i := p.value;
      } else if ft == 0x1c || ft == 0x1d {
        return CloseOutcome(b[i..]);
      } else {
        break;
      }
    }
    return Quiet;
  }

  method SkipNcidAt(b: seq<byte>, p0: nat) returns (r: Result<nat, ScanError>)
    requires p0 <= |b|
    ensures At(b, r, SkipNcid(b[p0..])) && (r.Ok? ==> p0 < r.value)
  {
    var sequence, p1 := ReadVarint(b, p0, NcidSequence);
    if p1.Err? { return p1; }
    var retire, p2 := ReadVarint(b, p1.value, NcidRetire);
    if p2.Err? { return p2; }
    r := SkipCidAndTokenAt(b, p2.value);
  }

  method SkipCidAndTokenAt(b: seq<byte>, p0: nat) returns (r: Result<nat, ScanError>)
    requires p0 <= |b|
    ensures At(b, r, SkipCidAndToken(b[p0..])) && (r.Ok? ==> p0 < r.value)
  {
    var p := p0;
    if p >= |b| { return Err(NcidLength); }
    var n: nat := b[p];
    p := p + 1;
    if |b| < p + n + 16 { return Err(NcidTail); }
    assert b[p0..][1 + n + 16..] == b[p + n + 16..];
    return Ok(p + n + 16);
  }

  /** `scan_plaintext_into_rustls`; `fed` collects the arguments of `read_hs`. */
  method ScanFullLoop(b: seq<byte>, engine: Engine, already: seq<seq<byte>>)
    returns (outcome: Outcome, fed: seq<seq<byte>>)
    ensures Scan(outcome, fed) == ScanFull(b, engine, already)
  {
    hide SkipAck;
    hide TakeCrypto;
    hide SkipNcid;
    hide CloseOutcome;
    var i := 0;
    fed := already;
    while i < |b|
      invariant i <= |b| && ScanFull(b, engine, already) == ScanFull(b[i..], engine, fed)
    {
      var ft := b[i];
      assert b[i..][1..] == b[i + 1..];
      if ft == 0x00 || ft == 0x01 || ft == 0x1e {
        i := i + 1;
      } else if ft == 0x02 || ft == 0x03 {
        var p := SkipAckAt(b, i + 1, ft == 0x03);
        if p.Err? { return Failed(p.error), fed; }
        i := p.value;
      } else if ft == 0x06 {
        var data, p := TakeCryptoAt(b, i + 1);
        if p.Err? { return Failed(p.error), fed; }
        var accepted := engine(fed, data);
        fed := fed + [data];
        if !accepted { return Failed(ReadHs), fed; }
        i := p.value;
      } else if ft == 0x18 {
        var p := SkipNcidAt(b, i + 1);
        if p.Err? { return Failed(p.error), fed; }
        i := p.value;
      } else if ft == 0x1c || ft == 0x1d {
        return CloseOutcome(b[i..]), fed;
      } else {
        break;
      }
    }
    return Quiet, fed;
  }
}
