/**
 The hand-assembled TLS 1.3 ClientHello without `quic_transport_parameters`, against an
 independent reader of the format in section 4.1.2 of RFC 8446.
 */
module ClientHello {
  import opened Bytes
  import C = Connection

  // ---------------------------------------------------------------------------------------
  // The builder. `BigEndian` keeps the low bytes, as the source's `as u16` casts do.
  // ---------------------------------------------------------------------------------------

  datatype Extension = Extension(code: nat, body: seq<byte>)

  function U16(v: nat): (r: seq<byte>)
    ensures |r| == 2
  {
    BigEndian(v, 2)
  }

  function SniBody(name: seq<byte>): (r: seq<byte>) {
    U16(3 + |name|) + ([0x00] + (U16(|name|) + name))
  }

  function AlpnBody(alpn: seq<byte>): (r: seq<byte>) {
    U16(1 + |alpn|) + ([|alpn| % 0x100] + alpn)
  }

  const VERSIONS_BODY := [2] + U16(0x0304)
  const GROUPS_BODY := U16(2) + U16(0x001d)
  const SCHEMES := [0x0403, 0x0804, 0x0805, 0x0806, 0x0401]
  const KEY_SHARE_BODY := U16(36) + (U16(0x001d) + (U16(32) + Zeros(32)))

  function Schemes(s: seq<nat>): (r: seq<byte>)
    ensures |r| == 2 * |s|
  {
    if s == [] then [] else Schemes(s[..|s| - 1]) + U16(s[|s| - 1])
  }

  function SchemesBody(): (r: seq<byte>)
    ensures |r| == 12
  {
    U16(10) + Schemes(SCHEMES)
  }

  /** The six extensions, in the order they are pushed. */
  function Extensions(name: seq<byte>, alpn: seq<byte>): (r: seq<Extension>) {
    [Extension(0x0000, SniBody(name)), Extension(0x002b, VERSIONS_BODY), Extension(0x000a, GROUPS_BODY),
     Extension(0x000d, SchemesBody()), Extension(0x0033, KEY_SHARE_BODY), Extension(0x0010, AlpnBody(alpn))]
  }

  function PushExtension(e: Extension): (r: seq<byte>)
    ensures |r| == 4 + |e.body|
  {
    U16(e.code) + (U16(|e.body|) + e.body)
  }

  function PushAll(es: seq<Extension>): (r: seq<byte>)
    decreases |es|
  {
    if es == [] then [] else PushExtension(es[0]) + PushAll(es[1..])
  }

  /** legacy_version, random, an empty session id, one cipher suite and the null compression method. */
  function FixedFields(random: seq<byte>): (r: seq<byte>) {
    U16(0x0303) + (random + ([0] + (U16(2) + (U16(0x1301) + ([1] + [0x00])))))
  }

  function Body(name: seq<byte>, alpn: seq<byte>, random: seq<byte>): (r: seq<byte>) {
    var exts := PushAll(Extensions(name, alpn));
    FixedFields(random) + (U16(|exts|) + exts)
  }

  function Message(name: seq<byte>, alpn: seq<byte>, random: seq<byte>): (r: seq<byte>) {
    var body := Body(name, alpn, random);
    [0x01] + (BigEndian(|body|, 3) + body)
  }

  // ---------------------------------------------------------------------------------------
  // The reader
  // ---------------------------------------------------------------------------------------

  datatype Cut = Cut(data: seq<byte>, rest: seq<byte>)

  /** The first n bytes. */
  function Take(s: seq<byte>, n: nat): (r: Option<Cut>) {
    if |s| < n then None else Some(Cut(s[..n], s[n..]))
  }

  /** A vector behind a w-byte length. */
  function TakeVector(s: seq<byte>, w: nat): (r: Option<Cut>)
    ensures r.Some? ==> |r.value.rest| + w <= |s|
  {
    if |s| < w then None else Take(s[w..], FromBigEndian(s[..w]))
  }

  datatype Hello = Hello(
    version: nat, random: seq<byte>, sessionId: seq<byte>, suites: seq<byte>, compression: seq<byte>,
    extensions: seq<Extension>)

  function ReadExtensions(s: seq<byte>): (r: Option<seq<Extension>>)
    decreases |s|
  {
    if s == [] then Some([])
    else if |s| < 4 then None
    else
      match TakeVector(s[2..], 2)
      case None => None
      case Some(v) =>
        match ReadExtensions(v.rest)
        case None => None
        case Some(es) => Some([Extension(FromBigEndian(s[..2]), v.data)] + es)
  }

  /** A vector that must use up the input. */
  function ReadWhole(s: seq<byte>, w: nat): (r: Option<seq<byte>>) {
    match TakeVector(s, w)
    case None => None
    case Some(v) => if v.rest == [] then Some(v.data) else None
  }

  /** Everything before the extension block. */
  datatype Prelude = Prelude(
    version: nat, random: seq<byte>, sessionId: seq<byte>, suites: seq<byte>, compression: seq<byte>, rest: seq<byte>)

  function ReadPrelude(s: seq<byte>): (r: Option<Prelude>) {
    if |s| < 34 then None
    else
      match TakeVector(s[34..], 1)
      case None => None
      case Some(id) =>
        match TakeVector(id.rest, 2)
        case None => None
        case Some(suites) =>
          match TakeVector(suites.rest, 1)
          case None => None
          case Some(compression) =>
            Some(Prelude(FromBigEndian(s[..2]), s[2..34], id.data, suites.data, compression.data, compression.rest))
  }

  function ReadBody(s: seq<byte>): (r: Option<Hello>) {
    match ReadPrelude(s)
    case None => None
    case Some(p) =>
      match ReadWhole(p.rest, 2)
      case None => None
      case Some(block) =>
        match ReadExtensions(block)
        case None => None
        case Some(es) => Some(Hello(p.version, p.random, p.sessionId, p.suites, p.compression, es))
  }

  /** A handshake message of type ClientHello. */
  function Read(s: seq<byte>): (r: Option<Hello>) {
    if s == [] || s[0] != 0x01 then None
    else
      match ReadWhole(s[1..], 3)
      case None => None
      case Some(body) => ReadBody(body)
  }

  /** One host name (section 3 of RFC 6066). */
  function ReadSni(s: seq<byte>): (r: Option<seq<byte>>) {
    match ReadWhole(s, 2)
    case None => None
    case Some(entry) => if entry == [] || entry[0] != 0 then None else ReadWhole(entry[1..], 2)
  }

  /** The protocol names of an ALPN list (section 3.1 of RFC 7301). */
  function ReadNames(s: seq<byte>): (r: Option<seq<seq<byte>>>)
    decreases |s|
  {
    if s == [] then Some([])
    else
      match TakeVector(s, 1)
      case None => None
      case Some(v) =>
        match ReadNames(v.rest)
        case None => None
        case Some(names) => Some([v.data] + names)
  }

  function ReadAlpn(s: seq<byte>): (r: Option<seq<seq<byte>>>) {
    match ReadWhole(s, 2)
    case None => None
    case Some(list) => ReadNames(list)
  }

  /** A list of 16-bit numbers. */
  function ReadNumbers(s: seq<byte>): (r: Option<seq<nat>>)
    decreases |s|
  {
    if s == [] then Some([])
    else if |s| < 2 then None
    else
      match ReadNumbers(s[2..])
      case None => None
      case Some(ns) => Some([FromBigEndian(s[..2])] + ns)
  }

  /** Such a list behind a length of w bytes: supported versions, groups and signature schemes. */
  function ReadNumberList(s: seq<byte>, w: nat): (r: Option<seq<nat>>) {
    match ReadWhole(s, w)
    case None => None
    case Some(list) => ReadNumbers(list)
  }

  datatype Share = Share(group: nat, key: seq<byte>)

  /** One key share (section 4.2.8 of RFC 8446). */
  function ReadShare(s: seq<byte>): (r: Option<Share>) {
    match ReadWhole(s, 2)
    case None => None
    case Some(entry) =>
      if |entry| < 2 then None
      else
        match ReadWhole(entry[2..], 2)
        case None => None
        case Some(key) => Some(Share(FromBigEndian(entry[..2]), key))
  }

  /** The body of the first extension with a code point. */
  function Find(es: seq<Extension>, code: nat): (r: Option<seq<byte>>)
    decreases |es|
  {
    if es == [] then None else if es[0].code == code then Some(es[0].body) else Find(es[1..], code)
  }

  // ---------------------------------------------------------------------------------------
  // Reading what was built
  // ---------------------------------------------------------------------------------------

  lemma TakeVectorBuilt(w: nat, data: seq<byte>, rest: seq<byte>)
    requires |data| < Pow256(w)
    ensures TakeVector(BigEndian(|data|, w) + (data + rest), w) == Some(Cut(data, rest))
  {
    BigEndianRoundTrip(|data|, w);
    var s := BigEndian(|data|, w) + (data + rest);
    assert s[..w] == BigEndian(|data|, w) && s[w..] == data + rest;
    assert (data + rest)[..|data|] == data && (data + rest)[|data|..] == rest;
  }

  /** A length field reads back exactly when it was wide enough; otherwise bytes are left over. */
  lemma ReadWholeIff(w: nat, data: seq<byte>)
    ensures ReadWhole(BigEndian(|data|, w) + data, w) == if |data| < Pow256(w) then Some(data) else None
  {
    if |data| < Pow256(w) {
      BigEndianRoundTrip(|data|, w);
    } else {
      FromBigEndianBound(BigEndian(|data|, w));
    }
    ReadWholeOf(BigEndian(|data|, w), data);
  }

  lemma ReadWholeOf(length: seq<byte>, data: seq<byte>)
    requires FromBigEndian(length) <= |data|
    ensures ReadWhole(length + data, |length|) == if FromBigEndian(length) == |data| then Some(data) else None
  {
    hide FromBigEndian;
    var s, n := length + data, FromBigEndian(length);
    assert s[..|length|] == length && s[|length|..] == data;
    assert |data[n..]| == |data| - n && data[..|data|] == data;
  }

  lemma {:induction false} ReadExtensionsBuilt(es: seq<Extension>)
    requires forall i :: 0 <= i < |es| ==> es[i].code < 0x1_0000 && |es[i].body| < 0x1_0000
    ensures ReadExtensions(PushAll(es)) == Some(es)
    decreases |es|
  {
    hide PushExtension;
    if es != [] {
      ReadExtensionsBuilt(es[1..]);
      ReadExtensionsStep(es[0], PushAll(es[1..]), es[1..]);
      assert es == [es[0]] + es[1..];
    }
  }

  lemma ReadExtensionsStep(e: Extension, rest: seq<byte>, es: seq<Extension>)
    requires e.code < 0x1_0000 && |e.body| < 0x1_0000 && ReadExtensions(rest) == Some(es)
    ensures ReadExtensions(PushExtension(e) + rest) == Some([e] + es)
  {
    hide TakeVector;
    hide BigEndian;
    hide FromBigEndian;
    var s := PushExtension(e) + rest;
    assert s[..2] == U16(e.code) && s[2..] == U16(|e.body|) + (e.body + rest);
    Pow256Values();
    BigEndianRoundTrip(e.code, 2);
    TakeVectorBuilt(2, e.body, rest);
  }

  lemma ReadPreludeBuilt(random: seq<byte>, rest: seq<byte>)
    requires |random| == 32
    ensures ReadPrelude(FixedFields(random) + rest) == Some(Prelude(0x0303, random, [], [0x13, 0x01], [0x00], rest))
  {
    var s := FixedFields(random) + rest;
    Pow256Values();
    BigEndianRoundTrip(0x0303, 2);
    var suites, compression: seq<byte> := [0x13, 0x01], [0x00];
    assert U16(0x1301) == suites && BigEndian(0, 1) == [0] && BigEndian(1, 1) == [1];
    var tail := [1] + (compression + rest);
    FixedFieldsSplit(random, rest);
    hide FromBigEndian;
    hide TakeVector;
    hide BigEndian;
    hide FixedFields;
    assert [] + (U16(2) + (suites + tail)) == U16(2) + (suites + tail);
    TakeVectorBuilt(1, [], U16(2) + (suites + tail));
    TakeVectorBuilt(2, suites, tail);
    TakeVectorBuilt(1, compression, rest);
  }

  lemma FixedFieldsSplit(random: seq<byte>, rest: seq<byte>)
    requires |random| == 32
    ensures var s := FixedFields(random) + rest;
            && |s| >= 34 && s[..2] == U16(0x0303) && s[2..34] == random
            && s[34..] == [0] + (U16(2) + (U16(0x1301) + ([1] + ([0x00] + rest))))
  {
    hide U16;
  }

  lemma ExtensionSizes(name: seq<byte>, alpn: seq<byte>)
    ensures |PushAll(Extensions(name, alpn))| == 89 + |name| + |alpn|
  {
    var es := Extensions(name, alpn);
    assert PushAll(es) == PushExtension(es[0]) + PushAll(es[1..]);
    assert PushAll(es[1..]) == PushExtension(es[1]) + PushAll(es[2..]);
    assert PushAll(es[2..]) == PushExtension(es[2]) + PushAll(es[3..]);
    assert PushAll(es[3..]) == PushExtension(es[3]) + PushAll(es[4..]);
    assert PushAll(es[4..]) == PushExtension(es[4]) + PushAll(es[5..]);
    assert PushAll(es[5..]) == PushExtension(es[5]) + PushAll(es[6..]);
  }

  /** The message is 136 bytes plus the two variable fields, whatever they are. */
  lemma MessageSize(name: seq<byte>, alpn: seq<byte>, random: seq<byte>)
    requires |random| == 32
    ensures |Message(name, alpn, random)| == 136 + |name| + |alpn|
  {
    ExtensionSizes(name, alpn);
  }

  lemma ReadSniBuilt(name: seq<byte>)
    requires |name| + 3 < 0x1_0000
    ensures ReadSni(SniBody(name)) == Some(name)
  {
    Pow256Values();
    var entry := [0x00] + (U16(|name|) + name);
    ReadWholeIff(2, entry);
    ReadWholeIff(2, name);
    assert entry[1..] == U16(|name|) + name;
  }

  /** A one-byte length reads back as one protocol name exactly when the name fits it. */
  lemma ReadAlpnIff(alpn: seq<byte>)
    requires |alpn| + 1 < 0x1_0000
    ensures ReadAlpn(AlpnBody(alpn)) == Some([alpn]) <==> |alpn| < 0x100
  {
    Pow256Values();
    var list := [|alpn| % 0x100] + alpn;
    ReadWholeIff(2, list);
    assert BigEndian(|alpn|, 1) == [|alpn| % 0x100];
    assert list[..1] == BigEndian(|alpn|, 1) && list[1..] == alpn;
    if |alpn| < 0x100 {
      assert alpn + [] == alpn;
      TakeVectorBuilt(1, alpn, []);
      assert ReadNames([]) == Some([]) && [alpn] + [] == [alpn];
    } else {
      FromBigEndianBound(BigEndian(|alpn|, 1));
      var r := ReadNames(list);
      assert r.Some? ==> r.value != [] && |r.value[0]| < 0x100;
    }
  }

  lemma {:induction false} ReadNumbersAppend(a: seq<byte>, b: seq<byte>)
    requires ReadNumbers(a).Some? && ReadNumbers(b).Some?
    ensures ReadNumbers(a + b) == Some(ReadNumbers(a).value + ReadNumbers(b).value)
    decreases |a|
  {
    if a == [] {
      assert a + b == b && [] + ReadNumbers(b).value == ReadNumbers(b).value;
    } else {
      assert (a + b)[2..] == a[2..] + b && (a + b)[..2] == a[..2];
      ReadNumbersAppend(a[2..], b);
      var v, x, y := FromBigEndian(a[..2]), ReadNumbers(a[2..]).value, ReadNumbers(b).value;
      assert ([v] + x) + y == [v] + (x + y);
    }
  }

  lemma ReadOneNumber(v: nat)
    requires v < 0x1_0000
    ensures ReadNumbers(U16(v)) == Some([v])
  {
    hide BigEndian;
    Pow256Values();
    BigEndianRoundTrip(v, 2);
    var s := U16(v);
    assert s[..2] == s && s[2..] == [];
    NoNumbers();
    assert [v] + [] == [v];
  }

  lemma {:induction false} ReadSchemesBuilt(s: seq<nat>)
    requires forall i :: 0 <= i < |s| ==> s[i] < 0x1_0000
    ensures ReadNumbers(Schemes(s)) == Some(s)
  {
    hide U16;
    hide ReadNumbers;
    if s == [] {
      NoNumbers();
    } else {
      var n := |s| - 1;
      ReadSchemesBuilt(s[..n]);
      ReadOneNumber(s[n]);
      ReadNumbersAppend(Schemes(s[..n]), U16(s[n]));
      assert s == s[..n] + [s[n]];
    }
  }

  lemma NoNumbers()
    ensures ReadNumbers([]) == Some([])
  {
  }

  /** The fixed bodies, as a server reads them. */
  lemma ReadFixedBodies()
    ensures ReadNumberList(VERSIONS_BODY, 1) == Some([0x0304])
    ensures ReadNumberList(GROUPS_BODY, 2) == Some([0x001d])
    ensures ReadNumberList(SchemesBody(), 2) == Some([0x0403, 0x0804, 0x0805, 0x0806, 0x0401])
    ensures ReadNumbers([0x13, 0x01]) == Some([0x1301])
  {
    hide ReadWhole;
    hide ReadNumbers;
    Pow256Values();
    assert BigEndian(2, 1) == [2] && U16(0x1301) == [0x13, 0x01];
    ReadOneNumber(0x0304);
    ReadOneNumber(0x001d);
    ReadOneNumber(0x1301);
    ReadSchemesBuilt(SCHEMES);
    ReadWholeIff(1, U16(0x0304));
    ReadWholeIff(2, U16(0x001d));
    ReadWholeIff(2, Schemes(SCHEMES));
  }

  lemma ReadShareBuilt()
    ensures ReadShare(KEY_SHARE_BODY) == Some(Share(0x001d, Zeros(32)))
  {
    hide ReadWhole;
    hide BigEndian;
    hide FromBigEndian;
    Pow256Values();
    var entry := U16(0x001d) + (U16(32) + Zeros(32));
    ReadWholeIff(2, entry);
    ReadWholeIff(2, Zeros(32));
    BigEndianRoundTrip(0x001d, 2);
    assert entry[..2] == U16(0x001d) && entry[2..] == U16(32) + Zeros(32);
  }

  /** The code points an extension list holds, in order. */
  function CodePoints(es: seq<Extension>): (r: seq<nat>) {
    seq(|es|, i requires 0 <= i < |es| => es[i].code)
  }

  /** What the message offers a server that looks each extension up by its code point: TLS 1.3 with
      TLS_AES_128_GCM_SHA256, an x25519 share of zeros, five signature schemes, the host name and one protocol,
      and nothing else. */
  ghost predicate Offers(h: Hello, name: seq<byte>, alpn: seq<byte>, random: seq<byte>) {
    && h.version == 0x0303 && h.random == random && h.sessionId == [] && h.compression == [0x00]
    && ReadNumbers(h.suites) == Some([0x1301])
    && CodePoints(h.extensions) == [0, 43, 10, 13, 51, 16]
    && (var x := Find(h.extensions, 0); x.Some? && ReadSni(x.value) == Some(name))
    && (var x := Find(h.extensions, 43); x.Some? && ReadNumberList(x.value, 1) == Some([0x0304]))
    && (var x := Find(h.extensions, 10); x.Some? && ReadNumberList(x.value, 2) == Some([0x001d]))
    && (var x := Find(h.extensions, 13);
        x.Some? && ReadNumberList(x.value, 2) == Some([0x0403, 0x0804, 0x0805, 0x0806, 0x0401]))
    && (var x := Find(h.extensions, 51); x.Some? && ReadShare(x.value) == Some(Share(0x001d, Zeros(32))))
    && (var x := Find(h.extensions, 16); x.Some? && ReadAlpn(x.value) == Some([alpn]))
  }

  /** What a server that follows the RFC makes of the message. */
  ghost predicate Understood(name: seq<byte>, alpn: seq<byte>, random: seq<byte>) {
    var h := Read(Message(name, alpn, random));
    h.Some? && Offers(h.value, name, alpn, random)
  }

  lemma FindBuilt(name: seq<byte>, alpn: seq<byte>)
    ensures var es := Extensions(name, alpn);
            && CodePoints(es) == [0, 43, 10, 13, 51, 16]
            && Find(es, 0) == Some(SniBody(name)) && Find(es, 43) == Some(VERSIONS_BODY)
            && Find(es, 10) == Some(GROUPS_BODY) && Find(es, 13) == Some(SchemesBody())
            && Find(es, 51) == Some(KEY_SHARE_BODY) && Find(es, 16) == Some(AlpnBody(alpn))
  {
    hide SniBody;
    hide AlpnBody;
    hide SchemesBody;
    hide U16;
    var es := Extensions(name, alpn);
    FindAt(es, 0, 0);
    FindAt(es, 43, 1);
    FindAt(es, 10, 2);
    FindAt(es, 13, 3);
    FindAt(es, 51, 4);
    FindAt(es, 16, 5);
  }

  lemma {:induction false} FindAt(es: seq<Extension>, code: nat, k: nat)
    requires k < |es| && es[k].code == code && forall j :: 0 <= j < k ==> es[j].code != code
    ensures Find(es, code) == Some(es[k].body)
    decreases k
  {
    if k > 0 { FindAt(es[1..], code, k - 1); }
  }

  lemma ReadBodyIff(name: seq<byte>, alpn: seq<byte>, random: seq<byte>)
    requires |random| == 32
    ensures ReadBody(Body(name, alpn, random))
         == if |name| + |alpn| > 65446 then None
            else Some(Hello(0x0303, random, [], [0x13, 0x01], [0x00], Extensions(name, alpn)))
  {
    hide ReadPrelude;
    hide FixedFields;
    hide ReadExtensions;
    hide ReadWhole;
    var es := Extensions(name, alpn);
    var exts := PushAll(es);
    ExtensionSizes(name, alpn);
    Pow256Values();
    ReadPreludeBuilt(random, U16(|exts|) + exts);
    ReadWholeIff(2, exts);
    if |name| + |alpn| <= 65446 { ReadExtensionsBuilt(es); }
  }

  /** The reader finds all of that, with every nested length exact, if and only if the protocol name fits one
      byte and the extension block fits two. */
  lemma UnderstoodIff(name: seq<byte>, alpn: seq<byte>, random: seq<byte>)
    requires |random| == 32
    ensures Understood(name, alpn, random) <==> |alpn| <= 255 && |name| + |alpn| <= 65446
  {
    hide ReadBody;
    hide Body;
    hide ReadSni;
    hide SniBody;
    hide ReadAlpn;
    hide AlpnBody;
    hide ReadWhole;
    hide ReadNumberList;
    hide ReadNumbers;
    hide ReadShare;
    hide Extensions;
    hide Find;
    hide SchemesBody;
    var body, m := Body(name, alpn, random), Message(name, alpn, random);
    Pow256Values();
    MessageSize(name, alpn, random);
    assert m[1..] == BigEndian(|body|, 3) + body && |body| == |m| - 4;
    ReadWholeIff(3, body);
    ReadBodyIff(name, alpn, random);
    if |name| + |alpn| <= 65446 {
      FindBuilt(name, alpn);
      ReadFixedBodies();
      ReadShareBuilt();
      ReadSniBuilt(name);
      ReadAlpnIff(alpn);
    }
  }

  /** Whatever name and protocol the message is built for, a reader that accepts it finds no
      transport-parameters extension in it, which is what the scenario is for. */
  lemma NoTransportParameters(name: seq<byte>, alpn: seq<byte>, random: seq<byte>)
    requires |random| == 32
    ensures var h := Read(Message(name, alpn, random));
            h.Some? ==> |h.value.extensions| == 6 && forall e :: e in h.value.extensions ==> e.code != 0x0039
  {
    hide ReadBody;
    hide Body;
    hide ReadWhole;
    var body, m := Body(name, alpn, random), Message(name, alpn, random);
    MessageSize(name, alpn, random);
    assert m[1..] == BigEndian(|body|, 3) + body;
    ReadWholeIff(3, body);
    ReadBodyIff(name, alpn, random);
  }

  /** A server connection fed this message, cut into `read_hs` calls in any way and followed by
      anything, captures exactly the random it was built with. */
  lemma RandomIsCaptured<K, S>(
    name: seq<byte>, alpn: seq<byte>, random: seq<byte>, more: seq<byte>, ops: seq<C.Op<K, S>>, counter: int)
    requires |random| == 32
    requires C.Play(ops, counter, true).ledger.fed == Message(name, alpn, random) + more
    ensures var c := C.Play(ops, counter, true).conn; c.captured && c.random == random
  {
    hide C.Play;
    C.PlayCaptures(ops, counter);
    MessageSize(name, alpn, random);
    MessageRandom(name, alpn, random, more);
  }

  lemma MessageRandom(name: seq<byte>, alpn: seq<byte>, random: seq<byte>, more: seq<byte>)
    requires |random| == 32
    ensures var m := Message(name, alpn, random) + more;
            |m| >= 38 && m[0] == 0x01 && m[6..38] == random
  {
    MessageSize(name, alpn, random);
    var body := Body(name, alpn, random);
    assert body[2..34] == random;
    var m := Message(name, alpn, random) + more;
    forall i | 0 <= i < 32 ensures m[6 + i] == random[i] { assert body[2..34][i] == body[2 + i]; }
  }

  // ---------------------------------------------------------------------------------------
  // The source's builder
  // ---------------------------------------------------------------------------------------

  datatype BuildError = EmptyName | EmptyAlpn

  /** `build_signature_algorithms_body` */
  method BuildSchemesBody() returns (body: seq<byte>)
    ensures body == SchemesBody()
  {
    body := U16(|SCHEMES| * 2);
    for i := 0 to |SCHEMES|
      invariant body == U16(10) + Schemes(SCHEMES[..i])
    {
      assert SCHEMES[..i + 1][..i] == SCHEMES[..i];
      body := body + U16(SCHEMES[i]);
    }
    assert SCHEMES[..|SCHEMES|] == SCHEMES;
  }

  /** `push_extension` */
  method AppendExtension(out: seq<byte>, code: nat, body: seq<byte>) returns (out': seq<byte>)
    ensures out' == out + PushExtension(Extension(code, body))
  {
    out' := out + U16(code);
    out' := out' + U16(|body|);
    out' := out' + body;
  }

  lemma {:induction false} PushAllAppend(es: seq<Extension>, e: Extension)
    ensures PushAll(es + [e]) == PushAll(es) + PushExtension(e)
    decreases |es|
  {
    if es == [] {
      assert es + [e] == [e] && [e][1..] == [];
    } else {
      assert (es + [e])[1..] == es[1..] + [e];
      PushAllAppend(es[1..], e);
    }
  }

  /** The extension block, pushed one extension after another. */
  method BuildExtensions(name: seq<byte>, alpn: seq<byte>) returns (exts: seq<byte>)
    ensures exts == PushAll(Extensions(name, alpn))
  {
    hide PushExtension;
    hide PushAll;
    hide SniBody;
    hide AlpnBody;
    hide SchemesBody;
    hide U16;
    ghost var es := Extensions(name, alpn);
    var schemes := BuildSchemesBody();
    PushNothing(es);
    exts := AppendExtension([], 0x0000, SniBody(name));
    Pushed([], exts, es, 0);
    exts := AppendExtension(exts, 0x002b, VERSIONS_BODY);
    Pushed(PushAll(es[..1]), exts, es, 1);
    exts := AppendExtension(exts, 0x000a, GROUPS_BODY);
    Pushed(PushAll(es[..2]), exts, es, 2);
    exts := AppendExtension(exts, 0x000d, schemes);
    Pushed(PushAll(es[..3]), exts, es, 3);
    exts := AppendExtension(exts, 0x0033, KEY_SHARE_BODY);
    Pushed(PushAll(es[..4]), exts, es, 4);
    exts := AppendExtension(exts, 0x0010, AlpnBody(alpn));
    Pushed(PushAll(es[..5]), exts, es, 5);
    assert es[..6] == es;
  }

  lemma PushNothing(es: seq<Extension>)
    ensures PushAll(es[..0]) == []
  {
  }

  lemma Pushed(before: seq<byte>, after: seq<byte>, es: seq<Extension>, i: nat)
    requires i < |es| && before == PushAll(es[..i]) && after == before + PushExtension(es[i])
    ensures after == PushAll(es[..i + 1])
  {
    assert es[..i + 1] == es[..i] + [es[i]];
    PushAllAppend(es[..i], es[i]);
  }

  /** `build`; the random is drawn by the caller. */
  method Build(name: seq<byte>, alpn: seq<byte>, random: seq<byte>) returns (r: Result<seq<byte>, BuildError>)
    requires |random| == 32
    ensures r == if name == [] then Err(EmptyName) else if alpn == [] then Err(EmptyAlpn)
                 else Ok(Message(name, alpn, random))
  {
    if name == [] { return Err(EmptyName); }
    if alpn == [] { return Err(EmptyAlpn); }
    var body := U16(0x0303);
    body := body + random;
    body := body + [0];
    body := body + U16(2);
    body := body + U16(0x1301);
    body := body + [1];
    body := body + [0x00];
    assert body == FixedFields(random);
    hide FixedFields;
    hide PushAll;
    hide Extensions;
    hide BigEndian;
    var exts := BuildExtensions(name, alpn);
    body := body + U16(|exts|);
    body := body + exts;
    assert body == Body(name, alpn, random) by { Assoc(FixedFields(random), U16(|exts|), exts); }
    var hs := [0x01];
    hs := hs + BigEndian(|body|, 3);
    hs := hs + body;
    Assoc([0x01], BigEndian(|body|, 3), body);
    return Ok(hs);
  }
}
