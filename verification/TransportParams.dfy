/**
 Transport-parameter blocks (section 18 of RFC 9000): the harness's and the vector generators'
 encoders, and the walk over a block.
 */
module TransportParams {
  import opened Bytes
  import V = Varint

  datatype Param = Param(id: nat, value: seq<byte>) {
    ghost predicate Valid() { id < V.LIMIT && |value| < V.LIMIT }
  }

  ghost predicate ValidParams(ps: seq<Param>) {
    forall i :: 0 <= i < |ps| ==> ps[i].Valid()
  }

  /** `push_tp` */
  function EncodeParam(p: Param): (r: seq<byte>)
    requires p.Valid()
  {
    V.Encode(p.id) + (V.Encode(|p.value|) + p.value)
  }

  function EncodeParams(ps: seq<Param>): (r: seq<byte>)
    requires ValidParams(ps)
    decreases |ps|
  {
    if ps == [] then [] else EncodeParam(ps[0]) + EncodeParams(ps[1..])
  }

  /** The generators' three encoders. */
  function EncodeTpInteger(id: nat, value: nat): (r: seq<byte>)
    requires id < V.LIMIT && value < V.LIMIT
  {
    var bytes := V.EncodeOracle(value);
    V.EncodersAgree(value);
    V.EncodeOracle(id) + V.EncodeOracle(|bytes|) + bytes
  }

  function EncodeTpEmpty(id: nat): (r: seq<byte>)
    requires id < V.LIMIT
  {
    V.EncodeOracle(id) + V.EncodeOracle(0)
  }

  function EncodeTpBytes(id: nat, value: seq<byte>): (r: seq<byte>)
    requires id < V.LIMIT && |value| < V.LIMIT
  {
    V.EncodeOracle(id) + V.EncodeOracle(|value|) + value
  }

  /** The generators' encoders are the harness's entry encoder on the matching values. */
  lemma OraclesAgree(id: nat, n: nat, value: seq<byte>)
    requires id < V.LIMIT && n < V.LIMIT && |value| < V.LIMIT
    ensures EncodeTpInteger(id, n) == EncodeParam(Param(id, V.Encode(n)))
    ensures EncodeTpEmpty(id) == EncodeParam(Param(id, []))
    ensures EncodeTpBytes(id, value) == EncodeParam(Param(id, value))
  {
    V.EncodersAgree(id);
    V.EncodersAgree(n);
    V.EncodersAgree(|V.Encode(n)|);
    V.EncodersAgree(0);
    V.EncodersAgree(|value|);
    Assoc(V.Encode(id), V.Encode(|V.Encode(n)|), V.Encode(n));
    Assoc(V.Encode(id), V.Encode(|value|), value);
  }

  datatype Entry = Entry(param: Param, rest: seq<byte>)

  datatype Number = Number(value: nat, rest: seq<byte>)

  function TakeNumber(s: seq<byte>): (r: Option<Number>)
    ensures r.Some? ==> |r.value.rest| < |s|
  {
    match V.Decode(s)
    case None => None
    case Some(d) => V.DecodeBounds(s); Some(Number(d.value, s[d.size..]))
  }

  /** One entry off the front; None is where the walk panics. */
  function TakeEntry(s: seq<byte>): (r: Option<Entry>)
    ensures r.Some? ==> |r.value.rest| < |s|
  {
    match TakeNumber(s)
    case None => None
    case Some(id) =>
      match TakeNumber(id.rest)
      case None => None
      case Some(len) =>
        if |len.rest| < len.value then None
        else Some(Entry(Param(id.value, len.rest[..len.value]), len.rest[len.value..]))
  }

  /** `walk_tp`: the entries of a block. */
  function Walk(s: seq<byte>): (r: Option<seq<Param>>)
    decreases |s|
  {
    if s == [] then Some([])
    else
      match TakeEntry(s)
      case None => None
      case Some(e) =>
        match Walk(e.rest)
        case None => None
        case Some(ps) => Some([e.param] + ps)
  }

  lemma TakeEntryEncoded(p: Param, rest: seq<byte>)
    requires p.Valid()
    ensures TakeEntry(EncodeParam(p) + rest) == Some(Entry(p, rest))
  {
    var id, len := V.Encode(p.id), V.Encode(|p.value|);
    Assoc(id, len + p.value, rest);
    Assoc(len, p.value, rest);
    V.EncodeDecode(p.id, len + (p.value + rest));
    V.EncodeDecode(|p.value|, p.value + rest);
    assert (id + (len + (p.value + rest)))[|id|..] == len + (p.value + rest);
    assert (len + (p.value + rest))[|len|..] == p.value + rest;
    assert (p.value + rest)[..|p.value|] == p.value && (p.value + rest)[|p.value|..] == rest;
  }

  /** Walking any concatenation of entries returns exactly the entries that built it. */
  lemma {:induction false} WalkEncoded(ps: seq<Param>)
    requires ValidParams(ps)
    ensures Walk(EncodeParams(ps)) == Some(ps)
    decreases |ps|
  {
    hide EncodeParam;
    if ps != [] {
      var rest := EncodeParams(ps[1..]);
      TakeEntryEncoded(ps[0], rest);
      WalkEncoded(ps[1..]);
      WalkStep(EncodeParam(ps[0]) + rest, ps[0], rest, ps[1..]);
      assert ps == [ps[0]] + ps[1..];
    }
  }

  lemma WalkStep(s: seq<byte>, p: Param, rest: seq<byte>, ps: seq<Param>)
    requires TakeEntry(s) == Some(Entry(p, rest)) && Walk(rest) == Some(ps)
    ensures Walk(s) == Some([p] + ps)
  {
    hide TakeEntry;
    assert |rest| < |s|;
  }

  lemma TakeNumberExtends(s: seq<byte>, more: seq<byte>)
    requires TakeNumber(s).Some?
    ensures TakeNumber(s + more) == Some(Number(TakeNumber(s).value.value, TakeNumber(s).value.rest + more))
  {
    hide V.Decode;
    V.DecodeExtends(s, more);
    V.DecodeBounds(s);
    var n := V.Decode(s).value.size;
    assert (s + more)[n..] == s[n..] + more;
  }

  lemma TakeEntryExtends(s: seq<byte>, more: seq<byte>)
    requires TakeEntry(s).Some?
    ensures TakeEntry(s + more) == Some(Entry(TakeEntry(s).value.param, TakeEntry(s).value.rest + more))
  {
    hide TakeNumber;
    var id := TakeNumber(s).value;
    TakeNumberExtends(s, more);
    TakeNumberExtends(id.rest, more);
    var len := TakeNumber(id.rest).value;
    assert (len.rest + more)[..len.value] == len.rest[..len.value];
    assert (len.rest + more)[len.value..] == len.rest[len.value..] + more;
  }

  /** A block whose last entry is cut short makes the walk panic. */
  lemma {:induction false} WalkCut(ps: seq<Param>, last: Param, kept: nat)
    requires ValidParams(ps) && last.Valid() && 0 < kept < |EncodeParam(last)|
    ensures Walk(EncodeParams(ps) + EncodeParam(last)[..kept]) == None
    decreases |ps|
  {
    hide EncodeParam;
    hide TakeEntry;
    var cut, more := EncodeParam(last)[..kept], EncodeParam(last)[kept..];
    if ps == [] {
      assert EncodeParams(ps) + cut == cut;
      assert cut + more == EncodeParam(last) && EncodeParam(last) + [] == EncodeParam(last);
      TakeEntryEncoded(last, []);
      if TakeEntry(cut).Some? { TakeEntryExtends(cut, more); }
    } else {
      var rest := EncodeParams(ps[1..]) + cut;
      Assoc(EncodeParam(ps[0]), EncodeParams(ps[1..]), cut);
      TakeEntryEncoded(ps[0], rest);
      WalkCut(ps[1..], last, kept);
    }
  }

  /** So no two different lists share a block. */
  lemma EncodeInjective(ps: seq<Param>, qs: seq<Param>)
    requires ValidParams(ps) && ValidParams(qs) && EncodeParams(ps) == EncodeParams(qs)
    ensures ps == qs
  {
    WalkEncoded(ps);
    WalkEncoded(qs);
  }

  /** The walk of the source, with its cursor. */
  method WalkLoop(tp: seq<byte>) returns (r: Option<seq<Param>>)
    ensures r == Walk(tp)
  {
    hide TakeEntry;
    var ps: seq<Param> := [];
    var i := 0;
    assert tp[0..] == tp;
    assert forall rest: seq<Param> :: ps + rest == rest;
    while i < |tp|
      invariant i <= |tp|
      invariant Walk(tp) == match Walk(tp[i..]) case None => None case Some(rest) => Some(ps + rest)
    {
      var p, next := EntryAt(tp, i);
      if next.None? { return None; }
      ghost var rest := Walk(tp[next.value..]);
      assert rest.Some? ==> ps + ([p] + rest.value) == (ps + [p]) + rest.value;
      ps := ps + [p];
      i := next.value;
    }
    assert ps + [] == ps;
    return Some(ps);
  }

  method NumberAt(tp: seq<byte>, i: nat) returns (value: nat, next: Option<nat>)
    requires i <= |tp|
    ensures match next
            case None => TakeNumber(tp[i..]) == None
            case Some(j) => i < j <= |tp| && TakeNumber(tp[i..]) == Some(Number(value, tp[j..]))
  {
    var d := V.DecodeVarint(tp[i..]);
    if d.None? { return 0, None; }
    V.DecodeBounds(tp[i..]);
    assert tp[i..][d.value.size..] == tp[i + d.value.size..];
    return d.value.value, Some(i + d.value.size);
  }

  method EntryAt(tp: seq<byte>, i: nat) returns (p: Param, next: Option<nat>)
    requires i < |tp|
    ensures match next
            case None => TakeEntry(tp[i..]) == None
            case Some(j) => i < j <= |tp| && TakeEntry(tp[i..]) == Some(Entry(p, tp[j..]))
  {
    hide TakeNumber;
    p := Param(0, []);
    var id, j := NumberAt(tp, i);
    if j.None? { return p, None; }
    var len, k := NumberAt(tp, j.value);
    if k.None? { return p, None; }
    var end := k.value + len;
    if |tp| < end { return p, None; }
    assert tp[k.value..][..len] == tp[k.value..end] && tp[k.value..][len..] == tp[end..];
    return Param(id, tp[k.value..end]), Some(end);
  }
}
