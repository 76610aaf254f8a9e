/**
 The two pumps of the handshake drivers: they drain the TLS engine and route its bytes by
 encryption epoch. The engine is arbitrary: what it emits, accepts and believes about the
 handshake may be any function of everything it has been fed and asked so far.
 */
module Handshake {
  import opened Bytes
  import opened Protection
  import opened Packets
  import opened Contents
  import F = Frames
  import K = Keys
  import V = Varint

  datatype Keys = Keys(local: DirectionalKeys, remote: DirectionalKeys)

  datatype KeyChange = ToHandshake(keys: Keys) | ToOneRtt(keys: Keys)

  /** What one `write_hs` call produced. */
  datatype Emission = Emission(out: seq<byte>, change: Option<KeyChange>) {
    predicate Quiet() { out == [] && change == None }
  }

  /** A call made on the engine: `read_hs` with these bytes, or `write_hs`. */
  datatype Event = Fed(data: seq<byte>) | Drained

  datatype Tls = Tls(
    write: seq<Event> -> Emission,
    accepts: (seq<Event>, seq<byte>) -> bool,
    handshaking: seq<Event> -> bool,
    backlog: seq<Event> -> nat)
  {
    /** The engine falls quiet when it is drained often enough, without which no pump returns. */
    ghost predicate Valid() {
      forall h :: !write(h).Quiet() ==> backlog(h + [Drained]) < backlog(h)
    }
  }

  datatype Space = Initial | Handshake | OneRtt

  /** A packet handed to the socket: its number space, packet number and CRYPTO data. */
  datatype Sent = Sent(space: Space, pn: nat, crypto: seq<byte>)

  /** The same packet as bytes, and the suite that sealed it. */
  datatype Wired = Wired(keys: DirectionalKeys, bytes: seq<byte>)

  /** A packet that could not be built ends the run: the Initial builder panics, the others return an
      error. */
  datatype Halt = Halt(space: Space, panicked: bool)

  /** The client's mutable state, as the drivers thread it through the pumps. `initialKeys` and
      `initialLast` are the key entry the Initial builder seals with. */
  datatype Client = Client(
    dcid: seq<byte>, scid: seq<byte>, initialKeys: DirectionalKeys, initialLast: Option<nat>,
    handshakeKeys: Option<Keys>, oneRttKeys: Option<Keys>,
    initialPn: nat, handshakePn: nat, oneRttPn: nat, sent: seq<Sent>, wire: seq<Wired>, halt: Option<Halt>)

  datatype PumpKind = Sending | Discarding

  // ---------------------------------------------------------------------------------------
  // Sending
  // ---------------------------------------------------------------------------------------

  /** The Length fits its field. Outside Initial space no vector is too long for it, short of running
      out of memory. */
  predicate Fits(space: Space, dcid: seq<byte>, scid: seq<byte>, crypto: seq<byte>) {
    match space
    case Initial => Buildable(INITIAL, dcid, scid, crypto)
    case Handshake => Buildable(HANDSHAKE, dcid, scid, crypto)
    case OneRtt => |crypto| < V.LIMIT
  }

  /** The bytes of a packet, if its suite can seal and mask it. */
  function Assemble(s: Sent, dcid: seq<byte>, scid: seq<byte>, keys: DirectionalKeys): (r: Option<seq<byte>>)
    requires Fits(s.space, dcid, scid, s.crypto)
  {
    match s.space
    case Initial =>
      TrySeal(HeaderToPn(INITIAL, dcid, scid, s.crypto), s.pn, Plaintext(INITIAL, dcid, scid, s.crypto), keys)
    case Handshake =>
      TrySeal(HeaderToPn(HANDSHAKE, dcid, scid, s.crypto), s.pn, Plaintext(HANDSHAKE, dcid, scid, s.crypto), keys)
    case OneRtt => TrySeal(ShortHeaderToPn(dcid), s.pn, CryptoPayload(s.crypto), keys)
  }

  function NextPn(c: Client, space: Space): nat {
    match space case Initial => c.initialPn case Handshake => c.handshakePn case OneRtt => c.oneRttPn
  }

  function Record(c: Client, s: Sent, w: Wired): (r: Client) {
    var c' := c.(sent := c.sent + [s], wire := c.wire + [w]);
    match s.space
    case Initial => c'.(initialPn := (c.initialPn + 1) % U64)
    case Handshake => c'.(handshakePn := (c.handshakePn + 1) % U64)
    case OneRtt => c'.(oneRttPn := (c.oneRttPn + 1) % U64)
  }

  /** Build a packet and hand it to the socket. The Initial builder's key entry also refuses a packet
      number it has seen, and records a new one before sealing. */
  function Send(c: Client, space: Space, crypto: seq<byte>, keys: DirectionalKeys): (r: Client) {
    var s := Sent(space, NextPn(c, space), crypto);
    if !Fits(space, c.dcid, c.scid, crypto) || (space == Initial && !K.Fresh(c.initialLast, s.pn)) then
      c.(halt := Some(Halt(space, true)))
    else
      var c' := if space == Initial then c.(initialLast := Some(s.pn)) else c;
      match Assemble(s, c.dcid, c.scid, keys)
      case None => c'.(halt := Some(Halt(space, space == Initial)))
      case Some(bytes) => Record(c', s, Wired(keys, bytes))
  }

  /** Either the run is halted and nothing was sent, or one packet was, and its bytes are on the wire. */
  lemma SendFacts(c: Client, space: Space, crypto: seq<byte>, keys: DirectionalKeys)
    requires c.halt.None?
    ensures var r, s := Send(c, space, crypto, keys), Sent(space, NextPn(c, space), crypto);
            if r.halt.Some? then
              r == c.(initialLast := r.initialLast, halt := Some(Halt(space, r.halt.value.panicked)))
            else
              && |r.wire| == |c.wire| + 1 && r.wire[|c.wire|].keys == keys
              && r == Record(c.(initialLast := r.initialLast), s, r.wire[|c.wire|])
              && Fits(space, c.dcid, c.scid, crypto)
              && Assemble(s, c.dcid, c.scid, keys) == Some(r.wire[|c.wire|].bytes)
  {
    hide Fits;
    hide Assemble;
  }

  // ---------------------------------------------------------------------------------------
  // The pumps
  // ---------------------------------------------------------------------------------------

  /** Send the bytes in the epoch the keys seen so far select, or drop them. */
  function Route(c: Client, out: seq<byte>, kind: PumpKind): (r: Client) {
    if out == [] then c
    else if c.handshakeKeys.None? then Send(c, Initial, out, c.initialKeys)
    else if c.oneRttKeys.None? && kind == Sending then Send(c, Handshake, out, c.handshakeKeys.value.local)
    else c
  }

  function Install(c: Client, change: Option<KeyChange>): (r: Client) {
    if c.halt.Some? then c
    else
      match change
      case None => c
      case Some(ToHandshake(keys)) => c.(handshakeKeys := Some(keys))
      case Some(ToOneRtt(keys)) => c.(oneRttKeys := Some(keys))
  }

  function Step(c: Client, e: Emission, kind: PumpKind): (r: Client) {
    Install(Route(c, e.out, kind), e.change)
  }

  /** One pump call over what the engine emits: route and install until it falls quiet. */
  function Pump(c: Client, trace: seq<Emission>, kind: PumpKind): (r: Client)
    decreases |trace|
  {
    if trace == [] || trace[0].Quiet() || c.halt.Some? then c else Pump(Step(c, trace[0], kind), trace[1..], kind)
  }

  /** Any number of pump calls. */
  function Pumps(c: Client, calls: seq<seq<Emission>>, kind: PumpKind): (r: Client)
    decreases |calls|
  {
    if calls == [] then c else Pumps(Pump(c, calls[0], kind), calls[1..], kind)
  }

  /** Everything the engine emits until it falls quiet, if nothing is fed meanwhile. */
  function Trace(tls: Tls, h: seq<Event>): (r: seq<Emission>)
    requires tls.Valid()
    decreases tls.backlog(h)
  {
    if tls.write(h).Quiet() then [] else [tls.write(h)] + Trace(tls, h + [Drained])
  }

  datatype Pumped = Pumped(client: Client, history: seq<Event>)

  /** One pump call against the engine itself. */
  function PumpEngine(c: Client, tls: Tls, h: seq<Event>, kind: PumpKind): (r: Pumped)
    requires tls.Valid()
    decreases tls.backlog(h)
  {
    var e := tls.write(h);
    if e.Quiet() then Pumped(c, h + [Drained])
    else
      var c' := Step(c, e, kind);
      if c'.halt.Some? then Pumped(c', h + [Drained]) else PumpEngine(c', tls, h + [Drained], kind)
  }

  /** What the engine has been fed. */
  function Heard(h: seq<Event>): (r: seq<seq<byte>>) {
    if h == [] then []
    else Heard(h[..|h| - 1]) + (if h[|h| - 1].Fed? then [h[|h| - 1].data] else [])
  }

  /** Pumping the engine is pumping its trace, and feeds it nothing. */
  lemma {:induction false} PumpIsTrace(c: Client, tls: Tls, h: seq<Event>, kind: PumpKind)
    requires tls.Valid() && c.halt.None?
    ensures PumpEngine(c, tls, h, kind).client == Pump(c, Trace(tls, h), kind)
    ensures Heard(PumpEngine(c, tls, h, kind).history) == Heard(h)
    decreases tls.backlog(h)
  {
    hide Step;
    var e := tls.write(h);
    assert Heard(h + [Drained]) == Heard(h) by { assert (h + [Drained])[..|h|] == h; }
    if !e.Quiet() {
      var rest := Trace(tls, h + [Drained]);
      assert ([e] + rest)[1..] == rest;
      if Step(c, e, kind).halt.None? {
        PumpIsTrace(Step(c, e, kind), tls, h + [Drained], kind);
      }
    }
  }

  /** The packets of one number space, in order. */
  function InSpace(sent: seq<Sent>, space: Space): (r: seq<Sent>) {
    if sent == [] then []
    else InSpace(sent[..|sent| - 1], space) + (if sent[|sent| - 1].space == space then [sent[|sent| - 1]] else [])
  }

  lemma InSpaceAppend(sent: seq<Sent>, s: Sent, space: Space)
    ensures InSpace(sent + [s], space) == InSpace(sent, space) + (if s.space == space then [s] else [])
  {
    assert (sent + [s])[..|sent|] == sent;
  }

  /** The bytes of the packets of one number space, in order. */
  function WireIn(sent: seq<Sent>, wire: seq<Wired>, space: Space): (r: seq<Wired>)
    requires |sent| == |wire|
  {
    if sent == [] then []
    else
      var n := |sent| - 1;
      WireIn(sent[..n], wire[..n], space) + (if sent[n].space == space then [wire[n]] else [])
  }

  lemma WireInAppend(sent: seq<Sent>, wire: seq<Wired>, s: Sent, w: Wired, space: Space)
    requires |sent| == |wire|
    ensures WireIn(sent + [s], wire + [w], space) == WireIn(sent, wire, space) + (if s.space == space then [w] else [])
  {
    assert (sent + [s])[..|sent|] == sent && (wire + [w])[..|wire|] == wire;
  }

  /** The discarding client holds the same keys and Initial counter, and has sent exactly the
      Initial-space packets of the sending one, byte for byte. */
  ghost predicate Shadows(d: Client, s: Client) {
    && d.dcid == s.dcid && d.scid == s.scid && d.initialKeys == s.initialKeys && d.initialLast == s.initialLast
    && d.handshakeKeys == s.handshakeKeys && d.oneRttKeys == s.oneRttKeys && d.initialPn == s.initialPn
    && d.halt == s.halt && |s.sent| == |s.wire|
    && d.sent == InSpace(s.sent, Initial) && d.wire == WireIn(s.sent, s.wire, Initial)
  }

  /** The sending pump failed to seal a Handshake packet, which the discarding one never attempts. */
  predicate StuckInHandshake(c: Client) {
    c.halt.Some? && c.halt.value.space == Handshake
  }

  lemma StepShadows(d: Client, s: Client, e: Emission)
    requires Shadows(d, s) && s.halt.None?
    ensures Shadows(Step(d, e, Discarding), Step(s, e, Sending)) <==> !StuckInHandshake(Step(s, e, Sending))
    ensures !StuckInHandshake(Step(d, e, Discarding))
  {
    hide InSpace;
    hide WireIn;
    hide Send;
    if e.out != [] && s.handshakeKeys.None? {
      InitialShadows(d, s, e.out);
    } else if e.out != [] && s.oneRttKeys.None? {
      HandshakeShadows(d, s, e.out);
    }
  }

  lemma InitialShadows(d: Client, s: Client, out: seq<byte>)
    requires Shadows(d, s) && s.halt.None?
    ensures var d', s' := Send(d, Initial, out, d.initialKeys), Send(s, Initial, out, s.initialKeys);
            Shadows(d', s') && !StuckInHandshake(s')
  {
    hide InSpace;
    hide WireIn;
    hide Fits;
    hide Assemble;
    SendFacts(s, Initial, out, s.initialKeys);
    var r, m := Send(s, Initial, out, s.initialKeys), Sent(Initial, s.initialPn, out);
    if r.halt.None? {
      InSpaceAppend(s.sent, m, Initial);
      WireInAppend(s.sent, s.wire, m, r.wire[|s.wire|], Initial);
    }
  }

  lemma HandshakeShadows(d: Client, s: Client, out: seq<byte>)
    requires Shadows(d, s) && s.halt.None? && s.handshakeKeys.Some?
    ensures var s' := Send(s, Handshake, out, s.handshakeKeys.value.local);
            if s'.halt.None? then Shadows(d, s') else StuckInHandshake(s') && !Shadows(d, s')
  {
    hide InSpace;
    hide WireIn;
    hide Send;
    hide Fits;
    hide Assemble;
    SendFacts(s, Handshake, out, s.handshakeKeys.value.local);
    var r, m := Send(s, Handshake, out, s.handshakeKeys.value.local), Sent(Handshake, s.handshakePn, out);
    SendInitialLast(s, out);
    if r.halt.None? {
      InSpaceAppend(s.sent, m, Initial);
      WireInAppend(s.sent, s.wire, m, r.wire[|s.wire|], Initial);
    }
  }

  lemma SendInitialLast(s: Client, out: seq<byte>)
    requires s.handshakeKeys.Some?
    ensures Send(s, Handshake, out, s.handshakeKeys.value.local).initialLast == s.initialLast
  {
    hide Fits;
    hide Assemble;
  }

  lemma {:induction false} NeverStuck(d: Client, trace: seq<Emission>)
    requires !StuckInHandshake(d)
    ensures !StuckInHandshake(Pump(d, trace, Discarding))
    decreases |trace|
  {
    hide Fits;
    hide Assemble;
    if trace != [] && !trace[0].Quiet() && d.halt.None? { NeverStuck(Step(d, trace[0], Discarding), trace[1..]); }
  }

  /** One call of each pump on the same emissions. */
  lemma {:induction false} PumpShadows(d: Client, s: Client, trace: seq<Emission>)
    requires Shadows(d, s) && !StuckInHandshake(s)
    ensures Shadows(Pump(d, trace, Discarding), Pump(s, trace, Sending))
       <==> !StuckInHandshake(Pump(s, trace, Sending))
    decreases |trace|
  {
    hide Step;
    hide InSpace;
    hide WireIn;
    if trace != [] && !trace[0].Quiet() && s.halt.None? {
      StepShadows(d, s, trace[0]);
      var s' := Step(s, trace[0], Sending);
      if !StuckInHandshake(s') {
        PumpShadows(Step(d, trace[0], Discarding), s', trace[1..]);
      } else {
        NeverStuck(Step(d, trace[0], Discarding), trace[1..]);
      }
    }
  }

  /** Over every engine behaviour and every way of spreading it over calls, the discarding pump ends with
      the keys and Initial counter of the normal pump, having sent exactly the Initial-space subsequence
      of its packets, if and only if the normal pump was never stuck on a Handshake packet it could not
      seal. */
  lemma {:induction false} PumpsShadow(d: Client, s: Client, calls: seq<seq<Emission>>)
    requires Shadows(d, s) && !StuckInHandshake(s)
    ensures Shadows(Pumps(d, calls, Discarding), Pumps(s, calls, Sending))
       <==> !StuckInHandshake(Pumps(s, calls, Sending))
    decreases |calls|
  {
    hide Pump;
    hide InSpace;
    hide WireIn;
    if calls != [] {
      PumpShadows(d, s, calls[0]);
      var d', s' := Pump(d, calls[0], Discarding), Pump(s, calls[0], Sending);
      if !StuckInHandshake(s') {
        PumpsShadow(d', s', calls[1..]);
      } else {
        NeverStuck(d, calls[0]);
        StaysHalted(s', calls[1..]);
        PumpsNeverStuck(d', calls[1..]);
      }
    }
  }

  lemma {:induction false} StaysHalted(c: Client, calls: seq<seq<Emission>>)
    requires c.halt.Some?
    ensures Pumps(c, calls, Sending) == c
    decreases |calls|
  {
    if calls != [] { StaysHalted(c, calls[1..]); }
  }

  lemma {:induction false} PumpsNeverStuck(d: Client, calls: seq<seq<Emission>>)
    requires !StuckInHandshake(d)
    ensures !StuckInHandshake(Pumps(d, calls, Discarding))
    decreases |calls|
  {
    hide Pump;
    if calls != [] {
      NeverStuck(d, calls[0]);
      PumpsNeverStuck(Pump(d, calls[0], Discarding), calls[1..]);
    }
  }

  /** Where a trace is cut into calls makes no difference, as long as no call is cut short by a
      quiet emission. */
  lemma {:induction false} PumpSplit(c: Client, a: seq<Emission>, b: seq<Emission>, kind: PumpKind)
    requires forall i :: 0 <= i < |a| ==> !a[i].Quiet()
    ensures Pump(c, a + b, kind) == Pump(Pump(c, a, kind), b, kind)
    decreases |a|
  {
    if a == [] {
      assert a + b == b;
    } else {
      assert (a + b)[1..] == a[1..] + b;
      hide Step;
      PumpSplit(Step(c, a[0], kind), a[1..], b, kind);
    }
  }

  /** In each number space the packets sent so far are numbered from 0 without a gap. */
  ghost predicate Numbered(sent: seq<Sent>, space: Space, next: nat) {
    && (forall i :: 0 <= i < |InSpace(sent, space)| ==> InSpace(sent, space)[i].pn == i % U64)
    && next == |InSpace(sent, space)| % U64
  }

  ghost predicate WellNumbered(c: Client) {
    && Numbered(c.sent, Initial, c.initialPn) && Numbered(c.sent, Handshake, c.handshakePn)
    && Numbered(c.sent, OneRtt, c.oneRttPn)
  }

  lemma NumberedAppend(sent: seq<Sent>, s: Sent, space: Space, next: nat)
    requires Numbered(sent, space, next) && (s.space == space ==> s.pn == next)
    ensures Numbered(sent + [s], space, if s.space == space then (next + 1) % U64 else next)
  {
    hide InSpace;
    InSpaceAppend(sent, s, space);
  }

  lemma SendKeepsNumbers(c: Client, s: Sent)
    requires WellNumbered(c)
    requires s.pn == NextPn(c, s.space)
    ensures Numbered(c.sent + [s], Initial, if s.space == Initial then (c.initialPn + 1) % U64 else c.initialPn)
    ensures Numbered(c.sent + [s], Handshake, if s.space == Handshake then (c.handshakePn + 1) % U64 else c.handshakePn)
    ensures Numbered(c.sent + [s], OneRtt, if s.space == OneRtt then (c.oneRttPn + 1) % U64 else c.oneRttPn)
  {
    NumberedAppend(c.sent, s, Initial, c.initialPn);
    NumberedAppend(c.sent, s, Handshake, c.handshakePn);
    NumberedAppend(c.sent, s, OneRtt, c.oneRttPn);
  }

  /** Where a packet stands in its own number space. */
  lemma {:induction false} PlaceInSpace(sent: seq<Sent>, i: nat) returns (k: nat)
    requires i < |sent|
    ensures k < |InSpace(sent, sent[i].space)| <= |sent| && InSpace(sent, sent[i].space)[k] == sent[i]
    decreases |sent|
  {
    var n := |sent| - 1;
    InSpaceShort(sent[..n], sent[i].space);
    if i == n {
      k := |InSpace(sent[..n], sent[i].space)|;
    } else {
      k := PlaceInSpace(sent[..n], i);
    }
  }

  lemma {:induction false} InSpaceShort(sent: seq<Sent>, space: Space)
    ensures |InSpace(sent, space)| <= |sent|
  {
    if sent != [] { InSpaceShort(sent[..|sent| - 1], space); }
  }

  /** No packet number reaches the number of packets sent. */
  lemma NumberBelow(c: Client, i: nat)
    requires WellNumbered(c) && i < |c.sent|
    ensures c.sent[i].pn < |c.sent|
  {
    hide InSpace;
    var k := PlaceInSpace(c.sent, i);
    assert Numbered(c.sent, c.sent[i].space, NextPn(c, c.sent[i].space));
    assert k % U64 <= k;
  }

  lemma SendNumbered(c: Client, space: Space, crypto: seq<byte>, keys: DirectionalKeys)
    requires WellNumbered(c) && c.halt.None?
    ensures WellNumbered(Send(c, space, crypto, keys))
  {
    hide Send;
    hide Numbered;
    hide Fits;
    hide Assemble;
    SendFacts(c, space, crypto, keys);
    SendKeepsNumbers(c, Sent(space, NextPn(c, space), crypto));
  }

  lemma StepKeepsNumbers(c: Client, e: Emission, kind: PumpKind)
    requires WellNumbered(c) && c.halt.None?
    ensures WellNumbered(Step(c, e, kind))
  {
    hide Send;
    hide Numbered;
    SendNumbered(c, Initial, e.out, c.initialKeys);
    if c.handshakeKeys.Some? { SendNumbered(c, Handshake, e.out, c.handshakeKeys.value.local); }
  }

  lemma {:induction false} PumpKeepsNumbers(c: Client, trace: seq<Emission>, kind: PumpKind)
    requires WellNumbered(c)
    ensures WellNumbered(Pump(c, trace, kind))
    decreases |trace|
  {
    hide Step;
    hide WellNumbered;
    if trace != [] && !trace[0].Quiet() && c.halt.None? {
      StepKeepsNumbers(c, trace[0], kind);
      PumpKeepsNumbers(Step(c, trace[0], kind), trace[1..], kind);
    }
  }

  /** Everything the engine emits up to and including the step that hands over 1-RTT keys. */
  function OutsUntilOneRtt(trace: seq<Emission>): (r: seq<seq<byte>>)
    decreases |trace|
  {
    if trace == [] || trace[0].Quiet() then []
    else
      Emitted(trace[0].out)
      + (if trace[0].change.Some? && trace[0].change.value.ToOneRtt? then [] else OutsUntilOneRtt(trace[1..]))
  }

  /** One packet per emission, consecutively numbered. */
  function PacketsOf(space: Space, outs: seq<seq<byte>>, pn: nat): (r: seq<Sent>)
    decreases |outs|
  {
    if outs == [] then [] else [Sent(space, pn, outs[0])] + PacketsOf(space, outs[1..], (pn + 1) % U64)
  }

  /** From the Handshake keys on, a normal pump call that is not halted sends every byte the engine
      emits before 1-RTT, the client Finished included: one consecutively numbered Handshake packet per
      emission. */
  lemma {:induction false} FinishedIsSent(c: Client, trace: seq<Emission>)
    requires c.handshakeKeys.Some? && c.oneRttKeys.None? && c.halt.None?
    ensures Pump(c, trace, Sending).halt.None? ==>
              Pump(c, trace, Sending).sent == c.sent + PacketsOf(Handshake, OutsUntilOneRtt(trace), c.handshakePn)
    decreases |trace|
  {
    hide Step;
    hide PacketsOf;
    hide OutsUntilOneRtt;
    OutsStep(trace);
    if trace == [] || trace[0].Quiet() {
      NoPackets(c.handshakePn);
      assert c.sent + [] == c.sent;
    } else {
      var e := trace[0];
      var c' := Step(c, e, Sending);
      StepHandshake(c, e);
      if c'.halt.None? {
        if e.change.Some? && e.change.value.ToOneRtt? {
          NothingAfterOneRtt(c', trace[1..]);
          PacketsStep(Handshake, c.sent, e.out, [], c.handshakePn);
          assert Emitted(e.out) + [] == Emitted(e.out);
          NoPackets(c'.handshakePn);
          assert c'.sent + [] == c'.sent;
        } else {
          FinishedIsSent(c', trace[1..]);
          PacketsStep(Handshake, c.sent, e.out, OutsUntilOneRtt(trace[1..]), c.handshakePn);
        }
      }
    }
  }

  function Emitted(out: seq<byte>): seq<seq<byte>> {
    if out == [] then [] else [out]
  }

  lemma OutsStep(trace: seq<Emission>)
    ensures OutsUntilOneRtt(trace) ==
              if trace == [] || trace[0].Quiet() then []
              else if trace[0].change.Some? && trace[0].change.value.ToOneRtt? then Emitted(trace[0].out)
              else Emitted(trace[0].out) + OutsUntilOneRtt(trace[1..])
  {
  }

  lemma StepHandshake(c: Client, e: Emission)
    requires c.handshakeKeys.Some? && c.oneRttKeys.None? && c.halt.None?
    ensures var r := Step(c, e, Sending);
            r.halt.None? ==>
              && r.handshakeKeys.Some?
              && (r.oneRttKeys.Some? <==> e.change.Some? && e.change.value.ToOneRtt?)
              && r.handshakePn == (if e.out == [] then c.handshakePn else (c.handshakePn + 1) % U64)
              && r.sent == if e.out == [] then c.sent else c.sent + [Sent(Handshake, c.handshakePn, e.out)]
  {
    hide Send;
    hide Fits;
    hide Assemble;
    SendFacts(c, Handshake, e.out, c.handshakeKeys.value.local);
  }

  lemma NoPackets(pn: nat)
    ensures forall space :: PacketsOf(space, [], pn) == []
  {
  }

  lemma PacketsStep(space: Space, sent: seq<Sent>, out: seq<byte>, rest: seq<seq<byte>>, pn: nat)
    ensures var pn' := if out == [] then pn else (pn + 1) % U64;
            var sent' := if out == [] then sent else sent + [Sent(space, pn, out)];
            sent + PacketsOf(space, Emitted(out) + rest, pn) == sent' + PacketsOf(space, rest, pn')
  {
    if out == [] {
      assert Emitted(out) + rest == rest;
    } else {
      assert (Emitted(out) + rest)[1..] == rest;
    }
  }

  lemma {:induction false} NothingAfterOneRtt(c: Client, trace: seq<Emission>)
    requires c.handshakeKeys.Some? && c.oneRttKeys.Some?
    ensures Pump(c, trace, Sending).sent == c.sent
    decreases |trace|
  {
    if trace != [] && !trace[0].Quiet() && c.halt.None? {
      NothingAfterOneRtt(Step(c, trace[0], Sending), trace[1..]);
    }
  }

  /** From the Handshake keys on, the discarding pump sends nothing at all. */
  lemma {:induction false} DiscardingIsSilent(c: Client, trace: seq<Emission>)
    requires c.handshakeKeys.Some?
    ensures Pump(c, trace, Discarding).sent == c.sent
    decreases |trace|
  {
    if trace != [] && !trace[0].Quiet() && c.halt.None? {
      DiscardingIsSilent(Step(c, trace[0], Discarding), trace[1..]);
    }
  }

  /** Everything the engine emits up to and including the step that hands over Handshake keys. */
  function OutsUntilHandshake(trace: seq<Emission>): (r: seq<seq<byte>>)
    decreases |trace|
  {
    if trace == [] || trace[0].Quiet() then []
    else
      Emitted(trace[0].out)
      + (if trace[0].change.Some? && trace[0].change.value.ToHandshake? then [] else OutsUntilHandshake(trace[1..]))
  }

  /** What it emits after that step. */
  function AfterHandshake(trace: seq<Emission>): (r: seq<Emission>)
    decreases |trace|
  {
    if trace == [] || trace[0].Quiet() then []
    else if trace[0].change.Some? && trace[0].change.value.ToHandshake? then trace[1..]
    else AfterHandshake(trace[1..])
  }

  /** The engine hands over 1-RTT keys before any Handshake keys. */
  predicate EarlyOneRtt(trace: seq<Emission>)
    decreases |trace|
  {
    && trace != [] && !trace[0].Quiet()
    && match trace[0].change
       case Some(ToHandshake(_)) => false
       case Some(ToOneRtt(_)) => true
       case None => EarlyOneRtt(trace[1..])
  }

  /** What a pump call sends after its Initial packets. */
  function AfterInitial(c: Client, trace: seq<Emission>, kind: PumpKind): (r: seq<Sent>) {
    if kind == Discarding || c.oneRttKeys.Some? || EarlyOneRtt(trace) then []
    else PacketsOf(Handshake, OutsUntilOneRtt(AfterHandshake(trace)), c.handshakePn)
  }

  lemma StepInitial(c: Client, e: Emission, kind: PumpKind)
    requires c.handshakeKeys.None? && c.halt.None?
    ensures var r := Step(c, e, kind);
            r.halt.None? ==>
              && (r.handshakeKeys.Some? <==> e.change.Some? && e.change.value.ToHandshake?)
              && (r.oneRttKeys.Some? <==> c.oneRttKeys.Some? || (e.change.Some? && e.change.value.ToOneRtt?))
              && r.initialPn == (if e.out == [] then c.initialPn else (c.initialPn + 1) % U64)
              && r.handshakePn == c.handshakePn
              && r.sent == if e.out == [] then c.sent else c.sent + [Sent(Initial, c.initialPn, e.out)]
  {
    hide Send;
    hide Fits;
    hide Assemble;
    SendFacts(c, Initial, e.out, c.initialKeys);
  }

  /** From the start, either pump call that is not halted sends every byte the engine emits up to its
      Handshake keys in Initial packets, one per emission and consecutively numbered; the sending pump then
      sends everything up to 1-RTT in Handshake packets, and the discarding one nothing. */
  lemma {:induction false} InitialIsSent(c: Client, trace: seq<Emission>, kind: PumpKind)
    requires c.handshakeKeys.None? && c.halt.None?
    ensures Pump(c, trace, kind).halt.None? ==>
              Pump(c, trace, kind).sent
              == c.sent + PacketsOf(Initial, OutsUntilHandshake(trace), c.initialPn) + AfterInitial(c, trace, kind)
    decreases |trace|
  {
    hide Step;
    hide PacketsOf;
    hide OutsUntilOneRtt;
    NoPackets(c.initialPn);
    if trace == [] || trace[0].Quiet() {
      NoPackets(c.handshakePn);
      OutsStep([]);
      assert c.sent + [] == c.sent;
    } else {
      var e := trace[0];
      var c' := Step(c, e, kind);
      StepInitial(c, e, kind);
      if c'.halt.None? && Pump(c, trace, kind).halt.None? {
        if e.change.Some? && e.change.value.ToHandshake? {
          PacketsStep(Initial, c.sent, e.out, [], c.initialPn);
          NoPackets(c'.initialPn);
          assert Emitted(e.out) + [] == Emitted(e.out) && c'.sent + [] == c'.sent;
          AfterKeys(c', trace[1..], kind);
        } else {
          InitialIsSent(c', trace[1..], kind);
          PacketsStep(Initial, c.sent, e.out, OutsUntilHandshake(trace[1..]), c.initialPn);
        }
      }
    }
  }

  lemma AfterKeys(c: Client, trace: seq<Emission>, kind: PumpKind)
    requires c.handshakeKeys.Some? && c.halt.None? && Pump(c, trace, kind).halt.None?
    ensures Pump(c, trace, kind).sent == c.sent +
              if kind == Discarding || c.oneRttKeys.Some? then []
              else PacketsOf(Handshake, OutsUntilOneRtt(trace), c.handshakePn)
  {
    hide Pump;
    assert c.sent + [] == c.sent;
    if kind == Discarding {
      DiscardingIsSilent(c, trace);
    } else if c.oneRttKeys.Some? {
      NothingAfterOneRtt(c, trace);
    } else {
      FinishedIsSent(c, trace);
    }
  }

  /** The latest keys handed over for a number space. */
  function Latest(trace: seq<Emission>, space: Space, held: Option<Keys>): (r: Option<Keys>)
    decreases |trace|
  {
    if trace == [] || trace[0].Quiet() then held
    else
      Latest(trace[1..], space,
             match trace[0].change
             case Some(ToHandshake(keys)) => if space == Handshake then Some(keys) else held
             case Some(ToOneRtt(keys)) => if space == OneRtt then Some(keys) else held
             case None => held)
  }

  /** A pump call that is not halted leaves the client with the latest keys of each kind. */
  lemma {:induction false} PumpInstalls(c: Client, trace: seq<Emission>, kind: PumpKind)
    requires c.halt.None? && Pump(c, trace, kind).halt.None?
    ensures var r := Pump(c, trace, kind);
            && r.handshakeKeys == Latest(trace, Handshake, c.handshakeKeys)
            && r.oneRttKeys == Latest(trace, OneRtt, c.oneRttKeys)
    decreases |trace|
  {
    hide Send;
    hide Fits;
    hide Assemble;
    if trace != [] && !trace[0].Quiet() {
      SendFacts(c, Initial, trace[0].out, c.initialKeys);
      if c.handshakeKeys.Some? { SendFacts(c, Handshake, trace[0].out, c.handshakeKeys.value.local); }
      if Step(c, trace[0], kind).halt.None? { PumpInstalls(Step(c, trace[0], kind), trace[1..], kind); }
    }
  }

  lemma {:induction false} DiscardingGoesOn(c: Client, trace: seq<Emission>)
    requires c.handshakeKeys.Some? && c.halt.None?
    ensures Pump(c, trace, Discarding).halt.None?
    decreases |trace|
  {
    if trace != [] && !trace[0].Quiet() { DiscardingGoesOn(Step(c, trace[0], Discarding), trace[1..]); }
  }

  /** The suites and sizes the engine comes up with are ones every builder can handle. */
  ghost predicate Working(tls: Tls) {
    forall h ::
      && |tls.write(h).out| < U32
      && (tls.write(h).change.Some? ==> tls.write(h).change.value.keys.local.Valid())
  }

  ghost predicate WorkingTrace(trace: seq<Emission>) {
    forall i :: 0 <= i < |trace| ==>
      |trace[i].out| < U32 && (trace[i].change.Some? ==> trace[i].change.value.keys.local.Valid())
  }

  lemma {:induction false} TraceWorks(tls: Tls, h: seq<Event>)
    requires tls.Valid() && Working(tls)
    ensures WorkingTrace(Trace(tls, h))
    decreases tls.backlog(h)
  {
    if !tls.write(h).Quiet() { TraceWorks(tls, h + [Drained]); }
  }

  /** A working suite seals every packet that fits. */
  lemma AssembleWorks(s: Sent, dcid: seq<byte>, scid: seq<byte>, keys: DirectionalKeys)
    requires keys.Valid() && Fits(s.space, dcid, scid, s.crypto)
    ensures Assemble(s, dcid, scid, keys).Some?
  {
    hide TrySeal;
    hide V.Encode;
    hide HeaderToPn;
    hide Plaintext;
    match s.space {
      case Initial =>
        var h := HeaderToPn(INITIAL, dcid, scid, s.crypto);
        TrySealWorks(h, s.pn, Plaintext(INITIAL, dcid, scid, s.crypto), keys);
      case Handshake =>
        var h := HeaderToPn(HANDSHAKE, dcid, scid, s.crypto);
        TrySealWorks(h, s.pn, Plaintext(HANDSHAKE, dcid, scid, s.crypto), keys);
      case OneRtt => TrySealWorks(ShortHeaderToPn(dcid), s.pn, CryptoPayload(s.crypto), keys);
    }
  }

  /** Sending halts the run exactly when the packet does not fit, when the Initial builder's key entry has
      seen its number, or when the suite fails; and it panics in Initial space and where nothing fits. */
  lemma SendHaltsIff(c: Client, space: Space, crypto: seq<byte>, keys: DirectionalKeys)
    requires c.halt.None?
    ensures var r, fits := Send(c, space, crypto, keys), Fits(space, c.dcid, c.scid, crypto);
            var stale := space == Initial && !K.Fresh(c.initialLast, c.initialPn);
            && (keys.Valid() ==> (r.halt.Some? <==> !fits || stale))
            && (!fits || stale ==> r.halt.Some?)
            && (r.halt.Some? ==> r.halt == Some(Halt(space, space == Initial || !fits)))
  {
    hide Fits;
    hide Assemble;
    hide DirectionalKeys.Valid;
    if keys.Valid() && Fits(space, c.dcid, c.scid, crypto) {
      AssembleWorks(Sent(space, NextPn(c, space), crypto), c.dcid, c.scid, keys);
    }
  }

  lemma SendWorks(c: Client, space: Space, crypto: seq<byte>, keys: DirectionalKeys)
    requires space != Initial && keys.Valid() && |crypto| < U32 && c.halt.None?
    ensures Send(c, space, crypto, keys).halt.None?
  {
    hide Send;
    SmallFits(space, c.dcid, c.scid, crypto);
    SendHaltsIff(c, space, crypto, keys);
  }

  lemma SmallFits(space: Space, dcid: seq<byte>, scid: seq<byte>, crypto: seq<byte>)
    requires space != Initial && |crypto| < U32
    ensures Fits(space, dcid, scid, crypto)
  {
    hide HeaderPrefix;
  }

  /** With working suites the sending pump is not halted once the Handshake keys are there. */
  lemma {:induction false} SendingGoesOn(c: Client, trace: seq<Emission>)
    requires c.handshakeKeys.Some? && c.handshakeKeys.value.local.Valid() && c.halt.None? && WorkingTrace(trace)
    ensures Pump(c, trace, Sending).halt.None?
    decreases |trace|
  {
    hide Send;
    hide DirectionalKeys.Valid;
    if trace != [] && !trace[0].Quiet() {
      var e, keys := trace[0], c.handshakeKeys.value.local;
      SendFacts(c, Handshake, e.out, keys);
      SendWorks(c, Handshake, e.out, keys);
      SendingGoesOn(Step(c, e, Sending), trace[1..]);
    }
  }

  /** Every emission fits an Initial packet, should it have to be sent in one. */
  ghost predicate AllFit(c: Client, trace: seq<Emission>) {
    forall i :: 0 <= i < |trace| ==> Fits(Initial, c.dcid, c.scid, trace[i].out)
  }

  /** With working suites neither pump is halted at all, as long as its output fits Initial packets and the
      Initial packet numbers have not run out. */
  lemma {:induction false} PumpGoesOn(c: Client, trace: seq<Emission>, kind: PumpKind)
    requires c.halt.None? && WorkingTrace(trace) && AllFit(c, trace) && c.initialKeys.Valid()
    requires c.handshakeKeys.Some? ==> c.handshakeKeys.value.local.Valid()
    requires K.Fresh(c.initialLast, c.initialPn) && c.initialPn + |trace| < U64
    ensures Pump(c, trace, kind).halt.None?
    decreases |trace|
  {
    hide Step;
    hide Fits;
    hide DirectionalKeys.Valid;
    if trace != [] && !trace[0].Quiet() {
      StepGoesOn(c, trace[0], kind);
      PumpGoesOn(Step(c, trace[0], kind), trace[1..], kind);
    }
  }

  lemma StepGoesOn(c: Client, e: Emission, kind: PumpKind)
    requires c.halt.None? && WorkingTrace([e]) && Fits(Initial, c.dcid, c.scid, e.out) && c.initialKeys.Valid()
    requires c.handshakeKeys.Some? ==> c.handshakeKeys.value.local.Valid()
    requires K.Fresh(c.initialLast, c.initialPn) && c.initialPn + 1 < U64
    ensures var r := Step(c, e, kind);
            && r.halt.None? && SameClient(r, c) && K.Fresh(r.initialLast, r.initialPn) && r.initialPn <= c.initialPn + 1
            && (r.handshakeKeys.Some? ==> r.handshakeKeys.value.local.Valid())
  {
    hide Send;
    hide Fits;
    hide Assemble;
    hide DirectionalKeys.Valid;
    assert [e][0] == e;
    if e.out != [] && c.handshakeKeys.None? {
      SendFacts(c, Initial, e.out, c.initialKeys);
      SendHaltsIff(c, Initial, e.out, c.initialKeys);
      SendInitialFresh(c, e.out);
    } else if e.out != [] && c.oneRttKeys.None? && kind == Sending {
      SendFacts(c, Handshake, e.out, c.handshakeKeys.value.local);
      SendWorks(c, Handshake, e.out, c.handshakeKeys.value.local);
      SendInitialLast(c, e.out);
    }
  }

  lemma SendInitialFresh(c: Client, out: seq<byte>)
    requires c.initialPn + 1 < U64
    ensures var r := Send(c, Initial, out, c.initialKeys);
            r.halt.None? && c.halt.None? ==> K.Fresh(r.initialLast, r.initialPn) && r.initialPn == c.initialPn + 1
  {
    hide Fits;
    hide Assemble;
  }

  /** Whether the engine hands over 1-RTT keys before it falls quiet. */
  function HandsOverOneRtt(trace: seq<Emission>): (r: bool)
    decreases |trace|
  {
    trace != [] && !trace[0].Quiet()
    && ((trace[0].change.Some? && trace[0].change.value.ToOneRtt?) || HandsOverOneRtt(trace[1..]))
  }

  lemma {:induction false} OneRttInstalled(c: Client, trace: seq<Emission>, kind: PumpKind)
    requires c.halt.None? && Pump(c, trace, kind).halt.None?
    ensures Pump(c, trace, kind).oneRttKeys.Some? <==> c.oneRttKeys.Some? || HandsOverOneRtt(trace)
    decreases |trace|
  {
    hide Send;
    hide Fits;
    hide Assemble;
    if trace != [] && !trace[0].Quiet() {
      SendFacts(c, Initial, trace[0].out, c.initialKeys);
      if c.handshakeKeys.Some? { SendFacts(c, Handshake, trace[0].out, c.handshakeKeys.value.local); }
      if Step(c, trace[0], kind).halt.None? { OneRttInstalled(Step(c, trace[0], kind), trace[1..], kind); }
    }
  }

  /** Every packet recorded as sent is on the wire as the bytes its suite built for it. */
  ghost predicate OnWire(c: Client) {
    && |c.wire| == |c.sent|
    && forall i :: 0 <= i < |c.sent| ==>
         && Fits(c.sent[i].space, c.dcid, c.scid, c.sent[i].crypto)
         && Assemble(c.sent[i], c.dcid, c.scid, c.wire[i].keys) == Some(c.wire[i].bytes)
         && (c.sent[i].space == Initial ==> c.wire[i].keys == c.initialKeys)
  }

  /** Every packet of the number space carries data. */
  ghost predicate NonEmpty(sent: seq<Sent>, space: Space) {
    forall i :: 0 <= i < |sent| && sent[i].space == space ==> sent[i].crypto != []
  }

  /** What identifies the client. */
  ghost predicate SameClient(c: Client, d: Client) {
    c.dcid == d.dcid && c.scid == d.scid && c.initialKeys == d.initialKeys
  }

  lemma SendOnWire(c: Client, space: Space, crypto: seq<byte>, keys: DirectionalKeys)
    requires c.halt.None? && (space == Initial ==> keys == c.initialKeys)
    ensures OnWire(c) ==> OnWire(Send(c, space, crypto, keys))
  {
    hide Send;
    hide Fits;
    hide Assemble;
    SendFacts(c, space, crypto, keys);
  }

  /** No 1-RTT packet comes before 1-RTT keys, and only Initial packets follow one. */
  ghost predicate OneRttLast(c: Client) {
    && (forall i :: 0 <= i < |c.sent| && c.sent[i].space == OneRtt ==> c.oneRttKeys.Some?)
    && (forall i, j :: 0 <= i < j < |c.sent| && c.sent[i].space == OneRtt ==> c.sent[j].space == Initial)
  }

  /** A step sends in no space but Initial and Handshake, and the discarding pump only in Initial. */
  lemma StepSpaces(c: Client, e: Emission, kind: PumpKind)
    requires c.halt.None?
    ensures var r := Step(c, e, kind);
            && InSpace(r.sent, OneRtt) == InSpace(c.sent, OneRtt)
            && (kind == Discarding ==> InSpace(r.sent, Handshake) == InSpace(c.sent, Handshake))
            && (c.handshakeKeys.Some? ==> r.handshakeKeys.Some?) && (c.oneRttKeys.Some? ==> r.oneRttKeys.Some?)
            && (OneRttLast(c) ==> OneRttLast(r)) && (OnWire(c) ==> OnWire(r)) && SameClient(r, c)
            && (forall x :: NonEmpty(c.sent, x) ==> NonEmpty(r.sent, x))
  {
    hide InSpace;
    hide Send;
    hide OneRttLast;
    hide OnWire;
    hide NonEmpty;
    if e.out != [] && c.handshakeKeys.None? {
      SendSpaces(c, Initial, e.out, c.initialKeys);
    } else if e.out != [] && c.oneRttKeys.None? && kind == Sending {
      SendSpaces(c, Handshake, e.out, c.handshakeKeys.value.local);
    }
    InstallKeeps(Route(c, e.out, kind), e.change);
  }

  lemma SendSpaces(c: Client, space: Space, crypto: seq<byte>, keys: DirectionalKeys)
    requires c.halt.None? && crypto != [] && space != OneRtt && (space == Initial ==> keys == c.initialKeys)
    requires space == Handshake ==> c.oneRttKeys.None?
    ensures var r := Send(c, space, crypto, keys);
            && InSpace(r.sent, OneRtt) == InSpace(c.sent, OneRtt)
            && (space != Handshake ==> InSpace(r.sent, Handshake) == InSpace(c.sent, Handshake))
            && r.handshakeKeys == c.handshakeKeys && r.oneRttKeys == c.oneRttKeys
            && (OneRttLast(c) ==> OneRttLast(r)) && (OnWire(c) ==> OnWire(r)) && SameClient(r, c)
            && (forall x :: NonEmpty(c.sent, x) ==> NonEmpty(r.sent, x))
  {
    hide InSpace;
    hide Send;
    hide OnWire;
    SendFacts(c, space, crypto, keys);
    SendOnWire(c, space, crypto, keys);
    InSpaceAppend(c.sent, Sent(space, NextPn(c, space), crypto), OneRtt);
    InSpaceAppend(c.sent, Sent(space, NextPn(c, space), crypto), Handshake);
  }

  lemma InstallKeeps(c: Client, change: Option<KeyChange>)
    ensures var r := Install(c, change);
            && r.sent == c.sent && r.wire == c.wire
            && (c.handshakeKeys.Some? ==> r.handshakeKeys.Some?) && (c.oneRttKeys.Some? ==> r.oneRttKeys.Some?)
            && (OneRttLast(c) ==> OneRttLast(r)) && (OnWire(c) ==> OnWire(r)) && SameClient(r, c)
            && (forall x :: NonEmpty(c.sent, x) ==> NonEmpty(r.sent, x))
  {
    hide Fits;
    hide Assemble;
  }

  lemma {:induction false} PumpSpaces(c: Client, trace: seq<Emission>, kind: PumpKind)
    ensures var r := Pump(c, trace, kind);
            && InSpace(r.sent, OneRtt) == InSpace(c.sent, OneRtt)
            && (kind == Discarding ==> InSpace(r.sent, Handshake) == InSpace(c.sent, Handshake))
            && (c.handshakeKeys.Some? ==> r.handshakeKeys.Some?) && (c.oneRttKeys.Some? ==> r.oneRttKeys.Some?)
            && (OneRttLast(c) ==> OneRttLast(r)) && (OnWire(c) ==> OnWire(r)) && SameClient(r, c)
            && (forall x :: NonEmpty(c.sent, x) ==> NonEmpty(r.sent, x))
    decreases |trace|
  {
    hide InSpace;
    hide Step;
    hide OneRttLast;
    hide OnWire;
    hide NonEmpty;
    if trace != [] && !trace[0].Quiet() && c.halt.None? {
      StepSpaces(c, trace[0], kind);
      PumpSpaces(Step(c, trace[0], kind), trace[1..], kind);
    }
  }

  // ---------------------------------------------------------------------------------------
  // Reading the wire
  // ---------------------------------------------------------------------------------------

  /** What the receiver of a packet makes of its bytes with the suite that sealed it. */
  ghost predicate Readable(s: Sent, w: Wired, dcid: seq<byte>, scid: seq<byte>)
    requires Fits(s.space, dcid, scid, s.crypto)
  {
    if s.space == OneRtt then OpenShort(w.bytes, |dcid|, w.keys) == Ok(Opened(s.pn, CryptoPayload(s.crypto)))
    else
      var packetType := if s.space == Initial then INITIAL else HANDSHAKE;
      var h := ParseLongHeader(w.bytes);
      && h.Some? && h.value.packetType == packetType && h.value.dcid == dcid && h.value.scid == scid
      && h.value.payloadOffset + h.value.length == |w.bytes|
      && OpenLong(w.bytes, h.value, w.keys) == Ok(Opened(s.pn, Plaintext(packetType, dcid, scid, s.crypto)))
  }

  /** An assembled packet opens, under a suite that works, to its packet number and CRYPTO data. */
  lemma AssembledReadable(s: Sent, w: Wired, dcid: seq<byte>, scid: seq<byte>)
    requires Fits(s.space, dcid, scid, s.crypto) && Assemble(s, dcid, scid, w.keys) == Some(w.bytes)
    requires w.keys.Valid() && s.pn < U32 && |dcid| <= MAX_CID_LEN && |scid| <= MAX_CID_LEN
    ensures Readable(s, w, dcid, scid)
  {
    hide TrySeal;
    hide SealNumbered;
    hide ParseLongHeader;
    hide OpenLong;
    hide OpenShort;
    hide CryptoPayload;
    hide Plaintext;
    hide HeaderToPn;
    hide DirectionalKeys.Valid;
    assert w.bytes + [] == w.bytes;
    if s.space == OneRtt {
      TrySealWorks(ShortHeaderToPn(dcid), s.pn, CryptoPayload(s.crypto), w.keys);
      BuiltShortRoundTrip(dcid, s.pn, CryptoPayload(s.crypto), w.keys);
    } else {
      var t := if s.space == Initial then INITIAL else HANDSHAKE;
      TrySealWorks(HeaderToPn(t, dcid, scid, s.crypto), s.pn, Plaintext(t, dcid, scid, s.crypto), w.keys);
      BuiltRoundTrip(t, dcid, scid, s.pn, s.crypto, w.keys, []);
    }
  }

  /** What a receiver that honours CRYPTO offsets makes of a datagram: the number space its bytes announce,
      the packet number and the CRYPTO frames. */
  datatype Seen = Seen(space: Space, pn: nat, frames: seq<F.Frame>)

  ghost function See(w: Wired, cidLength: nat): (r: Option<Seen>) {
    var h := ParseLongHeader(w.bytes);
    var result := if h.Some? then OpenLong(w.bytes, h.value, w.keys) else OpenShort(w.bytes, cidLength, w.keys);
    if result.Err? then None
    else
      match ReadCrypto(result.value.plaintext)
      case None => None
      case Some(frames) => Some(Seen(Announced(h), result.value.pn, frames))
  }

  function Announced(h: Option<LongHeader>): (r: Space) {
    if h.None? then OneRtt else if h.value.packetType == INITIAL then Initial else Handshake
  }

  /** A packet as sent: that is one CRYPTO frame with all the data, at offset 0, in the right space. */
  lemma AssembledSeen(s: Sent, w: Wired, dcid: seq<byte>, scid: seq<byte>)
    requires Fits(s.space, dcid, scid, s.crypto) && Assemble(s, dcid, scid, w.keys) == Some(w.bytes)
    requires w.keys.Valid() && s.pn < U32 && |dcid| <= MAX_CID_LEN && |scid| <= MAX_CID_LEN
    ensures See(w, |dcid|) == Some(Seen(s.space, s.pn, [F.Crypto(0, s.crypto)]))
  {
    hide Assemble;
    hide ParseLongHeader;
    hide OpenLong;
    hide OpenShort;
    hide CryptoPayload;
    hide Plaintext;
    hide HeaderPrefix;
    hide ReadCrypto;
    hide DirectionalKeys.Valid;
    AssembledReadable(s, w, dcid, scid);
    SpaceOnWire(s, w, dcid, scid);
    BuiltFrames(if s.space == Initial then INITIAL else HANDSHAKE, dcid, scid, s.crypto);
  }

  /** An observer tells a packet's number space from its bytes alone, without any key. */
  lemma SpaceOnWire(s: Sent, w: Wired, dcid: seq<byte>, scid: seq<byte>)
    requires Fits(s.space, dcid, scid, s.crypto) && Assemble(s, dcid, scid, w.keys) == Some(w.bytes)
    requires w.keys.Valid() && |dcid| <= MAX_CID_LEN && |scid| <= MAX_CID_LEN
    ensures s.space == Announced(ParseLongHeader(w.bytes))
  {
    hide TrySeal;
    hide ProtectPacket;
    hide OpenLong;
    hide CryptoPayload;
    hide Plaintext;
    hide HeaderToPn;
    hide DirectionalKeys.Valid;
    assert w.bytes + [] == w.bytes;
    if s.space == OneRtt {
      TrySealWorks(ShortHeaderToPn(dcid), s.pn, CryptoPayload(s.crypto), w.keys);
      BuiltShortRoundTrip(dcid, s.pn, CryptoPayload(s.crypto), w.keys);
    } else {
      var t := if s.space == Initial then INITIAL else HANDSHAKE;
      TrySealWorks(HeaderToPn(t, dcid, scid, s.crypto), s.pn, Plaintext(t, dcid, scid, s.crypto), w.keys);
      BuiltRoundTrip(t, dcid, scid, s.pn, s.crypto, w.keys, []);
    }
  }
}
