/**
 The handshake drivers on datagram bytes: the plain one, and the one that injects an adversarial
 packet. A datagram is walked, opened with the keys at hand (pumping the engine first when a
 Handshake packet arrives ahead of its keys), and scanned into the engine. The network is
 arbitrary: any list of datagrams and receive timeouts.
 */
module Driver {
  import opened Bytes
  import opened Protection
  import opened Packets
  import opened Coalesced
  import opened Handshake
  import F = Frames

  datatype Epoch = AtHandshake | AtOneRtt

  /** `drive_handshake_full` or `drive_handshake_with_injection`. */
  datatype Mode = Plain | Injecting(epoch: Epoch, bytes: seq<byte>)

  /** The connection's identifiers and Initial keys, the engine and the mode. */
  datatype Setup = Setup(dcid: seq<byte>, scid: seq<byte>, initial: Keys, tls: Tls, mode: Mode) {
    function Kind(): PumpKind {
      if mode.Injecting? && mode.epoch == AtHandshake then Discarding else Sending
    }
  }

  datatype Verdict =
    | LoopLeft
    | NoHello | EarlyKeys | Panicked
    | MalformedHeader | NoHandshakeKeys | OpenFailed(open: OpenError) | ScanFailed(scan: F.ScanError)
    | Closed(cc: F.ConnectionClose)
    | NotReady | SealFailed(space: Space)

  datatype Status = Running | Over(verdict: Verdict)

  datatype Session = Session(client: Client, history: seq<Event>, injected: bool, status: Status)

  /** One result of `recv_from`. */
  datatype Input = Timeout | Received(datagram: seq<byte>)

  // ---------------------------------------------------------------------------------------
  // One datagram
  // ---------------------------------------------------------------------------------------

  function Feds(chunks: seq<seq<byte>>): (r: seq<Event>)
    decreases |chunks|
  {
    if chunks == [] then [] else [Fed(chunks[0])] + Feds(chunks[1..])
  }

  /** The engine as the scanner meets it after these calls. */
  function Listening(tls: Tls, h: seq<Event>): F.Engine {
    (fed, chunk) => tls.accepts(h + Feds(fed), chunk)
  }

  function PumpSession(s: Session, setup: Setup): (r: Session)
    requires setup.tls.Valid()
  {
    var p := PumpEngine(s.client, setup.tls, s.history, setup.Kind());
    s.(client := p.client, history := p.history, status := Ending(p.client, s.status))
  }

  /** A packet that could not be built ends the run. */
  function Ending(c: Client, status: Status): (r: Status) {
    match c.halt
    case None => status
    case Some(h) => Over(if h.panicked then Panicked else SealFailed(h.space))
  }

  /** Scan a decrypted payload into the engine. */
  function Hear(s: Session, plaintext: seq<byte>, setup: Setup): (r: Session) {
    var scan := F.ScanFull(plaintext, Listening(setup.tls, s.history), []);
    var s' := s.(history := s.history + Feds(scan.fed));
    match scan.outcome
    case Closed(cc) => s'.(status := Over(Closed(cc)))
    case Failed(e) => s'.(status := Over(ScanFailed(e)))
    case Quiet => s'
  }

  function Open(s: Session, p: Slice, keys: DirectionalKeys, setup: Setup): (r: Session) {
    match OpenLong(p.bytes, p.header, keys)
    case Err(e) => s.(status := Over(OpenFailed(e)))
    case Ok(o) => Hear(s, o.plaintext, setup)
  }

  /** One packet; 0-RTT and Retry packets are skipped. */
  function Process(s: Session, p: Slice, setup: Setup): (r: Session)
    requires setup.tls.Valid()
  {
    if p.header.packetType == INITIAL then Open(s, p, setup.initial.remote, setup)
    else if p.header.packetType != HANDSHAKE then s
    else
      var s' := if s.client.handshakeKeys.None? then PumpSession(s, setup) else s;
      if s'.status.Over? then s'
      else if s'.client.handshakeKeys.None? then s'.(status := Over(NoHandshakeKeys))
      else Open(s', p, s'.client.handshakeKeys.value.remote, setup)
  }

  function ProcessAll(s: Session, packets: seq<Slice>, setup: Setup): (r: Session)
    requires setup.tls.Valid()
    decreases |packets|
  {
    if packets == [] || s.status.Over? then s else ProcessAll(Process(s, packets[0], setup), packets[1..], setup)
  }

  function Receive(s: Session, datagram: seq<byte>, setup: Setup): (r: Session)
    requires setup.tls.Valid()
  {
    var w := Walk(datagram);
    var s' := ProcessAll(s, w.packets, setup);
    if s'.status.Running? && w.end == Malformed then s'.(status := Over(MalformedHeader)) else s'
  }

  // ---------------------------------------------------------------------------------------
  // The loop
  // ---------------------------------------------------------------------------------------

  /** `inject_now` and, if it succeeds, the flag set after it. */
  function Inject(s: Session, epoch: Epoch, bytes: seq<byte>): (r: Session) {
    var c := s.client;
    var keys := if epoch == AtHandshake then c.handshakeKeys else c.oneRttKeys;
    if keys.None? then s.(status := Over(NotReady))
    else
      var c' := Send(c, if epoch == AtHandshake then Handshake else OneRtt, bytes, keys.value.local);
      s.(client := c', injected := s.injected || c'.halt.None?, status := Ending(c', s.status))
  }

  predicate Ready(c: Client, mode: Mode) {
    mode.Injecting? && if mode.epoch == AtHandshake then c.handshakeKeys.Some? else c.oneRttKeys.Some?
  }

  function InjectIfReady(s: Session, setup: Setup): (r: Session) {
    if !s.injected && Ready(s.client, setup.mode) then Inject(s, setup.mode.epoch, setup.mode.bytes) else s
  }

  /** The test at the head of the loop. */
  predicate Leaves(s: Session, setup: Setup) {
    !setup.tls.handshaking(s.history) && (setup.mode.Plain? || s.injected)
  }

  function Advance(s: Session, input: Input, setup: Setup): (r: Session)
    requires setup.tls.Valid()
  {
    if s.status.Over? then s
    else if Leaves(s, setup) then s.(status := Over(LoopLeft))
    else
      match input
      case Timeout =>
        if setup.mode.Plain? then s.(status := Over(LoopLeft))
        else if !s.injected && s.client.handshakeKeys.Some? then Inject(s, setup.mode.epoch, setup.mode.bytes)
        else s
      case Received(datagram) =>
        var s' := Receive(s, datagram, setup);
        if s'.status.Over? then s'
        else
          var s'' := PumpSession(s', setup);
          if s''.status.Over? then s'' else InjectIfReady(s'', setup)
  }

  function NewClient(setup: Setup): (r: Client) {
    Client(setup.dcid, setup.scid, setup.initial.local, None, None, None, 0, 0, 0, [], [], None)
  }

  /** The first flight: the ClientHello in an Initial with packet number 0. */
  function Start(setup: Setup): (r: Session) {
    var e := setup.tls.write([]);
    var c := NewClient(setup);
    if e.out == [] then Session(c, [Drained], false, Over(NoHello))
    else if e.change.Some? then Session(c, [Drained], false, Over(EarlyKeys))
    else
      var c' := Send(c, Initial, e.out, setup.initial.local);
      Session(c', [Drained], false, Ending(c', Running))
  }

  function Run(inputs: seq<Input>, setup: Setup): (r: Session)
    requires setup.tls.Valid()
  {
    if inputs == [] then Start(setup)
    else Advance(Run(inputs[..|inputs| - 1], setup), inputs[|inputs| - 1], setup)
  }

  // ---------------------------------------------------------------------------------------
  // Safety over every run
  // ---------------------------------------------------------------------------------------

  /** The n-th call on the engine was a `write_hs` that reported this change. */
  ghost predicate HandedAt(tls: Tls, h: seq<Event>, n: nat, k: KeyChange) {
    n < |h| && h[n].Drained? && tls.write(h[..n]).change == Some(k)
  }

  ghost predicate Handed(tls: Tls, h: seq<Event>, k: KeyChange) {
    exists n: nat :: HandedAt(tls, h, n, k)
  }

  /** This suite is the local half of keys the engine handed over for that number space. */
  ghost predicate Supplied(tls: Tls, h: seq<Event>, space: Space, suite: DirectionalKeys) {
    exists keys: Keys :: keys.local == suite && Handed(tls, h, ChangeTo(space, keys))
  }

  function ChangeTo(space: Space, keys: Keys): KeyChange {
    if space == Handshake then ToHandshake(keys) else ToOneRtt(keys)
  }

  /** The client uses no keys but its own Initial ones and those the engine handed over. */
  ghost predicate FromEngine(c: Client, tls: Tls, h: seq<Event>) {
    && (c.handshakeKeys.Some? ==> Handed(tls, h, ToHandshake(c.handshakeKeys.value)))
    && (c.oneRttKeys.Some? ==> Handed(tls, h, ToOneRtt(c.oneRttKeys.value)))
    && |c.sent| == |c.wire|
    && forall i :: 0 <= i < |c.sent| && c.sent[i].space != Initial ==> Supplied(tls, h, c.sent[i].space, c.wire[i].keys)
  }

  lemma HandedLater(tls: Tls, h: seq<Event>, more: seq<Event>, k: KeyChange)
    requires Handed(tls, h, k)
    ensures Handed(tls, h + more, k)
  {
    var n: nat :| HandedAt(tls, h, n, k);
    assert (h + more)[..n] == h[..n];
    assert HandedAt(tls, h + more, n, k);
  }

  lemma SuppliedLater(tls: Tls, h: seq<Event>, more: seq<Event>, space: Space, suite: DirectionalKeys)
    requires Supplied(tls, h, space, suite)
    ensures Supplied(tls, h + more, space, suite)
  {
    hide Handed;
    var keys: Keys :| keys.local == suite && Handed(tls, h, ChangeTo(space, keys));
    HandedLater(tls, h, more, ChangeTo(space, keys));
  }

  lemma FromEngineLater(c: Client, tls: Tls, h: seq<Event>, more: seq<Event>)
    requires FromEngine(c, tls, h)
    ensures FromEngine(c, tls, h + more)
  {
    hide Handed;
    hide Supplied;
    if c.handshakeKeys.Some? { HandedLater(tls, h, more, ToHandshake(c.handshakeKeys.value)); }
    if c.oneRttKeys.Some? { HandedLater(tls, h, more, ToOneRtt(c.oneRttKeys.value)); }
    forall i | 0 <= i < |c.sent| && c.sent[i].space != Initial
      ensures Supplied(tls, h + more, c.sent[i].space, c.wire[i].keys)
    {
      SuppliedLater(tls, h, more, c.sent[i].space, c.wire[i].keys);
    }
  }

  lemma SendFrom(c: Client, space: Space, crypto: seq<byte>, keys: DirectionalKeys, tls: Tls, h: seq<Event>)
    requires FromEngine(c, tls, h) && c.halt.None? && (space != Initial ==> Supplied(tls, h, space, keys))
    ensures FromEngine(Send(c, space, crypto, keys), tls, h)
  {
    hide Handed;
    hide Supplied;
    hide Send;
    hide Fits;
    hide Assemble;
    SendFacts(c, space, crypto, keys);
  }

  lemma RouteFrom(c: Client, out: seq<byte>, kind: PumpKind, tls: Tls, h: seq<Event>)
    requires FromEngine(c, tls, h) && c.halt.None?
    ensures FromEngine(Route(c, out, kind), tls, h)
  {
    hide Handed;
    hide Send;
    if out != [] && c.handshakeKeys.None? {
      SendFrom(c, Initial, out, c.initialKeys, tls, h);
    } else if out != [] && c.oneRttKeys.None? && kind == Sending {
      SendFrom(c, Handshake, out, c.handshakeKeys.value.local, tls, h);
    }
  }

  lemma StepFrom(c: Client, kind: PumpKind, tls: Tls, h: seq<Event>)
    requires FromEngine(c, tls, h) && c.halt.None?
    ensures FromEngine(Step(c, tls.write(h), kind), tls, h + [Drained])
  {
    hide Route;
    hide Supplied;
    var e := tls.write(h);
    RouteFrom(c, e.out, kind, tls, h);
    FromEngineLater(Route(c, e.out, kind), tls, h, [Drained]);
    if e.change.Some? {
      assert (h + [Drained])[..|h|] == h;
      assert HandedAt(tls, h + [Drained], |h|, e.change.value);
    }
  }

  lemma {:induction false} PumpFrom(c: Client, tls: Tls, h: seq<Event>, kind: PumpKind)
    requires tls.Valid() && FromEngine(c, tls, h) && c.halt.None?
    ensures var p := PumpEngine(c, tls, h, kind); FromEngine(p.client, tls, p.history)
    decreases tls.backlog(h)
  {
    hide FromEngine;
    hide Step;
    FromEngineLater(c, tls, h, [Drained]);
    StepFrom(c, kind, tls, h);
    if !tls.write(h).Quiet() && Step(c, tls.write(h), kind).halt.None? {
      PumpFrom(Step(c, tls.write(h), kind), tls, h + [Drained], kind);
    }
  }

  /** What the injection adds to the wire, and nothing besides. */
  ghost predicate OnlyInjection(sent: seq<Sent>, injected: bool, mode: Mode) {
    match mode
    case Plain => !injected && InSpace(sent, OneRtt) == []
    case Injecting(AtHandshake, bytes) =>
      && InSpace(sent, Handshake) == (if injected then [Sent(Handshake, 0, bytes)] else [])
      && InSpace(sent, OneRtt) == []
    case Injecting(AtOneRtt, bytes) =>
      InSpace(sent, OneRtt) == if injected then [Sent(OneRtt, 0, bytes)] else []
  }

  /** No packet is empty, except an injected one. */
  ghost predicate AllCarry(sent: seq<Sent>, mode: Mode) {
    && NonEmpty(sent, Initial)
    && (mode.Plain? || mode.epoch == AtOneRtt ==> NonEmpty(sent, Handshake))
  }

  /** Packet numbers, the injected packet and its place, and the bytes of every packet, wherever the
      session stands. */
  ghost predicate Steady(s: Session, setup: Setup) {
    && WellNumbered(s.client) && OneRttLast(s.client) && OnWire(s.client) && AllCarry(s.client.sent, setup.mode)
    && OnlyInjection(s.client.sent, s.injected, setup.mode) && FromEngine(s.client, setup.tls, s.history)
    && s.client.dcid == setup.dcid && s.client.scid == setup.scid && s.client.initialKeys == setup.initial.local
    && (s.status.Running? ==> s.client.halt.None?)
  }

  /** Holds whenever the loop comes round: a session whose keys are ready has already injected. */
  ghost predicate Inv(s: Session, setup: Setup) {
    Steady(s, setup) && (s.status.Running? && Ready(s.client, setup.mode) ==> s.injected)
  }

  lemma PumpSteady(s: Session, setup: Setup)
    requires setup.tls.Valid() && Steady(s, setup) && s.status.Running?
    ensures Steady(PumpSession(s, setup), setup) && PumpSession(s, setup).injected == s.injected
  {
    hide WellNumbered;
    hide OneRttLast;
    hide OnWire;
    hide NonEmpty;
    hide FromEngine;
    hide PumpEngine;
    hide Pump;
    hide Trace;
    hide InSpace;
    PumpFrom(s.client, setup.tls, s.history, setup.Kind());
    PumpIsTrace(s.client, setup.tls, s.history, setup.Kind());
    PumpKeepsNumbers(s.client, Trace(setup.tls, s.history), setup.Kind());
    PumpSpaces(s.client, Trace(setup.tls, s.history), setup.Kind());
  }

  /** Opening and scanning send nothing. */
  lemma OpenSteady(s: Session, p: Slice, keys: DirectionalKeys, setup: Setup)
    requires Steady(s, setup)
    ensures Steady(Open(s, p, keys, setup), setup) && Open(s, p, keys, setup).injected == s.injected
  {
    hide OpenLong;
    hide F.ScanFull;
    hide WellNumbered;
    hide OneRttLast;
    hide OnWire;
    hide NonEmpty;
    hide FromEngine;
    hide OnlyInjection;
    var r := OpenLong(p.bytes, p.header, keys);
    if r.Ok? {
      var scan := F.ScanFull(r.value.plaintext, Listening(setup.tls, s.history), []);
      FromEngineLater(s.client, setup.tls, s.history, Feds(scan.fed));
    }
  }

  lemma ProcessSteady(s: Session, p: Slice, setup: Setup)
    requires setup.tls.Valid() && Steady(s, setup) && s.status.Running?
    ensures Steady(Process(s, p, setup), setup) && Process(s, p, setup).injected == s.injected
  {
    hide Open;
    hide PumpSession;
    hide WellNumbered;
    hide OneRttLast;
    hide OnWire;
    hide NonEmpty;
    hide FromEngine;
    hide OnlyInjection;
    if p.header.packetType == INITIAL {
      OpenSteady(s, p, setup.initial.remote, setup);
    } else if p.header.packetType == HANDSHAKE {
      PumpSteady(s, setup);
      var s' := if s.client.handshakeKeys.None? then PumpSession(s, setup) else s;
      if s'.client.handshakeKeys.Some? { OpenSteady(s', p, s'.client.handshakeKeys.value.remote, setup); }
    }
  }

  lemma {:induction false} ProcessAllSteady(s: Session, packets: seq<Slice>, setup: Setup)
    requires setup.tls.Valid() && Steady(s, setup)
    ensures Steady(ProcessAll(s, packets, setup), setup) && ProcessAll(s, packets, setup).injected == s.injected
    decreases |packets|
  {
    hide Process;
    hide Steady;
    if packets != [] && s.status.Running? {
      ProcessSteady(s, packets[0], setup);
      ProcessAllSteady(Process(s, packets[0], setup), packets[1..], setup);
    }
  }

  lemma {:induction false} NoneInSpace(sent: seq<Sent>, space: Space)
    requires InSpace(sent, space) == []
    ensures forall i :: 0 <= i < |sent| ==> sent[i].space != space
  {
    if sent != [] { NoneInSpace(sent[..|sent| - 1], space); }
  }

  lemma InjectSteady(s: Session, setup: Setup)
    requires Steady(s, setup) && s.status.Running? && !s.injected && Ready(s.client, setup.mode)
    ensures var r := Inject(s, setup.mode.epoch, setup.mode.bytes);
            Steady(r, setup) && (r.status.Running? ==> r.injected)
  {
    hide InSpace;
    hide Send;
    hide WellNumbered;
    hide OneRttLast;
    hide OnWire;
    hide NonEmpty;
    hide FromEngine;
    hide Fits;
    hide Assemble;
    var c, bytes := s.client, setup.mode.bytes;
    var space := if setup.mode.epoch == AtHandshake then Handshake else OneRtt;
    var keys := (if setup.mode.epoch == AtHandshake then c.handshakeKeys else c.oneRttKeys).value.local;
    NotYetInjected(s, setup);
    SendFacts(c, space, bytes, keys);
    SendNumbered(c, space, bytes, keys);
    SendOnWire(c, space, bytes, keys);
    InSpaceAppend(c.sent, Sent(space, 0, bytes), Handshake);
    InSpaceAppend(c.sent, Sent(space, 0, bytes), OneRtt);
    InjectOrder(c, space, bytes, keys);
    InjectFrom(s, setup);
  }

  /** Before the injection the space it goes to has been numbered from nothing. */
  lemma NotYetInjected(s: Session, setup: Setup)
    requires Steady(s, setup) && !s.injected && setup.mode.Injecting?
    ensures setup.mode.epoch == AtHandshake ==> s.client.handshakePn == 0
    ensures setup.mode.epoch == AtOneRtt ==> s.client.oneRttPn == 0
  {
    hide InSpace;
    hide OneRttLast;
    hide OnWire;
    hide NonEmpty;
    hide FromEngine;
  }

  /** The injected packet keeps the order, and empties no space but its own. */
  lemma InjectOrder(c: Client, space: Space, crypto: seq<byte>, keys: DirectionalKeys)
    requires c.halt.None? && OneRttLast(c) && space != Initial && InSpace(c.sent, OneRtt) == []
    requires space == OneRtt ==> c.oneRttKeys.Some?
    ensures var r := Send(c, space, crypto, keys);
            OneRttLast(r) && forall x :: x != space && NonEmpty(c.sent, x) ==> NonEmpty(r.sent, x)
  {
    hide Send;
    hide InSpace;
    hide Fits;
    hide Assemble;
    NoneInSpace(c.sent, OneRtt);
    SendFacts(c, space, crypto, keys);
  }

  lemma InjectFrom(s: Session, setup: Setup)
    requires FromEngine(s.client, setup.tls, s.history) && s.client.halt.None? && Ready(s.client, setup.mode)
    ensures var r := Inject(s, setup.mode.epoch, setup.mode.bytes); FromEngine(r.client, setup.tls, r.history)
  {
    hide Handed;
    hide Send;
    var c := s.client;
    if setup.mode.epoch == AtHandshake {
      SendFrom(c, Handshake, setup.mode.bytes, c.handshakeKeys.value.local, setup.tls, s.history);
    } else {
      SendFrom(c, OneRtt, setup.mode.bytes, c.oneRttKeys.value.local, setup.tls, s.history);
    }
  }

  lemma AdvanceInv(s: Session, input: Input, setup: Setup)
    requires setup.tls.Valid() && Inv(s, setup)
    ensures Inv(Advance(s, input, setup), setup)
  {
    hide Steady;
    hide ProcessAll;
    hide PumpSession;
    hide Inject;
    hide Walk;
    if s.status.Running? && !Leaves(s, setup) {
      if input.Received? {
        ProcessAllSteady(s, Walk(input.datagram).packets, setup);
        var s' := ProcessAll(s, Walk(input.datagram).packets, setup);
        SteadyOver(s', MalformedHeader, setup);
        if Receive(s, input.datagram, setup).status.Running? {
          PumpSteady(s', setup);
          var s'' := PumpSession(s', setup);
          if s''.status.Running? && !s''.injected && Ready(s''.client, setup.mode) { InjectSteady(s'', setup); }
        }
      } else {
        SteadyOver(s, LoopLeft, setup);
        TimeoutKeeps(s, setup);
      }
    } else {
      SteadyOver(s, LoopLeft, setup);
    }
  }

  lemma SteadyOver(s: Session, v: Verdict, setup: Setup)
    requires Steady(s, setup)
    ensures Steady(s.(status := Over(v)), setup)
  {
  }

  /** Where a timeout leaves a running session that does not leave the loop anyway. */
  function AfterTimeout(s: Session, setup: Setup): (r: Status) {
    if setup.mode.Plain? then Over(LoopLeft)
    else if setup.mode.epoch == AtOneRtt && s.client.handshakeKeys.Some? && s.client.oneRttKeys.None? && !s.injected
    then Over(NotReady) else Running
  }

  /** The timeout branch finds the packet injected, or its keys missing. */
  lemma TimeoutKeeps(s: Session, setup: Setup)
    requires setup.tls.Valid() && Inv(s, setup) && s.status.Running? && !Leaves(s, setup)
    ensures Advance(s, Timeout, setup) == s.(status := AfterTimeout(s, setup))
    ensures Steady(Advance(s, Timeout, setup), setup)
  {
    hide WellNumbered;
    hide OneRttLast;
    hide OnWire;
    hide NonEmpty;
    hide FromEngine;
    hide OnlyInjection;
  }

  lemma NewClientSteady(setup: Setup)
    ensures var c := NewClient(setup);
            && WellNumbered(c) && OneRttLast(c) && OnWire(c) && AllCarry(c.sent, setup.mode)
            && FromEngine(c, setup.tls, [Drained])
            && InSpace(c.sent, Handshake) == [] && InSpace(c.sent, OneRtt) == []
  {
  }

  lemma StartInv(setup: Setup)
    ensures Inv(Start(setup), setup)
  {
    hide Send;
    hide InSpace;
    hide WellNumbered;
    hide OneRttLast;
    hide OnWire;
    hide NonEmpty;
    hide FromEngine;
    hide Fits;
    hide Assemble;
    var out, c := setup.tls.write([]).out, NewClient(setup);
    NewClientSteady(setup);
    if out != [] {
      SendFacts(c, Initial, out, setup.initial.local);
      SendNumbered(c, Initial, out, setup.initial.local);
      SendSpaces(c, Initial, out, setup.initial.local);
      SendFrom(c, Initial, out, setup.initial.local, setup.tls, [Drained]);
    }
  }

  /** Over every run of the drivers, on any datagrams and with any engine: at most one injected
      packet is ever sent, with packet number 0 and the given bytes; in Handshake mode it is the
      only Handshake-space packet on the wire, so the natural Finished never appears; in 1-RTT mode
      every Handshake-space packet precedes it; every space is numbered from 0 without a gap; and the
      bytes on the wire are those the builders make of these packets. */
  lemma {:induction false} RunInv(inputs: seq<Input>, setup: Setup)
    requires setup.tls.Valid()
    ensures Inv(Run(inputs, setup), setup)
    decreases |inputs|
  {
    hide Inv;
    hide Advance;
    if inputs == [] {
      StartInv(setup);
    } else {
      var n := |inputs| - 1;
      RunInv(inputs[..n], setup);
      AdvanceInv(Run(inputs[..n], setup), inputs[n], setup);
    }
  }

  /** Over every run, every packet sent is on the wire as bytes. They were sealed with the Initial keys or
      with keys the engine handed over for that number space, and in a run of fewer than 2^32 packets a
      peer whose matching suite works opens them to exactly the packet number recorded and one CRYPTO frame
      at offset 0 with the data recorded. */
  lemma DatagramsReadable(inputs: seq<Input>, setup: Setup, i: nat)
    requires setup.tls.Valid() && |setup.dcid| <= MAX_CID_LEN && |setup.scid| <= MAX_CID_LEN
    requires i < |Run(inputs, setup).client.sent|
    ensures var s := Run(inputs, setup);
            var c := s.client;
            && |c.wire| == |c.sent| && Fits(c.sent[i].space, setup.dcid, setup.scid, c.sent[i].crypto)
            && (if c.sent[i].space == Initial then c.wire[i].keys == setup.initial.local
                else Supplied(setup.tls, s.history, c.sent[i].space, c.wire[i].keys))
            && (c.wire[i].keys.Valid() && |c.sent| <= U32 ==>
                  && Readable(c.sent[i], c.wire[i], setup.dcid, setup.scid)
                  && See(c.wire[i], |setup.dcid|)
                     == Some(Seen(c.sent[i].space, c.sent[i].pn, [F.Crypto(0, c.sent[i].crypto)])))
  {
    hide Run;
    hide Supplied;
    hide Readable;
    hide See;
    hide Fits;
    hide Assemble;
    hide WellNumbered;
    hide OneRttLast;
    hide OnlyInjection;
    hide DirectionalKeys.Valid;
    RunInv(inputs, setup);
    var c := Run(inputs, setup).client;
    NumberBelow(c, i);
    if c.wire[i].keys.Valid() && |c.sent| <= U32 {
      AssembledReadable(c.sent[i], c.wire[i], setup.dcid, setup.scid);
      AssembledSeen(c.sent[i], c.wire[i], setup.dcid, setup.scid);
    }
  }

  /** The receive timeout never injects: in every reachable state it sends nothing. It ends a run if and only
      if the loop is left anyway, the driver is the plain one, or a 1-RTT injection waits in the window
      between the Handshake and the 1-RTT keys, although the source's comment expects the packet to be
      pushed there. */
  lemma TimeoutNeverSends(inputs: seq<Input>, setup: Setup)
    requires setup.tls.Valid()
    ensures var s := Run(inputs, setup);
            Run(inputs + [Timeout], setup)
            == if s.status.Over? then s
               else s.(status := if Leaves(s, setup) then Over(LoopLeft) else AfterTimeout(s, setup))
  {
    hide Run;
    hide Steady;
    RunInv(inputs, setup);
    RunStep(inputs, Timeout, setup);
    var s := Run(inputs, setup);
    if s.status.Running? && !Leaves(s, setup) { TimeoutKeeps(s, setup); }
  }

  lemma RunStep(inputs: seq<Input>, input: Input, setup: Setup)
    requires setup.tls.Valid()
    ensures Run(inputs + [input], setup) == Advance(Run(inputs, setup), input, setup)
  {
    hide Advance;
    assert (inputs + [input])[..|inputs|] == inputs;
  }

  /** A run that is over stays as it is. */
  lemma {:induction false} RunStays(inputs: seq<Input>, more: seq<Input>, setup: Setup)
    requires setup.tls.Valid() && Run(inputs, setup).status.Over?
    ensures Run(inputs + more, setup) == Run(inputs, setup)
    decreases |more|
  {
    hide Run;
    if more == [] {
      assert inputs + more == inputs;
    } else {
      var n := |more| - 1;
      RunStays(inputs, more[..n], setup);
      RunStep(inputs + more[..n], more[n], setup);
      assert (inputs + more[..n]) + [more[n]] == inputs + more;
    }
  }

  /** Once the engine has finished its handshake, and the packet to inject is out, the next pass leaves the
      loop, whatever comes in, and sends nothing more. */
  lemma FinishedRunLeaves(inputs: seq<Input>, more: seq<Input>, setup: Setup)
    requires setup.tls.Valid() && Run(inputs, setup).status.Running? && more != []
    requires !setup.tls.handshaking(Run(inputs, setup).history)
    requires setup.mode.Plain? || Run(inputs, setup).injected
    ensures Run(inputs + more, setup) == Run(inputs, setup).(status := Over(LoopLeft))
  {
    hide Run;
    RunStep(inputs, more[0], setup);
    RunStays(inputs + [more[0]], more[1..], setup);
    assert (inputs + [more[0]]) + more[1..] == inputs + more;
  }

  /** A session that has not been taken out of the loop. */
  ghost predicate InLoop(s: Session) {
    s.status != Over(LoopLeft)
  }

  lemma ProcessInLoop(s: Session, p: Slice, setup: Setup)
    requires setup.tls.Valid() && InLoop(s)
    ensures InLoop(Process(s, p, setup))
  {
    hide OpenLong;
    hide F.ScanFull;
    hide PumpEngine;
  }

  lemma {:induction false} ProcessAllInLoop(s: Session, packets: seq<Slice>, setup: Setup)
    requires setup.tls.Valid() && InLoop(s)
    ensures InLoop(ProcessAll(s, packets, setup))
    decreases |packets|
  {
    hide Process;
    if packets != [] && s.status.Running? {
      ProcessInLoop(s, packets[0], setup);
      ProcessAllInLoop(Process(s, packets[0], setup), packets[1..], setup);
    }
  }

  lemma PassInLoop(s: Session, datagram: seq<byte>, setup: Setup)
    requires setup.tls.Valid() && s.status.Running? && !Leaves(s, setup)
    ensures InLoop(Advance(s, Received(datagram), setup))
  {
    hide Walk;
    hide ProcessAll;
    hide PumpEngine;
    hide Send;
    hide Leaves;
    ProcessAllInLoop(s, Walk(datagram).packets, setup);
  }

  /** Over every run, an injecting driver leaves its loop only when the engine has finished the handshake and the
      packet is out; the plain one when the engine has finished or a timeout comes. */
  lemma {:induction false} LoopLeftWhenDone(inputs: seq<Input>, setup: Setup)
    requires setup.tls.Valid() && Run(inputs, setup).status == Over(LoopLeft)
    ensures var s := Run(inputs, setup);
            if setup.mode.Injecting? then s.injected && !setup.tls.handshaking(s.history)
            else Timeout in inputs || !setup.tls.handshaking(s.history)
    decreases |inputs|
  {
    hide Inject;
    hide Receive;
    hide PumpSession;
    if inputs == [] {
      StartInLoop(setup);
    } else {
      var n := |inputs| - 1;
      var s := Run(inputs[..n], setup);
      assert inputs[n] in inputs && forall x :: x in inputs[..n] ==> x in inputs;
      if s.status.Over? {
        LoopLeftWhenDone(inputs[..n], setup);
      } else if !Leaves(s, setup) {
        if inputs[n].Received? { PassInLoop(s, inputs[n].datagram, setup); } else { InjectInLoop(s, setup); }
      }
    }
  }

  lemma StartInLoop(setup: Setup)
    ensures InLoop(Start(setup))
  {
    hide Send;
  }

  lemma InjectInLoop(s: Session, setup: Setup)
    requires s.status.Running?
    ensures setup.mode.Injecting? ==> InLoop(Inject(s, setup.mode.epoch, setup.mode.bytes))
  {
    hide Send;
  }

  /** How a run begins. The ClientHello goes out in one Initial of at least 1200 bytes with packet number 0,
      where any peer that honours offsets finds all of it at offset 0. An engine with nothing to say or keys
      to hand over at once, and a ClientHello too long for an Initial, end the run with nothing sent. */
  lemma FirstFlight(setup: Setup)
    requires setup.initial.local.Valid() && |setup.dcid| <= MAX_CID_LEN && |setup.scid| <= MAX_CID_LEN
    ensures var s, e := Start(setup), setup.tls.write([]);
            var fits := Fits(Initial, setup.dcid, setup.scid, e.out);
            && s.status == (if e.out == [] then Over(NoHello) else if e.change.Some? then Over(EarlyKeys)
                            else if !fits then Over(Panicked) else Running)
            && (s.status.Over? ==> s.client.sent == [])
            && (s.status.Running? ==>
                  && s.client.sent == [Sent(Initial, 0, e.out)] && |s.client.wire| == 1
                  && |s.client.wire[0].bytes| >= 1200
                  && See(s.client.wire[0], |setup.dcid|) == Some(Seen(Initial, 0, [F.Crypto(0, e.out)])))
  {
    hide Send;
    hide Fits;
    hide Assemble;
    hide See;
    hide DirectionalKeys.Valid;
    var c, e := NewClient(setup), setup.tls.write([]);
    if e.out != [] && e.change.None? {
      SendFacts(c, Initial, e.out, setup.initial.local);
      SendHaltsIff(c, Initial, e.out, setup.initial.local);
      if Fits(Initial, setup.dcid, setup.scid, e.out) {
        var s, w := Sent(Initial, 0, e.out), Start(setup).client.wire[0];
        AssembledSeen(s, w, setup.dcid, setup.scid);
        InitialIsLong(s, w, setup.dcid, setup.scid);
      }
    }
  }

  lemma InitialIsLong(s: Sent, w: Wired, dcid: seq<byte>, scid: seq<byte>)
    requires s.space == Initial && Fits(Initial, dcid, scid, s.crypto) && w.keys.Valid()
    requires Assemble(s, dcid, scid, w.keys) == Some(w.bytes)
    ensures |w.bytes| >= 1200
  {
    hide TrySeal;
    hide SealPacket;
    hide HeaderToPn;
    hide Plaintext;
    TrySealWorks(HeaderToPn(INITIAL, dcid, scid, s.crypto), s.pn, Plaintext(INITIAL, dcid, scid, s.crypto), w.keys);
    InitialSize(dcid, scid, s.pn, s.crypto, w.keys);
  }

  lemma SteadyRuns(s: Session, setup: Setup)
    requires Steady(s, setup) && s.status.Running?
    ensures s.client.halt.None?
  {
  }

  lemma ReceiveSteady(s: Session, d: seq<byte>, setup: Setup)
    requires setup.tls.Valid() && Steady(s, setup)
    ensures Steady(Receive(s, d, setup), setup)
  {
    hide Steady;
    hide ProcessAll;
    hide Walk;
    var s' := ProcessAll(s, Walk(d).packets, setup);
    ProcessAllSteady(s, Walk(d).packets, setup);
    SteadyOver(s', MalformedHeader, setup);
  }

  lemma RunSteady(inputs: seq<Input>, setup: Setup)
    requires setup.tls.Valid()
    ensures Steady(Run(inputs, setup), setup)
  {
    RunInv(inputs, setup);
  }

  lemma ReceiveStep(s: Session, d: seq<byte>, h: LongHeader, setup: Setup)
    requires setup.tls.Valid() && s.status.Running? && d != [] && d[0] >= 0x80 && ParseLongHeader(d) == Some(h)
    ensures var n := h.payloadOffset + h.length;
            Receive(s, d, setup) == Receive(Process(s, Slice(h, d[..n]), setup), d[n..], setup)
  {
    hide Walk;
    hide Process;
    hide Tls.Valid;
    hide ParseLongHeader;
    WalkFirst(d, h);
    var n := h.payloadOffset + h.length;
    assert ([Slice(h, d[..n])] + Walk(d[n..]).packets)[1..] == Walk(d[n..]).packets;
  }

  lemma ReceiveEnd(s: Session, d: seq<byte>, setup: Setup)
    requires setup.tls.Valid()
    requires s.status.Over? || d == [] || d[0] < 0x80 || ParseLongHeader(d).None?
    ensures Receive(s, d, setup)
         == if s.status.Running? && d != [] && d[0] >= 0x80 then s.(status := Over(MalformedHeader)) else s
  {
    hide Process;
    hide Tls.Valid;
    hide ParseLongHeader;
    if s.status.Running? { WalkEnd(d, []); }
  }
}
