/**
 The drivers as the source runs them: a harness object whose loops pump, receive and inject, building
 every packet with the assemblers and keeping the bytes it hands to the socket.
 */
module Harness {
  import opened Bytes
  import opened Protection
  import opened Packets
  import opened Coalesced
  import opened Handshake
  import opened Driver
  import T = KeyTable
  import B = Builder
  import F = Frames
  import V = Varint

  class Harness {
    const setup: Setup
    const builder: B.PacketBuilder
    const initialKeys: T.KeysEntry
    var handshakeKeys: Option<Keys>
    var oneRttKeys: Option<Keys>
    var handshakePn: nat
    var oneRttPn: nat
    var sent: seq<Sent>
    var wire: seq<Wired>
    var halt: Option<Halt>
    var history: seq<Event>
    var injected: bool
    var status: Status

    ghost predicate Valid()
      reads this, builder, initialKeys
    {
      && setup.tls.Valid() && setup.initial.local.WellSized()
      && builder.dcid == setup.dcid && builder.scid == setup.scid
      && initialKeys.local == setup.initial.local && initialKeys.remote == setup.initial.remote
    }

    ghost function ClientState(): Client
      reads this, builder, initialKeys
    {
      Client(setup.dcid, setup.scid, setup.initial.local, initialKeys.lastLocalPn, handshakeKeys, oneRttKeys,
             builder.packetNumber, handshakePn, oneRttPn, sent, wire, halt)
    }

    ghost function State(): Session
      reads this, builder, initialKeys
    {
      Session(ClientState(), history, injected, status)
    }

    /** Everything before the receive loop. */
    constructor (setup: Setup)
      requires setup.tls.Valid() && setup.initial.local.WellSized()
      ensures this.setup == setup && fresh(builder) && fresh(initialKeys)
      ensures Valid() && State() == Start(setup)
    {
      this.setup := setup;
      builder := new B.PacketBuilder(setup.dcid, setup.scid);
      initialKeys := new T.KeysEntry(setup.initial.local, setup.initial.remote);
      handshakeKeys, oneRttKeys := None, None;
      handshakePn, oneRttPn := 0, 0;
      sent, wire, halt, injected := [], [], None, false;
      var e := setup.tls.write([]);
      history, status := [Drained], Running;
      new;
      if e.out == [] {
        status := Over(NoHello);
      } else if e.change.Some? {
        status := Over(EarlyKeys);
      } else {
        SendInitial(e.out);
        if halt.Some? { status := Over(if halt.value.panicked then Panicked else SealFailed(halt.value.space)); }
      }
    }

    // -------------------------------------------------------------------------------------
    // Sending
    // -------------------------------------------------------------------------------------

    /** `encode_initial` and `send_to`. */
    method SendInitial(out: seq<byte>)
      requires Valid()
      modifies `sent, `wire, `halt, builder`packetNumber, initialKeys`lastLocalPn
      ensures Valid() && ClientState() == Send(old(ClientState()), Initial, out, setup.initial.local)
    {
      hide TrySeal;
      hide HeaderToPn;
      hide Plaintext;
      hide DirectionalKeys.WellSized;
      hide Tls.Valid;
      if |out| >= V.LIMIT {
        halt := Some(Halt(Initial, true));
        return;
      }
      var pn := builder.packetNumber;
      var pkt := builder.EncodeLong(INITIAL, out, initialKeys);
      if pkt.None? {
        halt := Some(Halt(Initial, true));
      } else {
        sent, wire := sent + [Sent(Initial, pn, out)], wire + [Wired(setup.initial.local, pkt.value)];
      }
    }

    /** `build_handshake_packet` and `send_to`. */
    method SendHandshake(out: seq<byte>)
      requires handshakeKeys.Some?
      modifies `sent, `wire, `halt, `handshakePn
      ensures ClientState() == Send(old(ClientState()), Handshake, out, handshakeKeys.value.local)
    {
      hide TrySeal;
      hide HeaderToPn;
      hide Plaintext;
      hide LongPacket;
      hide DirectionalKeys.Valid;
      if !Buildable(HANDSHAKE, setup.dcid, setup.scid, out) {
        halt := Some(Halt(Handshake, true));
        return;
      }
      var keys := handshakeKeys.value.local;
      var pkt := B.BuildHandshakePacket(setup.dcid, setup.scid, handshakePn, out, keys);
      if pkt.None? {
        halt := Some(Halt(Handshake, false));
      } else {
        sent, wire := sent + [Sent(Handshake, handshakePn, out)], wire + [Wired(keys, pkt.value)];
        handshakePn := (handshakePn + 1) % U64;
      }
    }

    /** `encode_crypto_frame`, `build_short_header_crypto_packet` and `send_to`. */
    method SendOneRtt(bytes: seq<byte>)
      requires oneRttKeys.Some?
      modifies `sent, `wire, `halt, `oneRttPn
      ensures ClientState() == Send(old(ClientState()), OneRtt, bytes, oneRttKeys.value.local)
    {
      hide TrySeal;
      hide CryptoPayload;
      hide ShortPacket;
      hide DirectionalKeys.Valid;
      if |bytes| >= V.LIMIT {
        halt := Some(Halt(OneRtt, true));
        return;
      }
      var keys := oneRttKeys.value.local;
      var frame := B.AssembleCrypto(bytes);
      var pkt := B.BuildShortPacket(setup.dcid, oneRttPn, frame, keys);
      if pkt.None? {
        halt := Some(Halt(OneRtt, false));
      } else {
        sent, wire := sent + [Sent(OneRtt, oneRttPn, bytes)], wire + [Wired(keys, pkt.value)];
        oneRttPn := (oneRttPn + 1) % U64;
      }
    }

    method SendOut(out: seq<byte>)
      requires Valid()
      modifies `sent, `wire, `halt, `handshakePn, builder`packetNumber, initialKeys`lastLocalPn
      ensures Valid() && ClientState() == Route(old(ClientState()), out, Sending)
    {
      hide Send;
      if out == [] { return; }
      if handshakeKeys.None? {
        SendInitial(out);
      } else if oneRttKeys.None? {
        SendHandshake(out);
      }
    }

    // -------------------------------------------------------------------------------------
    // The pumps
    // -------------------------------------------------------------------------------------

    method Materialise(change: Option<KeyChange>)
      requires halt.None?
      modifies `handshakeKeys, `oneRttKeys
      ensures ClientState() == Install(old(ClientState()), change)
    {
      match change
      case Some(ToHandshake(keys)) => handshakeKeys := Some(keys);
      case Some(ToOneRtt(keys)) => oneRttKeys := Some(keys);
      case None =>
    }

    /** `pump_rustls_write_hs` */
    method PumpWriteHs()
      requires Valid() && halt.None?
      modifies `handshakeKeys, `oneRttKeys, `handshakePn, `sent, `wire, `halt, `history
      modifies builder`packetNumber, initialKeys`lastLocalPn
      ensures Valid()
      ensures Pumped(ClientState(), history) == PumpEngine(old(ClientState()), setup.tls, old(history), Sending)
    {
      hide Route;
      hide DirectionalKeys.WellSized;
      var more := true;
      while more
        invariant Valid() && oneRttPn == old(oneRttPn) && (more ==> halt.None?)
        invariant PumpEngine(old(ClientState()), setup.tls, old(history), Sending)
               == if more then PumpEngine(ClientState(), setup.tls, history, Sending)
                  else Pumped(ClientState(), history)
        decreases if more then setup.tls.backlog(history) + 1 else 0
      {
        var e := setup.tls.write(history);
        history := history + [Drained];
        if e.out == [] && e.change.None? {
          more := false;
        } else {
          SendOut(e.out);
          more := halt.None?;
          if more { Materialise(e.change); }
        }
      }
    }

    /** `pump_rustls_write_hs_discarding_finished` */
    method PumpDiscardingFinished()
      requires Valid() && halt.None?
      modifies `handshakeKeys, `oneRttKeys, `sent, `wire, `halt, `history
      modifies builder`packetNumber, initialKeys`lastLocalPn
      ensures Valid()
      ensures Pumped(ClientState(), history) == PumpEngine(old(ClientState()), setup.tls, old(history), Discarding)
    {
      hide Send;
      hide DirectionalKeys.WellSized;
      var more := true;
      while more
        invariant Valid() && oneRttPn == old(oneRttPn) && handshakePn == old(handshakePn) && (more ==> halt.None?)
        invariant PumpEngine(old(ClientState()), setup.tls, old(history), Discarding)
               == if more then PumpEngine(ClientState(), setup.tls, history, Discarding)
                  else Pumped(ClientState(), history)
        decreases if more then setup.tls.backlog(history) + 1 else 0
      {
        var e := setup.tls.write(history);
        history := history + [Drained];
        if e.out == [] && e.change.None? {
          more := false;
        } else {
          if e.out != [] && handshakeKeys.None? { SendInitial(e.out); }
          more := halt.None?;
          if more { Materialise(e.change); }
        }
      }
    }

    method PumpForMode()
      requires Valid() && halt.None?
      modifies this, builder, initialKeys
      ensures Valid() && State() == PumpSession(old(State()), setup)
    {
      if setup.mode.Injecting? && setup.mode.epoch == AtHandshake {
        PumpDiscardingFinished();
      } else {
        PumpWriteHs();
      }
      if halt.Some? { status := Over(if halt.value.panicked then Panicked else SealFailed(halt.value.space)); }
    }

    // -------------------------------------------------------------------------------------
    // Receiving
    // -------------------------------------------------------------------------------------

    method OpenAndScan(p: Slice, keys: DirectionalKeys)
      modifies `history, `status
      ensures State() == Open(old(State()), p, keys, setup)
    {
      hide F.ScanFull;
      hide OpenLong;
      var result := OpenLong(p.bytes, p.header, keys);
      if result.Err? {
        status := Over(OpenFailed(result.error));
        return;
      }
      var outcome, fed := F.ScanFullLoop(result.value.plaintext, Listening(setup.tls, history), []);
      history := history + Feds(fed);
      match outcome
      case Closed(cc) => status := Over(Closed(cc));
      case Failed(e) => status := Over(ScanFailed(e));
      case Quiet =>
    }

    method ProcessPacket(p: Slice)
      requires Valid() && halt.None? && status.Running?
      modifies this, builder, initialKeys
      ensures Valid() && State() == Process(old(State()), p, setup)
    {
      hide Open;
      hide PumpSession;
      hide DirectionalKeys.WellSized;
      if p.header.packetType == INITIAL {
        OpenAndScan(p, setup.initial.remote);
      } else if p.header.packetType == HANDSHAKE {
        if handshakeKeys.None? { PumpForMode(); }
        if status.Over? { return; }
        if handshakeKeys.None? {
          status := Over(NoHandshakeKeys);
          return;
        }
        OpenAndScan(p, handshakeKeys.value.remote);
      }
    }

    /** The walk over one datagram, with the source's offset cursor. */
    method ReceiveDatagram(datagram: seq<byte>)
      requires Valid() && Steady(State(), setup) && status.Running?
      modifies this, builder, initialKeys
      ensures Valid() && State() == Receive(old(State()), datagram, setup) && Steady(State(), setup)
    {
      hide Receive;
      hide Process;
      hide Steady;
      hide ParseLongHeader;
      hide Tls.Valid;
      hide DirectionalKeys.WellSized;
      ghost var spec := Receive(State(), datagram, setup);
      ReceiveSteady(State(), datagram, setup);
      var offset := 0;
      assert datagram[0..] == datagram;
      while offset < |datagram| && status.Running?
        invariant Valid() && offset <= |datagram| && Steady(State(), setup)
        invariant spec == Receive(State(), datagram[offset..], setup)
      {
        var rest := datagram[offset..];
        if rest[0] < 0x80 { break; }
        var header := ParseLongHeader(rest);
        if header.None? {
          ReceiveEnd(State(), rest, setup);
          status := Over(MalformedHeader);
          return;
        }
        var n := header.value.payloadOffset + header.value.length;
        var p := Slice(header.value, rest[..n]);
        ReceiveStep(State(), rest, header.value, setup);
        assert rest[n..] == datagram[offset + n..];
        SteadyRuns(State(), setup);
        ProcessSteady(State(), p, setup);
        ProcessPacket(p);
        offset := offset + n;
      }
      ReceiveEnd(State(), datagram[offset..], setup);
    }

    // -------------------------------------------------------------------------------------
    // The loop
    // -------------------------------------------------------------------------------------

    /** `inject_now` and the flag set after it; a missing key or a failed seal ends the run with an error. */
    method InjectAdversarial(epoch: Epoch, bytes: seq<byte>)
      requires halt.None?
      modifies this
      ensures State() == Inject(old(State()), epoch, bytes)
    {
      hide Send;
      match epoch {
        case AtHandshake =>
          if handshakeKeys.None? { status := Over(NotReady); return; }
          SendHandshake(bytes);
        case AtOneRtt =>
          if oneRttKeys.None? { status := Over(NotReady); return; }
          SendOneRtt(bytes);
      }
      if halt.Some? {
        status := Over(if halt.value.panicked then Panicked else SealFailed(halt.value.space));
      } else {
        injected := true;
      }
    }

    /** One pass of the receive loop. */
    method Iterate(input: Input)
      requires Valid() && Steady(State(), setup)
      modifies this, builder, initialKeys
      ensures Valid() && State() == Advance(old(State()), input, setup)
    {
      hide Receive;
      hide PumpSession;
      hide Inject;
      hide Steady;
      hide DirectionalKeys.WellSized;
      if status.Over? { return; }
      SteadyRuns(State(), setup);
      if !setup.tls.handshaking(history) && (setup.mode.Plain? || injected) {
        status := Over(LoopLeft);
        return;
      }
      match input
      case Timeout =>
        if setup.mode.Plain? {
          status := Over(LoopLeft);
        } else if !injected && handshakeKeys.Some? {
          InjectAdversarial(setup.mode.epoch, setup.mode.bytes);
        }
      case Received(datagram) =>
        ReceiveDatagram(datagram);
        if status.Over? { return; }
        SteadyRuns(State(), setup);
        PumpSteady(State(), setup);
        PumpForMode();
        if status.Over? { return; }
        SteadyRuns(State(), setup);
        if !injected && setup.mode.Injecting? {
          var ready := match setup.mode.epoch
            case AtHandshake => handshakeKeys.Some?
            case AtOneRtt => oneRttKeys.Some?;
          if ready { InjectAdversarial(setup.mode.epoch, setup.mode.bytes); }
        }
    }

    /** The receive loops of the two drivers. */
    method DriveLoop(inputs: seq<Input>)
      requires Valid() && State() == Start(setup)
      modifies this, builder, initialKeys
      ensures Valid() && State() == Run(inputs, setup)
    {
      hide Advance;
      hide Inv;
      hide DirectionalKeys.WellSized;
      var i := 0;
      assert inputs[..0] == [];
      while i < |inputs|
        invariant Valid() && i <= |inputs| && State() == Run(inputs[..i], setup)
      {
        assert inputs[..i + 1][..i] == inputs[..i];
        RunSteady(inputs[..i], setup);
        Iterate(inputs[i]);
        i := i + 1;
      }
      assert inputs[..i] == inputs;
    }
  }
}
