/**
 A peer's packets through the drivers, from their bytes to the verdict or the answer; coalesced flights; runs
 that show where the drivers fail; and what the drivers' own packets hold for a receiver that reads offsets.
 */
module Flights {
  import opened Bytes
  import opened Protection
  import opened Packets
  import opened Contents
  import opened Coalesced
  import opened Handshake
  import opened Driver
  import F = Frames

  // ---------------------------------------------------------------------------------------
  // What a peer's packets do to a session
  // ---------------------------------------------------------------------------------------

  /** 0-RTT and Retry packets are passed over. */
  predicate Skipped(spec: Spec) {
    TypeBits(spec.first) != INITIAL && TypeBits(spec.first) != HANDSHAKE
  }

  /** The chunks a packet gives the engine. */
  ghost function Told(spec: Spec): (r: seq<seq<byte>>)
    requires spec.Valid()
  {
    if Skipped(spec) || spec.body.Forged? then [] else spec.body.content.Told()
  }

  /** The verdict a packet ends the run with, if it does. */
  ghost function Verdicts(spec: Spec): (r: Option<Verdict>)
    requires spec.Valid()
  {
    if Skipped(spec) then None
    else
      match spec.body
      case Forged(_) => Some(OpenFailed(AeadFailed))
      case Sealed(content) =>
        match content.Lesson()
        case Closed(cc) => Some(Closed(cc))
        case Failed(e) => Some(ScanFailed(e))
        case Quiet => None
  }

  /** The same for a list of packets: nothing counts after the first verdict. */
  ghost function ToldAll(specs: seq<Spec>): (r: seq<seq<byte>>)
    requires ValidSpecs(specs)
    decreases |specs|
  {
    if specs == [] then []
    else Told(specs[0]) + if Verdicts(specs[0]).Some? then [] else ToldAll(specs[1..])
  }

  ghost function VerdictOf(specs: seq<Spec>): (r: Option<Verdict>)
    requires ValidSpecs(specs)
    decreases |specs|
  {
    if specs == [] then None
    else if Verdicts(specs[0]).Some? then Verdicts(specs[0]) else VerdictOf(specs[1..])
  }

  /** The engine takes the packet as its content says, and the AEAD rejects a forged one. */
  ghost predicate HeedsOne(tls: Tls, h: seq<Event>, spec: Spec, keys: DirectionalKeys)
    requires spec.Valid()
  {
    Skipped(spec) ||
    match spec.body
    case Forged(ciphertext) => keys.open(spec.pn, spec.Associated(), ciphertext) == None
    case Sealed(content) => Suits(content, Listening(tls, h), [])
  }

  ghost predicate Heeds(
    tls: Tls, h: seq<Event>, specs: seq<Spec>, initial: DirectionalKeys, handshake: DirectionalKeys)
    requires ValidSpecs(specs)
    decreases |specs|
  {
    specs == [] ||
    (&& HeedsOne(tls, h, specs[0], KeysFor(specs[0], initial, handshake))
     && (Verdicts(specs[0]).None? ==> Heeds(tls, h + Feds(Told(specs[0])), specs[1..], initial, handshake)))
  }

  /** The session after these packets. */
  ghost function After(s: Session, specs: seq<Spec>): (r: Session)
    requires ValidSpecs(specs)
  {
    var v := VerdictOf(specs);
    s.(history := s.history + Feds(ToldAll(specs)), status := if v.Some? then Over(v.value) else s.status)
  }

  /** The session can open these packets: it holds the Handshake keys, or needs none. */
  ghost predicate Equipped(s: Session, specs: seq<Spec>, handshake: DirectionalKeys) {
    || (s.client.handshakeKeys.Some? && s.client.handshakeKeys.value.remote == handshake)
    || forall i :: 0 <= i < |specs| ==> TypeBits(specs[i].first) != HANDSHAKE
  }

  /** One packet, opened with its own keys. */
  lemma OpenSpec(s: Session, spec: Spec, p: Slice, keys: DirectionalKeys, setup: Setup)
    requires spec.Valid() && keys.Valid() && MatchesOne(spec, p, keys) && s.status.Running?
    requires HeedsOne(setup.tls, s.history, spec, keys) && !Skipped(spec)
    ensures var v := Verdicts(spec);
            Open(s, p, keys, setup)
            == s.(history := s.history + Feds(Told(spec)), status := if v.Some? then Over(v.value) else Running)
  {
    hide OpenLong;
    hide F.ScanFull;
    hide Spec.Build;
    hide Spec.Valid;
    hide Spec.Associated;
    hide Suits;
    hide Content.Valid;
    hide Content.Bytes;
    hide Content.Lesson;
    hide Content.Told;
    hide DirectionalKeys.Valid;
    ValidBody(spec);
    match spec.body {
      case Forged(_) => assert s.history + Feds([]) == s.history;
      case Sealed(content) =>
        ScanContent(content, Listening(setup.tls, s.history), []);
        assert [] + content.Told() == content.Told();
    }
  }

  lemma ValidBody(spec: Spec)
    requires spec.Valid()
    ensures spec.body.Sealed? ==> spec.body.content.Valid()
  {
  }

  lemma ProcessSpec(s: Session, spec: Spec, p: Slice, handshake: DirectionalKeys, setup: Setup)
    requires spec.Valid() && setup.initial.remote.Valid() && handshake.Valid() && setup.tls.Valid() && s.status.Running?
    requires MatchesOne(spec, p, KeysFor(spec, setup.initial.remote, handshake))
    requires HeedsOne(setup.tls, s.history, spec, KeysFor(spec, setup.initial.remote, handshake))
    requires Equipped(s, [spec], handshake)
    ensures var v := Verdicts(spec);
            Process(s, p, setup)
            == s.(history := s.history + Feds(Told(spec)), status := if v.Some? then Over(v.value) else Running)
  {
    hide Open;
    hide OpenLong;
    hide Spec.Build;
    hide Spec.Reading;
    hide Spec.Valid;
    hide HeedsOne;
    hide PumpSession;
    hide DirectionalKeys.Valid;
    assert [spec][0] == spec;
    if Skipped(spec) {
      assert s.history + Feds([]) == s.history;
    } else {
      OpenSpec(s, spec, p, KeysFor(spec, setup.initial.remote, handshake), setup);
    }
  }

  lemma FedsAppend(a: seq<seq<byte>>, b: seq<seq<byte>>)
    ensures Feds(a + b) == Feds(a) + Feds(b)
    decreases |a|
  {
    if a == [] {
      assert a + b == b;
    } else {
      assert (a + b)[1..] == a[1..] + b;
      FedsAppend(a[1..], b);
    }
  }

  lemma AfterStep(s: Session, specs: seq<Spec>)
    requires ValidSpecs(specs) && specs != [] && s.status.Running?
    ensures var v := Verdicts(specs[0]);
            var status := if v.Some? then Over(v.value) else Running;
            var s' := s.(history := s.history + Feds(Told(specs[0])), status := status);
            After(s, specs) == if v.Some? then s' else After(s', specs[1..])
  {
    hide Spec.Valid;
    hide Told;
    hide Verdicts;
    var rest := if Verdicts(specs[0]).Some? then [] else ToldAll(specs[1..]);
    FedsAppend(Told(specs[0]), rest);
    assert s.history + (Feds(Told(specs[0])) + Feds(rest)) == (s.history + Feds(Told(specs[0]))) + Feds(rest);
    assert (s.history + Feds(Told(specs[0]))) + [] == s.history + Feds(Told(specs[0]));
  }

  lemma {:induction false} ProcessAllSpecs(
    s: Session, specs: seq<Spec>, packets: seq<Slice>, handshake: DirectionalKeys, setup: Setup)
    requires ValidSpecs(specs) && setup.initial.remote.Valid() && handshake.Valid()
    requires setup.tls.Valid() && s.status.Running?
    requires |packets| == |specs| && Matches(specs, packets, setup.initial.remote, handshake)
    requires Equipped(s, specs, handshake) && Heeds(setup.tls, s.history, specs, setup.initial.remote, handshake)
    ensures ProcessAll(s, packets, setup) == After(s, specs)
    decreases |specs|
  {
    hide Process;
    hide MatchesOne;
    hide HeedsOne;
    hide Told;
    hide Verdicts;
    hide KeysFor;
    hide Spec.Valid;
    hide DirectionalKeys.Valid;
    hide Tls.Valid;
    if specs == [] {
      assert s.history + [] == s.history;
    } else {
      assert Equipped(s, [specs[0]], handshake);
      assert MatchesOne(specs[0], packets[0], KeysFor(specs[0], setup.initial.remote, handshake));
      ProcessSpec(s, specs[0], packets[0], handshake, setup);
      AfterStep(s, specs);
      hide After;
      var s' := Process(s, packets[0], setup);
      if s'.status.Running? {
        assert Matches(specs[1..], packets[1..], setup.initial.remote, handshake);
        ProcessAllSpecs(s', specs[1..], packets[1..], handshake, setup);
      }
    }
  }

  lemma {:induction false} ProcessAllSplit(s: Session, a: seq<Slice>, b: seq<Slice>, setup: Setup)
    requires setup.tls.Valid()
    ensures ProcessAll(s, a + b, setup) == ProcessAll(ProcessAll(s, a, setup), b, setup)
    decreases |a|
  {
    hide Process;
    hide Tls.Valid;
    if a == [] || s.status.Over? {
      assert a == [] ==> a + b == b;
    } else {
      assert (a + b)[0] == a[0] && (a + b)[1..] == a[1..] + b;
      ProcessAllSplit(Process(s, a[0], setup), a[1..], b, setup);
    }
  }

  /** A datagram that starts with these packets: the session takes them one by one, up to the first verdict,
      and then goes on with the rest of the bytes. */
  lemma ReceiveSpecs(s: Session, specs: seq<Spec>, rest: seq<byte>, handshake: DirectionalKeys, setup: Setup)
    requires ValidSpecs(specs) && setup.initial.remote.Valid() && handshake.Valid()
    requires setup.tls.Valid() && s.status.Running?
    requires Equipped(s, specs, handshake) && Heeds(setup.tls, s.history, specs, setup.initial.remote, handshake)
    ensures Receive(s, Datagram(specs, setup.initial.remote, handshake) + rest, setup)
         == Receive(After(s, specs), rest, setup)
  {
    hide ProcessAll;
    hide After;
    hide Walk;
    hide MatchesOne;
    hide Datagram;
    hide Heeds;
    hide Equipped;
    hide Spec.Valid;
    hide DirectionalKeys.Valid;
    hide Tls.Valid;
    WalkBuilt(specs, setup.initial.remote, handshake, rest);
    var d := Datagram(specs, setup.initial.remote, handshake) + rest;
    var ps, n := Walk(d).packets, |specs|;
    assert ps == ps[..n] + ps[n..];
    FirstOnes(specs, ps, setup.initial.remote, handshake);
    ProcessAllSplit(s, ps[..n], ps[n..], setup);
    ProcessAllSpecs(s, specs, ps[..n], handshake, setup);
  }

  lemma FirstOnes(specs: seq<Spec>, packets: seq<Slice>, initial: DirectionalKeys, handshake: DirectionalKeys)
    requires ValidSpecs(specs) && initial.Valid() && handshake.Valid() && Matches(specs, packets, initial, handshake)
    ensures Matches(specs, packets[..|specs|], initial, handshake)
  {
    hide MatchesOne;
  }

  /** What stands behind the packets: nothing, a short header, which ends the walk, or bytes that do not
      parse, which end the run. */
  lemma TrailingBytes(s: Session, specs: seq<Spec>, rest: seq<byte>, handshake: DirectionalKeys, setup: Setup)
    requires ValidSpecs(specs) && setup.initial.remote.Valid() && handshake.Valid()
    requires setup.tls.Valid() && s.status.Running? && VerdictOf(specs).None?
    requires Equipped(s, specs, handshake) && Heeds(setup.tls, s.history, specs, setup.initial.remote, handshake)
    requires rest == [] || rest[0] < 0x80 || ParseLongHeader(rest).None?
    ensures var r := After(s, specs);
            Receive(s, Datagram(specs, setup.initial.remote, handshake) + rest, setup)
            == if rest == [] || rest[0] < 0x80 then r else r.(status := Over(MalformedHeader))
  {
    hide Receive;
    hide ParseLongHeader;
    hide Heeds;
    hide Equipped;
    ReceiveSpecs(s, specs, rest, handshake, setup);
    ReceiveEnd(After(s, specs), rest, setup);
  }

  lemma HeardOne(h: seq<Event>, chunk: seq<byte>)
    ensures Heard(h + [Fed(chunk)]) == Heard(h) + [chunk]
  {
    assert (h + [Fed(chunk)])[..|h|] == h;
  }

  lemma {:induction false} HeardFeds(h: seq<Event>, chunks: seq<seq<byte>>)
    ensures Heard(h + Feds(chunks)) == Heard(h) + chunks
    decreases |chunks|
  {
    hide Heard;
    if chunks == [] {
      assert h + Feds(chunks) == h && Heard(h) + [] == Heard(h);
    } else {
      var x, rest := chunks[0], chunks[1..];
      HeardOne(h, x);
      HeardFeds(h + [Fed(x)], rest);
      Regroup(h, Fed(x), Feds(rest));
      Regroup(Heard(h), x, rest);
      assert [x] + rest == chunks;
    }
  }

  /** A verdict reached while receiving ends the pass and the run. */
  lemma ReceivedVerdictStays(inputs: seq<Input>, d: seq<byte>, more: seq<Input>, setup: Setup)
    requires setup.tls.Valid() && Run(inputs, setup).status.Running? && !Leaves(Run(inputs, setup), setup)
    requires Receive(Run(inputs, setup), d, setup).status.Over?
    ensures Run(inputs + [Received(d)] + more, setup) == Receive(Run(inputs, setup), d, setup)
  {
    hide Run;
    hide Receive;
    hide Leaves;
    RunStep(inputs, Received(d), setup);
    RunStays(inputs + [Received(d)], more, setup);
  }

  /** In every run, a packet that carries a CONNECTION_CLOSE after any frames, one that carries a chunk the engine
      refuses or a frame cut short, and one the AEAD rejects, ends the run at once: whatever stands before it in
      its datagram is heard, the close or error is the verdict, nothing behind it in the datagram or later is
      looked at, and nothing more is sent. */
  lemma VerdictEndsRun(inputs: seq<Input>, specs: seq<Spec>, rest: seq<byte>, more: seq<Input>,
                       handshake: DirectionalKeys, setup: Setup)
    requires ValidSpecs(specs) && setup.initial.remote.Valid() && handshake.Valid() && setup.tls.Valid()
    requires Run(inputs, setup).status.Running? && !Leaves(Run(inputs, setup), setup)
    requires Equipped(Run(inputs, setup), specs, handshake)
    requires Heeds(setup.tls, Run(inputs, setup).history, specs, setup.initial.remote, handshake)
    requires VerdictOf(specs).Some?
    ensures var s := Run(inputs, setup);
            var d := Datagram(specs, setup.initial.remote, handshake) + rest;
            var r := Run(inputs + [Received(d)] + more, setup);
            && r.status == Over(VerdictOf(specs).value)
            && Heard(r.history) == Heard(s.history) + ToldAll(specs)
            && r.client == s.client && r.injected == s.injected
  {
    hide Run;
    hide Receive;
    hide Leaves;
    hide Heeds;
    hide Equipped;
    hide Heard;
    var s, d := Run(inputs, setup), Datagram(specs, setup.initial.remote, handshake) + rest;
    ReceiveSpecs(s, specs, rest, handshake, setup);
    ReceiveEnd(After(s, specs), rest, setup);
    ReceivedVerdictStays(inputs, d, more, setup);
    HeardFeds(s.history, ToldAll(specs));
  }

  // ---------------------------------------------------------------------------------------
  // A coalesced flight
  // ---------------------------------------------------------------------------------------

  /** Ahead of its keys, a Handshake packet makes the session pump first. */
  lemma ReceiveAhead(s: Session, later: seq<Spec>, rest: seq<byte>, handshake: DirectionalKeys, setup: Setup)
    requires setup.tls.Valid() && s.status.Running? && s.client.handshakeKeys.None?
    requires ValidSpecs(later) && setup.initial.remote.Valid() && handshake.Valid()
    requires later != [] && TypeBits(later[0].first) == HANDSHAKE
    ensures var s' := PumpSession(s, setup);
            var d := Datagram(later, setup.initial.remote, handshake) + rest;
            Receive(s, d, setup) ==
              if s'.status.Over? then s'
              else if s'.client.handshakeKeys.None? then s'.(status := Over(NoHandshakeKeys))
              else Receive(s', d, setup)
  {
    hide ProcessAll;
    hide PumpSession;
    hide Walk;
    hide Datagram;
    hide MatchesOne;
    hide Tls.Valid;
    hide Spec.Valid;
    hide DirectionalKeys.Valid;
    WalkBuilt(later, setup.initial.remote, handshake, rest);
    var ps := Walk(Datagram(later, setup.initial.remote, handshake) + rest).packets;
    FirstType(later, ps, setup.initial.remote, handshake);
    ProcessAhead(s, ps, setup);
  }

  lemma ProcessAhead(s: Session, packets: seq<Slice>, setup: Setup)
    requires setup.tls.Valid() && s.status.Running? && s.client.handshakeKeys.None?
    requires packets != [] && packets[0].header.packetType == HANDSHAKE
    ensures var s' := PumpSession(s, setup);
            ProcessAll(s, packets, setup) ==
              if s'.status.Over? then s'
              else if s'.client.handshakeKeys.None? then s'.(status := Over(NoHandshakeKeys))
              else ProcessAll(s', packets, setup)
  {
    hide Open;
    hide PumpSession;
    hide Tls.Valid;
    var s' := PumpSession(s, setup);
    if s'.status.Running? && s'.client.handshakeKeys.Some? {
      assert Process(s, packets[0], setup) == Process(s', packets[0], setup);
    }
  }

  lemma FirstType(specs: seq<Spec>, packets: seq<Slice>, initial: DirectionalKeys, handshake: DirectionalKeys)
    requires ValidSpecs(specs) && initial.Valid() && handshake.Valid()
    requires specs != [] && Matches(specs, packets, initial, handshake)
    ensures packets[0].header.packetType == TypeBits(specs[0].first)
  {
    hide Spec.Build;
    hide OpenLong;
    assert MatchesOne(specs[0], packets[0], KeysFor(specs[0], initial, handshake));
  }

  /** What the client has pumped by the time it meets the first Handshake packet of a flight. */
  ghost function Midway(s: Session, initials: seq<Spec>, setup: Setup): (r: Pumped)
    requires setup.tls.Valid() && ValidSpecs(initials)
  {
    PumpEngine(s.client, setup.tls, s.history + Feds(ToldAll(initials)), setup.Kind())
  }

  /** A flight the client can be sent: packets of other types, then a Handshake packet and any mix after it,
      sealed with the keys the engine hands over in between. */
  ghost predicate Flight(
    s: Session, initials: seq<Spec>, later: seq<Spec>, handshake: DirectionalKeys, setup: Setup)
  {
    && setup.tls.Valid() && setup.initial.remote.Valid() && handshake.Valid()
    && ValidSpecs(initials) && (forall i :: 0 <= i < |initials| ==> TypeBits(initials[i].first) != HANDSHAKE)
    && ValidSpecs(later) && later != [] && TypeBits(later[0].first) == HANDSHAKE
    && Heeds(setup.tls, s.history, initials, setup.initial.remote, handshake)
    && var p := Midway(s, initials, setup);
       p.client.handshakeKeys.Some? ==>
         && p.client.handshakeKeys.value.remote == handshake
         && Heeds(setup.tls, p.history, later, setup.initial.remote, handshake)
  }

  /** Its bytes. */
  ghost function FlightBytes(
    initials: seq<Spec>, later: seq<Spec>, initial: DirectionalKeys, handshake: DirectionalKeys): (r: seq<byte>)
    requires ValidSpecs(initials) && ValidSpecs(later) && initial.Valid() && handshake.Valid()
  {
    Datagram(initials, initial, handshake) + Datagram(later, initial, handshake)
  }

  /** Where it leaves the session. */
  ghost function Landed(s: Session, initials: seq<Spec>, later: seq<Spec>, setup: Setup): (r: Session)
    requires setup.tls.Valid() && ValidSpecs(initials) && ValidSpecs(later)
  {
    var p := Midway(s, initials, setup);
    var s' := s.(client := p.client, history := p.history);
    if VerdictOf(initials).Some? then After(s, initials)
    else if p.client.halt.Some? then s'.(status := Ending(p.client, Running))
    else if p.client.handshakeKeys.None? then s'.(status := Over(NoHandshakeKeys))
    else After(s', later)
  }

  /** Whether the flight gets past its Initial packets. */
  ghost predicate Passes(s: Session, initials: seq<Spec>, setup: Setup)
    requires setup.tls.Valid() && ValidSpecs(initials)
  {
    var c := Midway(s, initials, setup).client;
    VerdictOf(initials).None? && c.halt.None? && c.handshakeKeys.Some?
  }

  /** A coalesced Initial and Handshake flight, from its bytes on, with anything behind it. When the engine hands
      over the Handshake keys after the Initials' CRYPTO data, the whole flight reaches it, in order, up to
      the first verdict. When it does not, the run stops with the engine having heard exactly the Initials'
      data. */
  lemma FlightDelivered(s: Session, initials: seq<Spec>, later: seq<Spec>, rest: seq<byte>,
                        handshake: DirectionalKeys, setup: Setup)
    requires Flight(s, initials, later, handshake, setup)
    requires s.status.Running? && s.client.handshakeKeys.None? && s.client.halt.None?
    ensures var d := FlightBytes(initials, later, setup.initial.remote, handshake);
            var r := Landed(s, initials, later, setup);
            && Receive(s, d + rest, setup) == Receive(r, rest, setup)
            && (r.status.Over? ==> Receive(r, rest, setup) == r)
            && Heard(r.history) == Heard(s.history) + ToldAll(initials)
                                   + (if Passes(s, initials, setup) then ToldAll(later) else [])
  {
    hide Receive;
    hide PumpEngine;
    hide Heard;
    hide Datagram;
    hide Heeds;
    hide ToldAll;
    hide VerdictOf;
    hide Spec.Valid;
    hide DirectionalKeys.Valid;
    hide Tls.Valid;
    var a, b := Datagram(initials, setup.initial.remote, handshake), Datagram(later, setup.initial.remote, handshake);
    var s1 := After(s, initials);
    Assoc(a, b, rest);
    ReceiveSpecs(s, initials, b + rest, handshake, setup);
    FlightHeard(s, initials, later, setup);
    var r := Landed(s, initials, later, setup);
    if r.status.Over? { ReceiveEnd(r, rest, setup); }
    if s1.status.Over? {
      ReceiveEnd(s1, b + rest, setup);
    } else {
      ReceiveAhead(s1, later, rest, handshake, setup);
      var s2 := PumpSession(s1, setup);
      if s2.status.Running? && s2.client.handshakeKeys.Some? { ReceiveSpecs(s2, later, rest, handshake, setup); }
    }
  }

  lemma FlightHeard(s: Session, initials: seq<Spec>, later: seq<Spec>, setup: Setup)
    requires setup.tls.Valid() && ValidSpecs(initials) && ValidSpecs(later) && s.client.halt.None?
    ensures Heard(Landed(s, initials, later, setup).history)
         == Heard(s.history) + ToldAll(initials) + (if Passes(s, initials, setup) then ToldAll(later) else [])
  {
    hide PumpEngine;
    hide Heard;
    hide ToldAll;
    hide VerdictOf;
    hide Spec.Valid;
    hide Tls.Valid;
    var p := Midway(s, initials, setup);
    HeardFeds(s.history, ToldAll(initials));
    PumpIsTrace(s.client, setup.tls, s.history + Feds(ToldAll(initials)), setup.Kind());
    HeardFeds(p.history, ToldAll(later));
    var told := Heard(s.history) + ToldAll(initials);
    assert told + [] == told;
  }

  /** A close or an error in either part of such a flight is the verdict of the run. */
  lemma FlightVerdictEndsRun(inputs: seq<Input>, initials: seq<Spec>, later: seq<Spec>, rest: seq<byte>,
                             more: seq<Input>, handshake: DirectionalKeys, setup: Setup)
    requires setup.tls.Valid() && Flight(Run(inputs, setup), initials, later, handshake, setup)
    requires Run(inputs, setup).status.Running? && !Leaves(Run(inputs, setup), setup)
    requires Run(inputs, setup).client.handshakeKeys.None?
    requires var s := Run(inputs, setup);
             VerdictOf(initials).Some? || (Passes(s, initials, setup) && VerdictOf(later).Some?)
    ensures var s := Run(inputs, setup);
            var d := FlightBytes(initials, later, setup.initial.remote, handshake) + rest;
            var r := Run(inputs + [Received(d)] + more, setup);
            && r == Landed(s, initials, later, setup)
            && r.status == Over(if VerdictOf(initials).Some? then VerdictOf(initials).value else VerdictOf(later).value)
  {
    hide Run;
    hide Receive;
    hide Leaves;
    hide Heeds;
    hide PumpEngine;
    hide Steady;
    hide Heard;
    hide ToldAll;
    hide VerdictOf;
    hide FlightBytes;
    hide Spec.Valid;
    hide DirectionalKeys.Valid;
    var s := Run(inputs, setup);
    RunSteady(inputs, setup);
    SteadyRuns(s, setup);
    FlightDelivered(s, initials, later, rest, handshake, setup);
    ReceivedVerdictStays(inputs, FlightBytes(initials, later, setup.initial.remote, handshake) + rest, more, setup);
  }

  /** What a pass of the loop sends once the Handshake keys are there, given what the engine then emits. */
  ghost function Answer(c: Client, trace: seq<Emission>, mode: Mode): (r: seq<Sent>) {
    var finished := PacketsOf(Handshake, OutsUntilOneRtt(trace), c.handshakePn);
    match mode
    case Plain => finished
    case Injecting(AtHandshake, bytes) => [Sent(Handshake, 0, bytes)]
    case Injecting(AtOneRtt, bytes) => finished + if HandsOverOneRtt(trace) then [Sent(OneRtt, 0, bytes)] else []
  }

  /** The answer to such a flight in one pass of the loop. Up to the Handshake keys everything the engine emits
      goes out in Initial packets. Then the plain driver sends the client's Finished, every byte of it; the
      Handshake injection sends its packet in place of it; the 1-RTT injection sends it and then, if the engine
      hands over 1-RTT keys, its packet. Only a packet that cannot be built prevents that, and with suites that
      work none does. */
  lemma FlightAnswered(s: Session, initials: seq<Spec>, later: seq<Spec>, rest: seq<byte>,
                       handshake: DirectionalKeys, setup: Setup)
    requires Flight(s, initials, later, handshake, setup) && (rest == [] || rest[0] < 0x80)
    requires Inv(s, setup) && s.status.Running? && !s.injected && s.client.handshakeKeys.None? && !Leaves(s, setup)
    requires Passes(s, initials, setup) && VerdictOf(later).None? && Midway(s, initials, setup).client.oneRttKeys.None?
    ensures var d := FlightBytes(initials, later, setup.initial.remote, handshake) + rest;
            var p, h := Midway(s, initials, setup), s.history + Feds(ToldAll(initials));
            var first, trace := Trace(setup.tls, h), Trace(setup.tls, p.history + Feds(ToldAll(later)));
            var r := Advance(s, Received(d), setup);
            && p.client.sent == s.client.sent + PacketsOf(Initial, OutsUntilHandshake(first), s.client.initialPn)
                                + AfterInitial(s.client, first, setup.Kind())
            && (r.status.Running? ==> r.client.sent == p.client.sent + Answer(p.client, trace, setup.mode))
            && (r.status.Over? ==> r.client.halt.Some?)
            && (Working(setup.tls) && (setup.mode.Injecting? ==> |setup.mode.bytes| < U32) ==> r.status.Running?)
  {
    hide Steady;
    hide Receive;
    hide PumpSession;
    hide InjectIfReady;
    hide Answer;
    hide PumpEngine;
    hide FlightBytes;
    hide Feds;
    hide Heard;
    hide ToldAll;
    hide VerdictOf;
    hide Working;
    hide ParseLongHeader;
    hide Spec.Valid;
    hide DirectionalKeys.Valid;
    hide Heeds;
    hide Pump;
    hide Trace;
    hide PacketsOf;
    hide AfterInitial;
    var d := FlightBytes(initials, later, setup.initial.remote, handshake) + rest;
    SteadyRuns(s, setup);
    FlightDelivered(s, initials, later, rest, handshake, setup);
    var r := Landed(s, initials, later, setup);
    ReceiveEnd(r, rest, setup);
    ReceiveSteady(s, d, setup);
    FlightOpening(s, initials, setup);
    PassEnds(r, setup);
    if Working(setup.tls) && (setup.mode.Injecting? ==> |setup.mode.bytes| < U32) { PassGoesOn(r, setup); }
  }

  /** What goes out on the way to the Handshake keys. */
  lemma FlightOpening(s: Session, initials: seq<Spec>, setup: Setup)
    requires setup.tls.Valid() && ValidSpecs(initials) && s.client.halt.None? && s.client.handshakeKeys.None?
    requires Midway(s, initials, setup).client.halt.None?
    ensures var first := Trace(setup.tls, s.history + Feds(ToldAll(initials)));
            Midway(s, initials, setup).client.sent
            == s.client.sent + PacketsOf(Initial, OutsUntilHandshake(first), s.client.initialPn)
               + AfterInitial(s.client, first, setup.Kind())
  {
    hide PumpEngine;
    hide Pump;
    hide Trace;
    hide PacketsOf;
    hide AfterInitial;
    var h := s.history + Feds(ToldAll(initials));
    PumpIsTrace(s.client, setup.tls, h, setup.Kind());
    InitialIsSent(s.client, Trace(setup.tls, h), setup.Kind());
  }

  lemma PassEnds(s: Session, setup: Setup)
    requires setup.tls.Valid() && Steady(s, setup) && s.status.Running? && !s.injected
    requires s.client.handshakeKeys.Some? && s.client.oneRttKeys.None?
    ensures var q := PumpSession(s, setup);
            var r := if q.status.Over? then q else InjectIfReady(q, setup);
            && (r.status.Running? ==>
                  r.client.sent == s.client.sent + Answer(s.client, Trace(setup.tls, s.history), setup.mode))
            && (r.status.Over? ==> r.client.halt.Some?)
  {
    hide Steady;
    hide PumpEngine;
    hide PacketsOf;
    hide OutsUntilOneRtt;
    hide HandsOverOneRtt;
    hide Pump;
    hide Trace;
    hide Send;
    hide Fits;
    hide Assemble;
    hide Tls.Valid;
    var trace := Trace(setup.tls, s.history);
    SteadyRuns(s, setup);
    PumpSteady(s, setup);
    PumpIsTrace(s.client, setup.tls, s.history, setup.Kind());
    PumpSpaces(s.client, trace, setup.Kind());
    var q := PumpSession(s, setup);
    if q.status.Running? {
      OneRttInstalled(s.client, trace, setup.Kind());
      if setup.Kind() == Sending {
        FinishedIsSent(s.client, trace);
      } else {
        DiscardingIsSilent(s.client, trace);
      }
      if setup.mode.Injecting? {
        NotYetInjected(q, setup);
        if q.client.handshakeKeys.Some? {
          SendFacts(q.client, Handshake, setup.mode.bytes, q.client.handshakeKeys.value.local);
        }
        if q.client.oneRttKeys.Some? {
          SendFacts(q.client, OneRtt, setup.mode.bytes, q.client.oneRttKeys.value.local);
        }
      }
    }
  }

  /** With suites that work nothing halts the pass. */
  lemma PassGoesOn(s: Session, setup: Setup)
    requires setup.tls.Valid() && Steady(s, setup) && s.status.Running? && s.client.handshakeKeys.Some?
    requires Working(setup.tls) && (setup.mode.Injecting? ==> |setup.mode.bytes| < U32)
    ensures var q := PumpSession(s, setup); q.status.Running? && InjectIfReady(q, setup).status.Running?
  {
    hide Steady;
    hide PumpEngine;
    hide Pump;
    hide Trace;
    hide Send;
    hide Tls.Valid;
    hide Working;
    hide WorkingTrace;
    hide DirectionalKeys.Valid;
    var trace := Trace(setup.tls, s.history);
    SteadyRuns(s, setup);
    PumpSteady(s, setup);
    PumpIsTrace(s.client, setup.tls, s.history, setup.Kind());
    TraceWorks(setup.tls, s.history);
    HeldSuitesWork(s, setup);
    if setup.Kind() == Sending { SendingGoesOn(s.client, trace); } else { DiscardingGoesOn(s.client, trace); }
    var q := PumpSession(s, setup);
    SteadyRuns(q, setup);
    HeldSuitesWork(q, setup);
    if Ready(q.client, setup.mode) {
      if setup.mode.epoch == AtHandshake {
        SendWorks(q.client, Handshake, setup.mode.bytes, q.client.handshakeKeys.value.local);
      } else {
        SendWorks(q.client, OneRtt, setup.mode.bytes, q.client.oneRttKeys.value.local);
      }
    }
  }

  /** The keys a session holds come from the engine, so they work if its suites do. */
  lemma HeldSuitesWork(s: Session, setup: Setup)
    requires Steady(s, setup) && Working(setup.tls)
    ensures s.client.handshakeKeys.Some? ==> s.client.handshakeKeys.value.local.Valid()
    ensures s.client.oneRttKeys.Some? ==> s.client.oneRttKeys.value.local.Valid()
  {
    hide WellNumbered;
    hide OneRttLast;
    hide OnWire;
    hide OnlyInjection;
    hide DirectionalKeys.Valid;
    if s.client.handshakeKeys.Some? {
      var n: nat :| HandedAt(setup.tls, s.history, n, ToHandshake(s.client.handshakeKeys.value));
      assert setup.tls.write(s.history[..n]).change.Some?;
    }
    if s.client.oneRttKeys.Some? {
      var n: nat :| HandedAt(setup.tls, s.history, n, ToOneRtt(s.client.oneRttKeys.value));
      assert setup.tls.write(s.history[..n]).change.Some?;
    }
  }

  // ---------------------------------------------------------------------------------------
  // Failing inputs
  // ---------------------------------------------------------------------------------------

  /** An engine that emits a ClientHello, then hands over Handshake keys, then is quiet. */
  const QUICK := Tls(
    h => if h == [] then Emission([0x01], None)
         else if h == [Drained] then Emission([], Some(ToHandshake(Keys(TOY, TOY)))) else Emission([], None),
    (h, chunk) => true, h => true, h => if |h| < 2 then 2 - |h| else 0)

  lemma QuickIsValid()
    ensures QUICK.Valid()
  {
    forall h: seq<Event> | !QUICK.write(h).Quiet() ensures QUICK.backlog(h + [Drained]) < QUICK.backlog(h) {
      assert h == [] || h == [Drained];
    }
  }

  /** One pump call on it, after the ClientHello, installs the keys. */
  lemma QuickPump(c: Client)
    requires QUICK.Valid() && c.halt.None?
    ensures PumpEngine(c, QUICK, [Drained], Sending)
         == Pumped(c.(handshakeKeys := Some(Keys(TOY, TOY))), [Drained, Drained, Drained])
  {
    var h := [Drained] + [Drained];
    var c' := c.(handshakeKeys := Some(Keys(TOY, TOY)));
    assert |h| == 2 && QUICK.write(h).Quiet();
    assert PumpEngine(c', QUICK, h, Sending) == Pumped(c', h + [Drained]);
    assert h + [Drained] == [Drained, Drained, Drained];
    assert Step(c, QUICK.write([Drained]), Sending) == c';
  }

  /** The window in which a timeout ends a 1-RTT injection run is reached, by one empty datagram. */
  lemma TimeoutEndsARun(bytes: seq<byte>)
    ensures var setup := Setup([], [], Keys(TOY, TOY), QUICK, Injecting(AtOneRtt, bytes));
            && setup.tls.Valid()
            && Run([Received([])], setup).status == Running
            && Run([Received([]), Timeout], setup).status == Over(NotReady)
  {
    hide Send;
    hide PumpEngine;
    hide Process;
    QuickIsValid();
    ToyIsValid();
    hide Tls.Valid;
    hide DirectionalKeys.Valid;
    var setup := Setup([], [], Keys(TOY, TOY), QUICK, Injecting(AtOneRtt, bytes));
    var one, two := [Received([])], [Received([]), Timeout];
    assert one[..0] == [] && two[..1] == one;
    StartRuns(setup);
    hide Start;
    var s := Start(setup);
    assert Run([], setup) == s && s.status == Running && s.history == [Drained];
    ReceiveEnd(s, [], setup);
    QuickPump(s.client);
    hide Receive;
    assert Run(one, setup) == Advance(s, Received([]), setup);
  }

  /** An engine that hands over Handshake keys once it has heard something. */
  const WILLING := Tls(
    (h: seq<Event>) =>
      if h == [] then Emission([0x01], None)
      else if |h| == 2 && h[1].Fed? then Emission([], Some(ToHandshake(Keys(TOY, TOY)))) else Emission([], None),
    (h, chunk) => true, h => true, h => if |h| < 3 then 3 - |h| else 0)

  /** A small Initial and a Handshake packet with one-byte packet numbers. */
  const HELLO := Spec(0xC0, 1, [], [], [], 0, Sealed(Content([F.Crypto(0, [0x02])], Whole)))

  function HandshakeWith(content: Content): Spec {
    Spec(0xE0, 1, [], [], [], 1, Sealed(content))
  }

  /** Flights that are delivered exist, from the first state of a run on, whatever the Handshake packet holds:
      frames and nothing else, a close, or a frame cut short. */
  lemma FlightArrives(content: Content)
    requires content.Valid() && !content.ending.Refused? && 3 <= |content.Bytes()| < U32
    ensures var setup := Setup([], [], Keys(TOY, TOY), WILLING, Plain);
            var s := Start(setup);
            var initials, later := [HELLO], [HandshakeWith(content)];
            && Flight(s, initials, later, TOY, setup) && Inv(s, setup) && s.status.Running?
            && Passes(s, initials, setup) && ToldAll(initials) == [[0x02]] && ToldAll(later) == content.Told()
  {
    hide Inv;
    hide PumpEngine;
    hide Feds;
    hide Heeds;
    hide ToldAll;
    hide VerdictOf;
    hide Send;
    hide HandshakeWith;
    hide Content.Valid;
    hide Content.Told;
    var setup := Setup([], [], Keys(TOY, TOY), WILLING, Plain);
    StartInv(setup);
    ToyIsValid();
    hide DirectionalKeys.Valid;
    StartRuns(setup);
    hide Start;
    WillingIsValid();
    hide Tls.Valid;
    HelloFacts();
    WithFacts(content);
    hide ValidSpecs;
    var s := Start(setup);
    WillingPump(s.client);
    assert Feds([[0x02]]) == [Fed([0x02])] by { OneFed([0x02]); }
    assert s.history + [Fed([0x02])] == [Drained] + [Fed([0x02])];
  }

  lemma OneFed(x: seq<byte>)
    ensures Feds([x]) == [Fed(x)]
  {
    assert [x][1..] == [];
  }

  lemma WillingIsValid()
    ensures WILLING.Valid()
  {
  }

  lemma {:induction false} WillingAccepts(h: seq<Event>, fed: seq<seq<byte>>, chunks: seq<seq<byte>>)
    ensures F.Accepts(Listening(WILLING, h), fed, chunks)
    decreases |chunks|
  {
    if chunks != [] { WillingAccepts(h, fed + [chunks[0]], chunks[1..]); }
  }

  lemma HelloFacts()
    ensures ValidSpecs([HELLO]) && ToldAll([HELLO]) == [[0x02]] && VerdictOf([HELLO]).None?
    ensures TypeBits(HELLO.first) == INITIAL && forall h :: Heeds(WILLING, h, [HELLO], TOY, TOY)
  {
    var content := HELLO.body.content;
    assert content.frames[1..] == [] && F.EncodeFrames([]) == [];
    assert F.EncodeFrame(content.frames[0]) == [0x06, 0, 1, 0x02];
    assert content.Bytes() == [0x06, 0, 1, 0x02];
    assert F.Payloads(content.frames) == [[0x02]] + [];
    assert [HELLO][1..] == [] && content.Told() == [[0x02]] && ToldAll([]) == [];
    forall h: seq<Event> ensures Heeds(WILLING, h, [HELLO], TOY, TOY) {
      WillingAccepts(h, [], F.Payloads(content.frames));
    }
  }

  lemma WithFacts(content: Content)
    requires content.Valid() && !content.ending.Refused? && 3 <= |content.Bytes()| < U32
    ensures var spec := HandshakeWith(content);
            && ValidSpecs([spec]) && ToldAll([spec]) == content.Told() && TypeBits(spec.first) == HANDSHAKE
            && forall h :: Heeds(WILLING, h, [spec], TOY, TOY)
  {
    hide Content.Valid;
    hide Content.Bytes;
    hide Content.Told;
    hide Content.Lesson;
    var spec := HandshakeWith(content);
    Pow256Values();
    assert spec.Valid();
    assert [spec][1..] == [] && ToldAll([]) == [] && content.Told() + [] == content.Told();
    forall h: seq<Event> ensures Heeds(WILLING, h, [spec], TOY, TOY) {
      WillingAccepts(h, [], F.Payloads(content.frames));
    }
  }

  lemma WillingPump(c: Client)
    requires WILLING.Valid() && c.halt.None?
    ensures var h := [Drained] + [Fed([0x02])];
            PumpEngine(c, WILLING, h, Sending).client == c.(handshakeKeys := Some(Keys(TOY, TOY)))
  {
    var h := [Drained] + [Fed([0x02])];
    var c' := c.(handshakeKeys := Some(Keys(TOY, TOY)));
    assert Step(c, WILLING.write(h), Sending) == c';
    assert WILLING.write(h + [Drained]).Quiet();
    assert PumpEngine(c', WILLING, h + [Drained], Sending).client == c';
  }

  /** Under a working suite the first flight of a one-byte ClientHello goes out. */
  lemma StartRuns(setup: Setup)
    requires setup.dcid == [] && setup.scid == [] && setup.initial.local.Valid()
    requires setup.tls.write([]) == Emission([0x01], None)
    ensures Start(setup).status == Running && Start(setup).history == [Drained] && Start(setup).client.halt.None?
    ensures Start(setup).client.handshakeKeys.None? && Start(setup).client.oneRttKeys.None?
  {
    hide TrySeal;
    PrefixLength(INITIAL, [], []);
    TrySealWorks(HeaderToPn(INITIAL, [], [], [0x01]), 0, Plaintext(INITIAL, [], [], [0x01]), setup.initial.local);
  }

  /** A suite that cannot seal. */
  const BROKEN := DirectionalKeys((pn, aad, pt) => None, TOY.open, TOY.mask)

  /** An engine that hands over a broken suite and then has something to send. */
  const CARELESS := Tls(
    h => if h == [] then Emission([0x01], None)
         else if h == [Drained] then Emission([], Some(ToHandshake(Keys(BROKEN, TOY))))
         else if h == [Drained, Drained] then Emission([0x14], None) else Emission([], None),
    (h, chunk) => true, h => true, h => if |h| < 3 then 3 - |h| else 0)

  lemma CarelessIsValid()
    ensures CARELESS.Valid()
  {
    forall h: seq<Event> | !CARELESS.write(h).Quiet() ensures CARELESS.backlog(h + [Drained]) < CARELESS.backlog(h) {
      assert h == [] || h == [Drained] || h == [Drained, Drained];
    }
  }

  lemma CarelessPump(c: Client)
    requires CARELESS.Valid() && c.halt.None? && c.handshakeKeys.None? && c.oneRttKeys.None?
    ensures var p := PumpEngine(c, CARELESS, [Drained], Sending).client;
            p.halt == Some(Halt(Handshake, false)) && p.sent == c.sent && p.wire == c.wire
  {
    hide Buildable;
    var h := [Drained] + [Drained];
    assert h == [Drained, Drained];
    var c' := c.(handshakeKeys := Some(Keys(BROKEN, TOY)));
    assert Step(c, CARELESS.write([Drained]), Sending) == c';
    SmallFits(Handshake, c.dcid, c.scid, [0x14]);
    assert Send(c', Handshake, [0x14], BROKEN) == c'.(halt := Some(Halt(Handshake, false)));
    assert Step(c', CARELESS.write(h), Sending) == c'.(halt := Some(Halt(Handshake, false)));
  }

  /** A suite that cannot seal does end a run, with nothing sent in its epoch. */
  lemma SealFailureEndsARun()
    ensures var setup := Setup([], [], Keys(TOY, TOY), CARELESS, Plain);
            && setup.tls.Valid()
            && var r := Run([Received([])], setup);
               r.status == Over(SealFailed(Handshake)) && r.client.sent == Start(setup).client.sent
  {
    hide Send;
    hide PumpEngine;
    hide Process;
    CarelessIsValid();
    ToyIsValid();
    hide Tls.Valid;
    hide DirectionalKeys.Valid;
    var setup := Setup([], [], Keys(TOY, TOY), CARELESS, Plain);
    StartRuns(setup);
    hide Start;
    assert [Received([])][..0] == [];
    var s := Start(setup);
    assert Run([], setup) == s;
    ReceiveEnd(s, [], setup);
    CarelessPump(s.client);
    hide Receive;
    assert Run([Received([])], setup) == Advance(s, Received([]), setup);
  }

  // ---------------------------------------------------------------------------------------
  // Offsets on the wire
  // ---------------------------------------------------------------------------------------

  /** The CRYPTO data of these packets. */
  ghost function Chunks(sent: seq<Sent>): (r: seq<seq<byte>>)
    decreases |sent|
  {
    if sent == [] then [] else [sent[0].crypto] + Chunks(sent[1..])
  }

  lemma {:induction false} CarryingAll(sent: seq<Sent>)
    requires forall i :: 0 <= i < |sent| ==> sent[i].crypto != []
    ensures F.Carrying(Chunks(sent)) == |sent|
    decreases |sent|
  {
    if sent != [] {
      assert Chunks(sent)[1..] == Chunks(sent[1..]);
      CarryingAll(sent[1..]);
    }
  }

  lemma {:induction false} InSpaceFrom(sent: seq<Sent>, space: Space)
    requires NonEmpty(sent, space)
    ensures forall k :: 0 <= k < |InSpace(sent, space)| ==> InSpace(sent, space)[k].crypto != []
  {
    if sent != [] { InSpaceFrom(sent[..|sent| - 1], space); }
  }

  /** The CRYPTO frames of one number space that a receiver that honours offsets reads off the wire. */
  ghost function SeenIn(wire: seq<Wired>, space: Space, cidLength: nat): (r: seq<F.Frame>) {
    if wire == [] then []
    else
      var n := |wire| - 1;
      var seen := See(wire[n], cidLength);
      SeenIn(wire[..n], space, cidLength) + if seen.Some? && seen.value.space == space then seen.value.frames else []
  }

  lemma {:induction false} ChunksAppend(sent: seq<Sent>, s: Sent)
    ensures F.AtZero(Chunks(sent + [s])) == F.AtZero(Chunks(sent)) + [F.Crypto(0, s.crypto)]
    decreases |sent|
  {
    if sent == [] {
      assert sent + [s] == [s] && [s][1..] == [];
      assert Chunks([s]) == [s.crypto] && [s.crypto][1..] == [];
    } else {
      assert (sent + [s])[1..] == sent[1..] + [s];
      ChunksAppend(sent[1..], s);
      assert Chunks(sent + [s])[1..] == Chunks(sent[1..] + [s]) && Chunks(sent)[1..] == Chunks(sent[1..]);
    }
  }

  lemma {:induction false} SeenInOrder(sent: seq<Sent>, wire: seq<Wired>, space: Space, cidLength: nat)
    requires |sent| == |wire|
    requires forall i :: 0 <= i < |sent| ==>
               See(wire[i], cidLength) == Some(Seen(sent[i].space, sent[i].pn, [F.Crypto(0, sent[i].crypto)]))
    ensures SeenIn(wire, space, cidLength) == F.AtZero(Chunks(InSpace(sent, space)))
    decreases |sent|
  {
    hide See;
    if sent != [] {
      var n := |sent| - 1;
      SeenInOrder(sent[..n], wire[..n], space, cidLength);
      ChunksAppend(InSpace(sent[..n], space), sent[n]);
      var before := InSpace(sent[..n], space);
      assert before + [] == before && SeenIn(wire[..n], space, cidLength) + [] == SeenIn(wire[..n], space, cidLength);
    }
  }

  /** Over every run with working suites: what a receiver that honours offsets reads off the wire in a number
      space is the data of the packets sent there, in order, every chunk at offset 0. */
  lemma WireStream(inputs: seq<Input>, setup: Setup, space: Space)
    requires setup.tls.Valid() && |setup.dcid| <= MAX_CID_LEN && |setup.scid| <= MAX_CID_LEN
    requires var c := Run(inputs, setup).client;
             |c.sent| <= U32 && forall i :: 0 <= i < |c.wire| ==> c.wire[i].keys.Valid()
    ensures var c := Run(inputs, setup).client;
            SeenIn(c.wire, space, |setup.dcid|) == F.AtZero(Chunks(InSpace(c.sent, space)))
  {
    hide Run;
    hide See;
    hide Fits;
    hide Readable;
    hide Supplied;
    hide WellNumbered;
    hide OneRttLast;
    hide OnlyInjection;
    hide InSpace;
    hide DirectionalKeys.Valid;
    var c := Run(inputs, setup).client;
    RunInv(inputs, setup);
    forall i | 0 <= i < |c.sent|
      ensures See(c.wire[i], |setup.dcid|) == Some(Seen(c.sent[i].space, c.sent[i].pn, [F.Crypto(0, c.sent[i].crypto)]))
    {
      DatagramsReadable(inputs, setup, i);
    }
    SeenInOrder(c.sent, c.wire, space, |setup.dcid|);
  }

  /** Over every run with working suites: the CRYPTO frames on the wire in a number space the driver does not
      inject into give a receiver that honours offsets the stream the engine emitted if and only if the run
      sent at most one packet there. */
  lemma SentStreamIff(inputs: seq<Input>, setup: Setup, space: Space)
    requires setup.tls.Valid() && space != OneRtt && |setup.dcid| <= MAX_CID_LEN && |setup.scid| <= MAX_CID_LEN
    requires space == Handshake ==> setup.mode.Plain? || setup.mode.epoch == AtOneRtt
    requires var c := Run(inputs, setup).client;
             |c.sent| <= U32 && forall i :: 0 <= i < |c.wire| ==> c.wire[i].keys.Valid()
    ensures var c := Run(inputs, setup).client;
            F.Counts(F.Positions(SeenIn(c.wire, space, |setup.dcid|)), 0) <==> |InSpace(c.sent, space)| <= 1
  {
    hide Run;
    hide InSpace;
    hide SeenIn;
    hide WellNumbered;
    hide OneRttLast;
    hide OnWire;
    hide OnlyInjection;
    hide NonEmpty;
    hide FromEngine;
    hide DirectionalKeys.Valid;
    RunInv(inputs, setup);
    WireStream(inputs, setup, space);
    var packets := InSpace(Run(inputs, setup).client.sent, space);
    InSpaceFrom(Run(inputs, setup).client.sent, space);
    CarryingAll(packets);
    F.BuiltInOrderIff(Chunks(packets), 0);
    F.StreamFedIff(F.AtZero(Chunks(packets)), 0);
  }
}
