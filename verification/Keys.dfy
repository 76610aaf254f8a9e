/**
 Sealing under one entry of the key table: the monotone packet-number check, and single calls
 against batches.
 */
module Keys {
  import opened Bytes
  import opened Protection

  /** A payload to seal: `buf` is the whole caller buffer, plaintext first, room for the tag after. */
  datatype Slot = Slot(pn: nat, header: seq<byte>, buf: seq<byte>, payloadLen: nat)

  /** The single call records the packet number before sealing, the batch only once a slot succeeds. */
  datatype Mode = Single | Batch

  /** State and outputs after one slot. `result` is the ciphertext length, None standing for -1;
      `sealed` says whether the AEAD was run under this packet number. */
  datatype Step = Step(last: Option<nat>, buf: seq<byte>, result: Option<nat>, sealed: bool)

  predicate Fresh(last: Option<nat>, pn: nat) {
    last.None? || last.value < pn
  }

  /** `rlsm_keys_local_encrypt`, and the body of the loop in `rlsm_keys_batch_encrypt`. The payload
      is overwritten before the room for the tag is checked. */
  function Encrypt(mode: Mode, last: Option<nat>, s: Slot, keys: DirectionalKeys): (r: Step)
    requires keys.WellSized()
    ensures |r.buf| == |s.buf|
  {
    if s.payloadLen > |s.buf| || !Fresh(last, s.pn) then Step(last, s.buf, None, false)
    else
      var early := if mode == Single then Some(s.pn) else last;
      match keys.seal(s.pn, s.header, s.buf[..s.payloadLen])
      case None => Step(early, s.buf, None, false)
      case Some(ct) =>
        if s.payloadLen + TAG_LEN > |s.buf| then
          Step(early, ct[..s.payloadLen] + s.buf[s.payloadLen..], None, true)
        else Step(Some(s.pn), ct + s.buf[|ct|..], Some(|ct|), true)
  }

  /** A slot as one of the two entry points presents it. A batch call is a run of `Batch` events. */
  datatype Event = Event(mode: Mode, slot: Slot)

  /** Every event's step, for any interleaving of calls in the order the table lock admits them. */
  ghost function Run(last: Option<nat>, events: seq<Event>, keys: DirectionalKeys): (r: seq<Step>)
    requires keys.WellSized()
    ensures |r| == |events|
  {
    if events == [] then []
    else
      var n := |events| - 1;
      var before := Run(last, events[..n], keys);
      before + [Encrypt(events[n].mode, LastOf(last, before), events[n].slot, keys)]
  }

  ghost function LastOf(last: Option<nat>, steps: seq<Step>): Option<nat> {
    if steps == [] then last else steps[|steps| - 1].last
  }

  // ---------------------------------------------------------------------------------------
  // Packet numbers over whole runs
  // ---------------------------------------------------------------------------------------

  /** Packet numbers of the events reported successful. */
  ghost function Reported(events: seq<Event>, steps: seq<Step>): (r: seq<nat>)
    requires |events| == |steps|
  {
    if events == [] then []
    else
      var n := |events| - 1;
      Reported(events[..n], steps[..n]) + (if steps[n].result.Some? then [events[n].slot.pn] else [])
  }

  /** Packet numbers of the events that ran the AEAD. */
  ghost function Sealed(events: seq<Event>, steps: seq<Step>): (r: seq<nat>)
    requires |events| == |steps|
  {
    if events == [] then []
    else
      var n := |events| - 1;
      Sealed(events[..n], steps[..n]) + (if steps[n].sealed then [events[n].slot.pn] else [])
  }

  ghost predicate Increasing(s: seq<nat>) {
    forall i, j :: 0 <= i < j < |s| ==> s[i] < s[j]
  }

  /** s is increasing and `last` is at or past its end. */
  ghost predicate Covered(last: Option<nat>, s: seq<nat>) {
    Increasing(s) && (s != [] ==> last.Some? && s[|s| - 1] <= last.value)
  }

  lemma RunStep(last: Option<nat>, events: seq<Event>, keys: DirectionalKeys)
    requires keys.WellSized() && events != []
    ensures var n := |events| - 1;
            var before := Run(last, events[..n], keys);
            && Run(last, events, keys)[..n] == before
            && Run(last, events, keys)[n] == Encrypt(events[n].mode, LastOf(last, before), events[n].slot, keys)
  {
  }

  /** Over every interleaving of single and batched calls, the packet numbers reported as
      successful are strictly increasing and never run ahead of `last_local_pn`. */
  lemma {:induction false} ReportedIncreasing(events: seq<Event>, keys: DirectionalKeys)
    requires keys.WellSized()
    ensures var steps := Run(None, events, keys);
            Covered(LastOf(None, steps), Reported(events, steps))
    decreases |events|
  {
    hide Encrypt;
    if events != [] {
      var n := |events| - 1;
      ReportedIncreasing(events[..n], keys);
      RunStep(None, events, keys);
      var before := Run(None, events[..n], keys);
      EncryptAdvances(events[n].mode, LastOf(None, before), events[n].slot, keys);
      AppendCovered(LastOf(None, before), Run(None, events, keys)[n].last,
                    Reported(events[..n], before), events[n].slot.pn);
    }
  }

  lemma AppendCovered(last: Option<nat>, last': Option<nat>, s: seq<nat>, pn: nat)
    requires Covered(last, s)
    ensures last' == last ==> Covered(last', s + [])
    ensures Fresh(last, pn) && last' == Some(pn) ==> Covered(last', s + [pn]) && Covered(last', s + [])
  {
    assert s + [] == s;
  }

  /** A slot is reported or sealed only under a fresh packet number, and every change of `last`
      is to that number. */
  lemma EncryptAdvances(mode: Mode, last: Option<nat>, s: Slot, keys: DirectionalKeys)
    requires keys.WellSized()
    ensures var t := Encrypt(mode, last, s, keys);
            && (t.last == last || (Fresh(last, s.pn) && t.last == Some(s.pn)))
            && (t.result.Some? ==> t.sealed && Fresh(last, s.pn) && t.last == Some(s.pn))
            && (t.sealed ==> Fresh(last, s.pn))
            && (t.sealed && (mode == Single || Roomy(s)) ==> t.last == Some(s.pn))
  {
  }

  /** The buffer has room for the tag, or is refused before sealing. */
  predicate Roomy(s: Slot) {
    s.payloadLen + TAG_LEN <= |s.buf| || s.payloadLen > |s.buf|
  }

  /** The stronger promise of the nonce check, that no packet number is ever sealed twice, holds
      over every run whose batched slots leave room for the tag. */
  lemma {:induction false} SealedIncreasing(events: seq<Event>, keys: DirectionalKeys)
    requires keys.WellSized()
    requires forall i :: 0 <= i < |events| && events[i].mode == Batch ==> Roomy(events[i].slot)
    ensures var steps := Run(None, events, keys);
            Covered(LastOf(None, steps), Sealed(events, steps))
    decreases |events|
  {
    hide Encrypt;
    if events != [] {
      var n := |events| - 1;
      SealedIncreasing(events[..n], keys);
      RunStep(None, events, keys);
      var before := Run(None, events[..n], keys);
      EncryptAdvances(events[n].mode, LastOf(None, before), events[n].slot, keys);
      AppendCovered(LastOf(None, before), Run(None, events, keys)[n].last,
                    Sealed(events[..n], before), events[n].slot.pn);
    }
  }

  /** The condition is exact for a slot that gets as far as the AEAD: offering its packet number
      again, through either entry point, runs the AEAD a second time if and only if the first offer
      was batched and lacked room for the tag. */
  lemma ResealedIff(mode: Mode, mode': Mode, last: Option<nat>, s: Slot, again: Slot, keys: DirectionalKeys)
    requires keys.Valid()
    requires Fresh(last, s.pn) && s.payloadLen <= |s.buf|
    requires again.pn == s.pn && again.payloadLen <= |again.buf|
    ensures var first := Encrypt(mode, last, s, keys);
            first.sealed && (Encrypt(mode', first.last, again, keys).sealed <==> mode == Batch && !Roomy(s))
  {
  }

  /** The last packet number only grows. */
  lemma {:induction false} LastGrows(last: Option<nat>, events: seq<Event>, keys: DirectionalKeys)
    requires keys.WellSized()
    ensures var l := LastOf(last, Run(last, events, keys)); last.Some? ==> l.Some? && last.value <= l.value
    decreases |events|
  {
    hide Encrypt;
    hide DirectionalKeys.WellSized;
    if events != [] {
      var n := |events| - 1;
      LastGrows(last, events[..n], keys);
      RunStep(last, events, keys);
      EncryptAdvances(events[n].mode, LastOf(last, Run(last, events[..n], keys)), events[n].slot, keys);
    }
  }

  /** The AEAD is only ever run above the packet number a run starts from. */
  lemma {:induction false} SealedAbove(last: Option<nat>, events: seq<Event>, keys: DirectionalKeys)
    requires keys.WellSized()
    ensures forall pn :: pn in Sealed(events, Run(last, events, keys)) ==> Fresh(last, pn)
    decreases |events|
  {
    hide Encrypt;
    hide DirectionalKeys.WellSized;
    if events != [] {
      var n := |events| - 1;
      SealedAbove(last, events[..n], keys);
      LastGrows(last, events[..n], keys);
      RunStep(last, events, keys);
      EncryptAdvances(events[n].mode, LastOf(last, Run(last, events[..n], keys)), events[n].slot, keys);
    }
  }

  /** The i-th event ran the AEAD through the batch call and had no room for the tag. */
  ghost predicate Cramped(events: seq<Event>, steps: seq<Step>, i: nat)
    requires i < |events| == |steps|
  {
    steps[i].sealed && events[i].mode == Batch && !Roomy(events[i].slot)
  }

  /** No such event has a number above the last one recorded: a later success went past it. */
  ghost predicate Recorded(events: seq<Event>, keys: DirectionalKeys)
    requires keys.WellSized()
  {
    var steps := Run(None, events, keys);
    forall i :: 0 <= i < |events| && Cramped(events, steps, i) ==> !Fresh(LastOf(None, steps), events[i].slot.pn)
  }

  /** No continuation of the run puts a number through the AEAD that the run has already used. */
  ghost predicate NeverAgain(events: seq<Event>, keys: DirectionalKeys)
    requires keys.WellSized()
  {
    var steps := Run(None, events, keys);
    forall more: seq<Event> ::
      forall pn :: pn in Sealed(more, Run(LastOf(None, steps), more, keys)) ==> pn !in Sealed(events, steps)
  }

  /** Among the numbers used, those still above the last one recorded come from cramped events. */
  lemma {:induction false} UnrecordedCause(events: seq<Event>, keys: DirectionalKeys, pn: nat) returns (i: nat)
    requires keys.WellSized()
    requires var steps := Run(None, events, keys); pn in Sealed(events, steps) && Fresh(LastOf(None, steps), pn)
    ensures i < |events| && events[i].slot.pn == pn && Cramped(events, Run(None, events, keys), i)
    decreases |events|
  {
    hide Encrypt;
    hide DirectionalKeys.WellSized;
    hide Roomy;
    var n := |events| - 1;
    RunStep(None, events, keys);
    var before := Run(None, events[..n], keys);
    EncryptAdvances(events[n].mode, LastOf(None, before), events[n].slot, keys);
    if pn in Sealed(events[..n], before) {
      i := UnrecordedCause(events[..n], keys, pn);
      assert Run(None, events, keys)[..n][i] == Run(None, events, keys)[i];
    } else {
      i := n;
    }
  }

  lemma {:induction false} SealedAt(events: seq<Event>, steps: seq<Step>, i: nat)
    requires i < |events| == |steps| && steps[i].sealed
    ensures events[i].slot.pn in Sealed(events, steps)
    decreases |events|
  {
    var n := |events| - 1;
    if i < n { SealedAt(events[..n], steps[..n], i); }
  }

  /** With working keys, no continuation reuses a number of the run if and only if every batched slot
      that was sealed without room for the tag has been passed by a later recorded number. */
  lemma ReuseIff(events: seq<Event>, keys: DirectionalKeys)
    requires keys.Valid()
    ensures NeverAgain(events, keys) <==> Recorded(events, keys)
  {
    hide Run;
    hide Sealed;
    hide Encrypt;
    hide Cramped;
    hide DirectionalKeys.WellSized;
    var steps := Run(None, events, keys);
    var last := LastOf(None, steps);
    if Recorded(events, keys) {
      forall more: seq<Event>, pn | pn in Sealed(more, Run(last, more, keys))
        ensures pn !in Sealed(events, steps)
      {
        SealedAbove(last, more, keys);
        if pn in Sealed(events, steps) { var i := UnrecordedCause(events, keys, pn); }
      }
    } else {
      var i :| 0 <= i < |events| && Cramped(events, steps, i) && Fresh(last, events[i].slot.pn);
      CrampedSeals(events, steps, i);
      SealedAt(events, steps, i);
      var more := [Event(Single, Slot(events[i].slot.pn, [], Zeros(TAG_LEN), 0))];
      SealsOne(last, events[i].slot.pn, keys);
      assert events[i].slot.pn in Sealed(more, Run(last, more, keys));
    }
  }

  lemma CrampedSeals(events: seq<Event>, steps: seq<Step>, i: nat)
    requires i < |events| == |steps| && Cramped(events, steps, i)
    ensures steps[i].sealed
  {
  }

  lemma SealsOne(last: Option<nat>, pn: nat, keys: DirectionalKeys)
    requires keys.Valid() && Fresh(last, pn)
    ensures var more := [Event(Single, Slot(pn, [], Zeros(TAG_LEN), 0))];
            pn in Sealed(more, Run(last, more, keys))
  {
    var more := [Event(Single, Slot(pn, [], Zeros(TAG_LEN), 0))];
    assert more[..0] == [];
    var steps := Run(last, more, keys);
    assert steps == [] + [Encrypt(Single, last, more[0].slot, keys)];
    assert steps[..0] == [] && Sealed(more, steps) == [] + [pn];
  }

  lemma TwoEvents(last: Option<nat>, a: Event, b: Event, keys: DirectionalKeys)
    requires keys.WellSized()
    ensures var x := Encrypt(a.mode, last, a.slot, keys);
            var y := Encrypt(b.mode, x.last, b.slot, keys);
            Run(last, [a, b], keys) == [x, y]
  {
    hide Encrypt;
    hide DirectionalKeys.WellSized;
    assert [a, b][..1] == [a] && [a][..0] == [];
    assert Run(last, [a], keys) == [] + [Encrypt(a.mode, last, a.slot, keys)];
  }

  lemma TwoSealed(a: Event, b: Event, x: Step, y: Step)
    requires x.sealed && y.sealed
    ensures Sealed([a, b], [x, y]) == [a.slot.pn, b.slot.pn]
  {
    assert [a, b][..1] == [a] && [x, y][..1] == [x] && [a][..0] == [] && [x][..0] == [];
    assert Sealed([a], [x]) == [] + [a.slot.pn];
  }

  /** The failing family is inhabited: under every working suite, two batched offers of packet
      number 1 without room for the tag both run the AEAD. */
  lemma ResealHappens(keys: DirectionalKeys)
    requires keys.Valid()
    ensures var e := Event(Batch, Slot(1, [], Zeros(4), 4));
            Sealed([e, e], Run(None, [e, e], keys)) == [1, 1] && !Recorded([e, e], keys)
  {
    var e := Event(Batch, Slot(1, [], Zeros(4), 4));
    var x := Encrypt(Batch, None, e.slot, keys);
    ResealedIff(Batch, Batch, None, e.slot, e.slot, keys);
    assert x.last == None;
    hide Encrypt;
    TwoEvents(None, e, e, keys);
    TwoSealed(e, e, x, x);
    assert Cramped([e, e], [x, x], 0);
  }

  // ---------------------------------------------------------------------------------------
  // Batch against single
  // ---------------------------------------------------------------------------------------

  ghost function AsEvents(mode: Mode, slots: seq<Slot>): (r: seq<Event>)
    ensures |r| == |slots|
  {
    seq(|slots|, i requires 0 <= i < |slots| => Event(mode, slots[i]))
  }

  /** The slot passes the checks made before sealing, and then fails. */
  ghost predicate FailsLate(last: Option<nat>, s: Slot, keys: DirectionalKeys) {
    && s.payloadLen <= |s.buf| && Fresh(last, s.pn)
    && (keys.seal(s.pn, s.header, s.buf[..s.payloadLen]).None? || !Roomy(s))
  }

  /** For one slot the two entry points differ exactly when it fails late, and then only in `last`. */
  lemma StepsAgreeIff(last: Option<nat>, s: Slot, keys: DirectionalKeys)
    requires keys.WellSized()
    ensures Encrypt(Single, last, s, keys) == Encrypt(Batch, last, s, keys) <==> !FailsLate(last, s, keys)
    ensures Encrypt(Single, last, s, keys).(last := None) == Encrypt(Batch, last, s, keys).(last := None)
  {
  }

  /** No slot of the batch, met in the state the batch has reached by then, fails late. */
  ghost predicate NoneFailsLate(last: Option<nat>, slots: seq<Slot>, keys: DirectionalKeys)
    requires keys.WellSized()
  {
    slots == [] ||
    var init := slots[..|slots| - 1];
    && NoneFailsLate(last, init, keys)
    && !FailsLate(LastOf(last, Run(last, AsEvents(Batch, init), keys)), slots[|slots| - 1], keys)
  }

  /** A batch call is exactly the left-to-right sequence of single calls, in ciphertexts, per-slot
      results and every intermediate `last_local_pn`, if and only if no slot of it fails late. */
  lemma {:induction false} BatchIsSinglesIff(last: Option<nat>, slots: seq<Slot>, keys: DirectionalKeys)
    requires keys.WellSized()
    ensures Run(last, AsEvents(Single, slots), keys) == Run(last, AsEvents(Batch, slots), keys)
       <==> NoneFailsLate(last, slots, keys)
    decreases |slots|
  {
    hide Encrypt;
    hide FailsLate;
    hide DirectionalKeys.WellSized;
    if slots == [] {
      assert AsEvents(Single, slots) == [] == AsEvents(Batch, slots);
    } else {
      var n := |slots| - 1;
      BatchIsSinglesIff(last, slots[..n], keys);
      RunSlots(Single, last, slots, keys);
      RunSlots(Batch, last, slots, keys);
      var ones, many := Run(last, AsEvents(Single, slots[..n]), keys), Run(last, AsEvents(Batch, slots[..n]), keys);
      StepsAgreeIff(LastOf(last, many), slots[n], keys);
      AppendInjective(ones, many, Encrypt(Single, LastOf(last, ones), slots[n], keys),
                      Encrypt(Batch, LastOf(last, many), slots[n], keys));
    }
  }

  lemma AppendInjective<T>(a: seq<T>, b: seq<T>, x: T, y: T)
    requires |a| == |b|
    ensures a + [x] == b + [y] <==> a == b && x == y
  {
    assert (a + [x])[..|a|] == a && (b + [y])[..|b|] == b;
    assert (a + [x])[|a|] == x && (b + [y])[|b|] == y;
  }

  lemma RunSlots(mode: Mode, last: Option<nat>, slots: seq<Slot>, keys: DirectionalKeys)
    requires keys.WellSized() && slots != []
    ensures var n := |slots| - 1;
            var before := Run(last, AsEvents(mode, slots[..n]), keys);
            Run(last, AsEvents(mode, slots), keys) == before + [Encrypt(mode, LastOf(last, before), slots[n], keys)]
  {
    hide Encrypt;
    SplitEvents(mode, slots);
  }

  lemma SplitEvents(mode: Mode, slots: seq<Slot>)
    requires slots != []
    ensures var n := |slots| - 1;
            && AsEvents(mode, slots)[..n] == AsEvents(mode, slots[..n])
            && AsEvents(mode, slots)[n] == Event(mode, slots[n])
  {
  }

  /** With buffers that have room for the tag and a cipher that does not fail, nothing fails late. */
  lemma BatchIsSingles(last: Option<nat>, slots: seq<Slot>, keys: DirectionalKeys)
    requires keys.Valid()
    requires forall i :: 0 <= i < |slots| ==> Roomy(slots[i])
    ensures Run(last, AsEvents(Single, slots), keys) == Run(last, AsEvents(Batch, slots), keys)
  {
    BatchIsSinglesIff(last, slots, keys);
    RoomyNeverFailsLate(last, slots, keys);
  }

  lemma {:induction false} RoomyNeverFailsLate(last: Option<nat>, slots: seq<Slot>, keys: DirectionalKeys)
    requires keys.Valid()
    requires forall i :: 0 <= i < |slots| ==> Roomy(slots[i])
    ensures NoneFailsLate(last, slots, keys)
    decreases |slots|
  {
    hide Encrypt;
    if slots != [] { RoomyNeverFailsLate(last, slots[..|slots| - 1], keys); }
  }

  /** -1 is the source's per-slot failure value. */
  function Code(result: Option<nat>): int {
    match result case Some(n) => n case None => -1
  }

  ghost function Codes(steps: seq<Step>): (r: seq<int>) {
    if steps == [] then [] else Codes(steps[..|steps| - 1]) + [Code(steps[|steps| - 1].result)]
  }

  /** The slot passes the checks made before sealing. */
  predicate Reaches(last: Option<nat>, s: Slot) {
    s.payloadLen <= |s.buf| && Fresh(last, s.pn)
  }

  ghost function BatchLast(last: Option<nat>, slots: seq<Slot>, keys: DirectionalKeys): (r: Option<nat>)
    requires keys.WellSized()
  {
    LastOf(last, Run(last, AsEvents(Batch, slots), keys))
  }

  /** The highest packet number that has reached sealing in a batch, successful or not. */
  ghost function HighWater(last: Option<nat>, slots: seq<Slot>, keys: DirectionalKeys): (r: Option<nat>)
    requires keys.WellSized()
  {
    if slots == [] then last
    else
      var n := |slots| - 1;
      var m := HighWater(last, slots[..n], keys);
      if Reaches(BatchLast(last, slots[..n], keys), slots[n]) && Fresh(m, slots[n].pn) then Some(slots[n].pn) else m
  }

  /** No slot of the batch succeeds at or below a number that failed late before it. */
  ghost predicate NoneOvertaken(last: Option<nat>, slots: seq<Slot>, keys: DirectionalKeys)
    requires keys.WellSized()
  {
    slots == [] ||
    var n := |slots| - 1;
    && NoneOvertaken(last, slots[..n], keys)
    && (Encrypt(Batch, BatchLast(last, slots[..n], keys), slots[n], keys).result.Some? ==>
          Fresh(HighWater(last, slots[..n], keys), slots[n].pn))
  }

  ghost predicate AtMost(a: Option<nat>, b: Option<nat>) {
    a.Some? ==> b.Some? && a.value <= b.value
  }

  /** One slot met by the single call at m and by the batch at or below m. */
  lemma StepCompare(b: Option<nat>, m: Option<nat>, s: Slot, keys: DirectionalKeys)
    requires keys.WellSized() && AtMost(b, m)
    ensures var one, many := Encrypt(Single, m, s, keys), Encrypt(Batch, b, s, keys);
            && (one.result == many.result <==> (many.result.Some? ==> Fresh(m, s.pn)))
            && one.last == (if Reaches(b, s) && Fresh(m, s.pn) then Some(s.pn) else m)
            && AtMost(many.last, one.last)
  {
  }

  /** Up to the first difference in codes, the single calls stand at the high-water mark. */
  lemma {:induction false} CodesAgreeIff(last: Option<nat>, slots: seq<Slot>, keys: DirectionalKeys)
    requires keys.WellSized()
    ensures var ones := Run(last, AsEvents(Single, slots), keys);
            var many := Run(last, AsEvents(Batch, slots), keys);
            && (Codes(ones) == Codes(many) <==> NoneOvertaken(last, slots, keys))
            && (NoneOvertaken(last, slots, keys) ==> LastOf(last, ones) == HighWater(last, slots, keys))
            && AtMost(BatchLast(last, slots, keys), HighWater(last, slots, keys))
    decreases |slots|
  {
    hide Encrypt;
    hide Fresh;
    hide AsEvents;
    hide DirectionalKeys.WellSized;
    if slots == [] {
      NoEvents(last, keys);
    } else {
      var n := |slots| - 1;
      var init, s := slots[..n], slots[n];
      CodesAgreeIff(last, init, keys);
      RunSlots(Single, last, slots, keys);
      RunSlots(Batch, last, slots, keys);
      var b, m := BatchLast(last, init, keys), HighWater(last, init, keys);
      StepCompare(b, m, s, keys);
      var ones, many := Run(last, AsEvents(Single, init), keys), Run(last, AsEvents(Batch, init), keys);
      var x, y := Encrypt(Single, LastOf(last, ones), s, keys), Encrypt(Batch, b, s, keys);
      CodesAppend(ones, x);
      CodesAppend(many, y);
      AppendInjective(Codes(ones), Codes(many), Code(x.result), Code(y.result));
    }
  }

  lemma NoEvents(last: Option<nat>, keys: DirectionalKeys)
    requires keys.WellSized()
    ensures Run(last, AsEvents(Single, []), keys) == [] == Run(last, AsEvents(Batch, []), keys)
  {
  }

  lemma CodesAppend(steps: seq<Step>, t: Step)
    ensures Codes(steps + [t]) == Codes(steps) + [Code(t.result)] && |Codes(steps)| == |steps|
  {
    assert (steps + [t])[..|steps|] == steps;
    CodesLength(steps);
  }

  lemma {:induction false} CodesLength(steps: seq<Step>)
    ensures |Codes(steps)| == |steps|
  {
    if steps != [] { CodesLength(steps[..|steps| - 1]); }
  }

  /** What a caller can see, the codes and the final `last_local_pn`, is that of the single calls if
      and only if no slot succeeds at or below an earlier late failure, and the batch ends at its
      high-water mark: every late failure is followed by a success above it. */
  lemma SameOutcomeIff(last: Option<nat>, slots: seq<Slot>, keys: DirectionalKeys)
    requires keys.WellSized()
    ensures var ones := Run(last, AsEvents(Single, slots), keys);
            var many := Run(last, AsEvents(Batch, slots), keys);
            Codes(ones) == Codes(many) && LastOf(last, ones) == LastOf(last, many)
            <==> NoneOvertaken(last, slots, keys) && BatchLast(last, slots, keys) == HighWater(last, slots, keys)
  {
    hide Run;
    hide HighWater;
    hide NoneOvertaken;
    CodesAgreeIff(last, slots, keys);
  }

  /** What a batch does to the packet numbers under a working suite, read off its arguments alone: the
      last number recorded, the highest that reached sealing, and whether a success was overtaken. */
  datatype Marks = Marks(last: Option<nat>, high: Option<nat>, orderly: bool)

  function Mark(last: Option<nat>, slots: seq<Slot>): (r: Marks) {
    if slots == [] then Marks(last, last, true)
    else
      var n := |slots| - 1;
      var m, s := Mark(last, slots[..n]), slots[n];
      if s.payloadLen > |s.buf| || !Fresh(m.last, s.pn) then m
      else
        var high := if Fresh(m.high, s.pn) then Some(s.pn) else m.high;
        if s.payloadLen + TAG_LEN > |s.buf| then m.(high := high)
        else Marks(Some(s.pn), high, m.orderly && Fresh(m.high, s.pn))
  }

  lemma StepMarks(last: Option<nat>, s: Slot, keys: DirectionalKeys)
    requires keys.Valid()
    ensures var t := Encrypt(Batch, last, s, keys);
            var done := Reaches(last, s) && s.payloadLen + TAG_LEN <= |s.buf|;
            (t.result.Some? <==> done) && t.last == if done then Some(s.pn) else last
  {
  }

  lemma {:induction false} MarkIsBatch(last: Option<nat>, slots: seq<Slot>, keys: DirectionalKeys)
    requires keys.Valid()
    ensures var m := Mark(last, slots);
            && BatchLast(last, slots, keys) == m.last && HighWater(last, slots, keys) == m.high
            && (NoneOvertaken(last, slots, keys) <==> m.orderly)
    decreases |slots|
  {
    hide Encrypt;
    hide Run;
    hide AsEvents;
    hide Fresh;
    hide DirectionalKeys.WellSized;
    if slots == [] {
      NoEvents(last, keys);
    } else {
      var n := |slots| - 1;
      MarkIsBatch(last, slots[..n], keys);
      RunSlots(Batch, last, slots, keys);
      StepMarks(BatchLast(last, slots[..n], keys), slots[n], keys);
    }
  }

  /** Under a working suite that condition is one on the arguments: packet numbers, payload lengths and
      buffer lengths. */
  lemma SameOutcomeWorkingIff(last: Option<nat>, slots: seq<Slot>, keys: DirectionalKeys)
    requires keys.Valid()
    ensures var ones := Run(last, AsEvents(Single, slots), keys);
            var many := Run(last, AsEvents(Batch, slots), keys);
            var m := Mark(last, slots);
            Codes(ones) == Codes(many) && LastOf(last, ones) == LastOf(last, many) <==> m.orderly && m.last == m.high
  {
    hide Run;
    hide AsEvents;
    hide HighWater;
    hide NoneOvertaken;
    hide Mark;
    SameOutcomeIff(last, slots, keys);
    MarkIsBatch(last, slots, keys);
  }

  /** A batch that differs from its single calls, under every working suite: the second slot reuses
      the number of a first one that had no room for the tag. */
  lemma BatchDiffers(keys: DirectionalKeys)
    requires keys.Valid()
    ensures var slots := [Slot(1, [], Zeros(4), 4), Slot(1, [], Zeros(20), 4)];
            && Codes(Run(None, AsEvents(Single, slots), keys)) == [-1, -1]
            && Codes(Run(None, AsEvents(Batch, slots), keys)) == [-1, 20]
  {
    var a, b := Slot(1, [], Zeros(4), 4), Slot(1, [], Zeros(20), 4);
    forall mode: Mode
      ensures AsEvents(mode, [a, b]) == [Event(mode, a), Event(mode, b)]
    {
    }
    var x, y := Encrypt(Single, None, a, keys), Encrypt(Batch, None, a, keys);
    assert x.last == Some(1) && x.result == None && y.last == None && y.result == None;
    var x', y' := Encrypt(Single, x.last, b, keys), Encrypt(Batch, y.last, b, keys);
    assert x'.result == None && y'.result == Some(20);
    hide Encrypt;
    TwoEvents(None, Event(Single, a), Event(Single, b), keys);
    TwoEvents(None, Event(Batch, a), Event(Batch, b), keys);
    TwoCodes(x, x');
    TwoCodes(y, y');
  }

  lemma TwoCodes(x: Step, y: Step)
    ensures Codes([x, y]) == [Code(x.result), Code(y.result)]
  {
    CodesAppend([], x);
    CodesAppend([x], y);
    assert [] + [x] == [x] && [x] + [y] == [x, y];
  }
}
