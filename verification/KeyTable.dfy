/**
 One entry of the key table at work on memory: sealing in place, and the batch calls, whose buffers
 are pointers and may overlap.
 */
module KeyTable {
  import opened Bytes
  import opened Protection
  import opened Keys

  // ---------------------------------------------------------------------------------------
  // Header protection of one slot
  // ---------------------------------------------------------------------------------------

  /** A packet, where its packet number starts, and the packet-number length the caller gives. */
  datatype HpSlot = HpSlot(pkt: seq<byte>, pnOffset: nat, pnLength: nat)

  predicate HasSample(pkt: seq<byte>, pnOffset: nat) {
    pnOffset + 4 + SAMPLE_LEN <= |pkt|
  }

  /** One slot of `rlsm_keys_batch_header_protect`: the packet afterwards and whether it succeeded. */
  function ProtectSlot(s: HpSlot, keys: DirectionalKeys): (r: (seq<byte>, bool))
    requires keys.WellSized()
    ensures |r.0| == |s.pkt| && (!r.1 ==> r.0 == s.pkt) && (r.1 ==> s.pkt != [])
  {
    if !HasSample(s.pkt, s.pnOffset) || s.pnLength == 0 || s.pnLength > 4 then (s.pkt, false)
    else
      match keys.mask(Sample(s.pkt, s.pnOffset))
      case None => (s.pkt, false)
      case Some(m) => (Protect(s.pkt, s.pnOffset, s.pnLength, m), true)
  }

  /** One slot of `rlsm_keys_batch_header_unprotect`; the length is read off the unmasked first byte. */
  function UnprotectSlot(pkt: seq<byte>, pnOffset: nat, keys: DirectionalKeys): (r: (seq<byte>, Option<nat>))
    requires keys.WellSized()
    ensures |r.0| == |pkt| && (r.1.None? ==> r.0 == pkt) && (r.1.Some? ==> pkt != [])
  {
    if !HasSample(pkt, pnOffset) then (pkt, None)
    else
      match keys.mask(Sample(pkt, pnOffset))
      case None => (pkt, None)
      case Some(m) => var p := Unprotect(pkt, pnOffset, m); (p, Some(PnLength(p[0])))
  }

  /** Protecting and then unprotecting with the peer's matching keys restores every accepted packet
      and reports the length its first byte announced, provided the packet number does not start at
      the first byte and the sender's packet-number slice was no shorter than that length. */
  lemma HpSlotRoundTrip(s: HpSlot, keys: DirectionalKeys)
    requires keys.WellSized() && ProtectSlot(s, keys).1
    requires 1 <= s.pnOffset && PnLength(s.pkt[0]) <= s.pnLength
    ensures UnprotectSlot(ProtectSlot(s, keys).0, s.pnOffset, keys) == (s.pkt, Some(PnLength(s.pkt[0])))
  {
    var m := keys.mask(Sample(s.pkt, s.pnOffset)).value;
    ProtectFrame(s.pkt, s.pnOffset, s.pnLength, m);
    UnprotectProtect(s.pkt, s.pnOffset, s.pnLength, m);
  }

  // ---------------------------------------------------------------------------------------
  // Batches in memory
  // ---------------------------------------------------------------------------------------

  /** What one slot asks for: seal behind a header, protect, or unprotect. */
  datatype Task =
    | Sealing(pn: nat, headerLen: nat, payloadLen: nat)
    | Protecting(pnOffset: nat, pnLength: nat)
    | Unprotecting(pnOffset: nat)

  /** A slot of a batch call: a task on the `length` bytes at address `at`. The buffers are plain
      pointers, so the areas of two slots may coincide or overlap. */
  datatype Request = Request(at: nat, length: nat, task: Task) {
    function End(): nat { at + length }
    predicate Within(size: nat) {
      End() <= size && (task.Sealing? ==> task.headerLen <= length)
    }
  }

  predicate AllWithin(reqs: seq<Request>, size: nat) {
    forall i :: 0 <= i < |reqs| ==> reqs[i].Within(size)
  }

  /** One slot's step; `buf` is the whole of its area. */
  function Do(task: Task, last: Option<nat>, bytes: seq<byte>, keys: DirectionalKeys): (r: Step)
    requires keys.WellSized() && (task.Sealing? ==> task.headerLen <= |bytes|)
    ensures |r.buf| == |bytes|
  {
    match task
    case Sealing(pn, headerLen, payloadLen) =>
      var t := Encrypt(Batch, last, Slot(pn, bytes[..headerLen], bytes[headerLen..], payloadLen), keys);
      t.(buf := bytes[..headerLen] + t.buf)
    case Protecting(pnOffset, pnLength) =>
      var r := ProtectSlot(HpSlot(bytes, pnOffset, pnLength), keys);
      Step(last, r.0, if r.1 then Some(0) else None, false)
    case Unprotecting(pnOffset) =>
      var r := UnprotectSlot(bytes, pnOffset, keys);
      Step(last, r.0, r.1, false)
  }

  /** Overwrite part of a memory. */
  function Patch(mem: seq<byte>, at: nat, bytes: seq<byte>): (r: seq<byte>)
    requires at + |bytes| <= |mem|
    ensures |r| == |mem|
  {
    mem[..at] + bytes + mem[at + |bytes|..]
  }

  lemma PatchReads(mem: seq<byte>, at: nat, bytes: seq<byte>, from: nat, to: nat)
    requires at + |bytes| <= |mem| && from <= to <= |mem|
    ensures Patch(mem, at, bytes)[at..at + |bytes|] == bytes
    ensures to <= at || at + |bytes| <= from ==> Patch(mem, at, bytes)[from..to] == mem[from..to]
  {
    var r := Patch(mem, at, bytes);
    assert forall k :: at <= k < at + |bytes| ==> r[k] == bytes[k - at];
    assert forall k :: 0 <= k < at || at + |bytes| <= k < |mem| ==> r[k] == mem[k];
  }

  /** Overwriting the start of the part after the header leaves header and remainder in place. */
  lemma PatchInside(mem: seq<byte>, at: nat, header: seq<byte>, buf: seq<byte>, x: seq<byte>)
    requires at + |header| + |buf| <= |mem| && |x| <= |buf|
    requires mem[at..at + |header| + |buf|] == header + buf
    ensures Patch(mem, at, header + (x + buf[|x|..])) == Patch(mem, at + |header|, x)
    ensures Patch(mem, at, header + buf) == mem
  {
    var area := header + buf;
    forall k | at <= k < at + |area| ensures mem[k] == area[k - at] {
      assert mem[k] == mem[at..at + |header| + |buf|][k - at];
    }
  }

  /** A sealing slot spelt out on the memory itself. */
  lemma SealingEffect(
    mem: seq<byte>, q: Request, header: seq<byte>, buf: seq<byte>, last: Option<nat>, keys: DirectionalKeys)
    requires keys.WellSized() && q.task.Sealing? && q.Within(|mem|)
    requires |header| == q.task.headerLen && mem[q.at..q.End()] == header + buf
    ensures var e := Do(q.task, last, mem[q.at..q.End()], keys);
            var from, n := q.at + |header|, q.task.payloadLen;
            if n > |buf| || !Fresh(last, q.task.pn) then
              e.last == last && e.result == None && Patch(mem, q.at, e.buf) == mem
            else
              match keys.seal(q.task.pn, header, buf[..n])
              case None => e.last == last && e.result == None && Patch(mem, q.at, e.buf) == mem
              case Some(ct) =>
                if |ct| > |buf| then
                  e.last == last && e.result == None && Patch(mem, q.at, e.buf) == Patch(mem, from, ct[..n])
                else
                  && e.last == Some(q.task.pn) && e.result == Some(|ct|)
                  && Patch(mem, q.at, e.buf) == Patch(mem, from, ct)
  {
    hide Patch;
    hide Encrypt;
    hide Do;
    hide DirectionalKeys.WellSized;
    var n := q.task.payloadLen;
    assert (header + buf)[..|header|] == header && (header + buf)[|header|..] == buf;
    DoSealing(q.task, last, header + buf, keys);
    EncryptCases(last, Slot(q.task.pn, header, buf, n), keys);
    if n > |buf| || !Fresh(last, q.task.pn) || keys.seal(q.task.pn, header, buf[..n]).None? {
      PatchInside(mem, q.at, header, buf, []);
    } else {
      var ct := keys.seal(q.task.pn, header, buf[..n]).value;
      PatchInside(mem, q.at, header, buf, if |ct| > |buf| then ct[..n] else ct);
    }
  }

  lemma DoSealing(task: Task, last: Option<nat>, bytes: seq<byte>, keys: DirectionalKeys)
    requires keys.WellSized() && task.Sealing? && task.headerLen <= |bytes|
    ensures var header, buf := bytes[..task.headerLen], bytes[task.headerLen..];
            var t := Encrypt(Batch, last, Slot(task.pn, header, buf, task.payloadLen), keys);
            Do(task, last, bytes, keys) == t.(buf := header + t.buf)
  {
  }

  lemma EncryptCases(last: Option<nat>, s: Slot, keys: DirectionalKeys)
    requires keys.WellSized()
    ensures var t := Encrypt(Batch, last, s, keys);
            if s.payloadLen > |s.buf| || !Fresh(last, s.pn) then t.last == last && t.result == None && t.buf == s.buf
            else
              match keys.seal(s.pn, s.header, s.buf[..s.payloadLen])
              case None => t.last == last && t.result == None && t.buf == s.buf
              case Some(ct) =>
                && |ct| == s.payloadLen + TAG_LEN
                && if |ct| > |s.buf| then
                     t.last == last && t.result == None && t.buf == ct[..s.payloadLen] + s.buf[s.payloadLen..]
                   else t.last == Some(s.pn) && t.result == Some(|ct|) && t.buf == ct + s.buf[|ct|..]
  {
  }

  /** Masking in place is `ApplyMask` on the packet's own area. */
  lemma MaskedArea(mem: seq<byte>, at: nat, length: nat, first: byte, pnOffset: nat, count: nat, m: seq<byte>)
    requires at + length <= |mem| && count <= 4 && |m| == 5 && 1 <= length && pnOffset + count <= length
    ensures MaskRun(mem[at := first], at + pnOffset, count, m)
         == Patch(mem, at, ApplyMask(mem[at..at + length], first, pnOffset, count, m))
  {
    hide Xor;
  }

  lemma PatchNothing(mem: seq<byte>, at: nat, length: nat)
    requires at + length <= |mem|
    ensures Patch(mem, at, mem[at..at + length]) == mem
  {
  }

  lemma SliceOfSlice(mem: seq<byte>, at: nat, end: nat, from: nat, to: nat)
    requires at <= end <= |mem| && from <= to <= end - at
    ensures mem[at..end][from..to] == mem[at + from..at + to]
  {
    var a, b := mem[at..end][from..to], mem[at + from..at + to];
    assert |a| == |b| && forall k :: 0 <= k < |a| ==> a[k] == b[k];
  }

  lemma PatchFirst(mem: seq<byte>, at: nat, bytes: seq<byte>)
    requires at + |bytes| <= |mem| && bytes != []
    ensures Patch(mem, at, bytes)[at] == bytes[0]
  {
  }

  datatype Swept = Swept(mem: seq<byte>, steps: seq<Step>)

  /** The slots of a batch, left to right, each on the memory the ones before it have left. */
  ghost function Sweep(last: Option<nat>, mem: seq<byte>, reqs: seq<Request>, keys: DirectionalKeys): (r: Swept)
    requires keys.WellSized() && AllWithin(reqs, |mem|)
    ensures |r.mem| == |mem| && |r.steps| == |reqs|
  {
    if reqs == [] then Swept(mem, [])
    else
      var n := |reqs| - 1;
      var p, q := Sweep(last, mem, reqs[..n], keys), reqs[n];
      var e := Do(q.task, LastOf(last, p.steps), p.mem[q.at..q.End()], keys);
      Swept(Patch(p.mem, q.at, e.buf), p.steps + [e])
  }

  /** A batch touches nothing outside the areas of its slots. */
  lemma {:induction false} SweepFrame(
    last: Option<nat>, mem: seq<byte>, reqs: seq<Request>, keys: DirectionalKeys, from: nat, to: nat)
    requires keys.WellSized() && AllWithin(reqs, |mem|) && from <= to <= |mem|
    requires forall i :: 0 <= i < |reqs| ==> to <= reqs[i].at || reqs[i].End() <= from
    ensures Sweep(last, mem, reqs, keys).mem[from..to] == mem[from..to]
    decreases |reqs|
  {
    hide Do;
    hide Patch;
    hide DirectionalKeys.WellSized;
    if reqs != [] {
      var n := |reqs| - 1;
      SweepFrame(last, mem, reqs[..n], keys, from, to);
      var p, q := Sweep(last, mem, reqs[..n], keys), reqs[n];
      PatchReads(p.mem, q.at, Do(q.task, LastOf(last, p.steps), p.mem[q.at..q.End()], keys).buf, from, to);
    }
  }

  /** The area of the i-th slot shares no byte with that of another slot. */
  ghost predicate ApartFrom(reqs: seq<Request>, i: nat)
    requires i < |reqs|
  {
    forall j :: 0 <= j < |reqs| && j != i ==> reqs[i].End() <= reqs[j].at || reqs[j].End() <= reqs[i].at
  }

  ghost predicate Apart(reqs: seq<Request>) {
    forall i :: 0 <= i < |reqs| ==> ApartFrom(reqs, i)
  }

  /** A slot whose area is its own works on its original bytes and its outcome stays, whatever the
      other slots do. */
  lemma {:induction false} SweepApart(
    last: Option<nat>, mem: seq<byte>, reqs: seq<Request>, keys: DirectionalKeys, i: nat)
    requires keys.WellSized() && AllWithin(reqs, |mem|) && i < |reqs| && ApartFrom(reqs, i)
    ensures var r, q := Sweep(last, mem, reqs, keys), reqs[i];
            && r.steps[i] == Do(q.task, LastOf(last, r.steps[..i]), mem[q.at..q.End()], keys)
            && r.mem[q.at..q.End()] == r.steps[i].buf
    decreases |reqs|
  {
    hide Do;
    hide Patch;
    hide Sweep;
    hide DirectionalKeys.WellSized;
    var n := |reqs| - 1;
    var p, q := Sweep(last, mem, reqs[..n], keys), reqs[n];
    var e := Do(q.task, LastOf(last, p.steps), p.mem[q.at..q.End()], keys);
    SweepStep(last, mem, reqs, keys);
    if i == n {
      SweepFrame(last, mem, reqs[..n], keys, q.at, q.End());
      PatchReads(p.mem, q.at, e.buf, 0, 0);
      assert (p.steps + [e])[..n] == p.steps;
    } else {
      SweepApart(last, mem, reqs[..n], keys, i);
      assert (p.steps + [e])[..i] == p.steps[..i];
      PatchReads(p.mem, q.at, e.buf, reqs[i].at, reqs[i].End());
    }
  }

  lemma SweepStep(last: Option<nat>, mem: seq<byte>, reqs: seq<Request>, keys: DirectionalKeys)
    requires keys.WellSized() && AllWithin(reqs, |mem|) && reqs != []
    ensures var n := |reqs| - 1;
            var p, q := Sweep(last, mem, reqs[..n], keys), reqs[n];
            var e := Do(q.task, LastOf(last, p.steps), p.mem[q.at..q.End()], keys);
            Sweep(last, mem, reqs, keys) == Swept(Patch(p.mem, q.at, e.buf), p.steps + [e])
  {
    hide Do;
    hide Patch;
    hide DirectionalKeys.WellSized;
  }

  /** The slots of a sealing batch, as they stand before it. */
  ghost function Slots(mem: seq<byte>, reqs: seq<Request>): (r: seq<Slot>)
    requires AllWithin(reqs, |mem|) && AllSealing(reqs)
    ensures |r| == |reqs|
  {
    seq(|reqs|, i requires 0 <= i < |reqs| =>
      var q, area := reqs[i], mem[reqs[i].at..reqs[i].End()];
      Slot(q.task.pn, area[..q.task.headerLen], area[q.task.headerLen..], q.task.payloadLen))
  }

  predicate AllSealing(reqs: seq<Request>) {
    forall i :: 0 <= i < |reqs| ==> reqs[i].task.Sealing?
  }

  /** A sealing batch on separate buffers is the run of its slots: same results, same last packet
      numbers, and each buffer ends as its header followed by what its step left. */
  lemma {:induction false} SweepIsRun(
    last: Option<nat>, mem: seq<byte>, reqs: seq<Request>, keys: DirectionalKeys, i: nat)
    requires keys.WellSized() && AllWithin(reqs, |mem|) && AllSealing(reqs) && Apart(reqs) && i < |reqs|
    ensures var r, slots := Sweep(last, mem, reqs, keys), Slots(mem, reqs);
            var t := Run(last, AsEvents(Batch, slots), keys)[i];
            && r.steps[i] == t.(buf := slots[i].header + t.buf)
            && r.mem[reqs[i].at..reqs[i].End()] == slots[i].header + t.buf
    decreases i
  {
    hide Encrypt;
    hide Sweep;
    hide Run;
    hide DirectionalKeys.WellSized;
    var r, slots := Sweep(last, mem, reqs, keys), Slots(mem, reqs);
    var steps := Run(last, AsEvents(Batch, slots), keys);
    SweepApart(last, mem, reqs, keys, i);
    RunAt(last, slots, keys, i);
    if i > 0 { SweepIsRun(last, mem, reqs, keys, i - 1); }
    assert LastOf(last, r.steps[..i]) == LastOf(last, steps[..i]);
  }

  lemma {:induction false} RunAt(last: Option<nat>, slots: seq<Slot>, keys: DirectionalKeys, i: nat)
    requires keys.WellSized() && i < |slots|
    ensures var steps := Run(last, AsEvents(Batch, slots), keys);
            steps[i] == Encrypt(Batch, LastOf(last, steps[..i]), slots[i], keys)
    decreases |slots|
  {
    hide Encrypt;
    hide DirectionalKeys.WellSized;
    var n := |slots| - 1;
    RunSlots(Batch, last, slots, keys);
    var steps, before := Run(last, AsEvents(Batch, slots), keys), Run(last, AsEvents(Batch, slots[..n]), keys);
    if i == n {
      assert steps[..n] == before;
    } else {
      RunAt(last, slots[..n], keys, i);
      assert steps[..i] == before[..i];
    }
  }

  /** The requests that take back what these put on. */
  function Undo(reqs: seq<Request>): (r: seq<Request>)
    requires AllProtecting(reqs)
    ensures |r| == |reqs|
  {
    seq(|reqs|, i requires 0 <= i < |reqs| => Request(reqs[i].at, reqs[i].length, Unprotecting(reqs[i].task.pnOffset)))
  }

  predicate AllProtecting(reqs: seq<Request>) {
    forall i :: 0 <= i < |reqs| ==> reqs[i].task.Protecting?
  }

  /** The slot is accepted with a long enough packet-number slice behind the first byte, or both
      calls refuse it. */
  ghost predicate Restorable(s: HpSlot, keys: DirectionalKeys)
    requires keys.WellSized()
  {
    if ProtectSlot(s, keys).1 then 1 <= s.pnOffset && PnLength(s.pkt[0]) <= s.pnLength
    else !HasSample(s.pkt, s.pnOffset) || keys.mask(Sample(s.pkt, s.pnOffset)).None?
  }

  /** The packet-number length a packet's first byte announces. */
  function Announced(pkt: seq<byte>): Option<nat> {
    if pkt == [] then None else Some(PnLength(pkt[0]))
  }

  lemma RestoresSlot(s: HpSlot, keys: DirectionalKeys)
    requires keys.WellSized() && Restorable(s, keys)
    ensures var p := ProtectSlot(s, keys);
            UnprotectSlot(p.0, s.pnOffset, keys) == (s.pkt, if p.1 then Announced(s.pkt) else None)
  {
    if ProtectSlot(s, keys).1 { HpSlotRoundTrip(s, keys); }
  }

  /** The packet of a protecting slot, as it stands before the batch. */
  ghost function Packet(mem: seq<byte>, q: Request): HpSlot
    requires q.Within(|mem|) && q.task.Protecting?
  {
    HpSlot(mem[q.at..q.End()], q.task.pnOffset, q.task.pnLength)
  }

  /** A batch of header protection followed by the batch that removes it, with matching keys: every slot
      that is restorable and has its buffer to itself is restored and its length reported, whatever the
      other slots are. */
  lemma BatchRoundTrip(mem: seq<byte>, reqs: seq<Request>, keys: DirectionalKeys, i: nat)
    requires keys.WellSized() && AllWithin(reqs, |mem|) && AllProtecting(reqs)
    requires i < |reqs| && ApartFrom(reqs, i) && Restorable(Packet(mem, reqs[i]), keys)
    ensures var p := Sweep(None, mem, reqs, keys);
            var r, q := Sweep(None, p.mem, Undo(reqs), keys), reqs[i];
            && r.mem[q.at..q.End()] == mem[q.at..q.End()]
            && r.steps[i].result == if p.steps[i].result.Some? then Announced(mem[q.at..q.End()]) else None
  {
    hide Sweep;
    hide ProtectSlot;
    hide UnprotectSlot;
    hide Restorable;
    hide DirectionalKeys.WellSized;
    var p := Sweep(None, mem, reqs, keys);
    SweepApart(None, mem, reqs, keys, i);
    SweepApart(None, p.mem, Undo(reqs), keys, i);
    RestoresSlot(Packet(mem, reqs[i]), keys);
  }

  /** The first bytes such a pair of batches writes out are those the packets had, and a refused slot's entry
      keeps its old value. */
  lemma FirstsRestored(mem: seq<byte>, reqs: seq<Request>, keys: DirectionalKeys, firsts: seq<byte>, i: nat)
    requires keys.WellSized() && AllWithin(reqs, |mem|) && AllProtecting(reqs) && |firsts| == |reqs|
    requires i < |reqs| && ApartFrom(reqs, i) && Restorable(Packet(mem, reqs[i]), keys)
    ensures var p := Sweep(None, mem, reqs, keys);
            var r := Sweep(None, p.mem, Undo(reqs), keys);
            Firsts(r.steps, firsts)[i]
            == if p.steps[i].result.Some? && reqs[i].length > 0 then mem[reqs[i].at] else firsts[i]
  {
    hide Sweep;
    hide Do;
    hide Restorable;
    hide DirectionalKeys.WellSized;
    var p := Sweep(None, mem, reqs, keys);
    BatchRoundTrip(mem, reqs, keys, i);
    SweepApart(None, p.mem, Undo(reqs), keys, i);
  }

  /** With a working suite a slot is protected, and reports 0, if and only if it has room for a sample and the
      caller's packet-number length is 1 to 4. */
  lemma ProtectedIff(mem: seq<byte>, reqs: seq<Request>, keys: DirectionalKeys, i: nat)
    requires keys.Valid() && AllWithin(reqs, |mem|) && AllProtecting(reqs) && i < |reqs| && ApartFrom(reqs, i)
    ensures var q := reqs[i];
            Sweep(None, mem, reqs, keys).steps[i].result
            == if q.task.pnOffset + 20 <= q.length && 1 <= q.task.pnLength <= 4 then Some(0) else None
  {
    hide Sweep;
    hide Protect;
    hide ApartFrom;
    SweepApart(None, mem, reqs, keys, i);
  }

  /** With a working suite a slot is unprotected if and only if it has room for a sample, and reports a length
      of 1 to 4. */
  lemma UnprotectedIff(mem: seq<byte>, reqs: seq<Request>, keys: DirectionalKeys, i: nat)
    requires keys.Valid() && AllWithin(reqs, |mem|) && AllUnprotecting(reqs) && i < |reqs| && ApartFrom(reqs, i)
    ensures var q, result := reqs[i], Sweep(None, mem, reqs, keys).steps[i].result;
            && (result.Some? <==> q.task.pnOffset + 20 <= q.length)
            && (result.Some? ==> 1 <= result.value <= 4)
  {
    hide Sweep;
    hide Unprotect;
    hide ApartFrom;
    SweepApart(None, mem, reqs, keys, i);
  }

  /** What a batch call returns: -1 for a failed slot and its length for another, and how many succeeded. */
  lemma {:induction false} ReturnedCodes(steps: seq<Step>)
    ensures |Codes(steps)| == |steps|
    ensures forall i :: 0 <= i < |steps| ==>
              Codes(steps)[i] == if steps[i].result.Some? then steps[i].result.value else -1
    ensures Succeeded(steps) == |set i | 0 <= i < |steps| && steps[i].result.Some?|
    decreases |steps|
  {
    if steps != [] {
      var n := |steps| - 1;
      ReturnedCodes(steps[..n]);
      var before := set i | 0 <= i < n && steps[..n][i].result.Some?;
      var all := set i | 0 <= i < |steps| && steps[i].result.Some?;
      assert all == before + if steps[n].result.Some? then {n} else {};
    }
  }

  /** A sealing batch in memory, with a working suite: a slot with its buffer to itself succeeds if and only if
      its payload and the tag fit and its number is above every number recorded before it; then its buffer
      holds the header and a ciphertext that opens, under that number and header, to the payload it held. A slot
      refused before sealing leaves its buffer alone; one that lacks only room for the tag has its payload
      overwritten all the same, and its number is not recorded. */
  lemma SealedSlotOpens(last: Option<nat>, mem: seq<byte>, reqs: seq<Request>, keys: DirectionalKeys, i: nat)
    requires keys.Valid() && AllWithin(reqs, |mem|) && AllSealing(reqs) && i < |reqs| && ApartFrom(reqs, i)
    ensures var r, q := Sweep(last, mem, reqs, keys), reqs[i];
            var before, after := mem[q.at..q.End()], r.mem[q.at..q.End()];
            var h, n, room := q.task.headerLen, q.task.payloadLen, q.length - q.task.headerLen;
            var fresh' := Fresh(LastOf(last, r.steps[..i]), q.task.pn);
            && (r.steps[i].result.Some? <==> n + TAG_LEN <= room && fresh')
            && (r.steps[i].result.Some? ==>
                  && r.steps[i].result == Some(n + TAG_LEN) && r.steps[i].last == Some(q.task.pn)
                  && after[..h] == before[..h] && after[h + n + TAG_LEN..] == before[h + n + TAG_LEN..]
                  && keys.open(q.task.pn, before[..h], after[h..h + n + TAG_LEN]) == Some(before[h..h + n]))
            && (n > room || !fresh' ==> after == before)
            && (n <= room < n + TAG_LEN && fresh' ==>
                  && r.steps[i].last == LastOf(last, r.steps[..i])
                  && after == before[..h] + keys.seal(q.task.pn, before[..h], before[h..h + n]).value[..n]
                              + before[h + n..])
  {
    hide Sweep;
    hide Do;
    hide Encrypt;
    hide LastOf;
    hide ApartFrom;
    SweepApart(last, mem, reqs, keys, i);
    var q := reqs[i];
    var last', before := LastOf(last, Sweep(last, mem, reqs, keys).steps[..i]), mem[q.at..q.End()];
    OpensAgain(q.task, last', before, keys);
  }

  lemma OpensAgain(task: Task, last: Option<nat>, bytes: seq<byte>, keys: DirectionalKeys)
    requires keys.Valid() && task.Sealing? && task.headerLen <= |bytes|
    ensures var e, h, n := Do(task, last, bytes, keys), task.headerLen, task.payloadLen;
            var room := |bytes| - h;
            && (e.result.Some? <==> n + TAG_LEN <= room && Fresh(last, task.pn))
            && (e.result.Some? ==>
                  && e.result == Some(n + TAG_LEN) && e.last == Some(task.pn)
                  && e.buf[..h] == bytes[..h] && e.buf[h + n + TAG_LEN..] == bytes[h + n + TAG_LEN..]
                  && keys.open(task.pn, bytes[..h], e.buf[h..h + n + TAG_LEN]) == Some(bytes[h..h + n]))
            && (n > room || !Fresh(last, task.pn) ==> e.buf == bytes)
            && (n <= room < n + TAG_LEN && Fresh(last, task.pn) ==>
                  && e.last == last
                  && e.buf == bytes[..h] + keys.seal(task.pn, bytes[..h], bytes[h..h + n]).value[..n] + bytes[h + n..])
  {
    hide Do;
    hide Encrypt;
    var h, n := task.headerLen, task.payloadLen;
    var header, buf := bytes[..h], bytes[h..];
    assert bytes == header + buf;
    DoSealing(task, last, bytes, keys);
    EncryptCases(last, Slot(task.pn, header, buf, n), keys);
    if n <= |buf| < n + TAG_LEN {
      assert buf[..n] == bytes[h..h + n] && buf[n..] == bytes[h + n..];
    }
    if n + TAG_LEN <= |buf| && Fresh(last, task.pn) {
      var ct := keys.seal(task.pn, header, buf[..n]).value;
      var out := header + (ct + buf[|ct|..]);
      assert out[..h] == header && out[h..h + |ct|] == ct && out[h + |ct|..] == buf[|ct|..];
      assert buf[..n] == bytes[h..h + n] && buf[|ct|..] == bytes[h + |ct|..];
    }
  }

  lemma RestoresByte(mem: seq<byte>, reqs: seq<Request>, keys: DirectionalKeys, k: nat)
    requires keys.WellSized() && AllWithin(reqs, |mem|) && AllProtecting(reqs) && Apart(reqs) && k < |mem|
    requires forall i :: 0 <= i < |reqs| ==> Restorable(Packet(mem, reqs[i]), keys)
    ensures Sweep(None, Sweep(None, mem, reqs, keys).mem, Undo(reqs), keys).mem[k] == mem[k]
  {
    hide Sweep;
    hide Restorable;
    hide ApartFrom;
    hide Packet;
    hide DirectionalKeys.WellSized;
    var p := Sweep(None, mem, reqs, keys);
    var r := Sweep(None, p.mem, Undo(reqs), keys);
    if i :| 0 <= i < |reqs| && reqs[i].at <= k < reqs[i].End() {
      BatchRoundTrip(mem, reqs, keys, i);
      SliceAt(r.mem, mem, reqs[i].at, reqs[i].End(), k);
    } else {
      SweepFrame(None, mem, reqs, keys, k, k + 1);
      SweepFrame(None, p.mem, Undo(reqs), keys, k, k + 1);
      SliceAt(r.mem, mem, k, k + 1, k);
    }
  }

  /** When that holds of every slot, the two batches restore the whole memory. */
  lemma MemoryRestored(mem: seq<byte>, reqs: seq<Request>, keys: DirectionalKeys)
    requires keys.WellSized() && AllWithin(reqs, |mem|) && AllProtecting(reqs) && Apart(reqs)
    requires forall i :: 0 <= i < |reqs| ==> Restorable(Packet(mem, reqs[i]), keys)
    ensures Sweep(None, Sweep(None, mem, reqs, keys).mem, Undo(reqs), keys).mem == mem
  {
    hide Sweep;
    hide Apart;
    hide Restorable;
    hide DirectionalKeys.WellSized;
    forall k | 0 <= k < |mem| { RestoresByte(mem, reqs, keys, k); }
  }

  lemma SliceAt(a: seq<byte>, b: seq<byte>, from: nat, to: nat, k: nat)
    requires |a| == |b| && from <= k < to <= |a| && a[from..to] == b[from..to]
    ensures a[k] == b[k]
  {
    assert a[k] == a[from..to][k - from] && b[k] == b[from..to][k - from];
  }

  /** How many slots of a batch succeeded. */
  ghost function Succeeded(steps: seq<Step>): (r: nat) {
    if steps == [] then 0
    else Succeeded(steps[..|steps| - 1]) + (if steps[|steps| - 1].result.Some? then 1 else 0)
  }

  /** Where a batch loop stands after its first i slots. */
  ghost predicate Progress(last0: Option<nat>, before: seq<byte>, reqs: seq<Request>, keys: DirectionalKeys, i: nat,
                           last: Option<nat>, mem: seq<byte>, okCount: nat, codes: seq<int>)
    requires keys.WellSized() && AllWithin(reqs, |before|) && i <= |reqs|
  {
    var p := Sweep(last0, before, reqs[..i], keys);
    && last == LastOf(last0, p.steps) && mem == p.mem
    && okCount == Succeeded(p.steps) && codes == Codes(p.steps)
  }

  lemma ProgressStep(last0: Option<nat>, before: seq<byte>, reqs: seq<Request>, keys: DirectionalKeys, i: nat,
                     last: Option<nat>, mem: seq<byte>, okCount: nat, codes: seq<int>)
    requires keys.WellSized() && AllWithin(reqs, |before|) && i < |reqs| && |mem| == |before|
    requires Progress(last0, before, reqs, keys, i, last, mem, okCount, codes)
    ensures var q := reqs[i];
            var e := Do(q.task, last, mem[q.at..q.End()], keys);
            && Progress(last0, before, reqs, keys, i + 1, e.last, Patch(mem, q.at, e.buf),
                        okCount + (if e.result.Some? then 1 else 0), codes + [Code(e.result)])
            && Sweep(last0, before, reqs[..i + 1], keys).steps == Sweep(last0, before, reqs[..i], keys).steps + [e]
  {
    hide Do;
    hide Patch;
    hide DirectionalKeys.WellSized;
    assert reqs[..i + 1][..i] == reqs[..i];
    var p := Sweep(last0, before, reqs[..i], keys);
    var e := Do(reqs[i].task, last, mem[reqs[i].at..reqs[i].End()], keys);
    assert (p.steps + [e])[..i] == p.steps;
    CodesAppend(p.steps, e);
  }

  lemma ProgressStart(last: Option<nat>, before: seq<byte>, reqs: seq<Request>, keys: DirectionalKeys)
    requires keys.WellSized() && AllWithin(reqs, |before|)
    ensures Progress(last, before, reqs, keys, 0, last, before, 0, [])
  {
    hide DirectionalKeys.WellSized;
  }

  lemma ProgressEnd(last0: Option<nat>, before: seq<byte>, reqs: seq<Request>, keys: DirectionalKeys,
                    last: Option<nat>, mem: seq<byte>, okCount: nat, codes: seq<int>)
    requires keys.WellSized() && AllWithin(reqs, |before|)
    requires Progress(last0, before, reqs, keys, |reqs|, last, mem, okCount, codes)
    ensures var p := Sweep(last0, before, reqs, keys);
            && last == LastOf(last0, p.steps) && mem == p.mem
            && okCount == Succeeded(p.steps) && codes == Codes(p.steps)
  {
    hide Sweep;
    hide DirectionalKeys.WellSized;
    assert reqs[..|reqs|] == reqs;
  }

  predicate AllUnprotecting(reqs: seq<Request>) {
    forall i :: 0 <= i < |reqs| ==> reqs[i].task.Unprotecting?
  }

  /** The first bytes an unprotecting batch writes out. */
  ghost function Firsts(steps: seq<Step>, firsts0: seq<byte>): (r: seq<byte>)
    requires |steps| <= |firsts0|
    ensures |r| == |firsts0|
  {
    seq<byte>(|firsts0|, i requires 0 <= i < |firsts0| =>
      if i < |steps| && steps[i].result.Some? && steps[i].buf != [] then steps[i].buf[0] else firsts0[i])
  }

  class KeysEntry {
    const local: DirectionalKeys
    const remote: DirectionalKeys
    var lastLocalPn: Option<nat>

    constructor (local: DirectionalKeys, remote: DirectionalKeys)
      ensures this.local == local && this.remote == remote && lastLocalPn == None
    {
      this.local, this.remote := local, remote;
      lastLocalPn := None;
    }

    /** `rlsm_keys_local_encrypt` */
    method LocalEncrypt(pn: nat, header: seq<byte>, buf: array<byte>, payloadLen: nat) returns (rc: int)
      requires local.WellSized()
      modifies `lastLocalPn, buf
      ensures var t := Encrypt(Single, old(lastLocalPn), Slot(pn, header, old(buf[..]), payloadLen), local);
              lastLocalPn == t.last && buf[..] == t.buf && rc == Code(t.result)
    {
      if payloadLen > buf.Length { return -1; }
      if lastLocalPn.Some? && pn <= lastLocalPn.value { return -1; }
      lastLocalPn := Some(pn);
      var result := SealInPlace(pn, header, buf, 0, buf.Length, payloadLen);
      rc := Code(result);
    }

    /** `encrypt_in_place` on `a[from..from + payloadLen]`, then the tag if it fits the capacity. */
    method SealInPlace(pn: nat, header: seq<byte>, a: array<byte>, from: nat, capacity: nat, payloadLen: nat)
      returns (result: Option<nat>)
      requires local.WellSized() && payloadLen <= capacity && from + capacity <= a.Length
      modifies a
      ensures match local.seal(pn, header, old(a[from..from + payloadLen]))
              case None => result == None && a[..] == old(a[..])
              case Some(ct) =>
                if |ct| > capacity then result == None && a[..] == Patch(old(a[..]), from, ct[..payloadLen])
                else result == Some(|ct|) && a[..] == Patch(old(a[..]), from, ct)
    {
      var sealed := local.seal(pn, header, a[from..from + payloadLen]);
      if sealed.None? { return None; }
      var ct := sealed.value;
      forall i | 0 <= i < payloadLen { a[from + i] := ct[i]; }
      var total := payloadLen + TAG_LEN;
      if total > capacity { return None; }
      forall i | payloadLen <= i < total { a[from + i] := ct[i]; }
      result := Some(total);
    }

    /** One iteration of the batch loop. */
    method EncryptSlot(mem: array<byte>, q: Request) returns (code: int)
      requires local.WellSized() && q.task.Sealing? && q.Within(mem.Length)
      modifies `lastLocalPn, mem
      ensures var e := Do(q.task, old(lastLocalPn), old(mem[..])[q.at..q.End()], local);
              lastLocalPn == e.last && code == Code(e.result) && mem[..] == Patch(old(mem[..]), q.at, e.buf)
    {
      hide Do;
      hide Patch;
      var pn, from, capacity := q.task.pn, q.at + q.task.headerLen, q.length - q.task.headerLen;
      var payloadLen := q.task.payloadLen;
      ghost var header, buf := mem[q.at..from], mem[from..q.End()];
      assert mem[..][q.at..q.End()] == header + buf;
      SealingEffect(mem[..], q, header, buf, lastLocalPn, local);
      if payloadLen > capacity { return -1; }
      if lastLocalPn.Some? && pn <= lastLocalPn.value { return -1; }
      assert mem[from..from + payloadLen] == buf[..payloadLen];
      var result := SealInPlace(pn, mem[q.at..from], mem, from, capacity, payloadLen);
      if result.Some? {
        lastLocalPn := Some(pn);
        return result.value;
      }
      return -1;
    }

    /** `rlsm_keys_batch_encrypt`, on any buffers, overlapping or not. */
    method BatchEncrypt(mem: array<byte>, reqs: seq<Request>) returns (okCount: nat, codes: seq<int>)
      requires local.WellSized() && AllWithin(reqs, mem.Length) && AllSealing(reqs)
      modifies `lastLocalPn, mem
      ensures var r := Sweep(old(lastLocalPn), old(mem[..]), reqs, local);
              && lastLocalPn == LastOf(old(lastLocalPn), r.steps) && mem[..] == r.mem
              && okCount == Succeeded(r.steps) && codes == Codes(r.steps)
    {
      hide Progress;
      hide Sweep;
      hide Do;
      hide Patch;
      hide DirectionalKeys.WellSized;
      ghost var last, before := lastLocalPn, mem[..];
      okCount, codes := 0, [];
      ProgressStart(last, before, reqs, local);
      for i := 0 to |reqs|
        invariant Progress(last, before, reqs, local, i, lastLocalPn, mem[..], okCount, codes)
      {
        ProgressStep(last, before, reqs, local, i, lastLocalPn, mem[..], okCount, codes);
        var code := EncryptSlot(mem, reqs[i]);
        codes := codes + [code];
        if code >= 0 { okCount := okCount + 1; }
      }
      ProgressEnd(last, before, reqs, local, lastLocalPn, mem[..], okCount, codes);
    }

    /** Xor the mask into `count` packet-number bytes, in place. */
    method MaskPn(mem: array<byte>, from: nat, count: nat, m: seq<byte>)
      requires count <= 4 && |m| == 5 && from + count <= mem.Length
      modifies mem
      ensures mem[..] == MaskRun(old(mem[..]), from, count, m)
    {
      hide Xor;
      for k := 0 to count
        invariant forall i :: 0 <= i < mem.Length ==> mem[i] == MaskByte(old(mem[i]), i, from, k, m)
      {
        mem[from + k] := Xor(mem[from + k], m[1 + k]);
      }
    }

    /** `protect_header_in_place` and one iteration of `rlsm_keys_batch_header_protect`. */
    method ProtectAt(mem: array<byte>, at: nat, length: nat, pnOffset: nat, pnLength: nat) returns (ok: bool)
      requires local.WellSized() && at + length <= mem.Length
      modifies mem
      ensures var r := ProtectSlot(HpSlot(old(mem[..])[at..at + length], pnOffset, pnLength), local);
              mem[..] == Patch(old(mem[..]), at, r.0) && ok == r.1
    {
      hide Patch;
      hide ApplyMask;
      hide MaskRun;
      hide MaskFirst;
      ghost var before := mem[..];
      ghost var plain := before[at..at + length];
      PatchNothing(before, at, length);
      if pnOffset + 4 + SAMPLE_LEN > length || pnLength == 0 || pnLength > 4 { return false; }
      var start := at + pnOffset;
      var mask := local.mask(mem[start + 4..start + 4 + SAMPLE_LEN]);
      SliceOfSlice(before, at, at + length, pnOffset + 4, pnOffset + 4 + SAMPLE_LEN);
      if mask.None? { return false; }
      var m := mask.value;
      var count := Min(pnLength, PnLength(mem[at]));
      mem[at] := MaskFirst(mem[at], m[0]);
      assert mem[..] == before[at := MaskFirst(plain[0], m[0])];
      MaskPn(mem, start, count, m);
      MaskedArea(before, at, length, MaskFirst(plain[0], m[0]), pnOffset, count, m);
      ok := true;
    }

    /** One iteration of `rlsm_keys_batch_header_unprotect`. */
    method UnprotectAt(mem: array<byte>, at: nat, length: nat, pnOffset: nat) returns (found: Option<nat>)
      requires remote.WellSized() && at + length <= mem.Length
      modifies mem
      ensures var r := UnprotectSlot(old(mem[..])[at..at + length], pnOffset, remote);
              mem[..] == Patch(old(mem[..]), at, r.0) && found == r.1
    {
      hide Patch;
      hide ApplyMask;
      hide MaskRun;
      hide MaskFirst;
      ghost var before := mem[..];
      ghost var masked := before[at..at + length];
      PatchNothing(before, at, length);
      if pnOffset + 4 + SAMPLE_LEN > length { return None; }
      var start := at + pnOffset;
      var mask := remote.mask(mem[start + 4..start + 4 + SAMPLE_LEN]);
      SliceOfSlice(before, at, at + length, pnOffset + 4, pnOffset + 4 + SAMPLE_LEN);
      if mask.None? { return None; }
      var m := mask.value;
      mem[at] := MaskFirst(mem[at], m[0]);
      assert mem[..] == before[at := MaskFirst(masked[0], m[0])];
      var count := PnLength(mem[at]);
      MaskPn(mem, start, count, m);
      MaskedArea(before, at, length, MaskFirst(masked[0], m[0]), pnOffset, count, m);
      PatchFirst(before, at, Unprotect(masked, pnOffset, m));
      found := Some(PnLength(mem[at]));
    }

    /** `rlsm_keys_batch_header_protect` */
    method BatchProtect(mem: array<byte>, reqs: seq<Request>) returns (okCount: nat, codes: seq<int>)
      requires local.WellSized() && AllWithin(reqs, mem.Length) && AllProtecting(reqs)
      modifies mem
      ensures var r := Sweep(lastLocalPn, old(mem[..]), reqs, local);
              mem[..] == r.mem && okCount == Succeeded(r.steps) && codes == Codes(r.steps)
    {
      hide Progress;
      hide Sweep;
      hide Patch;
      hide ProtectSlot;
      hide DirectionalKeys.WellSized;
      ghost var last, before := lastLocalPn, mem[..];
      okCount, codes := 0, [];
      ProgressStart(last, before, reqs, local);
      for i := 0 to |reqs|
        invariant Progress(last, before, reqs, local, i, last, mem[..], okCount, codes)
      {
        var q := reqs[i];
        ProgressStep(last, before, reqs, local, i, last, mem[..], okCount, codes);
        var ok := ProtectAt(mem, q.at, q.length, q.task.pnOffset, q.task.pnLength);
        codes := codes + [if ok then 0 else -1];
        if ok { okCount := okCount + 1; }
      }
      ProgressEnd(last, before, reqs, local, last, mem[..], okCount, codes);
    }

    /** `rlsm_keys_batch_header_unprotect`; a failed slot's entry of `firsts` keeps its old value. */
    method BatchUnprotect(mem: array<byte>, reqs: seq<Request>, firsts0: seq<byte>)
      returns (okCount: nat, firsts: seq<byte>, codes: seq<int>)
      requires remote.WellSized() && AllWithin(reqs, mem.Length) && AllUnprotecting(reqs) && |firsts0| == |reqs|
      modifies mem
      ensures var r := Sweep(lastLocalPn, old(mem[..]), reqs, remote);
              && mem[..] == r.mem && okCount == Succeeded(r.steps) && codes == Codes(r.steps)
              && firsts == Firsts(r.steps, firsts0)
    {
      hide Progress;
      hide Sweep;
      hide Patch;
      hide UnprotectSlot;
      hide DirectionalKeys.WellSized;
      ghost var last, before := lastLocalPn, mem[..];
      okCount, firsts, codes := 0, firsts0, [];
      ProgressStart(last, before, reqs, remote);
      for i := 0 to |reqs|
        invariant Progress(last, before, reqs, remote, i, last, mem[..], okCount, codes)
        invariant firsts == Firsts(Sweep(last, before, reqs[..i], remote).steps, firsts0)
      {
        var q := reqs[i];
        ProgressStep(last, before, reqs, remote, i, last, mem[..], okCount, codes);
        ghost var mem0 := mem[..];
        ghost var e := Do(q.task, last, mem0[q.at..q.End()], remote);
        var found := UnprotectAt(mem, q.at, q.length, q.task.pnOffset);
        if found.Some? { PatchFirst(mem0, q.at, e.buf); }
        codes := codes + [if found.Some? then found.value else -1];
        if found.Some? {
          firsts := firsts[i := mem[q.at]];
          okCount := okCount + 1;
        }
      }
      assert reqs[..|reqs|] == reqs;
      ProgressEnd(last, before, reqs, remote, last, mem[..], okCount, codes);
    }
  }
}
