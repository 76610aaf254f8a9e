/**
 The state behind a QUIC connection handle: the slot that couples `write_hs` to `take_keys`, the
 1-RTT secrets behind `take_next_keys`, the cached alert, and the accumulator that captures
 ClientHello.random on a server. The TLS engine is arbitrary: what it emits and whether it
 accepts input arrive with each call.
 */
module Connection {
  import opened Bytes
  import H = Handles

  const PREFIX_LEN := 38
  const RANDOM_OFFSET := 6
  const DECODE_ERROR := 50

  /** A key change out of the engine; K stands for key material, S for 1-RTT secrets. */
  datatype Change<K, S> = ToHandshake(keys: K) | ToOneRtt(keys: K, next: S)

  function Kind<K, S>(c: Option<Change<K, S>>): nat {
    match c case None => 0 case Some(ToHandshake(_)) => 1 case Some(ToOneRtt(_, _)) => 2
  }

  /** The fields of the connection entry that the calls mutate, and the handle counter. */
  datatype Conn<K, S> = Conn(
    pending: Option<(nat, K)>, nextSecrets: Option<S>, alert: Option<byte>,
    prefix: seq<byte>, captured: bool, random: seq<byte>, counter: int)

  function Fresh<K, S>(counter: int): Conn<K, S> {
    Conn(None, None, None, [], false, Zeros(32), counter)
  }

  /** One FFI call, with the engine's share of it. */
  datatype Op<K, S> =
    | WriteHs(out: seq<byte>, change: Option<Change<K, S>>, capacity: nat)
    | ReadHs(data: seq<byte>, accepted: bool, engineAlert: Option<byte>)
    | TakeKeys
    | TakeNextKeys
    | TakeAlert
    | Elsewhere // another user of the process-wide counter draws a handle

  // ---------------------------------------------------------------------------------------
  // The calls
  // ---------------------------------------------------------------------------------------

  /** What a caller gets back; Failed is -1. */
  datatype Reply = Wrote(bytes: seq<byte>, kind: nat) | Done | Handle(handle: int) | AlertCode(code: byte) | Failed

  datatype Outcome<K, S> = Outcome(conn: Conn<K, S>, reply: Reply)

  /** The engine is not called while a change is pending. A buffer too small for the output fails
      after the engine has been drained, before the change is stored. */
  function DoWriteHs<K, S>(c: Conn<K, S>, out: seq<byte>, change: Option<Change<K, S>>, capacity: nat)
    : (r: Outcome<K, S>)
  {
    if c.pending.Some? || |out| > capacity then Outcome(c, Failed)
    else
      match change
      case None => Outcome(c, Wrote(out, 0))
      case Some(ToHandshake(keys)) => Outcome(c.(pending := Some((1, keys))), Wrote(out, 1))
      case Some(ToOneRtt(keys, next)) =>
        Outcome(c.(pending := Some((2, keys)), nextSecrets := Some(next)), Wrote(out, 2))
  }

  /** The ingress hook of a server's `read_hs`. */
  function Accumulate<K, S>(c: Conn<K, S>, data: seq<byte>): (r: Conn<K, S>) {
    if c.captured || data == [] || |c.prefix| >= PREFIX_LEN then c
    else
      var prefix := c.prefix + data[..Min(PREFIX_LEN - |c.prefix|, |data|)];
      if |prefix| == PREFIX_LEN && prefix[0] == 0x01
      then c.(prefix := prefix, captured := true, random := prefix[RANDOM_OFFSET..PREFIX_LEN])
      else c.(prefix := prefix)
  }

  function DoReadHs<K, S>(c: Conn<K, S>, data: seq<byte>, accepted: bool, engineAlert: Option<byte>, server: bool)
    : (r: Outcome<K, S>)
  {
    var c' := if server then Accumulate(c, data) else c;
    if accepted then Outcome(c', Done)
    else Outcome(c'.(alert := Some(if engineAlert.Some? then engineAlert.value else DECODE_ERROR)), Failed)
  }

  /** The pending keys leave the slot even when no handle is left for them. */
  function DoTakeKeys<K, S>(c: Conn<K, S>): (r: Outcome<K, S>) {
    if c.pending.None? then Outcome(c, Failed)
    else
      var n := H.NextHandle(c.counter);
      Outcome(c.(pending := None, counter := n.counter), if n.handle.Some? then Handle(n.handle.value) else Failed)
  }

  function DoTakeNextKeys<K, S>(c: Conn<K, S>): (r: Outcome<K, S>) {
    if c.nextSecrets.None? then Outcome(c, Failed)
    else
      var n := H.NextHandle(c.counter);
      Outcome(c.(nextSecrets := None, counter := n.counter), if n.handle.Some? then Handle(n.handle.value) else Failed)
  }

  function DoAlert<K, S>(c: Conn<K, S>): (r: Outcome<K, S>) {
    if c.alert.None? then Outcome(c, Failed) else Outcome(c.(alert := None), AlertCode(c.alert.value))
  }

  function Apply<K, S>(c: Conn<K, S>, op: Op<K, S>, server: bool): (r: Outcome<K, S>) {
    match op
    case WriteHs(out, change, capacity) => DoWriteHs(c, out, change, capacity)
    case ReadHs(data, accepted, engineAlert) => DoReadHs(c, data, accepted, engineAlert, server)
    case TakeKeys => DoTakeKeys(c)
    case TakeNextKeys => DoTakeNextKeys(c)
    case TakeAlert => DoAlert(c)
    case Elsewhere => Outcome(c.(counter := H.NextHandle(c.counter).counter), Done)
  }

  // ---------------------------------------------------------------------------------------
  // Ledgers over whole runs
  // ---------------------------------------------------------------------------------------

  /** What happened to the keys, in order. */
  datatype Ledger<K> = Ledger(
    emitted: seq<K>,       // keys of every change the engine produced
    lost: nat,             // changes dropped because the output did not fit the buffer
    reported: seq<K>,      // keys of every change a caller was told of
    taken: seq<K>,         // keys removed from the slot by take_keys
    handles: seq<int>,     // handles returned for them
    starved: nat,          // takes that found no handle left
    oneRtt: nat,           // replies that reported a 1-RTT change
    nextTaken: nat,        // successful take_next_keys calls
    nextStarved: nat,      // take_next_keys calls that found no handle left
    drawn: seq<int>,       // every handle returned, by either call
    fed: seq<byte>)        // bytes given to read_hs

  datatype Run<K, S> = Run(conn: Conn<K, S>, ledger: Ledger<K>)

  function Record<K, S>(c: Conn<K, S>, l: Ledger<K>, op: Op<K, S>, reply: Reply): (r: Ledger<K>) {
    match op
    case WriteHs(out, change, capacity) =>
      if c.pending.Some? || change.None? then l
      else
        var l' := l.(emitted := l.emitted + [change.value.keys]);
        if reply.Failed? then l'.(lost := l.lost + 1)
        else l'.(reported := l.reported + [change.value.keys],
                 oneRtt := l.oneRtt + if reply.Wrote? && reply.kind == 2 then 1 else 0)
    case ReadHs(data, _, _) => l.(fed := l.fed + data)
    case TakeKeys =>
      if c.pending.None? then l
      else
        var l' := l.(taken := l.taken + [c.pending.value.1]);
        if reply.Handle? then l'.(handles := l.handles + [reply.handle], drawn := l.drawn + [reply.handle])
        else l'.(starved := l.starved + 1)
    case TakeNextKeys =>
      if c.nextSecrets.None? then l
      else if reply.Handle? then l.(nextTaken := l.nextTaken + 1, drawn := l.drawn + [reply.handle])
      else l.(nextStarved := l.nextStarved + 1)
    case TakeAlert => l
    case Elsewhere => l
  }

  function Start<K, S>(counter: int): Run<K, S> {
    Run(Fresh(counter), Ledger([], 0, [], [], [], 0, 0, 0, 0, [], []))
  }

  function Play<K, S>(ops: seq<Op<K, S>>, counter: int, server: bool): (r: Run<K, S>) {
    if ops == [] then Start(counter)
    else
      var r := Play(ops[..|ops| - 1], counter, server);
      var op := ops[|ops| - 1];
      var o := Apply(r.conn, op, server);
      Run(o.conn, Record(r.conn, r.ledger, op, o.reply))
  }

  function Pending<K, S>(c: Conn<K, S>): seq<K> {
    if c.pending.Some? then [c.pending.value.1] else []
  }

  /** Changes reported are materialised at most once and in order: those taken, then the one still
      pending. Everything emitted is reported or lost to a short buffer. */
  ghost predicate Balanced<K, S>(r: Run<K, S>) {
    && r.ledger.reported == r.ledger.taken + Pending(r.conn)
    && |r.ledger.taken| == |r.ledger.handles| + r.ledger.starved
    && |r.ledger.emitted| == |r.ledger.reported| + r.ledger.lost
    && (r.ledger.lost == 0 ==> r.ledger.emitted == r.ledger.reported)
    && r.ledger.nextTaken + r.ledger.nextStarved + (if r.conn.nextSecrets.Some? then 1 else 0) <= r.ledger.oneRtt
    && |r.ledger.drawn| == |r.ledger.handles| + r.ledger.nextTaken
  }

  lemma ApplyBalanced<K, S>(r: Run<K, S>, op: Op<K, S>, server: bool)
    requires Balanced(r)
    ensures var o := Apply(r.conn, op, server);
            Balanced(Run(o.conn, Record(r.conn, r.ledger, op, o.reply)))
  {
    if op.WriteHs? {
      WriteBalanced(r, op, server);
    } else if op.TakeKeys? {
      TakeBalanced(r, server);
    }
  }

  lemma WriteBalanced<K, S>(r: Run<K, S>, op: Op<K, S>, server: bool)
    requires Balanced(r) && op.WriteHs?
    ensures var o := Apply(r.conn, op, server);
            Balanced(Run(o.conn, Record(r.conn, r.ledger, op, o.reply)))
  {
    hide Accumulate;
    var t := r.ledger.taken;
    assert r.conn.pending.None? && op.change.Some? ==> t + [] + [op.change.value.keys] == t + [op.change.value.keys];
  }

  lemma TakeBalanced<K, S>(r: Run<K, S>, server: bool)
    requires Balanced(r)
    ensures var o := Apply(r.conn, TakeKeys, server);
            Balanced(Run(o.conn, Record(r.conn, r.ledger, TakeKeys, o.reply)))
  {
    hide H.NextHandle;
    var t := r.ledger.taken;
    assert r.conn.pending.Some? ==> t + [r.conn.pending.value.1] + [] == t + [r.conn.pending.value.1];
  }

  /** The key conservation law, over every run with any buffers and any handle counter. */
  lemma {:induction false} PlayBalanced<K, S>(ops: seq<Op<K, S>>, counter: int, server: bool)
    ensures Balanced(Play(ops, counter, server))
    decreases |ops|
  {
    if ops != [] {
      PlayBalanced(ops[..|ops| - 1], counter, server);
      ApplyBalanced(Play(ops[..|ops| - 1], counter, server), ops[|ops| - 1], server);
    }
  }

  /** The call drains a key change out of the engine and has no room for the output beside it. */
  predicate Loses<K, S>(c: Conn<K, S>, op: Op<K, S>) {
    op.WriteHs? && c.pending.None? && op.change.Some? && |op.out| > op.capacity
  }

  /** The call empties the slot and finds no handle left. */
  predicate Starves<K, S>(c: Conn<K, S>, op: Op<K, S>) {
    op.TakeKeys? && c.pending.Some? && c.counter <= 0
  }

  /** No call of the run, met in the state the run has reached by then, drops a key. */
  ghost predicate NoneDrops<K, S>(ops: seq<Op<K, S>>, counter: int, server: bool) {
    ops == [] ||
    var n := |ops| - 1;
    var c := Play(ops[..n], counter, server).conn;
    NoneDrops(ops[..n], counter, server) && !Loses(c, ops[n]) && !Starves(c, ops[n])
  }

  lemma {:induction false} DroppedIff<K, S>(ops: seq<Op<K, S>>, counter: int, server: bool)
    ensures var l := Play(ops, counter, server).ledger;
            l.lost == 0 && l.starved == 0 <==> NoneDrops(ops, counter, server)
    decreases |ops|
  {
    if ops != [] { DroppedIff(ops[..|ops| - 1], counter, server); }
  }

  /** Every key the engine produced ends up behind a handle or in the slot, in order, if and only
      if no call met a buffer too short for output that carried a change, and no take met an
      exhausted counter. */
  lemma NoKeyLostIff<K, S>(ops: seq<Op<K, S>>, counter: int, server: bool)
    ensures var r := Play(ops, counter, server);
            (|r.ledger.handles| == |r.ledger.taken| && r.ledger.taken + Pending(r.conn) == r.ledger.emitted)
            <==> NoneDrops(ops, counter, server)
  {
    PlayBalanced(ops, counter, server);
    DroppedIff(ops, counter, server);
    hide Play;
    hide NoneDrops;
  }

  /** A key is really lost: one `write_hs` with no room for its one byte, and there is nothing to take. */
  lemma KeyLostHappens<K, S>(key: K, counter: int, server: bool)
    ensures var ops: seq<Op<K, S>> := [WriteHs([0x00], Some(ToHandshake(key)), 0), TakeKeys];
            var r := Play(ops, counter, server);
            && r.ledger.emitted == [key] && r.ledger.taken == [] && Pending(r.conn) == []
            && !NoneDrops(ops, counter, server)
  {
    var first: Op<K, S> := WriteHs([0x00], Some(ToHandshake(key)), 0);
    var ops := [first, TakeKeys];
    assert ops[..1] == [first] && [first][..0] == [];
    assert Play([first], counter, server).ledger.emitted == [] + [key];
    NoKeyLostIff(ops, counter, server);
  }

  /** Handles drawn so far: positive, increasing, and below the counter unless that has run out. */
  ghost predicate HandlesFresh(handles: seq<int>, counter: int) {
    && (forall i :: 0 <= i < |handles| ==> 0 < handles[i] <= H.MAX && (counter > 0 ==> handles[i] < counter))
    && (forall i, j :: 0 <= i < j < |handles| ==> handles[i] < handles[j])
  }

  predicate MayDraw<K, S>(op: Op<K, S>) {
    op.TakeKeys? || op.TakeNextKeys? || op.Elsewhere?
  }

  /** Calls so far, here or elsewhere, that may have drawn from the counter. */
  function Draws<K, S>(ops: seq<Op<K, S>>): (r: nat) {
    if ops == [] then 0 else Draws(ops[..|ops| - 1]) + (if MayDraw(ops[|ops| - 1]) then 1 else 0)
  }

  /** No take has failed for want of a handle, and the counter has run out only on the last free one. */
  ghost predicate Stocked<K, S>(r: Run<K, S>, bound: int) {
    && r.ledger.starved == 0 && r.ledger.nextStarved == 0 && HandlesFresh(r.ledger.drawn, r.conn.counter)
    && (if r.conn.counter > 0 then r.conn.counter <= bound && r.conn.counter <= H.MAX else bound == H.MAX + 1)
  }

  lemma ApplyHandles<K, S>(r: Run<K, S>, op: Op<K, S>, server: bool, bound: int)
    requires Stocked(r, bound) && (MayDraw(op) ==> bound <= H.MAX)
    ensures var o := Apply(r.conn, op, server);
            Stocked(Run(o.conn, Record(r.conn, r.ledger, op, o.reply)), if MayDraw(op) then bound + 1 else bound)
  {
  }

  lemma StartStocked<K, S>(counter: int)
    requires 0 < counter <= H.MAX
    ensures Stocked<K, S>(Start(counter), counter)
  {
  }

  /** As long as there is a handle for every draw, whoever makes it, down to the last one: no take fails
      for want of one, and the handles returned by either call are positive and strictly increasing. */
  lemma {:induction false} PlayHandles<K, S>(ops: seq<Op<K, S>>, counter: int, server: bool)
    requires 0 < counter <= H.MAX && counter + Draws(ops) <= H.MAX + 1
    ensures Stocked(Play(ops, counter, server), counter + Draws(ops))
    decreases |ops|
  {
    hide Apply;
    hide Record;
    hide Stocked;
    if ops == [] {
      StartStocked<K, S>(counter);
    } else {
      var n := |ops| - 1;
      PlayHandles(ops[..n], counter, server);
      ApplyHandles(Play(ops[..n], counter, server), ops[n], server, counter + Draws(ops[..n]));
    }
  }

  // ---------------------------------------------------------------------------------------
  // What a caller sees
  // ---------------------------------------------------------------------------------------

  /** A call and its reply. */
  datatype Exchange<K, S> = Exchange(op: Op<K, S>, reply: Reply)

  function Log<K, S>(ops: seq<Op<K, S>>, counter: int, server: bool): (r: seq<Exchange<K, S>>)
    ensures |r| == |ops|
  {
    if ops == [] then []
    else
      var n := |ops| - 1;
      var o := Apply(Play(ops[..n], counter, server).conn, ops[n], server);
      Log(ops[..n], counter, server) + [Exchange(ops[n], o.reply)]
  }

  /** The change a caller has been told of and has not taken yet, by the calls and replies alone: the kind that
      was reported, and the keys. */
  function Owed<K, S>(log: seq<Exchange<K, S>>): (r: Option<(nat, K)>) {
    if log == [] then None
    else
      var x := log[|log| - 1];
      if x.op.TakeKeys? then None
      else if x.op.WriteHs? && x.op.change.Some? && x.reply.Wrote? && x.reply.kind != 0
      then Some((x.reply.kind, x.op.change.value.keys))
      else Owed(log[..|log| - 1])
  }

  /** The secrets behind the latest reply of kind 2, unless they have been asked for since. */
  function OwedNext<K, S>(log: seq<Exchange<K, S>>): (r: Option<S>) {
    if log == [] then None
    else
      var x := log[|log| - 1];
      if x.op.TakeNextKeys? then None
      else if x.op.WriteHs? && x.op.change.Some? && x.op.change.value.ToOneRtt? && x.reply.Wrote? && x.reply.kind == 2
      then Some(x.op.change.value.next)
      else OwedNext(log[..|log| - 1])
  }

  /** The alert of the latest `read_hs` that failed, or 50 if the engine named none, unless it has been asked
      for since. */
  function OwedAlert<K, S>(log: seq<Exchange<K, S>>): (r: Option<byte>) {
    if log == [] then None
    else
      var x := log[|log| - 1];
      if x.op.TakeAlert? then None
      else if x.op.ReadHs? && x.reply.Failed? then Some(if x.op.engineAlert.Some? then x.op.engineAlert.value else 50)
      else OwedAlert(log[..|log| - 1])
  }

  /** A reply is the right one, given the calls and replies before it. */
  ghost predicate Answers<K, S>(before: seq<Exchange<K, S>>, x: Exchange<K, S>) {
    match x.op
    case WriteHs(out, change, capacity) =>
      if Owed(before).Some? || |out| > capacity then x.reply == Failed
      else
        && x.reply.Wrote? && x.reply.bytes == out
        && (x.reply.kind == 0 <==> change.None?)
        && (x.reply.kind == 1 <==> change.Some? && change.value.ToHandshake?)
        && (x.reply.kind == 2 <==> change.Some? && change.value.ToOneRtt?)
    case ReadHs(_, accepted, _) => x.reply == if accepted then Done else Failed
    case TakeKeys => if Owed(before).None? then x.reply == Failed else x.reply.Handle? || x.reply == Failed
    case TakeNextKeys => if OwedNext(before).None? then x.reply == Failed else x.reply.Handle? || x.reply == Failed
    case TakeAlert => x.reply == if OwedAlert(before).Some? then AlertCode(OwedAlert(before).value) else Failed
    case Elsewhere => x.reply == Done
  }

  /** The connection's state is what the caller can tell from the calls and replies. */
  ghost predicate Remembers<K, S>(c: Conn<K, S>, log: seq<Exchange<K, S>>) {
    c.pending == Owed(log) && c.nextSecrets == OwedNext(log) && c.alert == OwedAlert(log)
  }

  lemma ApplyAnswers<K, S>(c: Conn<K, S>, log: seq<Exchange<K, S>>, op: Op<K, S>, server: bool)
    requires Remembers(c, log)
    ensures var o := Apply(c, op, server);
            Answers(log, Exchange(op, o.reply)) && Remembers(o.conn, log + [Exchange(op, o.reply)])
  {
    hide H.NextHandle;
    var x := Exchange(op, Apply(c, op, server).reply);
    assert (log + [x])[..|log|] == log;
  }

  /** Over every run, with any engine: every `write_hs` that succeeds returns exactly the engine's bytes, and
      kind 0, 1 or 2 exactly for no change, Handshake keys and 1-RTT keys; it fails exactly while a reported
      change waits to be taken or the buffer is too small. What waits is the last change reported, under the
      kind reported; `take_keys` and `take_next_keys` get something only while a change, or secrets behind a
      reply of kind 2, wait; and the alert call returns the alert of the latest `read_hs` that failed, once. */
  lemma {:induction false} PlayAnswers<K, S>(ops: seq<Op<K, S>>, counter: int, server: bool)
    ensures var log := Log(ops, counter, server);
            && Remembers(Play(ops, counter, server).conn, log)
            && forall i :: 0 <= i < |ops| ==> log[i].op == ops[i] && Answers(log[..i], log[i])
    decreases |ops|
  {
    hide Apply;
    hide Answers;
    hide Remembers;
    hide Record;
    if ops == [] {
      AtFirst<K, S>(counter);
    } else {
      var n := |ops| - 1;
      PlayAnswers(ops[..n], counter, server);
      var before, log := Log(ops[..n], counter, server), Log(ops, counter, server);
      ApplyAnswers(Play(ops[..n], counter, server).conn, before, ops[n], server);
      forall i | 0 <= i < |ops| ensures log[i].op == ops[i] && Answers(log[..i], log[i]) {
        assert log[..i] == before[..i];
        if i < n { assert log[i] == before[i]; } else { assert before[..n] == before; }
      }
    }
  }

  lemma AtFirst<K, S>(counter: int)
    ensures Remembers<K, S>(Start(counter).conn, [])
  {
  }

  // ---------------------------------------------------------------------------------------
  // ClientHello.random
  // ---------------------------------------------------------------------------------------

  /** What the accumulator must hold after these bytes, however they were cut into calls. */
  ghost predicate Captures<K, S>(c: Conn<K, S>, fed: seq<byte>) {
    && c.prefix == fed[..Min(PREFIX_LEN, |fed|)]
    && (c.captured <==> |fed| >= PREFIX_LEN && fed[0] == 0x01)
    && c.random == (if c.captured then fed[RANDOM_OFFSET..PREFIX_LEN] else Zeros(32))
  }

  lemma AccumulateCaptures<K, S>(c: Conn<K, S>, fed: seq<byte>, data: seq<byte>)
    requires Captures(c, fed)
    ensures Captures(Accumulate(c, data), fed + data)
  {
    var all, k := fed + data, Min(PREFIX_LEN, |fed|);
    if |fed| >= PREFIX_LEN {
      assert all[..PREFIX_LEN] == fed[..PREFIX_LEN];
      assert all[RANDOM_OFFSET..PREFIX_LEN] == fed[RANDOM_OFFSET..PREFIX_LEN];
    } else {
      var n := Min(PREFIX_LEN - |fed|, |data|);
      assert c.prefix == fed;
      assert fed + data[..n] == all[..Min(PREFIX_LEN, |all|)];
      if data == [] { assert all == fed; }
      if |all| >= PREFIX_LEN {
        assert all[..PREFIX_LEN][RANDOM_OFFSET..PREFIX_LEN] == all[RANDOM_OFFSET..PREFIX_LEN];
      }
    }
  }

  /** No call but `read_hs` touches the accumulator. */
  lemma ApplyCaptures<K, S>(c: Conn<K, S>, l: Ledger<K>, op: Op<K, S>)
    requires Captures(c, l.fed)
    ensures var o := Apply(c, op, true); Captures(o.conn, Record(c, l, op, o.reply).fed)
    ensures c.captured ==> Apply(c, op, true).conn.captured && Apply(c, op, true).conn.random == c.random
  {
    if op.ReadHs? { AccumulateCaptures(c, l.fed, op.data); }
  }

  /** On a server, over every run and every chunking: the random is present exactly when at least 38
      bytes have arrived and the first is 0x01, and is bytes 6 to 38 of their concatenation. */
  lemma {:induction false} PlayCaptures<K, S>(ops: seq<Op<K, S>>, counter: int)
    ensures var r := Play(ops, counter, true); Captures(r.conn, r.ledger.fed)
    decreases |ops|
  {
    if ops != [] {
      hide Captures;
      hide Apply;
      hide Record;
      var n := |ops| - 1;
      PlayCaptures(ops[..n], counter);
      var r := Play(ops[..n], counter, true);
      ApplyCaptures(r.conn, r.ledger, ops[n]);
    }
  }

  /** Once captured, the random never changes, whatever calls follow. */
  lemma {:induction false} CaptureIsFinal<K, S>(ops: seq<Op<K, S>>, more: seq<Op<K, S>>, counter: int)
    requires Play(ops, counter, true).conn.captured
    ensures var r, r' := Play(ops, counter, true), Play(ops + more, counter, true);
            r'.conn.captured && r'.conn.random == r.conn.random
    decreases |more|
  {
    if more == [] {
      assert ops + more == ops;
    } else {
      var n := |more| - 1;
      assert (ops + more)[..|ops + more| - 1] == ops + more[..n];
      CaptureIsFinal(ops, more[..n], counter);
      hide Apply;
      hide Record;
      hide Captures;
      PlayCaptures(ops + more[..n], counter);
      var r := Play(ops + more[..n], counter, true);
      ApplyCaptures(r.conn, r.ledger, more[n]);
    }
  }

  /** A client connection never captures anything. */
  lemma {:induction false} ClientNeverCaptures<K, S>(ops: seq<Op<K, S>>, counter: int)
    ensures !Play(ops, counter, false).conn.captured
    decreases |ops|
  {
    if ops != [] { ClientNeverCaptures(ops[..|ops| - 1], counter); }
  }

  // ---------------------------------------------------------------------------------------
  // The source's object
  // ---------------------------------------------------------------------------------------

  class QuicConnEntry<K, S> {
    const server: bool
    const counter: H.Counter
    var pending: Option<(nat, K)>
    var nextSecrets: Option<S>
    var alertCache: Option<byte>
    const prefix: array<byte>
    var prefixLen: nat
    var captured: bool
    const random: array<byte>

    ghost predicate Valid()
      reads this, prefix, random
    {
      prefix.Length == PREFIX_LEN && random.Length == 32 && prefixLen <= PREFIX_LEN && prefix != random
    }

    ghost function State(): Conn<K, S>
      reads this, prefix, random, counter
      requires Valid()
    {
      Conn(pending, nextSecrets, alertCache, prefix[..prefixLen], captured, random[..], counter.next)
    }

    constructor (server: bool, counter: H.Counter)
      ensures Valid() && this.server == server && this.counter == counter && fresh(prefix) && fresh(random)
      ensures State() == Fresh(counter.next)
    {
      this.server, this.counter := server, counter;
      pending, nextSecrets, alertCache := None, None, None;
      prefix := new byte[PREFIX_LEN](_ => 0);
      random := new byte[32](_ => 0);
      prefixLen, captured := 0, false;
      new;
      assert random[..] == Zeros(32);
    }

    /** `rlsm_quic_conn_write_hs`; `out` and `change` are what the engine's `write_hs` returned. */
    method WriteHs(out: seq<byte>, change: Option<Change<K, S>>, capacity: nat) returns (reply: Reply)
      requires Valid()
      modifies `pending, `nextSecrets
      ensures Valid() && Outcome(State(), reply) == DoWriteHs(old(State()), out, change, capacity)
    {
      if pending.Some? { return Failed; }
      if |out| > capacity { return Failed; }
      match change {
        case None =>
        case Some(ToHandshake(keys)) => pending := Some((1, keys));
        case Some(ToOneRtt(keys, next)) =>
          pending := Some((2, keys));
          nextSecrets := Some(next);
      }
      return Wrote(out, Kind(change));
    }

    /** The ingress hook: fill the fixed 38-byte buffer in place, then copy the random out of it. */
    method Capture(data: seq<byte>)
      requires Valid()
      modifies `prefixLen, `captured, prefix, random
      ensures Valid() && State() == Accumulate(old(State()), data)
    {
      if captured || data == [] { return; }
      var cur := prefixLen;
      if cur >= PREFIX_LEN { return; }
      var take := Min(PREFIX_LEN - cur, |data|);
      forall i | 0 <= i < take { prefix[cur + i] := data[i]; }
      prefixLen := cur + take;
      assert prefix[..prefixLen] == old(prefix[..prefixLen]) + data[..take];
      if prefixLen == PREFIX_LEN && prefix[0] == 0x01 {
        forall i | 0 <= i < 32 { random[i] := prefix[RANDOM_OFFSET + i]; }
        assert random[..] == prefix[..PREFIX_LEN][RANDOM_OFFSET..PREFIX_LEN];
        captured := true;
      }
    }

    /** `rlsm_quic_conn_read_hs` */
    method ReadHs(data: seq<byte>, accepted: bool, engineAlert: Option<byte>) returns (reply: Reply)
      requires Valid()
      modifies `prefixLen, `captured, `alertCache, prefix, random
      ensures Valid() && Outcome(State(), reply) == DoReadHs(old(State()), data, accepted, engineAlert, server)
    {
      if server { Capture(data); }
      if accepted { return Done; }
      alertCache := Some(if engineAlert.Some? then engineAlert.value else DECODE_ERROR);
      return Failed;
    }

    /** `rlsm_quic_conn_take_keys`; `table` is the key table. */
    method TakeKeys(table: H.HandleTable<K>) returns (reply: Reply)
      requires Valid()
      modifies `pending, table, counter
      ensures Valid() && Outcome(State(), reply) == DoTakeKeys(old(State()))
      ensures table.entries == if reply.Handle? then old(table.entries)[reply.handle := old(pending).value.1]
                               else old(table.entries)
    {
      if pending.None? { return Failed; }
      var keys := pending.value.1;
      pending := None;
      var h := table.Insert(counter, keys);
      if h.None? { return Failed; }
      return Handle(h.value);
    }

    /** `rlsm_quic_conn_take_next_keys`; `derive` is the engine's key schedule. */
    method TakeNextKeys(table: H.HandleTable<K>, derive: S -> K) returns (reply: Reply)
      requires Valid()
      modifies `nextSecrets, table, counter
      ensures Valid() && Outcome(State(), reply) == DoTakeNextKeys(old(State()))
      ensures table.entries == if reply.Handle? then old(table.entries)[reply.handle := derive(old(nextSecrets).value)]
                               else old(table.entries)
    {
      if nextSecrets.None? { return Failed; }
      var secrets := nextSecrets.value;
      nextSecrets := None;
      var h := table.Insert(counter, derive(secrets));
      if h.None? { return Failed; }
      return Handle(h.value);
    }

    /** `rlsm_quic_conn_alert` */
    method TakeAlert() returns (reply: Reply)
      requires Valid()
      modifies `alertCache
      ensures Valid() && Outcome(State(), reply) == DoAlert(old(State()))
    {
      if alertCache.None? { return Failed; }
      reply := AlertCode(alertCache.value);
      alertCache := None;
    }

    /** `rlsm_quic_server_conn_replay_authenticator`: 0 with the random, 1 when there is none yet,
        -1 on a client. */
    method ReplayAuthenticator() returns (rc: int, out: seq<byte>)
      requires Valid()
      ensures rc == (if !server then -1 else if State().captured then 0 else 1)
      ensures out == if rc == 0 then State().random else []
    {
      if !server { return -1, []; }
      if !captured { return 1, []; }
      return 0, random[..];
    }
  }
}
