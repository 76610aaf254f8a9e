/**
 The handle tables: a process-wide atomic counter that hands out 32-bit handles, and the mutex
 protected maps keyed by them, under every interleaving of their atomic steps.
 */
module Handles {
  import opened Bytes

  const MAX := 0x7fff_ffff
  const MIN := -0x8000_0000

  /** `fetch_add(1)` on an `AtomicI32` wraps around. */
  function Wrap(h: int): int {
    if h == MAX then MIN else h + 1
  }

  datatype Next = Next(handle: Option<int>, counter: int)

  /** `next_handle`, run without interruption. */
  function NextHandle(counter: int): (r: Next) {
    if counter > 0 then Next(Some(counter), Wrap(counter)) else Next(None, MAX)
  }

  // ---------------------------------------------------------------------------------------
  // One caller after another
  // ---------------------------------------------------------------------------------------

  /** The counter after n calls. */
  function CounterAfter(n: nat): (r: int) {
    if n == 0 then 1 else NextHandle(CounterAfter(n - 1)).counter
  }

  /** The result of the n-th call, counting from 1. */
  function NthHandle(n: nat): (r: Option<int>)
    requires n > 0
  {
    NextHandle(CounterAfter(n - 1)).handle
  }

  lemma {:induction false} CounterAfterExact(n: nat)
    ensures CounterAfter(n) == if n < MAX then n + 1 else if (n - MAX) % 2 == 0 then MIN else MAX
  {
    if n > 0 { CounterAfterExact(n - 1); }
  }

  /** Exactly what every call returns: 1, 2, ... up to the largest 32-bit integer, and after that
      None and the largest integer in alternation. The pin at `i32::MAX` does not make later calls
      fail, because that value is itself a positive handle. */
  lemma NthHandleExact(n: nat)
    requires n > 0
    ensures NthHandle(n) == if n <= MAX then Some(n) else if (n - MAX) % 2 == 1 then None else Some(MAX)
  {
    CounterAfterExact(n - 1);
  }

  ghost predicate DistinctUpTo(n: nat) {
    forall i, j :: 0 < i < j <= n && NthHandle(i).Some? ==> NthHandle(i) != NthHandle(j)
  }

  /** The handles of the first n calls are pairwise distinct if and only if n is at most 2^31. */
  lemma DistinctIff(n: nat)
    ensures DistinctUpTo(n) <==> n <= MAX + 1
  {
    if n <= MAX + 1 {
      forall i, j | 0 < i < j <= n && NthHandle(i).Some? ensures NthHandle(i) != NthHandle(j) {
        NthHandleExact(i);
        NthHandleExact(j);
      }
    } else {
      NthHandleExact(MAX);
      NthHandleExact(MAX + 2);
      assert NthHandle(MAX) == NthHandle(MAX + 2);
    }
  }

  // ---------------------------------------------------------------------------------------
  // Interleaved callers
  // ---------------------------------------------------------------------------------------

  /** Where a thread stands inside `insert`. */
  datatype Pc<V> = Idle | Pinning | Holding(key: Key, value: V)

  /** A table and a handle in it. */
  datatype Key = Key(table: nat, handle: int)

  /** One atomic step of one thread. An insertion is a fetch followed by a publication under the
      table's lock, or by the pin when the counter has run out. */
  datatype Action<V> =
    | Fetch(tid: nat, table: nat, value: V)
    | Pin(tid: nat)
    | Publish(tid: nat)
    | Update(key: Key, value: V)
    | Remove(key: Key)

  datatype State<V> = State(
    counter: int,
    threads: map<nat, Pc<V>>,
    entries: map<Key, V>,
    fetches: nat,        // fetch_add operations so far
    issued: seq<int>,    // handles handed out, in order
    removed: set<Key>)   // keys a `remove` has taken out

  function At<V>(s: State<V>, tid: nat): Pc<V> {
    if tid in s.threads then s.threads[tid] else Idle
  }

  function Init<V>(): State<V> {
    State(1, map[], map[], 0, [], {})
  }

  /** A step that is not enabled leaves the state alone. */
  function Step<V>(s: State<V>, a: Action<V>): (r: State<V>) {
    match a
    case Fetch(tid, table, value) =>
      if !At(s, tid).Idle? then s
      else
        var h := s.counter;
        var s' := s.(counter := Wrap(h), fetches := s.fetches + 1);
        if h > 0 then s'.(threads := s.threads[tid := Holding(Key(table, h), value)], issued := s.issued + [h])
        else s'.(threads := s.threads[tid := Pinning])
    case Pin(tid) =>
      if !At(s, tid).Pinning? then s else s.(counter := MAX, threads := s.threads[tid := Idle])
    case Publish(tid) =>
      var pc := At(s, tid);
      if !pc.Holding? then s else s.(entries := s.entries[pc.key := pc.value], threads := s.threads[tid := Idle])
    case Update(key, value) =>
      if key !in s.entries then s else s.(entries := s.entries[key := value])
    case Remove(key) =>
      if key !in s.entries then s else s.(entries := s.entries - {key}, removed := s.removed + {key})
  }

  function Run<V>(actions: seq<Action<V>>): (r: State<V>) {
    if actions == [] then Init() else Step(Run(actions[..|actions| - 1]), actions[|actions| - 1])
  }

  /** The counter and the handles issued, as a function of the number of fetches. */
  ghost predicate Counted<V(!new)>(s: State<V>) {
    && (forall i :: 0 <= i < |s.issued| ==> s.issued[i] == i + 1)
    && (if s.fetches < MAX then s.counter == s.fetches + 1 else s.fetches == MAX ==> s.counter == MIN)
    && |s.issued| == (if s.fetches <= MAX then s.fetches else MAX)
    && (s.fetches <= MAX ==> forall tid :: tid in s.threads ==> !s.threads[tid].Pinning?)
  }

  ghost predicate HeldIssued<V(!new)>(s: State<V>) {
    forall tid :: tid in s.threads && s.threads[tid].Holding? ==> 1 <= s.threads[tid].key.handle <= |s.issued|
  }

  /** A handle a thread holds is held by no other thread. */
  ghost predicate HeldOnce<V(!new)>(s: State<V>) {
    forall tid, tid' :: tid in s.threads && tid' in s.threads && tid != tid'
      && s.threads[tid].Holding? && s.threads[tid'].Holding?
      ==> s.threads[tid].key.handle != s.threads[tid'].key.handle
  }

  /** A handle a thread holds is in no table and never was. */
  ghost predicate HeldFresh<V(!new)>(s: State<V>) {
    forall tid, k :: tid in s.threads && s.threads[tid].Holding? && (k in s.entries || k in s.removed)
      ==> k.handle != s.threads[tid].key.handle
  }

  ghost predicate Stored<V(!new)>(s: State<V>) {
    && (forall k :: k in s.entries ==> 1 <= k.handle <= |s.issued| && k !in s.removed)
    && (forall k :: k in s.removed ==> 1 <= k.handle <= |s.issued|)
  }

  /** Every issued handle is held by one thread, or in one table, or gone; never two of these. */
  ghost predicate Inv<V(!new)>(s: State<V>) {
    Counted(s) && HeldIssued(s) && HeldOnce(s) && HeldFresh(s) && Stored(s)
  }

  lemma CountedStep<V(!new)>(s: State<V>, a: Action<V>)
    requires Counted(s) && Step(s, a).fetches <= MAX + 1
    ensures Counted(Step(s, a)) && |s.issued| <= |Step(s, a).issued|
    ensures a.Fetch? && At(s, a.tid).Idle? && s.counter > 0 ==> s.counter == |s.issued| + 1
  {
  }

  lemma HeldIssuedStep<V(!new)>(s: State<V>, a: Action<V>)
    requires HeldIssued(s) && |s.issued| <= |Step(s, a).issued|
    requires a.Fetch? && At(s, a.tid).Idle? && s.counter > 0 ==> s.counter == |s.issued| + 1
    ensures HeldIssued(Step(s, a))
  {
  }

  lemma HeldOnceStep<V(!new)>(s: State<V>, a: Action<V>)
    requires HeldIssued(s) && HeldOnce(s)
    requires a.Fetch? && At(s, a.tid).Idle? && s.counter > 0 ==> s.counter == |s.issued| + 1
    ensures HeldOnce(Step(s, a))
  {
  }

  lemma HeldFreshStep<V(!new)>(s: State<V>, a: Action<V>)
    requires HeldOnce(s) && HeldFresh(s) && Stored(s)
    requires a.Fetch? && At(s, a.tid).Idle? && s.counter > 0 ==> s.counter == |s.issued| + 1
    ensures HeldFresh(Step(s, a))
  {
  }

  lemma StepInv<V(!new)>(s: State<V>, a: Action<V>)
    requires Inv(s) && Step(s, a).fetches <= MAX + 1
    ensures Inv(Step(s, a))
  {
    hide Step;
    hide Counted;
    hide HeldIssued;
    hide HeldOnce;
    hide HeldFresh;
    hide Stored;
    CountedStep(s, a);
    HeldIssuedStep(s, a);
    HeldOnceStep(s, a);
    HeldFreshStep(s, a);
    StoredStep(s, a);
  }

  lemma StoredStep<V(!new)>(s: State<V>, a: Action<V>)
    requires HeldIssued(s) && HeldFresh(s) && Stored(s) && |s.issued| <= |Step(s, a).issued|
    ensures Stored(Step(s, a))
  {
  }

  lemma {:induction false} RunInv<V(!new)>(actions: seq<Action<V>>)
    requires Run(actions).fetches <= MAX + 1
    ensures Inv(Run(actions))
    decreases |actions|
  {
    if actions != [] {
      RunInv(actions[..|actions| - 1]);
      StepInv(Run(actions[..|actions| - 1]), actions[|actions| - 1]);
    }
  }

  /** Over every interleaving with at most 2^31 allocations across all tables, the handles issued
      are positive and pairwise distinct. */
  lemma IssuedDistinct<V(!new)>(actions: seq<Action<V>>)
    requires Run(actions).fetches <= MAX + 1
    ensures var h := Run(actions).issued;
            && (forall i :: 0 <= i < |h| ==> 0 < h[i] <= MAX)
            && (forall i, j :: 0 <= i < j < |h| ==> h[i] != h[j])
  {
    RunInv(actions);
  }

  lemma {:induction false} RunConcat<V(!new)>(actions: seq<Action<V>>, more: seq<Action<V>>)
    requires more != []
    ensures Run(actions + more) == Step(Run(actions + more[..|more| - 1]), more[|more| - 1])
    ensures Run(actions + more[..|more| - 1]).fetches <= Run(actions + more).fetches
  {
    assert (actions + more)[..|actions + more| - 1] == actions + more[..|more| - 1];
  }

  /** A value stays under its handle until that key is updated or removed: no later insertion, by
      any thread into any table, can displace it. */
  lemma {:induction false} LookupStable<V(!new)>(actions: seq<Action<V>>, more: seq<Action<V>>, key: Key)
    requires Run(actions + more).fetches <= MAX + 1 && key in Run(actions).entries
    requires forall i :: 0 <= i < |more| ==> more[i] != Remove(key) && !(more[i].Update? && more[i].key == key)
    ensures key in Run(actions + more).entries && Run(actions + more).entries[key] == Run(actions).entries[key]
    decreases |more|
  {
    if more == [] {
      assert actions + more == actions;
    } else {
      RunConcat(actions, more);
      LookupStable(actions, more[..|more| - 1], key);
      RunInv(actions + more[..|more| - 1]);
    }
  }

  /** A thread between its fetch and its publication keeps the handle it drew, whatever the others do. */
  lemma {:induction false} HoldsUntilPublished<V(!new)>(
    actions: seq<Action<V>>, between: seq<Action<V>>, tid: nat)
    requires At(Run(actions), tid).Holding?
    requires forall i :: 0 <= i < |between| ==> between[i] != Publish(tid)
    ensures At(Run(actions + between), tid) == At(Run(actions), tid)
    decreases |between|
  {
    if between == [] {
      assert actions + between == actions;
    } else {
      RunConcat(actions, between);
      HoldsUntilPublished(actions, between[..|between| - 1], tid);
    }
  }

  /** An insertion that draws a handle makes its value available under that handle from its
      publication on, however the steps of other threads fall between and after, until that key is
      updated or removed. */
  lemma InsertThenLookup<V(!new)>(
    actions: seq<Action<V>>, tid: nat, table: nat, value: V, between: seq<Action<V>>, more: seq<Action<V>>)
    requires At(Run(actions), tid).Idle? && Run(actions).counter > 0
    requires forall i :: 0 <= i < |between| ==> between[i] != Publish(tid)
    requires var key := Key(table, Run(actions).counter);
             forall i :: 0 <= i < |more| ==> more[i] != Remove(key) && !(more[i].Update? && more[i].key == key)
    requires Run(actions + [Fetch(tid, table, value)] + between + [Publish(tid)] + more).fetches <= MAX + 1
    ensures var key := Key(table, Run(actions).counter);
            var s := Run(actions + [Fetch(tid, table, value)] + between + [Publish(tid)] + more);
            key in s.entries && s.entries[key] == value
  {
    hide Run;
    hide Step;
    var key := Key(table, Run(actions).counter);
    var drawn := actions + [Fetch(tid, table, value)];
    var published := drawn + between + [Publish(tid)];
    RunSnoc(actions, Fetch(tid, table, value));
    FetchHolds(Run(actions), tid, table, value);
    HoldsUntilPublished(drawn, between, tid);
    RunSnoc(drawn + between, Publish(tid));
    PublishStores(Run(drawn + between), tid, key, value);
    LookupStable(published, more, key);
  }

  lemma RunSnoc<V(!new)>(actions: seq<Action<V>>, a: Action<V>)
    ensures Run(actions + [a]) == Step(Run(actions), a)
  {
    assert (actions + [a])[..|actions|] == actions;
  }

  lemma FetchHolds<V(!new)>(s: State<V>, tid: nat, table: nat, value: V)
    requires At(s, tid).Idle? && s.counter > 0
    ensures At(Step(s, Fetch(tid, table, value)), tid) == Holding(Key(table, s.counter), value)
  {
  }

  lemma PublishStores<V(!new)>(s: State<V>, tid: nat, key: Key, value: V)
    requires At(s, tid) == Holding(key, value)
    ensures var r := Step(s, Publish(tid)); key in r.entries && r.entries[key] == value
  {
  }

  /** A table object holds what the state holds under that table. */
  ghost predicate Holds<V(!new)>(entries: map<int, V>, s: State<V>, table: nat) {
    forall h ::
      && (h in entries <==> Key(table, h) in s.entries)
      && (h in entries ==> entries[h] == s.entries[Key(table, h)])
  }

  /** The state after an insertion that nobody interrupts: a fetch and a publication, or a fetch and
      the pin. */
  function Inserted<V>(s: State<V>, tid: nat, table: nat, value: V): (r: State<V>) {
    Step(Step(s, Fetch(tid, table, value)), if s.counter > 0 then Publish(tid) else Pin(tid))
  }

  /** Those steps are `HandleTable.Insert`: same handle, same counter, same table, and every other table
      as it was. */
  lemma InsertIsSteps<V(!new)>(s: State<V>, tid: nat, table: nat, value: V, entries: map<int, V>)
    requires At(s, tid).Idle? && Holds(entries, s, table)
    ensures var n, r := NextHandle(s.counter), Inserted(s, tid, table, value);
            && r.counter == n.counter && At(r, tid).Idle?
            && Holds(if n.handle.Some? then entries[n.handle.value := value] else entries, r, table)
            && forall k: Key :: k.table != table ==>
                 (k in r.entries <==> k in s.entries) && (k in s.entries ==> r.entries[k] == s.entries[k])
  {
    var r := Inserted(s, tid, table, value);
    assert r.entries == if s.counter > 0 then s.entries[Key(table, s.counter) := value] else s.entries;
  }

  /** Once a key has been removed it never resolves again. */
  lemma {:induction false} RemovedForever<V(!new)>(actions: seq<Action<V>>, more: seq<Action<V>>, key: Key)
    requires Run(actions + more).fetches <= MAX + 1 && key in Run(actions).removed
    ensures key in Run(actions + more).removed && key !in Run(actions + more).entries
    decreases |more|
  {
    hide Step;
    hide Inv;
    if more == [] {
      assert actions + more == actions;
    } else {
      RunConcat(actions, more);
      RemovedForever(actions, more[..|more| - 1], key);
      RemovedStays(Run(actions + more[..|more| - 1]), more[|more| - 1], key);
    }
    RunInv(actions + more);
    RemovedIsGone(Run(actions + more), key);
  }

  lemma RemovedStays<V(!new)>(s: State<V>, a: Action<V>, key: Key)
    requires key in s.removed
    ensures key in Step(s, a).removed
  {
  }

  lemma RemovedIsGone<V(!new)>(s: State<V>, key: Key)
    requires Inv(s) && key in s.removed
    ensures key !in s.entries
  {
    hide Counted;
  }

  // ---------------------------------------------------------------------------------------
  // The source's objects
  // ---------------------------------------------------------------------------------------

  /** The static `NEXT_HANDLE`. */
  class Counter {
    var next: int

    constructor ()
      ensures next == 1
    {
      next := 1;
    }

    method Allocate() returns (h: Option<int>)
      modifies this
      ensures Next(h, next) == NextHandle(old(next))
    {
      var v := next;
      next := Wrap(next);
      if v > 0 {
        h := Some(v);
      } else {
        next := MAX;
        h := None;
      }
    }
  }

  class HandleTable<T> {
    var entries: map<int, T>

    constructor ()
      ensures entries == map[]
    {
      entries := map[];
    }

    /** Nothing is stored when the counter is exhausted. */
    method Insert(counter: Counter, value: T) returns (h: Option<int>)
      modifies this, counter
      ensures Next(h, counter.next) == NextHandle(old(counter.next))
      ensures entries == if h.Some? then old(entries)[h.value := value] else old(entries)
    {
      h := counter.Allocate();
      if h.Some? { entries := entries[h.value := value]; }
    }

    method With<R>(h: int, f: T -> R) returns (r: Option<R>)
      ensures r == if h in entries then Some(f(entries[h])) else None
    {
      if h in entries { return Some(f(entries[h])); }
      return None;
    }

    /** `f` gives the new value and what the closure returns. */
    method WithMut<R>(h: int, f: T -> (T, R)) returns (r: Option<R>)
      modifies this
      ensures r == if h in old(entries) then Some(f(old(entries)[h]).1) else None
      ensures entries == if h in old(entries) then old(entries)[h := f(old(entries)[h]).0] else old(entries)
    {
      if h !in entries { return None; }
      var v := f(entries[h]);
      entries := entries[h := v.0];
      return Some(v.1);
    }

    method Remove(h: int) returns (v: Option<T>)
      modifies this
      ensures v == if h in old(entries) then Some(old(entries)[h]) else None
      ensures entries == old(entries) - {h}
    {
      v := None;
      if h in entries { v := Some(entries[h]); }
      entries := entries - {h};
    }
  }
}
