/**
 The streaming decompressors' cap enforcement. zlib and brotli themselves are arbitrary: each
 call meets any return code and any number of produced bytes that fits the buffer the library
 was told about.
 */
module Decompress {
  import opened Bytes

  const RATIO_FLOOR := 1024

  datatype Codec = Gzip | Brotli

  /** Zero disables a cap. The ratio is in hundredths. */
  datatype Limits = Limits(inputCap: nat, outputCap: nat, ratio: nat) {
    predicate Valid() { inputCap < U64 && outputCap < U64 && ratio < U32 }
  }

  /** The wrapper's counters; `availIn` is what zlib left unread. */
  datatype Stream = Stream(inTotal: nat, outTotal: nat, finished: bool, availIn: nat)

  /** The library's answer: bytes produced, input left over, and a fatal error or whether the stream
      has ended. A library may write output before it reports an error. */
  datatype Answer = Fatal(produced: nat, leftover: nat) | Answered(produced: nat, leftover: nat, ended: bool)

  datatype Call = Feed(input: seq<byte>, outCap: nat, answer: Answer) | Finish(outCap: nat, answer: Answer)

  /** zlib's `avail_in` and `avail_out` are 32-bit fields; brotli's are `size_t`. */
  function Cast(codec: Codec, n: nat): (r: nat) {
    if codec == Gzip then n % U32 else n
  }

  /** How much input the caller gives, and how much of it the library is handed. */
  function InLen(c: Call): (r: nat) {
    if c.Feed? then |c.input| else 0
  }

  function AvailIn(codec: Codec, c: Call): (r: nat) {
    Cast(codec, InLen(c))
  }

  /** What a call can meet: sizes are 64-bit, no more is produced than the library saw room for, and
      no more is left over than it was handed. */
  ghost predicate Possible(codec: Codec, c: Call) {
    && c.outCap < U64 && InLen(c) < U64
    && c.answer.produced <= Cast(codec, c.outCap) && c.answer.leftover <= AvailIn(codec, c)
  }

  // ---------------------------------------------------------------------------------------
  // The wrapper
  // ---------------------------------------------------------------------------------------

  /** The test as computed: the product is a 64-bit one. */
  predicate RatioExceeded(inTotal: nat, outTotal: nat, ratio: nat) {
    outTotal > (inTotal * ratio % U64) / 100
  }

  /** `check_caps`, `check_caps_br` */
  function CapCode(l: Limits, inTotal: nat, outTotal: nat): (r: int) {
    if l.inputCap != 0 && inTotal > l.inputCap then -2
    else if l.outputCap != 0 && outTotal > l.outputCap then -3
    else if l.ratio != 0 && inTotal >= RATIO_FLOOR && RatioExceeded(inTotal, outTotal, l.ratio) then -4
    else 0
  }

  /** `out_cap - avail_out` after the library has produced its bytes. */
  function Written(codec: Codec, outCap: nat, produced: nat): (r: nat) {
    outCap - (Cast(codec, outCap) - produced)
  }

  datatype Outcome = Outcome(stream: Stream, code: int)

  /** The common tail of feed and finish. */
  function Settle(codec: Codec, l: Limits, s: Stream, outCap: nat, a: Answer): (r: Outcome) {
    if a.Fatal? then Outcome(s.(availIn := a.leftover), -1)
    else
      var written := Written(codec, outCap, a.produced);
      var s' := s.(outTotal := (s.outTotal + written) % U64, finished := s.finished || a.ended, availIn := a.leftover);
      var err := CapCode(l, s'.inTotal, s'.outTotal);
      Outcome(s', if err != 0 then err else written)
  }

  function Apply(codec: Codec, l: Limits, s: Stream, c: Call): (r: Outcome) {
    match c
    case Feed(input, outCap, a) =>
      if s.finished then Outcome(s, 0)
      else
        var s' := s.(inTotal := (s.inTotal + |input|) % U64);
        if l.inputCap != 0 && s'.inTotal > l.inputCap then Outcome(s', -2) else Settle(codec, l, s', outCap, a)
    case Finish(outCap, a) =>
      if s.finished && (codec == Brotli || s.availIn == 0) then Outcome(s, 0)
      else Settle(codec, l, s.(availIn := 0), outCap, a)
  }

  const START := Stream(0, 0, false, 0)

  // ---------------------------------------------------------------------------------------
  // The arithmetic
  // ---------------------------------------------------------------------------------------

  /** The byte count returned for a successful call is the number of bytes the library produced, and
      the bytes counted as input are those it was handed, if and only if the caller's length survives
      the cast to the library's type. */
  lemma CastExactIff(codec: Codec, n: nat, produced: nat)
    requires n < U64 && produced <= Cast(codec, n)
    ensures Written(codec, n, produced) == produced <==> codec == Brotli || n < U32
    ensures Cast(codec, n) == n <==> codec == Brotli || n < U32
    ensures Cast(codec, n) <= n && produced <= Written(codec, n, produced) <= n
  {
  }

  /** The ratio test never admits too much: whatever wraps around, exceeding the ratio is noticed. */
  lemma RatioSound(inTotal: nat, outTotal: nat, ratio: nat)
    requires 100 * outTotal > ratio * inTotal
    ensures RatioExceeded(inTotal, outTotal, ratio)
  {
    var p := inTotal * ratio;
    assert p == ratio * inTotal;
    assert p % U64 <= p;
  }

  /** It is exactly 100 * out > ratio * in, for every output count, if and only if the product of
      input and ratio fits 64 bits. */
  lemma RatioExactIff(inTotal: nat, ratio: nat)
    ensures (forall out: nat | out < U64 :: RatioExceeded(inTotal, out, ratio) <==> 100 * out > ratio * inTotal)
       <==> inTotal * ratio < U64
  {
    var p := inTotal * ratio;
    assert p == ratio * inTotal;
    if p < U64 {
      assert p % U64 == p;
    } else {
      var out := (p % U64) / 100 + 1;
      assert out < U64 && RatioExceeded(inTotal, out, ratio) && !(100 * out > p);
    }
  }

  /** An input cap below 2^32 keeps the test exact, since the ratio is a 32-bit number. */
  lemma SmallInputCapIsExact(l: Limits, inTotal: nat)
    requires l.Valid() && inTotal <= l.inputCap < U32
    ensures inTotal * l.ratio < U64
  {
    assert inTotal * l.ratio <= l.inputCap * l.ratio by { Monotone(inTotal, l.inputCap, l.ratio); }
    assert l.inputCap * l.ratio <= U32 * l.ratio by { Monotone(l.inputCap, U32, l.ratio); }
  }

  lemma Monotone(a: nat, b: nat, k: nat)
    requires a <= b
    ensures a * k <= b * k
  {
  }

  // ---------------------------------------------------------------------------------------
  // Whole runs
  // ---------------------------------------------------------------------------------------

  /** A stream together with what really happened: bytes the library produced in successful calls, the
      bytes it read, the bytes the caller gave it, and whether a call has failed. */
  datatype History = History(stream: Stream, delivered: nat, read: seq<byte>, given: seq<byte>, failed: bool)

  function Play(codec: Codec, l: Limits, calls: seq<Call>): (r: History) {
    if calls == [] then History(START, 0, [], [], false)
    else
      var h := Play(codec, l, calls[..|calls| - 1]);
      var c := calls[|calls| - 1];
      var o := Apply(codec, l, h.stream, c);
      if h.failed || o.code < 0 then h.(stream := o.stream, failed := true)
      else
        History(o.stream, h.delivered + Produced(codec, h.stream, c), h.read + Read(codec, h.stream, c),
                h.given + Offer(codec, h.stream, c), false)
  }

  /** Does the call reach the library? */
  predicate Reaches(codec: Codec, s: Stream, c: Call) {
    match c
    case Feed(_, _, _) => !s.finished
    case Finish(_, _) => !(s.finished && (codec == Brotli || s.availIn == 0))
  }

  function Produced(codec: Codec, s: Stream, c: Call): (r: nat) {
    if Reaches(codec, s, c) then c.answer.produced else 0
  }

  /** The input of a call that reaches the library. */
  function Offer(codec: Codec, s: Stream, c: Call): (r: seq<byte>) {
    if Reaches(codec, s, c) && c.Feed? then c.input else []
  }

  /** The part of it the library reads. What it leaves is not offered again: the next feed points it at
      new input, and finish at none. */
  function Read(codec: Codec, s: Stream, c: Call): (r: seq<byte>) {
    var x, n := Offer(codec, s, c), AvailIn(codec, c) - c.answer.leftover;
    if 0 <= n <= |x| then x[..n] else x
  }

  /** Buffer sizes offered and input given over a run. */
  function Offered(calls: seq<Call>): (r: nat) {
    if calls == [] then 0 else Offered(calls[..|calls| - 1]) + calls[|calls| - 1].outCap
  }

  function Given(calls: seq<Call>): (r: nat) {
    if calls == [] then 0
    else Given(calls[..|calls| - 1]) + InLen(calls[|calls| - 1])
  }

  /** The run stays within what a 64-bit counter can count. */
  ghost predicate Countable(codec: Codec, calls: seq<Call>) {
    && Offered(calls) < U64 && Given(calls) < U64
    && forall i :: 0 <= i < |calls| ==> Possible(codec, calls[i])
  }

  /** Every buffer that reached the library kept its length in the cast. */
  ghost predicate OutputsFit(codec: Codec, l: Limits, calls: seq<Call>) {
    calls == [] ||
    var n := |calls| - 1;
    && OutputsFit(codec, l, calls[..n])
    && (Reaches(codec, Play(codec, l, calls[..n]).stream, calls[n]) ==> codec == Brotli || calls[n].outCap < U32)
  }

  /** Every input that reached the library kept its length in the cast and was read to its end. */
  ghost predicate InputsRead(codec: Codec, l: Limits, calls: seq<Call>) {
    calls == [] ||
    var n := |calls| - 1;
    && InputsRead(codec, l, calls[..n])
    && (Reaches(codec, Play(codec, l, calls[..n]).stream, calls[n]) && calls[n].Feed? ==>
          (codec == Brotli || |calls[n].input| < U32) && calls[n].answer.leftover == 0)
  }

  /** The counters are within every cap. */
  ghost predicate WithinCaps(l: Limits, inTotal: nat, outTotal: nat) {
    && (l.inputCap != 0 ==> inTotal <= l.inputCap)
    && (l.outputCap != 0 ==> outTotal <= l.outputCap)
    && (l.ratio != 0 && inTotal >= RATIO_FLOOR ==> 100 * outTotal <= l.ratio * inTotal)
  }

  lemma CapCodeSound(l: Limits, inTotal: nat, outTotal: nat)
    requires CapCode(l, inTotal, outTotal) == 0
    ensures WithinCaps(l, inTotal, outTotal)
  {
    if 100 * outTotal > l.ratio * inTotal { RatioSound(inTotal, outTotal, l.ratio); }
  }

  lemma CallBounds(codec: Codec, s: Stream, c: Call)
    requires Possible(codec, c)
    ensures Produced(codec, s, c) <= c.outCap
  {
  }

  /** What a call that reaches the library reads is a prefix of its input, and all of it if and only if
      nothing was cut and nothing left over. */
  lemma ReadsPrefix(codec: Codec, s: Stream, c: Call)
    requires Possible(codec, c)
    ensures var x, r := Offer(codec, s, c), Read(codec, s, c);
            && r <= x
            && (|r| == |x| <==>
                  (Reaches(codec, s, c) && c.Feed? ==> (codec == Brotli || |c.input| < U32) && c.answer.leftover == 0))
  {
    hide Cast;
    hide Written;
    hide Reaches;
    CastExactIff(codec, InLen(c), 0);
    var x, n := Offer(codec, s, c), AvailIn(codec, c) - c.answer.leftover;
    if Reaches(codec, s, c) && c.Feed? {
      assert x == c.input && Read(codec, s, c) == x[..n];
    } else {
      assert x == [] && Read(codec, s, c) == [];
    }
  }

  lemma CountablePrefix(codec: Codec, calls: seq<Call>)
    requires Countable(codec, calls) && calls != []
    ensures Countable(codec, calls[..|calls| - 1]) && Possible(codec, calls[|calls| - 1])
  {
    var n := |calls| - 1;
    assert forall i :: 0 <= i < n ==> calls[..n][i] == calls[i];
  }

  /** How one successful call moves the counters: they grow by the lengths the caller gave, within the
      caps if the library was reached. */
  lemma ApplyCounts(codec: Codec, l: Limits, s: Stream, c: Call)
    requires Possible(codec, c) && Apply(codec, l, s, c).code >= 0
    requires s.inTotal + InLen(c) < U64 && s.outTotal + c.outCap < U64
    ensures var s' := Apply(codec, l, s, c).stream;
            if Reaches(codec, s, c) then
              && c.answer.Answered?
              && s'.inTotal == s.inTotal + InLen(c)
              && s'.outTotal == s.outTotal + Written(codec, c.outCap, c.answer.produced)
              && WithinCaps(l, s'.inTotal, s'.outTotal)
            else s' == s
  {
    hide WithinCaps;
    hide CapCode;
    CastExactIff(codec, c.outCap, c.answer.produced);
    if Reaches(codec, s, c) && c.answer.Answered? {
      var inTotal := s.inTotal + InLen(c);
      var outTotal := s.outTotal + Written(codec, c.outCap, c.answer.produced);
      if CapCode(l, inTotal, outTotal) == 0 {
        CapCodeSound(l, inTotal, outTotal);
      } else {
        CapCodeNegative(l, inTotal, outTotal);
      }
    }
  }

  lemma CapCodeNegative(l: Limits, inTotal: nat, outTotal: nat)
    ensures CapCode(l, inTotal, outTotal) <= 0
  {
  }

  /** The counters against the truth. `in_total` is what the caller gave; the library has read all of
      that, byte for byte, if and only if no length was cut and nothing was left over. `out_total` is
      never below what was delivered, and equal to it if and only if no buffer length was cut. */
  ghost predicate Counted(codec: Codec, l: Limits, calls: seq<Call>) {
    var h := Play(codec, l, calls);
    && h.delivered <= h.stream.outTotal <= Offered(calls)
    && |h.read| <= |h.given| == h.stream.inTotal <= Given(calls)
    && (h.delivered == h.stream.outTotal <==> OutputsFit(codec, l, calls))
    && (h.read == h.given <==> InputsRead(codec, l, calls))
  }

  lemma JoinedPrefixes(a: seq<byte>, b: seq<byte>, x: seq<byte>, y: seq<byte>)
    requires |a| <= |b| && x <= y
    ensures |a + x| <= |b + y| && (a + x == b + y <==> a == b && |x| == |y|)
  {
    if a + x == b + y {
      assert |a| == |b| && |x| == |y|;
      assert a == (a + x)[..|a|] && b == (b + y)[..|b|];
    }
  }

  lemma {:induction false} PlayCounted(codec: Codec, l: Limits, calls: seq<Call>)
    requires Countable(codec, calls) && !Play(codec, l, calls).failed
    ensures Counted(codec, l, calls)
    ensures var s := Play(codec, l, calls).stream; WithinCaps(l, s.inTotal, s.outTotal)
    decreases |calls|
  {
    hide Apply;
    hide WithinCaps;
    hide Written;
    hide Cast;
    hide Read;
    if calls == [] {
      WithinAtStart(l);
    } else {
      var n := |calls| - 1;
      var c, h := calls[n], Play(codec, l, calls[..n]);
      CountablePrefix(codec, calls);
      PlayCounted(codec, l, calls[..n]);
      ApplyCounts(codec, l, h.stream, c);
      CastExactIff(codec, c.outCap, c.answer.produced);
      ReadsPrefix(codec, h.stream, c);
      JoinedPrefixes(h.read, h.given, Read(codec, h.stream, c), Offer(codec, h.stream, c));
    }
  }

  lemma WithinAtStart(l: Limits)
    ensures WithinCaps(l, 0, 0)
  {
  }

  /** Over every run and every decoder, while no call has failed: what was delivered respects the output
      cap and what was read the input cap, whatever the casts and the library did; the counters are the
      truth exactly as `Counted` says; and if the library has read everything it was given, the ratio cap
      holds of what it delivered against what it read, even when its product wraps. */
  lemma PlayWithinCaps(codec: Codec, l: Limits, calls: seq<Call>)
    requires Countable(codec, calls) && !Play(codec, l, calls).failed
    ensures Counted(codec, l, calls)
    ensures var h := Play(codec, l, calls);
            && (l.inputCap != 0 ==> |h.read| <= l.inputCap)
            && (l.outputCap != 0 ==> h.delivered <= l.outputCap)
            && (InputsRead(codec, l, calls) && l.ratio != 0 && |h.read| >= RATIO_FLOOR ==>
                  100 * h.delivered <= l.ratio * |h.read|)
  {
    hide Play;
    hide InputsRead;
    hide OutputsFit;
    PlayCounted(codec, l, calls);
  }

  /** One feed of n bytes that reads 1024 of them and produces a mebibyte, under a 1:1 ratio cap. */
  ghost predicate Escapes(n: nat, leftover: nat) {
    var l, call := Limits(0, 0, 100), Feed(Zeros(n), 0x10_0000, Answered(0x10_0000, leftover, false));
    var h := Play(Gzip, l, [call]);
    && l.Valid() && Countable(Gzip, [call]) && !h.failed
    && |h.read| == 1024 && h.delivered == 0x10_0000 && 100 * h.delivered > l.ratio * |h.read|
  }

  lemma EscapesIf(n: nat, leftover: nat)
    requires 0x10_0000 <= n < 2 * U32 && n % U32 == 1024 + leftover
    ensures Escapes(n, leftover)
  {
    hide Apply;
    hide Cast;
    hide Read;
    hide Zeros;
    var call := Feed(Zeros(n), 0x10_0000, Answered(0x10_0000, leftover, false));
    EscapeCode(n, leftover);
    EscapeSizes(n, leftover);
    assert [call][..0] == [];
    assert Offered([call]) == Offered([]) + 0x10_0000 && Given([call]) == Given([]) + n;
    var l, read := Limits(0, 0, 100), [] + Read(Gzip, START, call);
    assert Play(Gzip, l, []) == History(START, 0, [], [], false);
    var h := Play(Gzip, l, [call]);
    assert !h.failed && h.delivered == 0x10_0000 && h.read == read && |read| == 1024;
    assert Countable(Gzip, [call]);
  }

  lemma EscapeSizes(n: nat, leftover: nat)
    requires 0x10_0000 <= n < 2 * U32 && n % U32 == 1024 + leftover
    ensures var call := Feed(Zeros(n), 0x10_0000, Answered(0x10_0000, leftover, false));
            Possible(Gzip, call) && |Read(Gzip, START, call)| == 1024
  {
    hide Zeros;
  }

  lemma EscapeCode(n: nat, leftover: nat)
    requires 0x10_0000 <= n < 2 * U32
    ensures var call := Feed(Zeros(n), 0x10_0000, Answered(0x10_0000, leftover, false));
            Apply(Gzip, Limits(0, 0, 100), START, call).code == 0x10_0000
  {
    assert n * 100 % U64 == n * 100;
    assert CapCode(Limits(0, 0, 100), n, 0x10_0000) == 0;
  }

  /** Both halves of the condition are needed. A feed of 2^32 + 1024 bytes hands zlib 1024 of them, and a
      feed of a mebibyte may be left unread after 1024; either passes a 1:1 ratio cap at 1024:1. */
  lemma RatioEscapes()
    ensures Escapes(U32 + 1024, 0)
    ensures Escapes(0x10_0000, 0x10_0000 - 1024)
  {
    EscapesIf(U32 + 1024, 0);
    EscapesIf(0x10_0000, 0x10_0000 - 1024);
  }

  /** The caller cannot see what was left unread: neither the code nor a counter depends on it. */
  lemma LeftoverUnseen(codec: Codec, l: Limits, s: Stream, c: Call, leftover: nat)
    requires c.answer.Answered?
    ensures var c' := c.(answer := c.answer.(leftover := leftover));
            var o, o' := Apply(codec, l, s, c), Apply(codec, l, s, c');
            o'.code == o.code && o'.stream.(availIn := 0) == o.stream.(availIn := 0)
  {
    hide CapCode;
  }

  /** Up to and including the first failing call, the library has produced at most the output cap
      plus that call's buffer. */
  lemma FirstFailureBound(codec: Codec, l: Limits, calls: seq<Call>)
    requires Countable(codec, calls) && calls != [] && l.outputCap != 0
    requires !Play(codec, l, calls[..|calls| - 1]).failed
    ensures var h, c := Play(codec, l, calls[..|calls| - 1]), calls[|calls| - 1];
            h.delivered + Produced(codec, h.stream, c) <= l.outputCap + c.outCap
  {
    hide Play;
    hide Produced;
    hide Counted;
    hide Countable;
    hide InputsRead;
    var n := |calls| - 1;
    CountablePrefix(codec, calls);
    PlayWithinCaps(codec, l, calls[..n]);
    CallBounds(codec, Play(codec, l, calls[..n]).stream, calls[n]);
  }

  // ---------------------------------------------------------------------------------------
  // Where a stream ends, by the calls and their answers alone
  // ---------------------------------------------------------------------------------------

  /** The library says that the stream has ended. */
  predicate Ends(c: Call) {
    c.answer.Answered? && c.answer.ended
  }

  predicate EndedBy(calls: seq<Call>) {
    exists i :: 0 <= i < |calls| && Ends(calls[i])
  }

  /** How many calls there are up to and including the first that ends the stream. */
  function Cut(calls: seq<Call>): (r: nat)
    ensures r <= |calls|
  {
    if calls == [] then 0
    else if EndedBy(calls[..|calls| - 1]) then Cut(calls[..|calls| - 1])
    else |calls|
  }

  /** All input of a list of calls, and all output of their answers. */
  function FeedBytes(calls: seq<Call>): (r: seq<byte>) {
    if calls == [] then []
    else FeedBytes(calls[..|calls| - 1]) + (if calls[|calls| - 1].Feed? then calls[|calls| - 1].input else [])
  }

  function ProducedBytes(calls: seq<Call>): (r: nat) {
    if calls == [] then 0 else ProducedBytes(calls[..|calls| - 1]) + calls[|calls| - 1].answer.produced
  }

  /** What the call that ended the stream left unread, until a finish takes it up. */
  function Unread(calls: seq<Call>): (r: nat) {
    if calls == [] then 0
    else
      var n := |calls| - 1;
      if !EndedBy(calls[..n]) then (if Ends(calls[n]) then calls[n].answer.leftover else 0)
      else if calls[n].Finish? then 0
      else Unread(calls[..n])
  }

  /** The calls that are passed on: all of them until the stream has ended, and then for zlib one finish, if
      input was left unread. */
  predicate PassedOn(codec: Codec, before: seq<Call>, c: Call) {
    !EndedBy(before) || (c.Finish? && codec == Gzip && Unread(before) > 0)
  }

  /** What that one finish produces. */
  function Late(codec: Codec, calls: seq<Call>): (r: nat) {
    if calls == [] then 0
    else
      var n := |calls| - 1;
      Late(codec, calls[..n])
      + if EndedBy(calls[..n]) && PassedOn(codec, calls[..n], calls[n]) then calls[n].answer.produced else 0
  }

  lemma EndedStep(calls: seq<Call>)
    requires calls != []
    ensures var n := |calls| - 1; EndedBy(calls) <==> EndedBy(calls[..n]) || Ends(calls[n])
  {
    var n := |calls| - 1;
    if EndedBy(calls[..n]) {
      var i :| 0 <= i < n && Ends(calls[..n][i]);
      assert Ends(calls[i]);
    }
    if EndedBy(calls) && !Ends(calls[n]) {
      var i :| 0 <= i < |calls| && Ends(calls[i]);
      assert Ends(calls[..n][i]);
    }
  }

  lemma CutStep(calls: seq<Call>)
    requires calls != []
    ensures var n := |calls| - 1;
            calls[..Cut(calls)] == if EndedBy(calls[..n]) then calls[..n][..Cut(calls[..n])] else calls
    ensures var n := |calls| - 1; !EndedBy(calls[..n]) ==> calls[..n][..Cut(calls[..n])] == calls[..n]
  {
    var n := |calls| - 1;
    if !EndedBy(calls[..n]) && n > 0 { EndedStep(calls[..n]); }
  }

  /** Over every run without a failure: the stream counts as finished if and only if some answer has said so.
      Every call up to and including that one reaches the library, so what it was given is the input of exactly
      those calls and what it delivered their output, together with that of the one finish that takes up
      unread input. */
  lemma {:induction false} PlayFollowsAnswers(codec: Codec, l: Limits, calls: seq<Call>)
    requires Countable(codec, calls) && !Play(codec, l, calls).failed
    ensures var h := Play(codec, l, calls);
            && (h.stream.finished <==> EndedBy(calls))
            && (EndedBy(calls) && codec == Gzip ==> h.stream.availIn == Unread(calls))
            && h.given == FeedBytes(calls[..Cut(calls)])
            && h.delivered == ProducedBytes(calls[..Cut(calls)]) + Late(codec, calls)
    decreases |calls|
  {
    hide CapCode;
    hide Written;
    hide Read;
    hide EndedBy;
    hide Cut;
    hide Possible;
    if calls == [] {
      EndedByNothing();
    } else {
      var n := |calls| - 1;
      var c, before := calls[n], calls[..n];
      CountablePrefix(codec, calls);
      PlayFollowsAnswers(codec, l, before);
      EndedStep(calls);
      CutStep(calls);
      SettledFacts(codec, l, Play(codec, l, before).stream, c);
      LateOnlyAtEnd(codec, before);
      hide Apply;
      var h := Play(codec, l, calls);
      assert Reaches(codec, Play(codec, l, before).stream, c) <==> PassedOn(codec, before, c);
      assert h.given == FeedBytes(before[..Cut(before)]) + Offer(codec, Play(codec, l, before).stream, c);
    }
  }

  lemma EndedByNothing()
    ensures !EndedBy([]) && Cut([]) == 0
  {
  }

  lemma {:induction false} LateOnlyAtEnd(codec: Codec, calls: seq<Call>)
    ensures !EndedBy(calls) ==> Late(codec, calls) == 0
    decreases |calls|
  {
    if calls != [] {
      EndedStep(calls);
      LateOnlyAtEnd(codec, calls[..|calls| - 1]);
    }
  }

  /** The flags after one successful call. */
  lemma SettledFacts(codec: Codec, l: Limits, s: Stream, c: Call)
    requires Possible(codec, c) && Apply(codec, l, s, c).code >= 0
    ensures var s' := Apply(codec, l, s, c).stream;
            if Reaches(codec, s, c) then
              c.answer.Answered? && s'.finished == (s.finished || Ends(c)) && s'.availIn == c.answer.leftover
            else s' == s
    ensures c.Finish? ==> c.answer.leftover == 0
  {
    hide CapCode;
    hide Written;
  }

  /** What every call of a run returns, up to and including the first that fails. Once the stream has ended a feed
      returns 0 and changes nothing. A call that is passed on fails with -2 if and only if the input now exceeds
      its cap, otherwise with -1 if and only if the library reports an error, otherwise with -3 and -4 if and
      only if output and ratio exceed theirs, and otherwise returns the bytes written. */
  lemma CallReturns(codec: Codec, l: Limits, calls: seq<Call>, c: Call)
    requires Countable(codec, calls + [c]) && !Play(codec, l, calls).failed
    ensures var h := Play(codec, l, calls);
            var o := Apply(codec, l, h.stream, c);
            var input := |FeedBytes(calls[..Cut(calls)])| + InLen(c);
            var output := h.stream.outTotal + Written(codec, c.outCap, c.answer.produced);
            if !PassedOn(codec, calls, c) then o == Outcome(h.stream, 0)
            else
              o.code == if l.inputCap != 0 && input > l.inputCap then -2
                        else if c.answer.Fatal? then -1
                        else if l.outputCap != 0 && output > l.outputCap then -3
                        else if l.ratio != 0 && input >= 1024 && RatioExceeded(input, output, l.ratio) then -4
                        else Written(codec, c.outCap, c.answer.produced)
  {
    hide Play;
    hide Apply;
    hide Written;
    hide Cast;
    hide EndedBy;
    hide Cut;
    hide Unread;
    hide RatioExceeded;
    hide OutputsFit;
    hide InputsRead;
    hide WithinCaps;
    var all, s := calls + [c], Play(codec, l, calls).stream;
    assert all[..|calls|] == calls && all[|calls|] == c;
    CountablePrefix(codec, all);
    PlayFollowsAnswers(codec, l, calls);
    PlayCounted(codec, l, calls);
    WithinInput(l, s);
    ApplyReturns(codec, l, s, c);
  }

  lemma ApplyReturns(codec: Codec, l: Limits, s: Stream, c: Call)
    requires Possible(codec, c) && s.inTotal + InLen(c) < U64 && s.outTotal + c.outCap < U64
    requires l.inputCap != 0 ==> s.inTotal <= l.inputCap
    ensures var o := Apply(codec, l, s, c);
            var input, output := s.inTotal + InLen(c), s.outTotal + Written(codec, c.outCap, c.answer.produced);
            if !Reaches(codec, s, c) then o == Outcome(s, 0)
            else
              o.code == if l.inputCap != 0 && input > l.inputCap then -2
                        else if c.answer.Fatal? then -1
                        else if l.outputCap != 0 && output > l.outputCap then -3
                        else if l.ratio != 0 && input >= 1024 && RatioExceeded(input, output, l.ratio) then -4
                        else Written(codec, c.outCap, c.answer.produced)
  {
    hide RatioExceeded;
    hide Written;
    hide Cast;
    CastExactIff(codec, c.outCap, c.answer.produced);
    Below(s.inTotal + InLen(c));
    Below(s.inTotal);
    Below(s.outTotal + Written(codec, c.outCap, c.answer.produced));
  }

  lemma Below(v: nat)
    requires v < U64
    ensures v % U64 == v
  {
  }

  lemma WithinInput(l: Limits, s: Stream)
    requires WithinCaps(l, s.inTotal, s.outTotal)
    ensures l.inputCap != 0 ==> s.inTotal <= l.inputCap
  {
  }

  // ---------------------------------------------------------------------------------------
  // The source's objects
  // ---------------------------------------------------------------------------------------

  class GzipState {
    const limits: Limits
    var finished: bool
    var inTotal: nat
    var outTotal: nat
    var availIn: nat

    ghost function State(): Stream
      reads this
    {
      Stream(inTotal, outTotal, finished, availIn)
    }

    /** `lcm_gzip_init` */
    constructor (limits: Limits)
      ensures this.limits == limits && State() == START
    {
      this.limits := limits;
      finished, inTotal, outTotal, availIn := false, 0, 0, 0;
    }

    /** `check_caps` */
    method CheckCaps() returns (code: int)
      ensures code == CapCode(limits, inTotal, outTotal)
    {
      if limits.inputCap != 0 && inTotal > limits.inputCap { return -2; }
      if limits.outputCap != 0 && outTotal > limits.outputCap { return -3; }
      if limits.ratio != 0 && inTotal >= 1024 {
        if outTotal > (inTotal * limits.ratio % U64) / 100 { return -4; }
      }
      return 0;
    }

    /** The bookkeeping after `inflate` has returned. */
    method Inflated(outCap: nat, answer: Answer) returns (code: int)
      modifies this
      ensures Outcome(State(), code) == Settle(Gzip, limits, old(State()), outCap, answer)
    {
      availIn := answer.leftover;
      if answer.Fatal? { return -1; }
      if answer.ended { finished := true; }
      var availOut := outCap % U32 - answer.produced;
      var written := outCap - availOut;
      outTotal := (outTotal + written) % U64;
      var err := CheckCaps();
      if err != 0 { return err; }
      return written;
    }

    /** `lcm_gzip_feed`; the answer is zlib's. */
    method Feed(input: seq<byte>, outCap: nat, answer: Answer) returns (code: int)
      modifies this
      ensures Outcome(State(), code) == Apply(Gzip, limits, old(State()), Call.Feed(input, outCap, answer))
    {
      if finished { return 0; }
      inTotal := (inTotal + |input|) % U64;
      if limits.inputCap != 0 && inTotal > limits.inputCap { return -2; }
      availIn := |input| % U32;
      code := Inflated(outCap, answer);
    }

    /** `lcm_gzip_finish` */
    method Finish(outCap: nat, answer: Answer) returns (code: int)
      modifies this
      ensures Outcome(State(), code) == Apply(Gzip, limits, old(State()), Call.Finish(outCap, answer))
    {
      if finished && availIn == 0 { return 0; }
      availIn := 0;
      code := Inflated(outCap, answer);
    }
  }

  class BrotliState {
    const limits: Limits
    var finished: bool
    var inTotal: nat
    var outTotal: nat

    /** brotli's unread input is dropped with the call that left it. */
    ghost predicate Models(s: Stream)
      reads this
    {
      s.inTotal == inTotal && s.outTotal == outTotal && s.finished == finished
    }

    /** `lcm_br_init` */
    constructor (limits: Limits)
      ensures this.limits == limits && Models(START)
    {
      this.limits := limits;
      finished, inTotal, outTotal := false, 0, 0;
    }

    /** `check_caps_br` */
    method CheckCaps() returns (code: int)
      ensures code == CapCode(limits, inTotal, outTotal)
    {
      if limits.inputCap != 0 && inTotal > limits.inputCap { return -2; }
      if limits.outputCap != 0 && outTotal > limits.outputCap { return -3; }
      if limits.ratio != 0 && inTotal >= 1024 {
        if outTotal > (inTotal * limits.ratio % U64) / 100 { return -4; }
      }
      return 0;
    }

    method Decompressed(outCap: nat, answer: Answer, ghost s: Stream) returns (code: int)
      requires Models(s) && answer.produced <= outCap
      modifies this
      ensures var o := Settle(Brotli, limits, s, outCap, answer); Models(o.stream) && code == o.code
    {
      if answer.Fatal? { return -1; }
      if answer.ended { finished := true; }
      var availOut := outCap - answer.produced;
      var written := outCap - availOut;
      outTotal := (outTotal + written) % U64;
      var err := CheckCaps();
      if err != 0 { return err; }
      return written;
    }

    /** `lcm_br_feed` */
    method Feed(input: seq<byte>, outCap: nat, answer: Answer, ghost s: Stream) returns (code: int)
      requires Models(s) && answer.produced <= outCap
      modifies this
      ensures var o := Apply(Brotli, limits, s, Call.Feed(input, outCap, answer)); Models(o.stream) && code == o.code
    {
      if finished { return 0; }
      inTotal := (inTotal + |input|) % U64;
      if limits.inputCap != 0 && inTotal > limits.inputCap { return -2; }
      code := Decompressed(outCap, answer, s.(inTotal := inTotal));
    }

    /** `lcm_br_finish` */
    method Finish(outCap: nat, answer: Answer, ghost s: Stream) returns (code: int)
      requires Models(s) && answer.produced <= outCap
      modifies this
      ensures var o := Apply(Brotli, limits, s, Call.Finish(outCap, answer)); Models(o.stream) && code == o.code
    {
      if finished { return 0; }
      code := Decompressed(outCap, answer, s.(availIn := 0));
    }
  }
}
