/**
 What TCP reassembly guarantees over whole runs: the prefix never changes, it is a prefix of the
 true stream even across sequence wraparound, it is the longest contiguous run of what arrived
 unless a held segment straddles its end.
 */
module StreamRuns {
  import opened Integers
  import opened Streams
  import opened Wrappers

  // ---------------------------------------------------------------------------
  // Modular sequence numbers
  // ---------------------------------------------------------------------------

  lemma OffsetOnTheWire(base: U32, o: int)
    requires -TWO_TO_THE_32 <= o < TWO_TO_THE_32
    ensures WrappingSub((base + o) % TWO_TO_THE_32, base) == if o >= 0 then o else o + TWO_TO_THE_32
  {
  }

  lemma EndMatches(base: U32, q: U32, n: nat)
    ensures q == WrappingAdd(base, n) <==> WrappingSub(q, base) == n % TWO_TO_THE_32
  {
  }

  // ---------------------------------------------------------------------------
  // The prefix only ever grows
  // ---------------------------------------------------------------------------

  lemma {:induction false} DrainExtends(base: U32, buf: seq<Byte>, pending: seq<Segment>)
    ensures var (buf', pending') := Drain(base, buf, pending);
            buf <= buf' && |pending'| <= |pending|
    decreases |pending|
  {
    var i := FirstAt(pending, WrappingAdd(base, |buf|));
    if i.Some? {
      DrainExtends(base, buf + pending[i.value].data, Without(pending, i.value));
    }
  }

  predicate WithinCaps(max: nat, s: Stream) {
    |s.buf| <= max && |s.pending| <= MAX_PENDING && (s.base.None? ==> s.pending == [])
  }

  lemma PlacedExtends(max: nat, s: Stream, seg: Segment)
    requires WithinCaps(max, s)
    ensures s.buf <= Placed(max, s, seg).buf && |Placed(max, s, seg).pending| <= |s.pending| + 1
    ensures |Placed(max, s, seg).pending| <= MAX_PENDING && (s.truncated ==> Placed(max, s, seg).truncated)
  {
    var base := if s.base.Some? then s.base.value else seg.seqNo;
    var offset := WrappingSub(seg.seqNo, base);
    if offset == |s.buf| {
      DrainExtends(base, s.buf + seg.data, s.pending);
    } else if offset < |s.buf| < offset + |seg.data| {
      DrainExtends(base, s.buf + seg.data[|s.buf| - offset..], s.pending);
    }
  }

  /** One segment, however hostile: bytes once in the prefix stay, both caps hold, flags stay up. */
  lemma FeedExtends(max: nat, s: Stream, seg: Segment)
    requires WithinCaps(max, s)
    ensures WithinCaps(max, Feed(max, s, seg))
    ensures s.buf <= Feed(max, s, seg).buf
    ensures s.truncated ==> Feed(max, s, seg).truncated
    ensures |Feed(max, s, seg).pending| <= |s.pending| + 1
  {
    PlacedExtends(max, s, seg);
  }

  // ---------------------------------------------------------------------------
  // Runs of the table
  // ---------------------------------------------------------------------------

  datatype Arrival = Arrival(key: StreamKey, seg: Segment)

  function Run(l: Limits, tr: seq<Arrival>): Table {
    if tr == [] then EMPTY_TABLE
    else Offer(l, Run(l, tr[..|tr| - 1]), tr[|tr| - 1].key, tr[|tr| - 1].seg).0
  }

  ghost predicate TableWithinCaps(l: Limits, t: Table) {
    && |t.streams| <= l.maxStreams
    && forall k | k in t.streams :: WithinCaps(l.maxBytes, t.streams[k])
  }

  lemma SizeAfter<K, V>(m: map<K, V>, k: K, v: V)
    ensures |m[k := v]| == if k in m then |m| else |m| + 1
  {
    assert m[k := v].Keys == m.Keys + {k};
    if k in m {
      assert m.Keys + {k} == m.Keys;
    }
  }

  lemma OfferKeepsCaps(l: Limits, t: Table, k: StreamKey, seg: Segment)
    requires TableWithinCaps(l, t)
    ensures TableWithinCaps(l, Offer(l, t, k, seg).0)
    ensures forall j | j in t.streams ::
              j in Offer(l, t, k, seg).0.streams && t.streams[j].buf <= Offer(l, t, k, seg).0.streams[j].buf
  {
    FeedExtends(l.maxBytes, Current(t, k), seg);
    SizeAfter(t.streams, k, Feed(l.maxBytes, Current(t, k), seg));
  }

  lemma {:induction false} CapsHold(l: Limits, tr: seq<Arrival>)
    ensures TableWithinCaps(l, Run(l, tr))
  {
    if tr != [] {
      CapsHold(l, tr[..|tr| - 1]);
      OfferKeepsCaps(l, Run(l, tr[..|tr| - 1]), tr[|tr| - 1].key, tr[|tr| - 1].seg);
    }
  }

  /** Across a whole run, conflicting segments included, a stream's bytes are only added to. */
  lemma {:induction false} PrefixNeverChanges(l: Limits, tr: seq<Arrival>, n: nat, k: StreamKey)
    requires n <= |tr| && k in Run(l, tr[..n]).streams
    ensures k in Run(l, tr).streams
    ensures Run(l, tr[..n]).streams[k].buf <= Run(l, tr).streams[k].buf
  {
    if n == |tr| {
      assert tr[..n] == tr;
    } else {
      var init := tr[..|tr| - 1];
      assert init[..n] == tr[..n];
      PrefixNeverChanges(l, init, n, k);
      CapsHold(l, init);
      OfferKeepsCaps(l, Run(l, init), tr[|tr| - 1].key, tr[|tr| - 1].seg);
    }
  }

  /** One stream fed alone. */
  function Fold(max: nat, segs: seq<Segment>): Stream {
    if segs == [] then NEW_STREAM else Feed(max, Fold(max, segs[..|segs| - 1]), segs[|segs| - 1])
  }

  function SegmentsOf(tr: seq<Arrival>, k: StreamKey): seq<Segment> {
    if tr == [] then []
    else
      var rest := SegmentsOf(tr[..|tr| - 1], k);
      var a := tr[|tr| - 1];
      if a.key == k && a.seg.data != [] then rest + [a.seg] else rest
  }

  lemma OfferTouchesOneKey(l: Limits, t: Table, k: StreamKey, seg: Segment)
    ensures var u := Offer(l, t, k, seg).0;
            && |t.streams| <= |u.streams|
            && (forall j | j != k || seg.data == [] ::
                  (j in u.streams <==> j in t.streams) && (j in t.streams ==> u.streams[j] == t.streams[j]))
            && (seg.data != [] ==>
                  if Admits(l, t, k) then k in u.streams && u.streams[k] == Feed(l.maxBytes, Current(t, k), seg)
                  else u.streams == t.streams)
  {
    SizeAfter(t.streams, k, Feed(l.maxBytes, Current(t, k), seg));
  }

  /**
   Streams do not disturb one another: an admitted stream is the fold of its own segments, and a
   stream with segments but no entry was shut out by a full table from its first one on.
   */
  lemma {:induction false} TableProjects(l: Limits, tr: seq<Arrival>, k: StreamKey)
    ensures k in Run(l, tr).streams ==>
              SegmentsOf(tr, k) != [] && Run(l, tr).streams[k] == Fold(l.maxBytes, SegmentsOf(tr, k))
    ensures k !in Run(l, tr).streams && SegmentsOf(tr, k) != [] ==> |Run(l, tr).streams| >= l.maxStreams
  {
    if tr != [] {
      var init, a := tr[..|tr| - 1], tr[|tr| - 1];
      TableProjects(l, init, k);
      OfferTouchesOneKey(l, Run(l, init), a.key, a.seg);
      if a.key == k && a.seg.data != [] {
        assert SegmentsOf(tr, k)[..|SegmentsOf(tr, k)| - 1] == SegmentsOf(init, k);
      } else {
        assert SegmentsOf(tr, k) == SegmentsOf(init, k);
      }
    }
  }

  // ---------------------------------------------------------------------------
  // Soundness: every segment is a slice of one stream at its true offset
  // ---------------------------------------------------------------------------

  /** A segment of the true stream: its offset from the first segment that was seen. */
  datatype Sent = Sent(offset: int, data: seq<Byte>) {

    function End(): int {
      offset + |data|
    }

    function OnWire(base: U32): Segment {
      Segment((base + offset) % TWO_TO_THE_32, data)
    }
  }

  predicate IsSlice(s: seq<Byte>, o: int, data: seq<Byte>) {
    0 <= o && o + |data| <= |s| && data == s[o..o + |data|]
  }

  /** Anything sent before the base is unconstrained; anything after it is a slice of `s`. */
  predicate Faithful(s: seq<Byte>, x: Sent) {
    && x.data != []
    && -TWO_TO_THE_31 <= x.offset < TWO_TO_THE_32
    && (x.offset >= 0 ==> IsSlice(s, x.offset, x.data))
  }

  function OnWires(base: U32, xs: seq<Sent>): seq<Segment> {
    seq(|xs|, i requires 0 <= i < |xs| => xs[i].OnWire(base))
  }

  function Receive(max: nat, base: U32, xs: seq<Sent>): Stream {
    Fold(max, OnWires(base, xs))
  }

  lemma ReceiveStep(max: nat, base: U32, xs: seq<Sent>, x: Sent)
    ensures Receive(max, base, xs + [x]) == Feed(max, Receive(max, base, xs), x.OnWire(base))
  {
    assert OnWires(base, xs + [x])[..|xs|] == OnWires(base, xs);
  }

  predicate SameAt(buf: seq<Byte>, s: seq<Byte>, i: int) {
    0 <= i < |buf| && i < |s| && buf[i] == s[i]
  }

  ghost predicate Agrees(buf: seq<Byte>, s: seq<Byte>, max: nat) {
    forall i | 0 <= i < |buf| && i < max :: SameAt(buf, s, i)
  }

  ghost predicate HoldsSlices(max: nat, base: U32, pending: seq<Segment>, s: seq<Byte>) {
    forall e | e in pending :: WrappingSub(e.seqNo, base) < max && IsSlice(s, WrappingSub(e.seqNo, base), e.data)
  }

  lemma AppendAgrees(buf: seq<Byte>, s: seq<Byte>, max: nat, o: nat, data: seq<Byte>)
    requires Agrees(buf, s, max) && IsSlice(s, o, data)
    requires |buf| < max ==> o == |buf|
    ensures Agrees(buf + data, s, max)
  {
    forall i | 0 <= i < |buf + data| && i < max ensures SameAt(buf + data, s, i) {
      if i < |buf| {
        assert SameAt(buf, s, i);
      } else {
        assert data[i - o] == s[o..o + |data|][i - o];
      }
    }
  }

  lemma {:induction false} DrainAgrees(max: nat, base: U32, buf: seq<Byte>, pending: seq<Segment>, s: seq<Byte>)
    requires max < TWO_TO_THE_32
    requires Agrees(buf, s, max) && HoldsSlices(max, base, pending, s)
    ensures var (buf', pending') := Drain(base, buf, pending);
            Agrees(buf', s, max) && HoldsSlices(max, base, pending', s)
    decreases |pending|
  {
    var i := FirstAt(pending, WrappingAdd(base, |buf|));
    if i.Some? {
      var e := pending[i.value];
      EndMatches(base, e.seqNo, |buf|);
      AppendAgrees(buf, s, max, WrappingSub(e.seqNo, base), e.data);
      DrainAgrees(max, base, buf + e.data, Without(pending, i.value), s);
    }
  }

  ghost predicate Sound(max: nat, base: U32, st: Stream, s: seq<Byte>) {
    && st.base == Some(base)
    && |st.buf| <= max
    && Agrees(st.buf, s, max)
    && HoldsSlices(max, base, st.pending, s)
  }

  lemma TailIsSlice(s: seq<Byte>, o: nat, data: seq<Byte>, k: nat)
    requires IsSlice(s, o, data) && k <= |data|
    ensures IsSlice(s, o + k, data[k..])
  {
  }

  /** Where a segment at a true offset goes, without the modular arithmetic. */
  lemma PlacedByOffset(max: nat, base: U32, st: Stream, x: Sent)
    requires st.base == Some(base) && |st.buf| <= max < TWO_TO_THE_31
    requires x.data != [] && -TWO_TO_THE_31 <= x.offset < TWO_TO_THE_32
    ensures Placed(max, st, x.OnWire(base)) ==
            if 0 <= x.offset <= |st.buf| < x.End() then Extended(base, st, x.data[|st.buf| - x.offset..])
            else if |st.buf| < x.offset < max then Held(base, st, x.OnWire(base))
            else st
  {
    OffsetOnTheWire(base, x.offset);
    assert x.data[0..] == x.data;
  }

  lemma ExtendedSound(max: nat, base: U32, st: Stream, s: seq<Byte>, x: Sent)
    requires max < TWO_TO_THE_31
    requires Sound(max, base, st, s) && Faithful(s, x)
    requires 0 <= x.offset <= |st.buf| < x.End()
    ensures Sound(max, base, Capped(max, Extended(base, st, x.data[|st.buf| - x.offset..])), s)
  {
    var tail := x.data[|st.buf| - x.offset..];
    TailIsSlice(s, x.offset, x.data, |st.buf| - x.offset);
    AppendAgrees(st.buf, s, max, |st.buf|, tail);
    DrainAgrees(max, base, st.buf + tail, st.pending, s);
    TruncatedAgrees(Extended(base, st, tail).buf, s, max);
  }

  lemma TruncatedAgrees(buf: seq<Byte>, s: seq<Byte>, max: nat)
    requires Agrees(buf, s, max)
    ensures |buf| > max ==> Agrees(buf[..max], s, max)
  {
    if |buf| > max {
      forall i | 0 <= i < max ensures SameAt(buf[..max], s, i) {
        assert SameAt(buf, s, i);
      }
    }
  }

  lemma HeldSound(max: nat, base: U32, st: Stream, s: seq<Byte>, x: Sent)
    requires Sound(max, base, st, s) && Faithful(s, x) && 0 <= x.offset < max
    ensures Sound(max, base, Capped(max, Held(base, st, x.OnWire(base))), s)
  {
    OffsetOnTheWire(base, x.offset);
  }

  lemma FeedSound(max: nat, base: U32, st: Stream, s: seq<Byte>, x: Sent)
    requires max < TWO_TO_THE_31
    requires Sound(max, base, st, s) && Faithful(s, x)
    ensures Sound(max, base, Feed(max, st, x.OnWire(base)), s)
  {
    PlacedByOffset(max, base, st, x);
    if 0 <= x.offset <= |st.buf| < x.End() {
      ExtendedSound(max, base, st, s, x);
    } else if |st.buf| < x.offset < max {
      HeldSound(max, base, st, s, x);
    }
  }

  /** A stream that has just learnt its base behaves as an empty one at that base. */
  lemma FirstSegment(max: nat, base: U32, x: Sent)
    requires x.offset == 0
    ensures Feed(max, NEW_STREAM, x.OnWire(base)) == Feed(max, NEW_STREAM.(base := Some(base)), x.OnWire(base))
  {
  }

  lemma {:induction false} ReceiveSound(max: nat, base: U32, xs: seq<Sent>, s: seq<Byte>)
    requires max < TWO_TO_THE_31
    requires xs != [] && xs[0].offset == 0
    requires forall x | x in xs :: Faithful(s, x)
    ensures Sound(max, base, Receive(max, base, xs), s)
  {
    var init, x := xs[..|xs| - 1], xs[|xs| - 1];
    assert xs == init + [x] && x in xs;
    assert forall y :: y in init ==> y in xs;
    ReceiveStep(max, base, init, x);
    if init == [] {
      FirstSegment(max, base, x);
      FeedSound(max, base, NEW_STREAM.(base := Some(base)), s, x);
    } else {
      ReceiveSound(max, base, init, s);
      FeedSound(max, base, Receive(max, base, init), s, x);
    }
  }

  lemma AgreeingIsPrefix(buf: seq<Byte>, s: seq<Byte>, max: nat)
    requires Agrees(buf, s, max) && |buf| <= max
    ensures buf <= s
  {
    if buf != [] {
      assert SameAt(buf, s, |buf| - 1);
      forall i | 0 <= i < |buf| ensures buf[i] == s[i] {
        assert SameAt(buf, s, i);
      }
    }
  }

  /**
   Wraparound soundness: whatever the order, duplication, overlap and position of the wrap, the
   buffer is a prefix of the true stream.
   */
  lemma PrefixOfTheTruth(max: nat, base: U32, xs: seq<Sent>, s: seq<Byte>)
    requires max < TWO_TO_THE_31
    requires xs != [] && xs[0].offset == 0
    requires forall x | x in xs :: Faithful(s, x)
    ensures Receive(max, base, xs).buf <= s
  {
    ReceiveSound(max, base, xs, s);
    AgreeingIsPrefix(Receive(max, base, xs).buf, s, max);
  }

  // ---------------------------------------------------------------------------
  // The 32-bit machine refines one with unbounded offsets
  // ---------------------------------------------------------------------------

  /** The stream as it would be with true offsets instead of sequence numbers, and no byte cap. */
  datatype Plain = Plain(buf: seq<Byte>, held: seq<Sent>, overflowed: bool)

  const NOTHING := Plain([], [], false)

  function FirstStarting(held: seq<Sent>, o: int): (i: Option<nat>)
    ensures i.None? ==> forall x | x in held :: x.offset != o
    ensures i.Some? ==> i.value < |held| && held[i.value].offset == o
  {
    if held == [] then None
    else if held[0].offset == o then Some(0)
    else match FirstStarting(held[1..], o)
      case None => None
      case Some(i) => Some(i + 1)
  }

  function Join(buf: seq<Byte>, held: seq<Sent>): (seq<Byte>, seq<Sent>)
    decreases |held|
  {
    match FirstStarting(held, |buf|)
    case None => (buf, held)
    case Some(i) => Join(buf + held[i].data, Without(held, i))
  }

  function Accept(p: Plain, x: Sent): Plain
    requires x.offset >= 0
  {
    if x.offset <= |p.buf| then
      if |p.buf| < x.End() then
        var (buf, held) := Join(p.buf + x.data[|p.buf| - x.offset..], p.held);
        Plain(buf, held, p.overflowed)
      else p
    else if |p.held| + 1 > MAX_PENDING then Plain(p.buf, [], true)
    else Plain(p.buf, p.held + [x], p.overflowed)
  }

  function Wire(base: U32, p: Plain): Stream {
    Stream(Some(base), p.buf, OnWires(base, p.held), p.overflowed)
  }

  ghost predicate AllSlices(s: seq<Byte>, xs: seq<Sent>) {
    forall x | x in xs :: x.data != [] && IsSlice(s, x.offset, x.data)
  }

  lemma SliceExtends(buf: seq<Byte>, s: seq<Byte>, o: nat, data: seq<Byte>)
    requires buf <= s && IsSlice(s, o, data) && o <= |buf| <= o + |data|
    ensures buf + data[|buf| - o..] <= s
  {
  }

  lemma SameSpot(base: U32, x: Sent, n: nat)
    requires 0 <= x.offset < TWO_TO_THE_32 && n < TWO_TO_THE_32
    ensures x.OnWire(base).seqNo == WrappingAdd(base, n) <==> x.offset == n
  {
    OffsetOnTheWire(base, x.offset);
    EndMatches(base, x.OnWire(base).seqNo, n);
  }

  lemma {:induction false} SameFirst(base: U32, held: seq<Sent>, n: nat)
    requires forall x | x in held :: 0 <= x.offset < TWO_TO_THE_32
    requires n < TWO_TO_THE_32
    ensures FirstAt(OnWires(base, held), WrappingAdd(base, n)) == FirstStarting(held, n)
  {
    if held != [] {
      SameFirst(base, held[1..], n);
      assert OnWires(base, held)[1..] == OnWires(base, held[1..]);
      assert held[0] in held;
      SameSpot(base, held[0], n);
    }
  }

  lemma {:induction false} DrainIsJoin(base: U32, buf: seq<Byte>, held: seq<Sent>, s: seq<Byte>)
    requires |s| < TWO_TO_THE_31 && buf <= s && AllSlices(s, held)
    ensures var (buf', held') := Join(buf, held);
            && Drain(base, buf, OnWires(base, held)) == (buf', OnWires(base, held'))
            && buf' <= s && AllSlices(s, held')
    decreases |held|
  {
    SameFirst(base, held, |buf|);
    var i := FirstStarting(held, |buf|);
    if i.Some? {
      var x := held[i.value];
      assert x in held;
      SliceExtends(buf, s, |buf|, x.data);
      assert OnWires(base, Without(held, i.value)) == Without(OnWires(base, held), i.value);
      DrainIsJoin(base, buf + x.data, Without(held, i.value), s);
    }
  }

  lemma ExtendedIsAccept(max: nat, base: U32, p: Plain, s: seq<Byte>, x: Sent)
    requires |s| <= max < TWO_TO_THE_31
    requires p.buf <= s && AllSlices(s, p.held) && IsSlice(s, x.offset, x.data)
    requires x.offset <= |p.buf| < x.End()
    ensures Capped(max, Extended(base, Wire(base, p), x.data[|p.buf| - x.offset..])) == Wire(base, Accept(p, x))
    ensures Accept(p, x).buf <= s && AllSlices(s, Accept(p, x).held)
  {
    SliceExtends(p.buf, s, x.offset, x.data);
    DrainIsJoin(base, p.buf + x.data[|p.buf| - x.offset..], p.held, s);
  }

  lemma HeldIsAccept(max: nat, base: U32, p: Plain, s: seq<Byte>, x: Sent)
    requires |s| <= max && p.buf <= s && AllSlices(s, p.held) && x.data != [] && IsSlice(s, x.offset, x.data)
    requires x.offset > |p.buf|
    ensures Capped(max, Held(base, Wire(base, p), x.OnWire(base))) == Wire(base, Accept(p, x))
    ensures Accept(p, x).buf <= s && AllSlices(s, Accept(p, x).held)
  {
    assert OnWires(base, p.held + [x]) == OnWires(base, p.held) + [x.OnWire(base)];
  }

  /** A stream that fits the cap: wraparound and the cap make no difference to a single step. */
  lemma FeedIsAccept(max: nat, base: U32, p: Plain, s: seq<Byte>, x: Sent)
    requires |s| <= max < TWO_TO_THE_31
    requires p.buf <= s && AllSlices(s, p.held) && x.data != [] && IsSlice(s, x.offset, x.data)
    ensures Feed(max, Wire(base, p), x.OnWire(base)) == Wire(base, Accept(p, x))
    ensures Accept(p, x).buf <= s && AllSlices(s, Accept(p, x).held)
  {
    PlacedByOffset(max, base, Wire(base, p), x);
    if x.offset <= |p.buf| < x.End() {
      ExtendedIsAccept(max, base, p, s, x);
    } else if x.offset > |p.buf| {
      HeldIsAccept(max, base, p, s, x);
    }
  }

  function Accepted(xs: seq<Sent>): Plain
    requires forall x | x in xs :: x.offset >= 0
  {
    if xs == [] then NOTHING else Accept(Accepted(xs[..|xs| - 1]), xs[|xs| - 1])
  }

  /** All of a stream that fits the cap, first segment first. */
  ghost predicate Fits(max: nat, s: seq<Byte>, xs: seq<Sent>) {
    && |s| <= max < TWO_TO_THE_31
    && AllSlices(s, xs)
    && (xs != [] ==> xs[0].offset == 0)
  }

  /** Refinement: on a stream that fits the cap the program computes what unbounded offsets would. */
  lemma {:induction false} ReceiveIsAccepted(max: nat, base: U32, xs: seq<Sent>, s: seq<Byte>)
    requires Fits(max, s, xs) && xs != []
    ensures Receive(max, base, xs) == Wire(base, Accepted(xs))
    ensures Accepted(xs).buf <= s && AllSlices(s, Accepted(xs).held)
  {
    var init, x := xs[..|xs| - 1], xs[|xs| - 1];
    assert xs == init + [x] && x in xs;
    assert forall y :: y in init ==> y in xs;
    ReceiveStep(max, base, init, x);
    if init == [] {
      FirstSegment(max, base, x);
      assert Wire(base, NOTHING) == NEW_STREAM.(base := Some(base));
    } else {
      ReceiveIsAccepted(max, base, init, s);
    }
    FeedIsAccept(max, base, Accepted(init), s, x);
  }

  // ---------------------------------------------------------------------------
  // Completeness: the longest contiguous run, and exactly when it is not
  // ---------------------------------------------------------------------------

  ghost predicate ReceivedAt(xs: seq<Sent>, i: int) {
    exists x :: x in xs && x.offset <= i < x.End()
  }

  /** `n` bytes arrived without a gap, and byte `n` did not arrive. */
  ghost predicate LongestRun(xs: seq<Sent>, n: nat) {
    (forall i | 0 <= i < n :: ReceivedAt(xs, i)) && !ReceivedAt(xs, n)
  }

  /** Some held segment starts before the end of the buffer and reaches beyond it. */
  ghost predicate Straddled(base: U32, st: Stream) {
    exists e :: e in st.pending && WrappingSub(e.seqNo, base) < |st.buf| < WrappingSub(e.seqNo, base) + |e.data|
  }

  /** Every byte that arrived is in the buffer or held, and nothing else is. */
  ghost predicate Tracks(buf: seq<Byte>, held: seq<Sent>, xs: seq<Sent>) {
    && (forall x | x in xs :: x.End() <= |buf| || x in held)
    && (forall x | x in held :: x in xs)
    && (forall i | 0 <= i < |buf| :: ReceivedAt(xs, i))
  }

  ghost predicate NoneFlush(p: Plain) {
    forall x | x in p.held :: x.offset != |p.buf|
  }

  lemma TakeTracks(buf: seq<Byte>, held: seq<Sent>, xs: seq<Sent>, i: nat)
    requires Tracks(buf, held, xs) && i < |held| && held[i].offset == |buf|
    ensures Tracks(buf + held[i].data, Without(held, i), xs)
  {
    var rest := Without(held, i);
    forall e | e in held ensures e in rest || e == held[i] {
      var j :| 0 <= j < |held| && held[j] == e;
      assert j < i ==> rest[j] == e;
      assert j > i ==> rest[j - 1] == e;
    }
    forall k | 0 <= k < |buf + held[i].data| ensures ReceivedAt(xs, k) {
      assert k >= |buf| ==> held[i].offset <= k < held[i].End();
    }
  }

  lemma {:induction false} JoinTracks(buf: seq<Byte>, held: seq<Sent>, xs: seq<Sent>)
    requires Tracks(buf, held, xs)
    ensures var (buf', held') := Join(buf, held);
            && Tracks(buf', held', xs)
            && (forall x | x in held' :: x.offset != |buf'|)
            && |held'| <= |held|
    decreases |held|
  {
    var i := FirstStarting(held, |buf|);
    if i.Some? {
      TakeTracks(buf, held, xs, i.value);
      JoinTracks(buf + held[i.value].data, Without(held, i.value), xs);
    }
  }

  lemma MoreReceived(xs: seq<Sent>, x: Sent)
    ensures forall i | ReceivedAt(xs, i) :: ReceivedAt(xs + [x], i)
    ensures forall i | x.offset <= i < x.End() :: ReceivedAt(xs + [x], i)
  {
    assert x in xs + [x];
    forall i | ReceivedAt(xs, i) ensures ReceivedAt(xs + [x], i) {
      var y :| y in xs && y.offset <= i < y.End();
      assert y in xs + [x];
    }
  }

  lemma AcceptTracks(p: Plain, xs: seq<Sent>, x: Sent)
    requires x.offset >= 0 && x.data != []
    requires Tracks(p.buf, p.held, xs) && NoneFlush(p) && !Accept(p, x).overflowed
    ensures Tracks(Accept(p, x).buf, Accept(p, x).held, xs + [x]) && NoneFlush(Accept(p, x))
    ensures |Accept(p, x).held| <= |p.held| + 1
  {
    MoreReceived(xs, x);
    if x.offset <= |p.buf| < x.End() {
      var tail := x.data[|p.buf| - x.offset..];
      assert Tracks(p.buf + tail, p.held, xs + [x]);
      JoinTracks(p.buf + tail, p.held, xs + [x]);
    }
  }

  lemma {:induction false} AcceptedTracks(xs: seq<Sent>)
    requires forall x | x in xs :: x.offset >= 0 && x.data != []
    requires !Accepted(xs).overflowed
    ensures Tracks(Accepted(xs).buf, Accepted(xs).held, xs) && NoneFlush(Accepted(xs))
  {
    if xs != [] {
      var init, x := xs[..|xs| - 1], xs[|xs| - 1];
      assert xs == init + [x] && x in xs;
      assert forall y :: y in init ==> y in xs;
      assert Accept(Accepted(init), x).overflowed || !Accepted(init).overflowed;
      AcceptedTracks(init);
      AcceptTracks(Accepted(init), init, x);
    }
  }

  lemma StraddledMeans(base: U32, p: Plain)
    requires forall x | x in p.held :: 0 <= x.offset < TWO_TO_THE_32
    ensures Straddled(base, Wire(base, p)) <==> exists x :: x in p.held && x.offset < |p.buf| < x.End()
  {
    var st := Wire(base, p);
    if Straddled(base, st) {
      var i :| 0 <= i < |st.pending| && WrappingSub(st.pending[i].seqNo, base) < |st.buf|
               < WrappingSub(st.pending[i].seqNo, base) + |st.pending[i].data|;
      OffsetOnTheWire(base, p.held[i].offset);
      assert p.held[i] in p.held;
    }
    if x :| x in p.held && x.offset < |p.buf| < x.End() {
      var i :| 0 <= i < |p.held| && p.held[i] == x;
      OffsetOnTheWire(base, x.offset);
      assert st.pending[i] in st.pending;
    }
  }

  /**
   On a stream that fits the cap, a result not flagged partial is the longest contiguous run of
   the bytes that arrived exactly when no held segment straddles the end of the buffer: the drain
   joins a held segment only when it starts right there.
   */
  lemma LongestRunIff(max: nat, base: U32, xs: seq<Sent>, s: seq<Byte>)
    requires Fits(max, s, xs) && xs != []
    requires !Receive(max, base, xs).truncated
    ensures var st := Receive(max, base, xs);
            && st.buf <= s
            && (LongestRun(xs, |st.buf|) <==> !Straddled(base, st))
  {
    ReceiveIsAccepted(max, base, xs, s);
    var p := Accepted(xs);
    AcceptedTracks(xs);
    StraddledMeans(base, p);
    if ReceivedAt(xs, |p.buf|) {
      var x :| x in xs && x.offset <= |p.buf| < x.End();
      assert x in p.held;
    }
    if x :| x in p.held && x.offset < |p.buf| < x.End() {
      assert x in xs;
    }
  }

  const STREAM: seq<Byte> := [1, 2, 3, 4, 5, 6, 7, 8]
  const HEAD := Sent(0, [1, 2])
  const AHEAD := Sent(4, [5, 6, 7, 8])
  const FILLER := Sent(2, [3, 4, 5, 6])

  lemma StraddlerAccepted()
    ensures Accepted([HEAD, AHEAD, FILLER]) == Plain([1, 2] + [3, 4, 5, 6], [AHEAD], false)
  {
    assert [HEAD][..0] == [];
    assert Accepted([]) == NOTHING;
    assert [] + HEAD.data[0..] == [1, 2];
    assert Accepted([HEAD]) == Plain([1, 2], [], false);
    assert [HEAD, AHEAD][..1] == [HEAD];
    assert Accepted([HEAD, AHEAD]) == Plain([1, 2], [AHEAD], false);
    assert [HEAD, AHEAD, FILLER][..2] == [HEAD, AHEAD];
    assert FirstStarting([AHEAD][1..], 6) == None;
    assert FirstStarting([AHEAD], 6) == None;
    assert [1, 2] + FILLER.data[0..] == [1, 2] + [3, 4, 5, 6];
  }

  /** Bytes 0 to 7 have all arrived, the stream is not flagged, and only six of them come out. */
  lemma StraddlerIsNeverJoined(base: U32)
    ensures var st := Receive(16, base, [HEAD, AHEAD, FILLER]);
            !st.truncated && |st.buf| == 6 && Straddled(base, st)
    ensures forall i | 0 <= i < 8 :: ReceivedAt([HEAD, AHEAD, FILLER], i)
  {
    var xs := [HEAD, AHEAD, FILLER];
    assert STREAM[0..2] == HEAD.data && STREAM[4..8] == AHEAD.data && STREAM[2..6] == FILLER.data;
    ReceiveIsAccepted(16, base, xs, STREAM);
    StraddlerAccepted();
    assert AHEAD in Accepted(xs).held;
    StraddledMeans(base, Accepted(xs));
    assert HEAD in xs && AHEAD in xs && FILLER in xs;
    forall i | 0 <= i < 8 ensures ReceivedAt(xs, i) {
      assert HEAD.offset <= i < HEAD.End() || AHEAD.offset <= i < AHEAD.End() || FILLER.offset <= i < FILLER.End();
    }
  }

  // ---------------------------------------------------------------------------
  // Arrivals that cannot straddle
  // ---------------------------------------------------------------------------

  /** A segment that starts within another ends within it: retransmissions repeat or split, never regroup. */
  ghost predicate Laminar(xs: seq<Sent>) {
    forall x, y | x in xs && y in xs && x.offset <= y.offset < x.End() :: y.End() <= x.End()
  }

  predicate Clears(n: int, y: Sent) {
    y.offset >= n || y.End() <= n
  }

  /** What is held lies ahead of the end of the buffer, or all behind it. */
  ghost predicate AllClear(buf: seq<Byte>, held: seq<Sent>) {
    forall y | y in held :: Clears(|buf|, y)
  }

  ghost predicate AllIn(held: seq<Sent>, xs: seq<Sent>) {
    forall y | y in held :: y in xs
  }

  lemma TakeIsClear(buf: seq<Byte>, held: seq<Sent>, xs: seq<Sent>, x: Sent, tail: seq<Byte>)
    requires Laminar(xs) && AllIn(held, xs) && AllClear(buf, held)
    requires x in xs && x.offset <= |buf| <= x.End() && |buf + tail| == x.End()
    ensures AllClear(buf + tail, held)
  {
    forall y | y in held ensures Clears(|buf + tail|, y) {
      assert Clears(|buf|, y);
    }
  }

  lemma {:induction false} JoinIsClear(buf: seq<Byte>, held: seq<Sent>, xs: seq<Sent>)
    requires Laminar(xs) && AllIn(held, xs) && AllClear(buf, held)
    ensures var (buf', held') := Join(buf, held); AllIn(held', xs) && AllClear(buf', held')
    decreases |held|
  {
    var i := FirstStarting(held, |buf|);
    if i.Some? {
      var x := held[i.value];
      assert x in held;
      TakeIsClear(buf, held, xs, x, x.data);
      JoinIsClear(buf + x.data, Without(held, i.value), xs);
    }
  }

  lemma AcceptIsClear(p: Plain, xs: seq<Sent>, x: Sent)
    requires Laminar(xs) && AllIn(p.held, xs) && AllClear(p.buf, p.held) && x in xs && x.offset >= 0
    ensures AllIn(Accept(p, x).held, xs) && AllClear(Accept(p, x).buf, Accept(p, x).held)
  {
    if x.offset <= |p.buf| < x.End() {
      var tail := x.data[|p.buf| - x.offset..];
      TakeIsClear(p.buf, p.held, xs, x, tail);
      JoinIsClear(p.buf + tail, p.held, xs);
    }
  }

  lemma {:induction false} AcceptedIsClear(xs: seq<Sent>, all: seq<Sent>)
    requires forall x | x in xs :: x.offset >= 0
    requires Laminar(all) && AllIn(xs, all)
    ensures AllIn(Accepted(xs).held, all) && AllClear(Accepted(xs).buf, Accepted(xs).held)
  {
    if xs != [] {
      var init, x := xs[..|xs| - 1], xs[|xs| - 1];
      assert x in xs && forall y :: y in init ==> y in xs;
      AcceptedIsClear(init, all);
      AcceptIsClear(Accepted(init), all, x);
    }
  }

  lemma ClearIsLongest(p: Plain, xs: seq<Sent>)
    requires Tracks(p.buf, p.held, xs) && NoneFlush(p) && AllClear(p.buf, p.held)
    ensures LongestRun(xs, |p.buf|)
    ensures forall x | x in p.held :: !(x.offset < |p.buf| < x.End())
  {
    forall x | x in p.held ensures !(x.offset <= |p.buf| < x.End()) {
      assert Clears(|p.buf|, x);
    }
  }

  /** Something is missing before the segment. */
  ghost predicate HoleBefore(xs: seq<Sent>, x: Sent) {
    exists i :: 0 <= i < x.offset && !ReceivedAt(xs, i)
  }

  /** How many segments arrived ahead of a gap. */
  ghost function Ahead(xs: seq<Sent>): nat {
    if xs == [] then 0
    else Ahead(xs[..|xs| - 1]) + if HoleBefore(xs[..|xs| - 1], xs[|xs| - 1]) then 1 else 0
  }

  lemma LaminarWithin(xs: seq<Sent>, all: seq<Sent>)
    requires Laminar(all) && AllIn(xs, all)
    ensures Laminar(xs)
  {
  }

  // What has become of the segments that arrived ahead of a gap.

  ghost predicate ArrivedAhead(xs: seq<Sent>, x: Sent) {
    exists n :: 0 <= n < |xs| && xs[n] == x && HoleBefore(xs[..n], x)
  }

  /** A segment reaches from before the offset to beyond it. */
  ghost predicate Spanned(xs: seq<Sent>, o: int) {
    exists x :: x in xs && x.offset < o < x.End()
  }

  /** Everything up to the byte at the offset has arrived. */
  ghost predicate Reached(xs: seq<Sent>, o: int) {
    forall i | 0 <= i <= o :: ReceivedAt(xs, i)
  }

  /** It arrived ahead, and the gap has since closed right where it starts. */
  ghost predicate Caught(xs: seq<Sent>, x: Sent) {
    ArrivedAhead(xs, x) && Reached(xs, x.offset) && !Spanned(xs, x.offset)
  }

  ghost function CaughtUp(xs: seq<Sent>): set<int> {
    set x | x in xs && Caught(xs, x) :: x.offset
  }

  /** How many of the segments that arrived ahead of a gap still wait, one joined for each place that was reached. */
  ghost function Outstanding(xs: seq<Sent>): int {
    Ahead(xs) - |CaughtUp(xs)|
  }

  ghost predicate FewOutstanding(xs: seq<Sent>) {
    forall n | 0 <= n <= |xs| :: Outstanding(xs[..n]) <= MAX_PENDING
  }

  lemma FewBefore(xs: seq<Sent>, x: Sent)
    requires FewOutstanding(xs + [x])
    ensures FewOutstanding(xs) && Outstanding(xs + [x]) <= MAX_PENDING
  {
    var all := xs + [x];
    assert all[..|all|] == all;
    forall n | 0 <= n <= |xs| ensures Outstanding(xs[..n]) <= MAX_PENDING {
      assert all[..n] == xs[..n];
    }
  }

  lemma AheadEarlier(xs: seq<Sent>, x: Sent, y: Sent)
    requires ArrivedAhead(xs + [x], y) && !(y == x && HoleBefore(xs, x))
    ensures ArrivedAhead(xs, y) && y in xs
  {
    var all := xs + [x];
    var n :| 0 <= n < |all| && all[n] == y && HoleBefore(all[..n], y);
    assert all[..n] == xs[..n];
  }

  /** The places the buffer has passed where a segment that arrived ahead starts, and none reaches across, are gone. */
  ghost predicate Gone(n: int, xs: seq<Sent>, gone: set<int>) {
    forall y | y in xs && ArrivedAhead(xs, y) && y.offset < n && !Spanned(xs, y.offset) :: y.offset in gone
  }

  lemma CaughtUpIsGone(xs: seq<Sent>, n: nat, gone: set<int>)
    requires Gone(n, xs, gone) && LongestRun(xs, n)
    ensures CaughtUp(xs) <= gone && |CaughtUp(xs)| <= |gone|
  {
    forall y | y in xs && Caught(xs, y) ensures y.offset in gone {
      assert y.offset >= n ==> ReceivedAt(xs, n);
    }
    NoMore(CaughtUp(xs), gone);
  }

  lemma NoMore<T>(a: set<T>, b: set<T>)
    requires a <= b
    ensures |a| <= |b|
  {
    if a != {} {
      var x :| x in a;
      NoMore(a - {x}, b - {x});
    }
  }

  lemma SpannedStill(xs: seq<Sent>, x: Sent, o: int)
    requires !Spanned(xs + [x], o)
    ensures !Spanned(xs, o) && !(x.offset < o < x.End())
  {
    assert x in xs + [x];
    forall y | y in xs ensures !(y.offset < o < y.End()) {
      assert y in xs + [x];
    }
  }

  /** Nothing the buffer passes is spared: one held segment goes for each place it stops at. */
  lemma {:induction false} JoinTakes(buf: seq<Byte>, held: seq<Sent>, xs: seq<Sent>) returns (taken: set<int>)
    requires AllIn(held, xs)
    ensures |Join(buf, held).1| + |taken| <= |held|
    ensures forall y | y in held && |buf| <= y.offset < |Join(buf, held).0| && !Spanned(xs, y.offset) ::
              y.offset in taken
    decreases |held|
  {
    var i := FirstStarting(held, |buf|);
    if i.None? {
      taken := {};
    } else {
      var x, rest := held[i.value], Without(held, i.value);
      assert x in held && AllIn(rest, xs);
      var later := JoinTakes(buf + x.data, rest, xs);
      taken := later + {|buf|};
      forall y | y in held && |buf| <= y.offset < |Join(buf, held).0| && !Spanned(xs, y.offset)
        ensures y.offset in taken
      {
        InWithout(held, i.value, y);
        assert |buf| < y.offset < x.End() ==> Spanned(xs, y.offset);
      }
    }
  }

  lemma InWithout(held: seq<Sent>, i: nat, y: Sent)
    requires i < |held| && y in held
    ensures y == held[i] || y in Without(held, i)
  {
    var j :| 0 <= j < |held| && held[j] == y;
    var rest := Without(held, i);
    assert j < i ==> rest[j] == y;
    assert j > i ==> rest[j - 1] == y;
  }

  /** One more segment: still no more are held than arrived ahead and have not gone. */
  ghost predicate Balanced(p: Plain, xs: seq<Sent>, gone: set<int>) {
    && Tracks(p.buf, p.held, xs) && NoneFlush(p) && AllClear(p.buf, p.held)
    && |p.held| + |gone| <= Ahead(xs) && Gone(|p.buf|, xs, gone)
  }

  lemma BalancedIsFew(p: Plain, xs: seq<Sent>, gone: set<int>)
    requires Balanced(p, xs, gone)
    ensures |p.held| <= Outstanding(xs)
  {
    ClearIsLongest(p, xs);
    CaughtUpIsGone(xs, |p.buf|, gone);
  }

  lemma StaysGone(p: Plain, xs: seq<Sent>, x: Sent, gone: set<int>)
    requires Balanced(p, xs, gone) && LongestRun(xs, |p.buf|) && x.offset >= 0
    ensures Gone(|p.buf|, xs + [x], gone)
  {
    forall y | y in xs + [x] && ArrivedAhead(xs + [x], y) && y.offset < |p.buf| && !Spanned(xs + [x], y.offset)
      ensures y.offset in gone
    {
      AheadEarlier(xs, x, y);
      SpannedStill(xs, x, y.offset);
    }
  }

  lemma AheadStep(p: Plain, xs: seq<Sent>, x: Sent)
    requires LongestRun(xs, |p.buf|) && x.offset >= 0
    ensures HoleBefore(xs, x) <==> x.offset > |p.buf|
    ensures Ahead(xs + [x]) == Ahead(xs) + if x.offset > |p.buf| then 1 else 0
  {
    assert (xs + [x])[..|xs|] == xs;
  }

  lemma HeldBalances(p: Plain, xs: seq<Sent>, x: Sent, gone: set<int>)
    requires Balanced(p, xs, gone) && x.offset > |p.buf| && x.data != []
    requires Outstanding(xs + [x]) <= MAX_PENDING && !p.overflowed
    ensures !Accept(p, x).overflowed && Balanced(Accept(p, x), xs + [x], gone)
  {
    ClearIsLongest(p, xs);
    AheadStep(p, xs, x);
    StaysGone(p, xs, x, gone);
    MoreReceived(xs, x);
    var q := Plain(p.buf, p.held + [x], false);
    assert forall y | y in q.held :: y in p.held || y == x;
    assert Tracks(q.buf, q.held, xs + [x]) && NoneFlush(q) && AllClear(q.buf, q.held);
    BalancedIsFew(q, xs + [x], gone);
  }

  /** What arrived ahead and lies beyond the buffer is still held. */
  lemma WaitsBeyond(p: Plain, xs: seq<Sent>, y: Sent)
    requires Tracks(p.buf, p.held, xs) && NoneFlush(p) && y in xs && y.offset >= |p.buf| && y.data != []
    ensures y in p.held && y.offset > |p.buf|
  {
  }

  lemma UnionIsSmall<T>(a: set<T>, b: set<T>)
    ensures |a + b| <= |a| + |b|
  {
  }

  /** How the extended buffer comes about, and what it leaves behind. */
  lemma ExtendedTakes(p: Plain, all: seq<Sent>, x: Sent) returns (taken: set<int>)
    requires AllIn(p.held, all) && 0 <= x.offset <= |p.buf| < x.End()
    ensures |Accept(p, x).held| + |taken| <= |p.held|
    ensures forall y | y in p.held && x.End() <= y.offset < |Accept(p, x).buf| && !Spanned(all, y.offset) ::
              y.offset in taken
  {
    taken := JoinTakes(p.buf + x.data[|p.buf| - x.offset..], p.held, all);
  }

  lemma ExtendedTracks(p: Plain, xs: seq<Sent>, x: Sent, q: Plain)
    requires Tracks(p.buf, p.held, xs) && NoneFlush(p) && AllClear(p.buf, p.held)
    requires 0 <= x.offset <= |p.buf| < x.End() && !p.overflowed && Laminar(xs + [x]) && q == Accept(p, x)
    ensures !q.overflowed && Tracks(q.buf, q.held, xs + [x]) && NoneFlush(q) && AllClear(q.buf, q.held)
  {
    AcceptTracks(p, xs, x);
    assert AllIn(p.held, xs + [x]) && x in xs + [x];
    AcceptIsClear(p, xs + [x], x);
  }

  lemma ExtendedBalances(p: Plain, xs: seq<Sent>, x: Sent, gone: set<int>, q: Plain) returns (gone': set<int>)
    requires Balanced(p, xs, gone) && 0 <= x.offset <= |p.buf| < x.End() && !p.overflowed && q == Accept(p, x)
    requires Laminar(xs + [x]) && forall y | y in xs :: y.data != []
    ensures !q.overflowed && Balanced(q, xs + [x], gone')
  {
    ClearIsLongest(p, xs);
    AheadStep(p, xs, x);
    ExtendedTracks(p, xs, x, q);
    var taken := ExtendedTakes(p, xs + [x], x);
    gone' := gone + taken;
    UnionIsSmall(gone, taken);
    StaysGone(p, xs, x, gone);
    PassedIsGone(p, xs, x, gone, taken, |q.buf|);
  }

  lemma PassedIsGone(p: Plain, xs: seq<Sent>, x: Sent, gone: set<int>, taken: set<int>, n: nat)
    requires Tracks(p.buf, p.held, xs) && NoneFlush(p) && x.offset <= |p.buf| < x.End()
    requires !HoleBefore(xs, x) && Gone(|p.buf|, xs + [x], gone) && forall y | y in xs :: y.data != []
    requires forall y | y in p.held && x.End() <= y.offset < n && !Spanned(xs + [x], y.offset) :: y.offset in taken
    ensures Gone(n, xs + [x], gone + taken)
  {
    var all := xs + [x];
    forall y | y in all && ArrivedAhead(all, y) && y.offset < n && !Spanned(all, y.offset)
      ensures y.offset in gone + taken
    {
      AheadEarlier(xs, x, y);
      SpannedStill(xs, x, y.offset);
      if y.offset >= |p.buf| {
        WaitsBeyond(p, xs, y);
      }
    }
  }

  lemma {:induction false} FewAreHeldAtOnce(xs: seq<Sent>) returns (gone: set<int>)
    requires forall x | x in xs :: x.offset >= 0 && x.data != []
    requires Laminar(xs) && FewOutstanding(xs)
    ensures !Accepted(xs).overflowed && Balanced(Accepted(xs), xs, gone)
  {
    if xs == [] {
      gone := {};
    } else {
      var init, x := xs[..|xs| - 1], xs[|xs| - 1];
      assert xs == init + [x] && x in xs && AllIn(init, xs);
      LaminarWithin(init, xs);
      FewBefore(init, x);
      var before := FewAreHeldAtOnce(init);
      var p := Accepted(init);
      if x.offset > |p.buf| {
        HeldBalances(p, init, x, before);
        gone := before;
      } else if |p.buf| < x.End() {
        gone := ExtendedBalances(p, init, x, before, Accept(p, x));
      } else {
        ClearIsLongest(p, init);
        AheadStep(p, init, x);
        AcceptTracks(p, init, x);
        StaysGone(p, init, x, before);
        gone := before;
      }
    }
  }

  /**
   When no two segments that arrived overlap without one ending within the other, nothing can
   straddle: a result not flagged partial is the longest contiguous run.
   */
  lemma LaminarIsLongestRun(max: nat, base: U32, xs: seq<Sent>, s: seq<Byte>)
    requires Fits(max, s, xs) && xs != [] && Laminar(xs)
    requires !Receive(max, base, xs).truncated
    ensures var st := Receive(max, base, xs);
            st.buf <= s && LongestRun(xs, |st.buf|) && !Straddled(base, st)
  {
    ReceiveIsAccepted(max, base, xs, s);
    AcceptedTracks(xs);
    AcceptedIsClear(xs, xs);
    ClearIsLongest(Accepted(xs), xs);
    StraddledMeans(base, Accepted(xs));
  }

  /**
   If at no time more than 64 of the segments that arrived ahead of a gap are outstanding, nothing is
   flagged, and so the longest run is delivered, however long the stream goes on reordering.
   */
  lemma FewAheadDeliver(max: nat, base: U32, xs: seq<Sent>, s: seq<Byte>)
    requires Fits(max, s, xs) && xs != [] && Laminar(xs) && FewOutstanding(xs)
    ensures var st := Receive(max, base, xs);
            !st.truncated && |st.pending| <= Outstanding(xs) && st.buf <= s && LongestRun(xs, |st.buf|)
  {
    ReceiveIsAccepted(max, base, xs, s);
    var gone := FewAreHeldAtOnce(xs);
    BalancedIsFew(Accepted(xs), xs, gone);
    LaminarIsLongestRun(max, base, xs, s);
  }

  // ---------------------------------------------------------------------------
  // A fixed segmentation: retransmissions repeat whole segments
  // ---------------------------------------------------------------------------

  /** `cuts` splits a stream into consecutive non-empty segments. */
  ghost predicate Segmentation(s: seq<Byte>, cuts: seq<nat>) {
    && |cuts| >= 2 && cuts[0] == 0 && cuts[|cuts| - 1] == |s|
    && forall i, j | 0 <= i < j < |cuts| :: cuts[i] < cuts[j]
  }

  /** `x` is segment number `j`. */
  ghost predicate IsPiece(s: seq<Byte>, cuts: seq<nat>, j: int, x: Sent) {
    && 0 <= j < |cuts| - 1
    && x.offset == cuts[j] && x.End() == cuts[j + 1]
    && IsSlice(s, x.offset, x.data)
  }

  ghost predicate SomePiece(s: seq<Byte>, cuts: seq<nat>, x: Sent) {
    exists j :: IsPiece(s, cuts, j, x)
  }

  ghost predicate AllPieces(s: seq<Byte>, cuts: seq<nat>, xs: seq<Sent>) {
    forall x | x in xs :: SomePiece(s, cuts, x)
  }

  ghost predicate HasArrived(s: seq<Byte>, cuts: seq<nat>, xs: seq<Sent>, j: int) {
    exists x :: x in xs && IsPiece(s, cuts, j, x)
  }

  /** `r` is the first segment that has not arrived, or the number of segments. */
  ghost predicate FirstMissing(s: seq<Byte>, cuts: seq<nat>, xs: seq<Sent>, r: int) {
    && 0 <= r < |cuts|
    && (forall j | 0 <= j < r :: HasArrived(s, cuts, xs, j))
    && !HasArrived(s, cuts, xs, r)
  }

  lemma PiecesAreSlices(s: seq<Byte>, cuts: seq<nat>, xs: seq<Sent>)
    requires Segmentation(s, cuts) && AllPieces(s, cuts, xs)
    ensures AllSlices(s, xs)
  {
    forall x | x in xs ensures x.data != [] && IsSlice(s, x.offset, x.data) {
      var j :| IsPiece(s, cuts, j, x);
      assert cuts[j] < cuts[j + 1];
    }
  }

  /** A piece that starts before a cut ends by it; its own ends are cuts. */
  lemma PieceMeetsCut(s: seq<Byte>, cuts: seq<nat>, x: Sent, c: nat)
    requires Segmentation(s, cuts) && SomePiece(s, cuts, x) && c in cuts
    ensures x.offset < c ==> x.End() <= c
    ensures x.End() in cuts
  {
    var j :| IsPiece(s, cuts, j, x);
    var i :| 0 <= i < |cuts| && cuts[i] == c;
    assert cuts[j + 1] in cuts;
    assert i > j + 1 ==> cuts[j + 1] < cuts[i];
    assert i < j ==> cuts[i] < cuts[j];
  }

  lemma {:induction false} JoinEndsAtCut(buf: seq<Byte>, held: seq<Sent>, s: seq<Byte>, cuts: seq<nat>)
    requires Segmentation(s, cuts) && AllPieces(s, cuts, held) && |buf| in cuts
    ensures |Join(buf, held).0| in cuts && AllPieces(s, cuts, Join(buf, held).1)
    decreases |held|
  {
    var i := FirstStarting(held, |buf|);
    if i.Some? {
      var x := held[i.value];
      assert x in held;
      PieceMeetsCut(s, cuts, x, |buf|);
      JoinEndsAtCut(buf + x.data, Without(held, i.value), s, cuts);
    }
  }

  lemma AcceptEndsAtCut(p: Plain, x: Sent, s: seq<Byte>, cuts: seq<nat>)
    requires Segmentation(s, cuts) && AllPieces(s, cuts, p.held) && SomePiece(s, cuts, x)
    requires |p.buf| in cuts && x.offset >= 0
    ensures |Accept(p, x).buf| in cuts && AllPieces(s, cuts, Accept(p, x).held)
  {
    PieceMeetsCut(s, cuts, x, |p.buf|);
    if x.offset <= |p.buf| < x.End() {
      assert x.data[|p.buf| - x.offset..] == x.data;
      JoinEndsAtCut(p.buf + x.data, p.held, s, cuts);
    }
  }

  lemma {:induction false} AcceptedEndsAtCut(xs: seq<Sent>, s: seq<Byte>, cuts: seq<nat>)
    requires Segmentation(s, cuts) && AllPieces(s, cuts, xs)
    requires forall x | x in xs :: x.offset >= 0
    ensures |Accepted(xs).buf| in cuts && AllPieces(s, cuts, Accepted(xs).held)
  {
    if xs == [] {
      assert cuts[0] in cuts;
    } else {
      var init, x := xs[..|xs| - 1], xs[|xs| - 1];
      assert x in xs && forall y :: y in init ==> y in xs;
      AcceptedEndsAtCut(init, s, cuts);
      AcceptEndsAtCut(Accepted(init), x, s, cuts);
    }
  }

  lemma CutOrder(s: seq<Byte>, cuts: seq<nat>, i: int, j: int)
    requires Segmentation(s, cuts) && 0 <= i < |cuts| && 0 <= j < |cuts|
    ensures cuts[i] < cuts[j] <==> i < j
  {
  }

  lemma CoveringPieceIs(s: seq<Byte>, cuts: seq<nat>, x: Sent, r: int)
    requires Segmentation(s, cuts) && SomePiece(s, cuts, x) && 0 <= r < |cuts|
    requires x.offset <= cuts[r] < x.End()
    ensures IsPiece(s, cuts, r, x)
  {
    var j :| IsPiece(s, cuts, j, x);
    CutOrder(s, cuts, r, j);
    CutOrder(s, cuts, r, j + 1);
  }

  /** A buffer that ends at cut `i` holds every earlier piece, and piece `i` has not arrived. */
  lemma CutIsFirstMissing(xs: seq<Sent>, s: seq<Byte>, cuts: seq<nat>, p: Plain, i: int)
    requires Segmentation(s, cuts) && AllPieces(s, cuts, xs)
    requires Tracks(p.buf, p.held, xs) && NoneFlush(p)
    requires 0 <= i < |cuts| && cuts[i] == |p.buf|
    ensures FirstMissing(s, cuts, xs, i)
  {
    if i + 1 < |cuts| {
      CutOrder(s, cuts, i, i + 1);
      assert forall x | x in xs :: x.offset != |p.buf| || x.End() <= |p.buf|;
    }
    forall j | 0 <= j < i ensures HasArrived(s, cuts, xs, j) {
      CutOrder(s, cuts, j, i);
      assert ReceivedAt(xs, cuts[j]);
      var x :| x in xs && x.offset <= cuts[j] < x.End();
      CoveringPieceIs(s, cuts, x, j);
    }
  }

  /**
   Completeness: for a fixed segmentation, first segment first and then any order with repeats, a
   result not flagged partial is exactly the stream up to the first segment still missing.
   */
  lemma ExactlyUpToFirstMissing(max: nat, base: U32, xs: seq<Sent>, s: seq<Byte>, cuts: seq<nat>, r: int)
    requires Segmentation(s, cuts) && AllPieces(s, cuts, xs) && |s| <= max < TWO_TO_THE_31
    requires xs != [] && xs[0].offset == 0
    requires FirstMissing(s, cuts, xs, r)
    requires !Receive(max, base, xs).truncated
    ensures Receive(max, base, xs).buf == s[..cuts[r]]
  {
    PiecesAreSlices(s, cuts, xs);
    ReceiveIsAccepted(max, base, xs, s);
    AcceptedTracks(xs);
    AcceptedEndsAtCut(xs, s, cuts);
    var p := Accepted(xs);
    var i :| 0 <= i < |cuts| && cuts[i] == |p.buf|;
    CutIsFirstMissing(xs, s, cuts, p, i);
    assert i == r;
  }

  lemma PiecesAreLaminar(s: seq<Byte>, cuts: seq<nat>, xs: seq<Sent>)
    requires Segmentation(s, cuts) && AllPieces(s, cuts, xs)
    ensures Laminar(xs)
  {
    forall x, y | x in xs && y in xs && x.offset <= y.offset < x.End() ensures y.End() <= x.End() {
      PieceMeetsCut(s, cuts, x, 0);
      PieceMeetsCut(s, cuts, y, x.End());
    }
  }

  /** So is it whenever at most 64 segments that arrived ahead of a gap are outstanding at once. */
  lemma FewAheadReachFirstMissing(max: nat, base: U32, xs: seq<Sent>, s: seq<Byte>, cuts: seq<nat>, r: int)
    requires Segmentation(s, cuts) && AllPieces(s, cuts, xs) && |s| <= max < TWO_TO_THE_31
    requires xs != [] && xs[0].offset == 0
    requires FirstMissing(s, cuts, xs, r) && FewOutstanding(xs)
    ensures Receive(max, base, xs).buf == s[..cuts[r]] && !Receive(max, base, xs).truncated
  {
    PiecesAreSlices(s, cuts, xs);
    PiecesAreLaminar(s, cuts, xs);
    FewAheadDeliver(max, base, xs, s);
    ExactlyUpToFirstMissing(max, base, xs, s, cuts, r);
  }

  /** The same in a table shared with any other streams: each entry is exact for its own segments. */
  lemma TableDelivers(l: Limits, tr: seq<Arrival>, k: StreamKey, base: U32, xs: seq<Sent>, s: seq<Byte>,
                      cuts: seq<nat>, r: int)
    requires k in Run(l, tr).streams && SegmentsOf(tr, k) == OnWires(base, xs)
    requires Segmentation(s, cuts) && AllPieces(s, cuts, xs) && |s| <= l.maxBytes < TWO_TO_THE_31
    requires xs != [] && xs[0].offset == 0
    requires FirstMissing(s, cuts, xs, r)
    requires !Run(l, tr).streams[k].truncated
    ensures Run(l, tr).streams[k].buf == s[..cuts[r]]
  {
    TableProjects(l, tr, k);
    ExactlyUpToFirstMissing(l.maxBytes, base, xs, s, cuts, r);
  }

  /** With at most 64 segments after the first, nothing can be flagged. */
  lemma {:induction false} FewSegmentsAreNeverFlagged(max: nat, base: U32, xs: seq<Sent>, s: seq<Byte>)
    requires Fits(max, s, xs) && 0 < |xs| <= MAX_PENDING + 1
    ensures !Receive(max, base, xs).truncated
    ensures |Receive(max, base, xs).pending| < |xs|
  {
    ReceiveIsAccepted(max, base, xs, s);
    FewAreHeld(xs);
  }

  lemma FirstAccepted(x: Sent)
    requires x.offset == 0 && x.data != []
    ensures Accept(NOTHING, x) == Plain(x.data, [], false)
  {
    assert [] + x.data[0..] == x.data;
    assert FirstStarting([], |x.data|) == None;
  }

  lemma {:induction false} FewAreHeld(xs: seq<Sent>)
    requires forall x | x in xs :: x.offset >= 0 && x.data != []
    requires 0 < |xs| <= MAX_PENDING + 1 && xs[0].offset == 0
    ensures !Accepted(xs).overflowed && |Accepted(xs).held| < |xs|
  {
    var init, x := xs[..|xs| - 1], xs[|xs| - 1];
    assert x in xs && forall y :: y in init ==> y in xs;
    if init == [] {
      FirstAccepted(x);
    } else {
      FewAreHeld(init);
      var p := Accepted(init);
      assert !Accept(p, x).overflowed;
      AcceptedTracks(init);
      AcceptTracks(p, init, x);
    }
  }
}
