/**
 TCP stream reassembly (`StreamTable` of rust/src/reasm.rs): one contiguous prefix per direction
 of a conversation, modular sequence arithmetic, a bounded list of segments held ahead of a gap,
 and a byte cap. `StreamTable::close` is not part of this model.
 */
module Streams {
  import opened Addresses
  import opened Integers
  import opened Wrappers

  datatype StreamKey = StreamKey(flow: Tuple, forward: bool)

  datatype Segment = Segment(seqNo: U32, data: seq<Byte>)

  datatype Stream = Stream(base: Option<U32>, buf: seq<Byte>, pending: seq<Segment>, truncated: bool)

  datatype Reassembled = Reassembled(data: seq<Byte>, multiSegment: bool, partial: bool)

  const NEW_STREAM := Stream(None, [], [], false)
  const MAX_PENDING: nat := 64

  // ---------------------------------------------------------------------------
  // Specification of one segment
  // ---------------------------------------------------------------------------

  /** `position` of the first held segment that starts at `q`. */
  function FirstAt(pending: seq<Segment>, q: U32): (i: Option<nat>)
    ensures i.None? ==> forall e | e in pending :: e.seqNo != q
    ensures i.Some? ==> i.value < |pending| && pending[i.value].seqNo == q
    ensures i.Some? ==> forall j | 0 <= j < i.value :: pending[j].seqNo != q
  {
    if pending == [] then None
    else if pending[0].seqNo == q then Some(0)
    else match FirstAt(pending[1..], q)
      case None => None
      case Some(i) => Some(i + 1)
  }

  function Without<T>(pending: seq<T>, i: nat): seq<T>
    requires i < |pending|
  {
    pending[..i] + pending[i + 1..]
  }

  /** Append held segments that sit flush against the buffer until none does. */
  function Drain(base: U32, buf: seq<Byte>, pending: seq<Segment>): (seq<Byte>, seq<Segment>)
    decreases |pending|
  {
    match FirstAt(pending, WrappingAdd(base, |buf|))
    case None => (buf, pending)
    case Some(i) => Drain(base, buf + pending[i].data, Without(pending, i))
  }

  function Extended(base: U32, s: Stream, tail: seq<Byte>): Stream {
    var (buf, pending) := Drain(base, s.buf + tail, s.pending);
    Stream(Some(base), buf, pending, s.truncated)
  }

  function Held(base: U32, s: Stream, seg: Segment): Stream {
    if |s.pending| + 1 > MAX_PENDING then Stream(Some(base), s.buf, [], true)
    else Stream(Some(base), s.buf, s.pending + [seg], s.truncated)
  }

  /** The stream once a segment is placed, before the byte cap is enforced. */
  function Placed(max: nat, s: Stream, seg: Segment): Stream {
    var base := if s.base.Some? then s.base.value else seg.seqNo;
    var offset := WrappingSub(seg.seqNo, base);
    if offset == |s.buf| then Extended(base, s, seg.data)
    else if offset < |s.buf| then
      if offset + |seg.data| > |s.buf| then Extended(base, s, seg.data[|s.buf| - offset..])
      else s.(base := Some(base))
    else if offset < max then Held(base, s, seg)
    else s.(base := Some(base))
  }

  function Capped(max: nat, s: Stream): Stream {
    if |s.buf| > max then s.(buf := s.buf[..max], truncated := true) else s
  }

  function Feed(max: nat, s: Stream, seg: Segment): Stream {
    Capped(max, Placed(max, s, seg))
  }

  // ---------------------------------------------------------------------------
  // Specification of the table
  // ---------------------------------------------------------------------------

  datatype Limits = Limits(maxStreams: nat, maxBytes: nat)

  datatype Table = Table(streams: map<StreamKey, Stream>, evicted: nat, truncated: nat)

  const EMPTY_TABLE := Table(map[], 0, 0)

  function Current(t: Table, k: StreamKey): Stream {
    if k in t.streams then t.streams[k] else NEW_STREAM
  }

  predicate Admits(l: Limits, t: Table, k: StreamKey) {
    k in t.streams || |t.streams| < l.maxStreams
  }

  /** The byte cap bites, and is counted, only on a stream not yet flagged. */
  predicate CapCounted(max: nat, s: Stream) {
    |s.buf| > max && !s.truncated
  }

  function Offer(l: Limits, t: Table, k: StreamKey, seg: Segment): (Table, Option<Reassembled>) {
    if seg.data == [] then (t, None)
    else if !Admits(l, t, k) then (t.(evicted := t.evicted + 1), None)
    else
      var placed := Placed(l.maxBytes, Current(t, k), seg);
      var s := Capped(l.maxBytes, placed);
      (Table(t.streams[k := s], t.evicted, t.truncated + if CapCounted(l.maxBytes, placed) then 1 else 0),
       Some(Reassembled(s.buf, |s.buf| > |seg.data|, s.truncated)))
  }

  // ---------------------------------------------------------------------------
  // Implementation
  // ---------------------------------------------------------------------------

  /** The drain loop: keep joining the first held segment found at the end of the buffer. */
  method DrainPending(base: U32, buf0: seq<Byte>, pending0: seq<Segment>)
    returns (buf: seq<Byte>, pending: seq<Segment>)
    ensures (buf, pending) == Drain(base, buf0, pending0)
  {
    buf, pending := buf0, pending0;
    var progress := true;
    while progress
      invariant Drain(base, buf, pending) == Drain(base, buf0, pending0)
      invariant !progress ==> Drain(base, buf, pending) == (buf, pending)
      decreases |pending|, progress
    {
      progress := false;
      var i := FirstAt(pending, WrappingAdd(base, |buf|));
      if i.Some? {
        buf, pending := buf + pending[i.value].data, Without(pending, i.value);
        progress := true;
      }
    }
  }

  /** Append the segment, the new tail of it, hold it, or ignore it; then drain. */
  method Place(max: nat, s0: Stream, seg: Segment) returns (s: Stream)
    ensures s == Placed(max, s0, seg)
  {
    s := s0;
    if s.base.None? {
      s := s.(base := Some(seg.seqNo));
    }
    var base := s.base.value;
    var offset := WrappingSub(seg.seqNo, base);
    var appended := false;
    if offset == |s.buf| {
      s := s.(buf := s.buf + seg.data);
      appended := true;
    } else if offset < |s.buf| {
      // Retransmission or overlap: keep what we have, append only the new tail.
      if offset + |seg.data| > |s.buf| {
        var skip := |s.buf| - offset;
        s := s.(buf := s.buf + seg.data[skip..]);
        appended := true;
      }
    } else if offset < max {
      s := s.(pending := s.pending + [seg]);
      if |s.pending| > MAX_PENDING {
        s := s.(pending := [], truncated := true);
      }
    }
    if appended && s.pending != [] {
      var buf, pending := DrainPending(base, s.buf, s.pending);
      s := s.(buf := buf, pending := pending);
    }
  }

  class StreamTable {
    var streams: map<StreamKey, Stream>
    const maxStreams: nat
    const maxBytes: nat
    var evicted: nat
    var truncated: nat

    function Model(): Table
      reads this
    {
      Table(streams, evicted, truncated)
    }

    function Bounds(): Limits {
      Limits(maxStreams, maxBytes)
    }

    constructor (maxStreams: nat, maxBytes: nat)
      ensures Model() == EMPTY_TABLE && Bounds() == Limits(maxStreams, maxBytes)
    {
      this.maxStreams := maxStreams;
      this.maxBytes := maxBytes;
      streams := map[];
      evicted := 0;
      truncated := 0;
    }

    /** One arrival; a result is all the stream has without a gap, not just what is new. */
    method Push(key: StreamKey, seqNo: U32, payload: seq<Byte>) returns (r: Option<Reassembled>)
      modifies this
      ensures (Model(), r) == Offer(Bounds(), old(Model()), key, Segment(seqNo, payload))
    {
      if payload == [] {
        return None;
      }
      if key !in streams && |streams| >= maxStreams {
        evicted := evicted + 1;
        return None;
      }
      var s := Place(maxBytes, if key in streams then streams[key] else NEW_STREAM, Segment(seqNo, payload));
      if |s.buf| > maxBytes {
        s := s.(buf := s.buf[..maxBytes]);
        if !s.truncated {
          s := s.(truncated := true);
          truncated := truncated + 1;
        }
      }
      streams := streams[key := s];
      return Some(Reassembled(s.buf, |s.buf| > |payload|, s.truncated));
    }
  }
}
