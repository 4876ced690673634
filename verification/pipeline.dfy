/**
 The run loop and the serial engine (rust/src/pipeline.rs).

 Dissection is a pure function of one record, a caught panic one of its results; which thread
 fills which result slot is left open. Fragments, streams and flows are the tables of their own
 modules. A capture is a sequence of records; `on_batch` is a sink that may refuse a batch.
 */
module Pipeline {
  import opened Addresses
  import opened Integers
  import opened PayloadRange
  import opened Wrappers
  import Flows
  import Fragments
  import Streams

  const I64_MAX: int := 0x7fff_ffff_ffff_ffff
  const I64_MIN: int := -0x8000_0000_0000_0000

  type I64 = x: int | I64_MIN <= x <= I64_MAX

  // ---------------------------------------------------------------------------
  // Records and packets
  // ---------------------------------------------------------------------------

  datatype RawPacket = RawPacket(ts: I64, capLen: U32, origLen: U32, ifaceId: U32, linktype: U16, data: seq<Byte>) {

    predicate Truncated() {
      origLen > capLen
    }
  }

  /** A packet copied out of the reader's buffer. */
  datatype Record = Record(raw: RawPacket, truncated: bool)

  function Copied(r: RawPacket): Record {
    Record(r, r.Truncated())
  }

  datatype FrameColumns = FrameColumns(ts: I64, frameLen: U32, capLen: U32, ifaceId: U32, truncated: bool)

  /** The columns of a packet that the run loop reads or writes; a stack is its list of layers. */
  datatype Packet = Packet(
    frame: Option<FrameColumns>, stack: Option<seq<string>>, highestLayer: Option<string>,
    srcPort: Option<U16>, dstPort: Option<U16>,
    tcpSeq: Option<U32>, tcpFlags: Option<Flows.Flags>, tcpPayloadLen: Option<U32>,
    details: Flows.Details, reassembled: Option<bool>, partial: Option<bool>,
    malformed: Option<bool>, panicked: Option<bool>)

  const NO_PACKET := Packet(None, None, None, None, None, None, None, None, Flows.NO_DETAILS, None, None, None, None)

  function FrameOnly(o: Record): Packet {
    var r := o.raw;
    NO_PACKET.(frame := Some(FrameColumns(r.ts, r.origLen, r.capLen, r.ifaceId, o.truncated)))
  }

  /** A finished row: what the engine numbers and tags, and the packet. */
  datatype Row = Row(packetId: nat, frameNumber: nat, tag: Option<Flows.FlowTag>, packet: Packet)

  datatype Seen = Seen(packet: Packet, tuple: Option<Tuple>, frag: Option<Fragments.FragMeta>, malformed: bool)

  datatype Dissected = Dissected(
    packet: Packet, tuple: Option<Tuple>, tcpPayload: Option<(U16, U16)>, frag: Option<Fragments.FragMeta>,
    malformed: bool, panicked: bool)

  /**
   The dissectors, as pure functions: a whole frame (no result is a caught panic), the application
   layer of a payload between two ports, and a reassembled datagram; the last two also give the
   names of the layers they added.
   */
  datatype Dissectors = Dissectors(
    frame: (seq<Byte>, U16, bool, Packet) -> Option<Seen>,
    app: (seq<Byte>, U16, U16, bool, Packet) -> (Packet, seq<string>),
    datagram: (Fragments.FragKey, seq<Byte>, Packet) -> (Packet, seq<string>, Option<Tuple>))

  function DissectOne(x: Dissectors, o: Record, defer: bool): Dissected {
    match x.frame(o.raw.data, o.raw.linktype, defer, FrameOnly(o))
    case None =>
      Dissected(FrameOnly(o).(malformed := Some(true), panicked := Some(true)), None, None, None, true, true)
    case Some(seen) =>
      var pkt := seen.packet.(malformed := Some(seen.malformed), panicked := Some(false));
      Dissected(pkt, seen.tuple,
                if defer then TcpPayloadRange(pkt.tcpPayloadLen, |o.raw.data|) else None,
                seen.frag, seen.malformed, false)
  }

  // ---------------------------------------------------------------------------
  // The engine, one record at a time
  // ---------------------------------------------------------------------------

  datatype Config = Config(
    reassemble: bool, threads: nat, batchSize: nat, maxFlows: nat,
    streams: Streams.Limits, frags: Fragments.Limits)

  datatype RunStats = RunStats(
    packets: nat, captureBytes: nat, flows: nat, malformed: nat, panicked: nat, truncated: nat,
    badBlocks: nat, flowsEvicted: nat, streamsTruncated: nat, streamsEvicted: nat,
    fragmentsReassembled: nat, fragmentsDropped: nat, firstTs: I64, lastTs: I64)

  const NO_STATS := RunStats(0, 0, 0, 0, 0, 0, 0, 0, 0, 0, 0, 0, I64_MAX, I64_MIN)

  datatype State = State(
    flows: Flows.Table, streams: Streams.Table, frags: Fragments.Table, stats: RunStats, nextId: nat)

  const START := State(Flows.EMPTY_TABLE, Streams.EMPTY_TABLE, Fragments.EMPTY_TABLE, NO_STATS, 0)

  datatype Entry = Entry(o: Record, d: Dissected)

  function Flagged(s: RunStats, e: Entry): RunStats {
    var ts := e.o.raw.ts;
    s.(malformed := s.malformed + (if e.d.malformed then 1 else 0),
       panicked := s.panicked + (if e.d.panicked then 1 else 0),
       truncated := s.truncated + (if e.o.truncated then 1 else 0),
       firstTs := if ts != 0 then Min(s.firstTs, ts) else s.firstTs,
       lastTs := if ts != 0 then Max(s.lastTs, ts) else s.lastTs)
  }

  function Noted(s: RunStats, e: Entry): RunStats {
    Flagged(s, e).(packets := s.packets + 1, captureBytes := s.captureBytes + e.o.raw.capLen)
  }

  function OrEmpty(stack: Option<seq<string>>): seq<string> {
    if stack.Some? then stack.value else []
  }

  /** Layers found later go on top of the ones there. */
  function Spliced(p: Packet, base: seq<string>, extra: seq<string>): Packet {
    if extra == [] then p
    else p.(stack := Some(base + extra), highestLayer := Some(extra[|extra| - 1]))
  }

  /** The first pass marks a fragment on top of its stack; the mark goes once the datagram is whole. */
  function Unmarked(stack: seq<string>): seq<string> {
    if |stack| > 1 && stack[|stack| - 1] == "ip-fragment" then stack[..|stack| - 1] else stack
  }

  function Redissected(x: Dissectors, k: Fragments.FragKey, data: seq<Byte>, p: Packet): (Packet, Option<Tuple>) {
    var (q, extra, tuple) := x.datagram(k, data, p);
    (Spliced(q.(reassembled := Some(true)), Unmarked(OrEmpty(p.stack)), extra), tuple)
  }

  function FragmentOf(m: Fragments.FragMeta): Fragments.Fragment {
    Fragments.Fragment(Fragments.Piece(m.offset, m.payload), m.moreFragments)
  }

  ghost function Pushed(l: Fragments.Limits, t: Fragments.Table, m: Fragments.FragMeta)
    : (Fragments.Table, Option<seq<Byte>>)
  {
    var (t', outcome) := Fragments.Offer(l, t, m.key, FragmentOf(m));
    (t', outcome.Delivered())
  }

  ghost function Defragmented(x: Dissectors, c: Config, t: Fragments.Table, d: Dissected)
    : (Fragments.Table, Packet, Option<Tuple>)
  {
    if !c.reassemble || d.frag.None? then (t, d.packet, None)
    else
      var m := d.frag.value;
      var (t', whole) := Pushed(c.frags, t, m);
      match whole
      case None => (t', d.packet, None)
      case Some(data) => var (p, tuple) := Redissected(x, m.key, data, d.packet); (t', p, tuple)
  }

  function Either<T>(a: Option<T>, b: Option<T>): Option<T> {
    if a.Some? then a else b
  }

  /** The bytes of the frame that go to stream reassembly. */
  function SegmentOf(e: Entry): Option<seq<Byte>> {
    match e.d.tcpPayload
    case None => None
    case Some((start, len)) =>
      if start + len > |e.o.raw.data| then None else Some(e.o.raw.data[start..start + len])
  }

  function StreamKeyOf(t: Tuple): Streams.StreamKey {
    Streams.StreamKey(t.Key(), t.Forward())
  }

  function SeqNoOf(p: Packet): U32 {
    if p.tcpSeq.Some? then p.tcpSeq.value else 0
  }

  /** The application layer of what the stream has come to; a full table leaves the bare segment. */
  function Dispatched(x: Dissectors, r: Option<Streams.Reassembled>, segment: seq<Byte>, p: Packet): Packet {
    var (data, multi, partial) :=
      if r.Some? then (r.value.data, r.value.multiSegment, r.value.partial) else (segment, false, false);
    var marked := p.(reassembled := Some(multi), partial := Some(partial));
    var sport: U16 := if p.srcPort.Some? then p.srcPort.value else 0;
    var dport: U16 := if p.dstPort.Some? then p.dstPort.value else 0;
    var (q, extra) := x.app(data, sport, dport, multi, marked);
    Spliced(q, OrEmpty(p.stack), extra)
  }

  function Streamed(x: Dissectors, c: Config, t: Streams.Table, tuple: Tuple, p: Packet, e: Entry)
    : (Streams.Table, Packet)
  {
    match SegmentOf(e)
    case None => (t, p)
    case Some(segment) =>
      var (t', r) := Streams.Offer(c.streams, t, StreamKeyOf(tuple), Streams.Segment(SeqNoOf(p), segment));
      (t', Dispatched(x, r, segment, p))
  }

  function ObservationOf(tuple: Tuple, p: Packet, o: Record, id: nat): Flows.Observation {
    Flows.Observation(tuple, p.tcpFlags, p.details, p.highestLayer, o.raw.ts, id + 1, o.raw.origLen)
  }

  /** One record through fragments, streams and flows, in that order. */
  ghost function AbsorbOne(x: Dissectors, c: Config, s: State, e: Entry): (State, Row) {
    var id := s.nextId;
    var (frags, p, found) := Defragmented(x, c, s.frags, e.d);
    match Either(e.d.tuple, found)
    case None =>
      (State(s.flows, s.streams, frags, Noted(s.stats, e), id + 1), Row(id, id + 1, None, p))
    case Some(tuple) =>
      var (streams, q) := Streamed(x, c, s.streams, tuple, p, e);
      var (flows, tag) := Flows.Observed(c.maxFlows, s.flows, ObservationOf(tuple, q, e.o, id));
      (State(flows, streams, frags, Noted(s.stats, e), id + 1), Row(id, id + 1, tag, q))
  }

  /** A state machine over a sequence, and what it emitted. */
  ghost function Machine<S, E, R>(step: (S, E) -> (S, R), s: S, es: seq<E>): (S, seq<R>) {
    if es == [] then (s, [])
    else
      var (t, rs) := Machine(step, s, es[..|es| - 1]);
      var (u, r) := step(t, es[|es| - 1]);
      (u, rs + [r])
  }

  lemma MachineStep<S, E, R>(step: (S, E) -> (S, R), s: S, es: seq<E>, i: nat)
    requires i < |es|
    ensures var t := Machine(step, s, es[..i]);
            var u := step(t.0, es[i]);
            Machine(step, s, es[..i + 1]) == (u.0, t.1 + [u.1])
  {
    assert es[..i + 1][..i] == es[..i];
  }

  ghost function Fold(x: Dissectors, c: Config, s: State, es: seq<Entry>): (State, seq<Row>) {
    Machine((t, e) => AbsorbOne(x, c, t, e), s, es)
  }

  lemma FoldStep(x: Dissectors, c: Config, s: State, es: seq<Entry>, i: nat)
    requires i < |es|
    ensures var (t, rows) := Fold(x, c, s, es[..i]);
            var (u, row) := AbsorbOne(x, c, t, es[i]);
            Fold(x, c, s, es[..i + 1]) == (u, rows + [row])
  {
    MachineStep((t, e) => AbsorbOne(x, c, t, e), s, es, i);
  }

  function Entries(x: Dissectors, defer: bool, rs: seq<Record>): seq<Entry> {
    seq(|rs|, i requires 0 <= i < |rs| => Entry(rs[i], DissectOne(x, rs[i], defer)))
  }

  function Records(raws: seq<RawPacket>): seq<Record> {
    seq(|raws|, i requires 0 <= i < |raws| => Copied(raws[i]))
  }

  /** The whole capture in one sequential pass, with no batches and no reused buffers. */
  ghost function Sequential(x: Dissectors, c: Config, raws: seq<RawPacket>): (State, seq<Row>) {
    Fold(x, c, START, Entries(x, c.reassemble, Records(raws)))
  }

  function Finalized(s: State, badBlocks: nat): RunStats {
    var r := s.stats.(
      badBlocks := badBlocks,
      flows := |s.flows.flows|, flowsEvicted := s.flows.evicted,
      streamsTruncated := s.streams.truncated, streamsEvicted := s.streams.evicted,
      fragmentsReassembled := s.frags.completed, fragmentsDropped := s.frags.dropped);
    if r.firstTs == I64_MAX then r.(firstTs := 0, lastTs := 0) else r
  }

  // ---------------------------------------------------------------------------
  // The engine as objects
  // ---------------------------------------------------------------------------

  /** A slot of the reused buffer. */
  class Owned {
    var ts: I64
    var capLen: U32
    var origLen: U32
    var ifaceId: U32
    var linktype: U16
    var truncated: bool
    var data: seq<Byte>

    function View(): Record
      reads this
    {
      Record(RawPacket(ts, capLen, origLen, ifaceId, linktype, data), truncated)
    }

    constructor ()
    {
      ts, capLen, origLen, ifaceId, linktype, truncated, data := 0, 0, 0, 0, 0, false, [];
    }

    /** Nothing of the slot's earlier contents survives. */
    method Fill(r: RawPacket)
      modifies this
      ensures View() == Copied(r)
    {
      ts := r.ts;
      capLen := r.capLen;
      origLen := r.origLen;
      ifaceId := r.ifaceId;
      linktype := r.linktype;
      truncated := r.Truncated();
      data := [];
      data := data + r.data;
    }
  }

  class WideBuilder {
    var rows: seq<Row>

    constructor ()
      ensures rows == []
    {
      rows := [];
    }

    method Append(row: Row)
      modifies this
      ensures rows == old(rows) + [row]
    {
      rows := rows + [row];
    }

    method Finish() returns (batch: seq<Row>)
      modifies this
      ensures batch == old(rows) && rows == []
    {
      batch := rows;
      rows := [];
    }
  }

  class Engine {
    const x: Dissectors
    const cfg: Config
    const flows: Flows.FlowTable
    const streams: Streams.StreamTable
    const frags: Fragments.FragTable
    var stats: RunStats
    var nextPacketId: nat

    ghost predicate Valid()
      reads this, frags
    {
      && frags.Valid()
      && flows.maxFlows == cfg.maxFlows
      && streams.Bounds() == cfg.streams
      && frags.Bounds() == cfg.frags
    }

    ghost function View(): State
      reads this, flows, streams, frags
    {
      State(flows.Model(), streams.Model(), frags.Model(), stats, nextPacketId)
    }

    constructor (x: Dissectors, cfg: Config)
      ensures Valid() && View() == START && this.x == x && this.cfg == cfg
      ensures fresh(flows) && fresh(streams) && fresh(frags)
    {
      this.x := x;
      this.cfg := cfg;
      flows := new Flows.FlowTable(cfg.maxFlows);
      streams := new Streams.StreamTable(cfg.streams.maxStreams, cfg.streams.maxBytes);
      frags := new Fragments.FragTable(cfg.frags.maxSets, cfg.frags.maxBytes);
      stats := NO_STATS;
      nextPacketId := 0;
    }

    /** Dissect a reassembled datagram onto the packet that carried its last fragment. */
    method RedissectDatagram(key: Fragments.FragKey, data: seq<Byte>, p: Packet)
      returns (q: Packet, tuple: Option<Tuple>)
      ensures (q, tuple) == Redissected(x, key, data, p)
    {
      var base := OrEmpty(p.stack);
      var (scratch, extra, found) := x.datagram(key, data, p);
      q, tuple := scratch.(reassembled := Some(true)), found;
      if extra != [] {
        q := q.(stack := Some(Unmarked(base) + extra), highestLayer := Some(extra[|extra| - 1]));
      }
    }

    method PushFragment(m: Fragments.FragMeta) returns (whole: Option<seq<Byte>>)
      requires Valid()
      modifies frags
      ensures Valid() && (frags.Model(), whole) == Pushed(cfg.frags, old(frags.Model()), m)
    {
      whole := frags.Push(m.key, m.offset, m.moreFragments, m.payload);
    }

    method Defragment(d: Dissected) returns (p: Packet, found: Option<Tuple>)
      requires Valid()
      modifies frags
      ensures Valid()
      ensures (frags.Model(), p, found) == Defragmented(x, cfg, old(frags.Model()), d)
    {
      p, found := d.packet, None;
      if cfg.reassemble && d.frag.Some? {
        var m := d.frag.value;
        var data := PushFragment(m);
        if data.Some? {
          p, found := RedissectDatagram(m.key, data.value, d.packet);
        }
      }
    }

    /** The application layer sees what the stream has come to, or the bare segment if the table is full. */
    method ReassembleAndDispatch(tuple: Tuple, p: Packet, o: Owned, range: Option<(U16, U16)>, ghost e: Entry)
      returns (q: Packet)
      requires Valid() && e.o == o.View() && e.d.tcpPayload == range
      modifies streams
      ensures (streams.Model(), q) == Streamed(x, cfg, old(streams.Model()), tuple, p, e)
    {
      q := p;
      if range.None? {
        return;
      }
      var (start, len) := range.value;
      if start + len > |o.data| {
        return;
      }
      var segment := o.data[start..start + len];
      var (key, forward) := tuple.Normalized();
      var r := streams.Push(Streams.StreamKey(key, forward), SeqNoOf(p), segment);
      q := Dispatched(x, r, segment, p);
    }

    method Note(o: Owned, d: Dissected, ghost e: Entry)
      requires e == Entry(o.View(), d)
      modifies this`stats
      ensures stats == Flagged(old(stats), e)
    {
      if d.malformed {
        stats := stats.(malformed := stats.malformed + 1);
      }
      if d.panicked {
        stats := stats.(panicked := stats.panicked + 1);
      }
      if o.truncated {
        stats := stats.(truncated := stats.truncated + 1);
      }
      if o.ts != 0 {
        stats := stats.(firstTs := Min(stats.firstTs, o.ts), lastTs := Max(stats.lastTs, o.ts));
      }
    }

    method AbsorbPacket(o: Owned, d: Dissected) returns (row: Row)
      requires Valid()
      modifies this, flows, streams, frags
      ensures Valid()
      ensures (View(), row) == AbsorbOne(x, cfg, old(View()), Entry(o.View(), d))
    {
      ghost var e := Entry(o.View(), d);
      var id := nextPacketId;
      nextPacketId := nextPacketId + 1;
      Note(o, d, e);
      var p, found := Defragment(d);
      var tag := None;
      var t := Either(d.tuple, found);
      if t.Some? {
        p := ReassembleAndDispatch(t.value, p, o, d.tcpPayload, e);
        tag := flows.Observe(ObservationOf(t.value, p, o.View(), id));
      }
      row := Row(id, id + 1, tag, p);
      stats := stats.(packets := stats.packets + 1, captureBytes := stats.captureBytes + o.capLen);
    }

    /** Record after record, each through the tables and then onto the batch. */
    method Absorb(chunk: seq<Owned>, dissected: seq<Dissected>, out: WideBuilder)
      requires Valid() && |chunk| == |dissected|
      modifies this, flows, streams, frags, out
      ensures Valid()
      ensures var (s, rows) := Fold(x, cfg, old(View()), Zipped(old(Views(chunk)), dissected));
              View() == s && out.rows == old(out.rows) + rows
    {
      ghost var s0, before, es := View(), out.rows, Zipped(Views(chunk), dissected);
      ghost var done: (State, seq<Row>) := (s0, []);
      for i := 0 to |chunk|
        invariant Valid() && Views(chunk) == old(Views(chunk))
        invariant done == Fold(x, cfg, s0, es[..i])
        invariant View() == done.0 && out.rows == before + done.1
      {
        FoldStep(x, cfg, s0, es, i);
        var row := AbsorbPacket(chunk[i], dissected[i]);
        out.Append(row);
        done := (View(), done.1 + [row]);
      }
      assert es[..|chunk|] == es;
    }

    method FinalizeStats(badBlocks: nat)
      modifies this
      ensures stats == Finalized(old(View()), badBlocks)
      ensures nextPacketId == old(nextPacketId)
    {
      stats := stats.(
        badBlocks := badBlocks,
        flows := |flows.flows|, flowsEvicted := flows.evicted,
        streamsTruncated := streams.truncated, streamsEvicted := streams.evicted,
        fragmentsReassembled := frags.completed, fragmentsDropped := frags.dropped);
      if stats.firstTs == I64_MAX {
        stats := stats.(firstTs := 0, lastTs := 0);
      }
    }
  }

  function Views(chunk: seq<Owned>): seq<Record>
    reads chunk
  {
    seq(|chunk|, i requires 0 <= i < |chunk| reads chunk => chunk[i].View())
  }

  function Zipped(rs: seq<Record>, ds: seq<Dissected>): seq<Entry>
    requires |rs| == |ds|
  {
    seq(|rs|, i requires 0 <= i < |rs| => Entry(rs[i], ds[i]))
  }

  // ---------------------------------------------------------------------------
  // One chunk
  // ---------------------------------------------------------------------------

  const PARALLEL_THRESHOLD: nat := 256

  function Indices(n: nat): (s: set<nat>)
    ensures forall i :: i in s <==> 0 <= i < n
  {
    if n == 0 then {} else Indices(n - 1) + {n - 1}
  }

  /** Dissect a chunk: in order below the threshold, else its slots are filled in any order. */
  method DissectChunk(x: Dissectors, threads: nat, chunk: seq<Owned>, defer: bool) returns (ds: seq<Dissected>)
    ensures |ds| == |chunk| && Zipped(Views(chunk), ds) == Entries(x, defer, Views(chunk))
  {
    if |chunk| < PARALLEL_THRESHOLD || threads == 1 {
      ds := [];
      for i := 0 to |chunk|
        invariant |ds| == i && forall j | 0 <= j < i :: ds[j] == DissectOne(x, chunk[j].View(), defer)
      {
        ds := ds + [DissectOne(x, chunk[i].View(), defer)];
      }
      return;
    }
    var slots := new Option<Dissected>[|chunk|](_ => None);
    var todo := Indices(|chunk|);
    while todo != {}
      invariant forall i | i in todo :: 0 <= i < |chunk|
      invariant forall j | 0 <= j < |chunk| && j !in todo :: slots[j] == Some(DissectOne(x, chunk[j].View(), defer))
      decreases todo
    {
      var i :| i in todo;
      slots[i] := Some(DissectOne(x, chunk[i].View(), defer));
      todo := todo - {i};
    }
    ds := [];
    for i := 0 to |chunk|
      invariant |ds| == i && forall j | 0 <= j < i :: ds[j] == DissectOne(x, chunk[j].View(), defer)
    {
      ds := ds + [slots[i].value];
    }
  }
}
