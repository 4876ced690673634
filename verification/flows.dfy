/**
 Bidirectional flow aggregation (rust/src/flow.rs).

 One row per conversation, updated a packet at a time. A packet is the part of it the flow table
 reads; the six identifying details are kept apart, the Community ID by its preimage.
 */
module Flows {
  import opened Addresses
  import opened Integers
  import opened Wrappers

  /** The nine TCP flag bits; a flag word is the set of its bits, and `|` is union. */
  datatype TcpFlag = FIN | SYN | RST | PSH | ACK | URG | ECE | CWR | NS

  type Flags = set<TcpFlag>

  const COMMUNITY_ID_SEED: U16 := 0

  datatype TcpState = Partial | SynSent | Established | Closing | Closed | Reset {

    /** How far along a connection is. */
    function Rank(): nat {
      match this
      case Partial => 0
      case SynSent => 1
      case Established => 2
      case Closing => 3
      case Closed => 4
      case Reset => 5
    }
  }

  datatype Field = Sni | HttpHost | DnsQname | Ja3 | Ja3s | Ja4

  datatype Details = Details(
    sni: Option<string>, httpHost: Option<string>, dnsQname: Option<string>,
    ja3: Option<string>, ja3s: Option<string>, ja4: Option<string>)
  {
    function Get(f: Field): Option<string> {
      match f
      case Sni => sni
      case HttpHost => httpHost
      case DnsQname => dnsQname
      case Ja3 => ja3
      case Ja3s => ja3s
      case Ja4 => ja4
    }
  }

  const NO_DETAILS := Details(None, None, None, None, None, None)

  /** What the flow table reads of a packet. */
  datatype Observation = Observation(
    tuple: Tuple, tcpFlags: Option<Flags>, details: Details, highestLayer: Option<string>,
    ts: int, frame: nat, len: nat)
  {
    predicate Has(bit: TcpFlag) {
      tcpFlags.Some? && bit in tcpFlags.value
    }

    predicate Runs(forward: bool) {
      tuple.Forward() == forward
    }
  }

  datatype Span = Span(firstTs: int, lastTs: int, firstFrame: nat, lastFrame: nat)

  /**
   The counters of one direction. `syn` is the handshake mark that matters there: a bare SYN from
   client to server, a SYN with ACK from server to client.
   */
  datatype Side = Side(packets: nat, bytes: nat, flags: Flags, fin: bool, syn: bool)

  const QUIET := Side(0, 0, {}, false, false)

  datatype Stats = Stats(
    span: Span, c2s: Side, s2c: Side,
    synCount: nat, finCount: nat, rstCount: nat, sawReset: bool,
    details: Details)

  datatype Flow = Flow(id: nat, key: Tuple, communityId: seq<Byte>, service: Option<string>, stats: Stats) {

    function State(): TcpState {
      StateOf(key.proto, stats)
    }
  }

  function StateOf(proto: Byte, s: Stats): TcpState {
    if proto != 6 then Partial
    else if s.sawReset then Reset
    else if s.c2s.fin && s.s2c.fin then Closed
    else if s.c2s.fin || s.s2c.fin then Closing
    else if s.c2s.syn && s.s2c.syn then Established
    else if s.c2s.syn then SynSent
    else Partial
  }

  /** What `observe` writes back on the packet. */
  datatype FlowTag = FlowTag(flowId: nat, communityId: seq<Byte>, c2s: bool)

  datatype Table = Table(flows: map<Tuple, Flow>, nextId: nat, evicted: nat)

  const EMPTY_TABLE := Table(map[], 1, 0)

  // ---------------------------------------------------------------------------
  // One packet
  // ---------------------------------------------------------------------------

  function TakeFirst(slot: Option<string>, v: Option<string>): Option<string> {
    if slot.None? then v else slot
  }

  function TakeAll(d: Details, e: Details): Details {
    Details(TakeFirst(d.sni, e.sni), TakeFirst(d.httpHost, e.httpHost), TakeFirst(d.dnsQname, e.dnsQname),
            TakeFirst(d.ja3, e.ja3), TakeFirst(d.ja3s, e.ja3s), TakeFirst(d.ja4, e.ja4))
  }

  /** A service that says no more than the transport gives way to any later layer. */
  predicate Generic(service: Option<string>) {
    service.None? || service.value == "tcp" || service.value == "udp"
  }

  function Upgraded(service: Option<string>, layer: Option<string>): Option<string> {
    if layer.Some? && Generic(service) then layer else service
  }

  function Opened(o: Observation, id: nat): Flow {
    Flow(id, o.tuple.Key(), Preimage(o.tuple.Key(), COMMUNITY_ID_SEED), None,
         Stats(Span(o.ts, o.ts, o.frame, o.frame), QUIET, QUIET, 0, 0, 0, false, NO_DETAILS))
  }

  function Widened(s: Span, o: Observation): Span {
    Span(Min(s.firstTs, o.ts), Max(s.lastTs, o.ts), Min(s.firstFrame, o.frame), Max(s.lastFrame, o.frame))
  }

  /** A direction after one more packet in it; `ack` tells which SYN is its handshake mark. */
  function Grown(s: Side, o: Observation, ack: bool): Side {
    Side(s.packets + 1, s.bytes + o.len,
         if o.tcpFlags.Some? then s.flags + o.tcpFlags.value else s.flags,
         s.fin || o.Has(FIN),
         s.syn || (o.Has(SYN) && o.Has(ACK) == ack))
  }

  function Updated(f: Flow, o: Observation): Flow {
    var s := f.stats;
    f.(stats := Stats(
      Widened(s.span, o),
      if o.Runs(true) then Grown(s.c2s, o, false) else s.c2s,
      if o.Runs(true) then s.s2c else Grown(s.s2c, o, true),
      s.synCount + (if o.Has(SYN) then 1 else 0),
      s.finCount + (if o.Has(FIN) then 1 else 0),
      s.rstCount + (if o.Has(RST) then 1 else 0),
      s.sawReset || o.Has(RST),
      TakeAll(s.details, o.details)),
    service := Upgraded(f.service, o.highestLayer))
  }

  function Observed(max: nat, t: Table, o: Observation): (Table, Option<FlowTag>) {
    var key := o.tuple.Key();
    if key !in t.flows && |t.flows| >= max then (t.(evicted := t.evicted + 1), None)
    else
      var f := Updated(if key in t.flows then t.flows[key] else Opened(o, t.nextId), o);
      (Table(t.flows[key := f], if f.id == t.nextId then t.nextId + 1 else t.nextId, t.evicted),
       Some(FlowTag(f.id, f.communityId, o.Runs(true))))
  }

  // ---------------------------------------------------------------------------
  // Joining two tables
  // ---------------------------------------------------------------------------

  function CombinedSpan(a: Span, b: Span): Span {
    Span(Min(a.firstTs, b.firstTs), Max(a.lastTs, b.lastTs),
         Min(a.firstFrame, b.firstFrame), Max(a.lastFrame, b.lastFrame))
  }

  function CombinedSide(a: Side, b: Side): Side {
    Side(a.packets + b.packets, a.bytes + b.bytes, a.flags + b.flags, a.fin || b.fin, a.syn || b.syn)
  }

  function Combined(a: Stats, b: Stats): Stats {
    Stats(
      CombinedSpan(a.span, b.span), CombinedSide(a.c2s, b.c2s), CombinedSide(a.s2c, b.s2c),
      a.synCount + b.synCount, a.finCount + b.finCount, a.rstCount + b.rstCount,
      a.sawReset || b.sawReset,
      TakeAll(a.details, b.details))
  }

  function Joined(f: Flow, g: Flow): Flow {
    f.(stats := Combined(f.stats, g.stats), service := TakeFirst(f.service, g.service))
  }

  /** Ids are below the next one, pairwise different, and rows sit under their own key. */
  ghost predicate Numbered(t: Table) {
    && (forall k | k in t.flows :: t.flows[k].key == k && t.flows[k].id < t.nextId)
    && (forall j, k | j in t.flows && k in t.flows && t.flows[j].id == t.flows[k].id :: j == k)
  }

  /** The row at `k` once `b`'s rows for `done` are in: joined, untouched, or adopted with a new id. */
  ghost predicate RowMerged(a: Table, b: Table, done: set<Tuple>, k: Tuple, f: Flow)
    requires done <= b.flows.Keys && k in a.flows.Keys + done
  {
    if k !in done then f == a.flows[k]
    else if k in a.flows then f == Joined(a.flows[k], b.flows[k])
    else f == b.flows[k].(id := f.id)
  }

  /** `r` is `a` after merging `b`'s rows for `done` into it, in some order. */
  ghost predicate MergedUpTo(a: Table, b: Table, done: set<Tuple>, r: Table) {
    && Numbered(r)
    && done <= b.flows.Keys
    && r.flows.Keys == a.flows.Keys + done
    && r.evicted == a.evicted + b.evicted
    && forall k | k in r.flows :: RowMerged(a, b, done, k, r.flows[k])
  }

  ghost predicate Merged(a: Table, b: Table, r: Table) {
    MergedUpTo(a, b, b.flows.Keys, r)
  }

  /** Merge one row: fold it into ours, or adopt it under our next id. */
  function Adopted(r: Table, key: Tuple, f: Flow): Table {
    if key in r.flows then r.(flows := r.flows[key := Joined(r.flows[key], f)])
    else r.(flows := r.flows[key := f.(id := r.nextId)], nextId := r.nextId + 1)
  }

  lemma AdoptedNumbered(r: Table, key: Tuple, f: Flow)
    requires Numbered(r) && f.key == key
    ensures Numbered(Adopted(r, key, f))
  {
    var r' := Adopted(r, key, f);
    if key in r.flows {
      assert r'.flows[key].id == r.flows[key].id;
    }
    forall j, k | j in r'.flows && k in r'.flows && r'.flows[j].id == r'.flows[k].id ensures j == k {
      assert j != key ==> r'.flows[j] == r.flows[j];
      assert k != key ==> r'.flows[k] == r.flows[k];
    }
  }

  lemma AdoptedMerges(a: Table, b: Table, done: set<Tuple>, r: Table, key: Tuple)
    requires MergedUpTo(a, b, done, r) && key in b.flows && key !in done && b.flows[key].key == key
    ensures MergedUpTo(a, b, done + {key}, Adopted(r, key, b.flows[key]))
  {
    var r' := Adopted(r, key, b.flows[key]);
    AdoptedNumbered(r, key, b.flows[key]);
    assert r'.flows.Keys == a.flows.Keys + (done + {key});
    assert key in r.flows ==> RowMerged(a, b, done, key, r.flows[key]);
    forall k | k in r'.flows ensures RowMerged(a, b, done + {key}, k, r'.flows[k]) {
      if k != key {
        assert r'.flows[k] == r.flows[k];
        assert RowMerged(a, b, done, k, r.flows[k]);
      }
    }
  }

  /** Fold one packet into its row: widen the interval, grow its direction, note what it carries. */
  method UpdateEntry(f: Flow, o: Observation) returns (entry: Flow)
    ensures entry == Updated(f, o)
  {
    entry := f;
    var s := entry.stats;
    s := s.(span := Widened(s.span, o));
    if o.tuple.Forward() {
      s := s.(c2s := Grown(s.c2s, o, false));
    } else {
      s := s.(s2c := Grown(s.s2c, o, true));
    }
    if o.Has(SYN) {
      s := s.(synCount := s.synCount + 1);
    }
    if o.Has(FIN) {
      s := s.(finCount := s.finCount + 1);
    }
    if o.Has(RST) {
      s := s.(rstCount := s.rstCount + 1, sawReset := true);
    }
    s := s.(details := TakeAll(s.details, o.details));
    var service := entry.service;
    if o.highestLayer.Some? && Generic(service) {
      service := o.highestLayer;
    }
    entry := entry.(stats := s, service := service);
  }

  class FlowTable {
    var flows: map<Tuple, Flow>
    var nextId: nat
    var evicted: nat
    const maxFlows: nat

    function Model(): Table
      reads this
    {
      Table(flows, nextId, evicted)
    }

    constructor (maxFlows: nat)
      ensures Model() == EMPTY_TABLE && this.maxFlows == maxFlows
    {
      this.maxFlows := maxFlows;
      flows := map[];
      nextId := 1;
      evicted := 0;
    }

    /** Update or open the packet's row; without room for one, only count it. */
    method Observe(o: Observation) returns (tag: Option<FlowTag>)
      modifies this
      ensures (Model(), tag) == Observed(maxFlows, old(Model()), o)
    {
      var (key, forward) := o.tuple.Normalized();
      if key !in flows && |flows| >= maxFlows {
        evicted := evicted + 1;
        return None;
      }
      var entry;
      if key in flows {
        entry := flows[key];
      } else {
        var cid := CommunityId(key.srcIp, key.dstIp, key.srcPort, key.dstPort, key.proto, COMMUNITY_ID_SEED);
        entry := Flow(nextId, key, cid, None,
                      Stats(Span(o.ts, o.ts, o.frame, o.frame), QUIET, QUIET, 0, 0, 0, false, NO_DETAILS));
      }
      if entry.id == nextId {
        nextId := nextId + 1;
      }
      entry := UpdateEntry(entry, o);
      flows := flows[key := entry];
      tag := Some(FlowTag(entry.id, entry.communityId, forward));
    }

    method Adopt(key: Tuple, f: Flow)
      modifies this
      ensures Model() == Adopted(old(Model()), key, f)
    {
      if key in flows {
        flows := flows[key := Joined(flows[key], f)];
      } else {
        flows := flows[key := f.(id := nextId)];
        nextId := nextId + 1;
      }
    }

    /** Merge another table into this one, its rows taken in any order. */
    method Merge(other: FlowTable)
      requires Numbered(Model())
      requires forall k | k in other.flows :: other.flows[k].key == k
      modifies this
      ensures Merged(old(Model()), old(other.Model()), Model())
    {
      ghost var a, b := Model(), other.Model();
      var theirs := other.flows;
      evicted := evicted + other.evicted;
      var todo := theirs.Keys;
      ghost var done: set<Tuple> := {};
      ghost var r := Model();
      while todo != {}
        invariant todo == theirs.Keys - done
        invariant r == Model() && MergedUpTo(a, b, done, r)
        decreases todo
      {
        var key :| key in todo;
        var f := theirs[key];
        AdoptedMerges(a, b, done, r, key);
        r, done := Adopted(r, key, f), done + {key};
        Adopt(key, f);
        todo := todo - {key};
      }
      assert done == theirs.Keys;
    }
  }
}
