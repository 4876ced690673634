/**
 Whole runs of the engine: what the tables, the rows and the reported statistics of one sequential
 pass say about the capture, and how the packet rows join the flow rows.
 */
module EngineRuns {
  import opened Addresses
  import opened Integers
  import opened Wrappers
  import opened Pipeline
  import opened RunLoop
  import Flows
  import FlowTableRuns
  import Fragments
  import FragmentRuns
  import StreamRuns
  import Streams

  lemma FoldLast(x: Dissectors, c: Config, s: State, es: seq<Entry>)
    requires es != []
    ensures var (t, rows) := Fold(x, c, s, es[..|es| - 1]);
            var (u, row) := AbsorbOne(x, c, t, es[|es| - 1]);
            Fold(x, c, s, es) == (u, rows + [row])
  {
    assert es[..|es|] == es;
    FoldStep(x, c, s, es, |es| - 1);
  }

  // ---------------------------------------------------------------------------
  // Numbering, batch size, threads
  // ---------------------------------------------------------------------------

  ghost predicate NumberedFrom0(rows: seq<Row>) {
    forall i | 0 <= i < |rows| :: rows[i].packetId == i && rows[i].frameNumber == i + 1
  }

  lemma {:induction false} FoldNumbers(x: Dissectors, c: Config, es: seq<Entry>)
    ensures var (s, rows) := Fold(x, c, START, es);
            |rows| == |es| && NumberedFrom0(rows) && s.nextId == s.stats.packets == |es|
  {
    if es != [] {
      FoldNumbers(x, c, es[..|es| - 1]);
      FoldLast(x, c, START, es);
    }
  }

  lemma RowsAreNumbered(x: Dissectors, c: Config, raws: seq<RawPacket>)
    ensures var (s, rows) := Sequential(x, c, raws);
            |rows| == |raws| && NumberedFrom0(rows) && s.stats.packets == |raws|
  {
    FoldNumbers(x, c, Entries(x, c.reassemble, Records(raws)));
  }

  lemma {:induction false} FoldIgnores(x: Dissectors, c: Config, d: Config, es: seq<Entry>)
    requires d == c.(batchSize := d.batchSize, threads := d.threads)
    ensures Fold(x, d, START, es) == Fold(x, c, START, es)
  {
    if es != [] {
      FoldIgnores(x, c, d, es[..|es| - 1]);
      FoldLast(x, c, START, es);
      FoldLast(x, d, START, es);
    }
  }

  /** Neither batch size nor thread count shows in the rows or in the final state. */
  lemma BatchSizeAndThreadsDoNotMatter(x: Dissectors, c: Config, d: Config, raws: seq<RawPacket>)
    requires d == c.(batchSize := d.batchSize, threads := d.threads)
    ensures Sequential(x, d, raws) == Sequential(x, c, raws)
    ensures Flat(Batches(RowsOf(x, d, raws), Max(d.batchSize, 1))) ==
            Flat(Batches(RowsOf(x, c, raws), Max(c.batchSize, 1)))
  {
    FoldIgnores(x, c, d, Entries(x, c.reassemble, Records(raws)));
    BatchesMean(RowsOf(x, c, raws), Max(c.batchSize, 1));
    BatchesMean(RowsOf(x, d, raws), Max(d.batchSize, 1));
  }

  /** Two runs of one capture, with any batch sizes and thread counts and with sinks of their own. */
  method RunTwice(x: Dissectors, c: Config, d: Config, raws: seq<RawPacket>, badBlocks: nat, mine: Sink, theirs: Sink)
    returns (a: Result<(RunStats, Flows.FlowTable), RunError>, b: Result<(RunStats, Flows.FlowTable), RunError>)
    requires d == c.(batchSize := d.batchSize, threads := d.threads)
    requires mine != theirs && mine.batches == [] && theirs.batches == []
    modifies mine, theirs
    ensures a.Success? && b.Success? ==>
              && Flat(mine.batches) == Flat(theirs.batches)
              && a.value.0 == b.value.0 && a.value.1.Model() == b.value.1.Model()
              && (Max(c.batchSize, 1) == Max(d.batchSize, 1) ==> mine.batches == theirs.batches)
  {
    a := Run(x, c, raws, badBlocks, mine);
    b := Run(x, d, raws, badBlocks, theirs);
    BatchSizeAndThreadsDoNotMatter(x, c, d, raws);
  }

  // ---------------------------------------------------------------------------
  // The tables after a run are those of what was offered to them, in capture order
  // ---------------------------------------------------------------------------

  function OneOrNone<T>(o: Option<T>): seq<T> {
    if o.Some? then [o.value] else []
  }

  /** The conversation a record joins: its own, or the one its reassembled datagram gives. */
  ghost function Joins(x: Dissectors, c: Config, s: State, e: Entry): Option<Tuple> {
    Either(e.d.tuple, Defragmented(x, c, s.frags, e.d).2)
  }

  ghost function FragmentOffered(c: Config, e: Entry): Option<FragmentRuns.Arrival> {
    if c.reassemble && e.d.frag.Some? then Some(FragmentRuns.Arrival(e.d.frag.value.key, FragmentOf(e.d.frag.value)))
    else None
  }

  ghost function SegmentOffered(x: Dissectors, c: Config, s: State, e: Entry): Option<StreamRuns.Arrival> {
    var t := Joins(x, c, s, e);
    if t.None? || SegmentOf(e).None? then None
    else Some(StreamRuns.Arrival(StreamKeyOf(t.value),
                Streams.Segment(SeqNoOf(Defragmented(x, c, s.frags, e.d).1), SegmentOf(e).value)))
  }

  ghost function PacketObserved(x: Dissectors, c: Config, s: State, e: Entry): Option<Flows.Observation> {
    var t := Joins(x, c, s, e);
    if t.None? then None
    else
      var p := Streamed(x, c, s.streams, t.value, Defragmented(x, c, s.frags, e.d).1, e).1;
      Some(ObservationOf(t.value, p, e.o, s.nextId))
  }

  ghost function FragmentsOffered(c: Config, es: seq<Entry>): seq<FragmentRuns.Arrival> {
    if es == [] then []
    else FragmentsOffered(c, es[..|es| - 1]) + OneOrNone(FragmentOffered(c, es[|es| - 1]))
  }

  ghost function SegmentsOffered(x: Dissectors, c: Config, es: seq<Entry>): seq<StreamRuns.Arrival> {
    if es == [] then []
    else SegmentsOffered(x, c, es[..|es| - 1])
         + OneOrNone(SegmentOffered(x, c, Fold(x, c, START, es[..|es| - 1]).0, es[|es| - 1]))
  }

  ghost function PacketsObserved(x: Dissectors, c: Config, es: seq<Entry>): seq<Flows.Observation> {
    if es == [] then []
    else PacketsObserved(x, c, es[..|es| - 1])
         + OneOrNone(PacketObserved(x, c, Fold(x, c, START, es[..|es| - 1]).0, es[|es| - 1]))
  }

  lemma Dropped1<T>(xs: seq<T>, x: T)
    ensures (xs + [x])[..|xs + [x]| - 1] == xs && xs + [] == xs
  {
  }

  lemma {:induction false} FragmentTableIsRun(x: Dissectors, c: Config, es: seq<Entry>)
    ensures Fold(x, c, START, es).0.frags == FragmentRuns.Run(c.frags, Fragments.EMPTY_TABLE, FragmentsOffered(c, es))
  {
    if es != [] {
      var e, tr := es[|es| - 1], FragmentsOffered(c, es[..|es| - 1]);
      FragmentTableIsRun(x, c, es[..|es| - 1]);
      FoldLast(x, c, START, es);
      var a := FragmentOffered(c, e);
      if a.Some? {
        Dropped1(tr, a.value);
      } else {
        assert FragmentsOffered(c, es) == tr;
      }
    }
  }

  predicate Of(m: Option<Fragments.FragMeta>, k: Fragments.FragKey) {
    m.Some? && m.value.key == k
  }

  /** The fragments of `k` among `ms`, in order. */
  function PartsOf(ms: seq<Option<Fragments.FragMeta>>, k: Fragments.FragKey): seq<Fragments.Fragment> {
    if ms == [] then []
    else
      var rest, m := PartsOf(ms[..|ms| - 1], k), ms[|ms| - 1];
      if Of(m, k) then rest + [FragmentOf(m.value)] else rest
  }

  /** As far as `k` goes, the entry is marked `m`. */
  predicate Offers(e: Entry, m: Option<Fragments.FragMeta>, k: Fragments.FragKey) {
    (Of(e.d.frag, k) <==> Of(m, k)) && (Of(m, k) ==> e.d.frag == m)
  }

  ghost predicate AllOffer(es: seq<Entry>, ms: seq<Option<Fragments.FragMeta>>, k: Fragments.FragKey) {
    |es| == |ms| && forall i | 0 <= i < |es| :: Offers(es[i], ms[i], k)
  }

  lemma OneMoreOffered(c: Config, es: seq<Entry>, e: Entry, k: Fragments.FragKey)
    requires c.reassemble
    ensures var before := FragmentRuns.FragmentsOf(FragmentsOffered(c, es), k);
            FragmentRuns.FragmentsOf(FragmentsOffered(c, es + [e]), k) ==
            if Of(e.d.frag, k) then before + [FragmentOf(e.d.frag.value)] else before
  {
    var tr := FragmentsOffered(c, es);
    assert (es + [e])[..|es|] == es;
    if e.d.frag.Some? {
      var a := FragmentRuns.Arrival(e.d.frag.value.key, FragmentOf(e.d.frag.value));
      assert (tr + [a])[..|tr|] == tr;
    } else {
      assert tr + [] == tr;
    }
  }

  lemma {:induction false} OfferedAreParts(c: Config, es: seq<Entry>, ms: seq<Option<Fragments.FragMeta>>,
                                           k: Fragments.FragKey)
    requires c.reassemble && AllOffer(es, ms, k)
    ensures FragmentRuns.FragmentsOf(FragmentsOffered(c, es), k) == PartsOf(ms, k)
  {
    if es != [] {
      var n := |es| - 1;
      OfferedAreParts(c, es[..n], ms[..n], k);
      OneMoreOffered(c, es[..n], es[n], k);
      assert es[..n] + [es[n]] == es;
      assert Offers(es[n], ms[n], k);
    }
  }

  /** What comes of the fragment of a record, once the records before it have been absorbed. */
  ghost function DefragmentedAfter(x: Dissectors, c: Config, es: seq<Entry>, e: Entry): (Packet, Option<Tuple>) {
    var (_, packet, tuple) := Defragmented(x, c, Fold(x, c, START, es).0.frags, e.d);
    (packet, tuple)
  }

  lemma DefragmentedBy(x: Dissectors, c: Config, t: Fragments.Table, d: Dissected, m: Fragments.FragMeta)
    requires c.reassemble && d.frag == Some(m)
    ensures var (_, packet, tuple) := Defragmented(x, c, t, d);
            (packet, tuple) ==
            match Fragments.Offer(c.frags, t, m.key, FragmentOf(m)).1.Delivered()
            case None => (d.packet, None)
            case Some(data) => Redissected(x, m.key, data, d.packet)
  {
  }

  lemma OutcomeOnCompletion(x: Dissectors, c: Config, es: seq<Entry>, e: Entry,
                            ms: seq<Option<Fragments.FragMeta>>, m: Fragments.FragMeta, d: seq<Byte>)
    requires c.reassemble && AllOffer(es, ms, m.key) && e.d.frag == Some(m)
    requires FragmentRuns.AllSlices(PartsOf(ms, m.key) + [FragmentOf(m)], d)
    requires !FragmentRuns.Complete(PartsOf(ms, m.key), d)
    requires Fragments.HeldBytes(PartsOf(ms, m.key) + [FragmentOf(m)]) <= c.frags.maxBytes
    requires FragmentRuns.RoomAtFirst(c.frags, Fragments.EMPTY_TABLE, FragmentsOffered(c, es + [e]), m.key)
    ensures Fragments.Offer(c.frags, Fold(x, c, START, es).0.frags, m.key, FragmentOf(m)).1 ==
            if FragmentRuns.Complete(PartsOf(ms, m.key) + [FragmentOf(m)], d) then Fragments.Completed(d)
            else Fragments.Held
  {
    var tr := FragmentsOffered(c, es);
    OfferedAreParts(c, es, ms, m.key);
    assert (es + [e])[..|es|] == es;
    FragmentTableIsRun(x, c, es);
    FragmentRuns.DeliveredExactlyOnCompletion(c.frags, Fragments.EMPTY_TABLE, tr, m.key, FragmentOf(m), d);
  }

  /**
   If the records' fragments of `k` are slices of `d`, the record that completes them is dissected anew
   with `d`, and one that does not is left as it was.
   */
  lemma RedissectedOnCompletion(x: Dissectors, c: Config, es: seq<Entry>, e: Entry,
                                ms: seq<Option<Fragments.FragMeta>>, m: Fragments.FragMeta, d: seq<Byte>)
    requires c.reassemble && AllOffer(es, ms, m.key) && e.d.frag == Some(m)
    requires FragmentRuns.AllSlices(PartsOf(ms, m.key) + [FragmentOf(m)], d)
    requires !FragmentRuns.Complete(PartsOf(ms, m.key), d)
    requires Fragments.HeldBytes(PartsOf(ms, m.key) + [FragmentOf(m)]) <= c.frags.maxBytes
    requires FragmentRuns.RoomAtFirst(c.frags, Fragments.EMPTY_TABLE, FragmentsOffered(c, es + [e]), m.key)
    ensures DefragmentedAfter(x, c, es, e) ==
            if FragmentRuns.Complete(PartsOf(ms, m.key) + [FragmentOf(m)], d)
            then Redissected(x, m.key, d, e.d.packet) else (e.d.packet, None)
  {
    OutcomeOnCompletion(x, c, es, e, ms, m, d);
    DefragmentedBy(x, c, Fold(x, c, START, es).0.frags, e.d, m);
  }

  lemma {:induction false} StreamTableIsRun(x: Dissectors, c: Config, es: seq<Entry>)
    ensures Fold(x, c, START, es).0.streams == StreamRuns.Run(c.streams, SegmentsOffered(x, c, es))
  {
    if es != [] {
      var e, tr, s := es[|es| - 1], SegmentsOffered(x, c, es[..|es| - 1]), Fold(x, c, START, es[..|es| - 1]).0;
      StreamTableIsRun(x, c, es[..|es| - 1]);
      FoldLast(x, c, START, es);
      var a := SegmentOffered(x, c, s, e);
      if a.Some? {
        Dropped1(tr, a.value);
      } else {
        assert SegmentsOffered(x, c, es) == tr;
      }
    }
  }

  lemma {:induction false} FlowTableIsRun(x: Dissectors, c: Config, es: seq<Entry>)
    ensures Fold(x, c, START, es).0.flows == FlowTableRuns.Run(c.maxFlows, PacketsObserved(x, c, es))
  {
    if es != [] {
      var e, tr, s := es[|es| - 1], PacketsObserved(x, c, es[..|es| - 1]), Fold(x, c, START, es[..|es| - 1]).0;
      FlowTableIsRun(x, c, es[..|es| - 1]);
      FoldLast(x, c, START, es);
      var a := PacketObserved(x, c, s, e);
      if a.Some? {
        Dropped1(tr, a.value);
      } else {
        assert PacketsObserved(x, c, es) == tr;
      }
    }
  }

  /** The byte and set budgets hold after every record. */
  lemma CapsHoldThroughout(x: Dissectors, c: Config, es: seq<Entry>)
    ensures FragmentRuns.WithinCaps(c.frags, Fold(x, c, START, es).0.frags)
    ensures StreamRuns.TableWithinCaps(c.streams, Fold(x, c, START, es).0.streams)
  {
    FragmentTableIsRun(x, c, es);
    StreamTableIsRun(x, c, es);
    FragmentRuns.Conservation(c.frags, FragmentsOffered(c, es));
    StreamRuns.CapsHold(c.streams, SegmentsOffered(x, c, es));
  }

  /**
   The reported drops and completions account for every datagram begun and every fragment refused
   exactly when none is still pending at the end of the capture.
   */
  lemma ReportedDropsIff(x: Dissectors, c: Config, es: seq<Entry>, badBlocks: nat)
    ensures var s := Fold(x, c, START, es).0;
            var r, n := Finalized(s, badBlocks), FragmentRuns.Tallied(c.frags, FragmentsOffered(c, es));
            && r.fragmentsReassembled + r.fragmentsDropped + |s.frags.open| == n.begun + n.refused
            && (r.fragmentsReassembled + r.fragmentsDropped == n.begun + n.refused <==> s.frags.open == map[])
  {
    FragmentTableIsRun(x, c, es);
    FragmentRuns.Conservation(c.frags, FragmentsOffered(c, es));
    var open := Fold(x, c, START, es).0.frags.open;
    assert |open| == 0 <==> open == map[];
  }

  // ---------------------------------------------------------------------------
  // Packet rows and flow rows
  // ---------------------------------------------------------------------------

  predicate Tagged(r: Row, id: nat, c2s: bool) {
    r.tag.Some? && r.tag.value.flowId == id && r.tag.value.c2s == c2s
  }

  function CountTagged(rows: seq<Row>, id: nat, c2s: bool): nat {
    if rows == [] then 0
    else CountTagged(rows[..|rows| - 1], id, c2s) + if Tagged(rows[|rows| - 1], id, c2s) then 1 else 0
  }

  function Untagged(rows: seq<Row>): nat {
    if rows == [] then 0 else Untagged(rows[..|rows| - 1]) + if rows[|rows| - 1].tag.None? then 1 else 0
  }

  ghost predicate Referenced(t: Flows.Table, tag: Flows.FlowTag) {
    exists k :: k in t.flows && t.flows[k].id == tag.flowId && t.flows[k].communityId == tag.communityId
  }

  /** Every flow row counts exactly the packet rows that carry its id, each way. */
  ghost predicate Counts(f: Flows.Flow, rows: seq<Row>) {
    && f.stats.c2s.packets == CountTagged(rows, f.id, true)
    && f.stats.s2c.packets == CountTagged(rows, f.id, false)
  }

  ghost predicate Agree(t: Flows.Table, rows: seq<Row>) {
    && Flows.Numbered(t)
    && (forall k | k in t.flows :: Counts(t.flows[k], rows))
    && (forall i | 0 <= i < |rows| && rows[i].tag.Some? :: Referenced(t, rows[i].tag.value))
  }

  lemma {:induction false} UnusedId(t: Flows.Table, rows: seq<Row>, id: nat, c2s: bool)
    requires forall i | 0 <= i < |rows| && rows[i].tag.Some? :: Referenced(t, rows[i].tag.value)
    requires forall k | k in t.flows :: t.flows[k].id != id
    ensures CountTagged(rows, id, c2s) == 0
  {
    if rows != [] {
      var init := rows[..|rows| - 1];
      assert forall i | 0 <= i < |init| :: init[i] == rows[i];
      UnusedId(t, init, id, c2s);
    }
  }

  lemma ReferencedAfter(max: nat, t: Flows.Table, o: Flows.Observation, tag: Flows.FlowTag)
    requires Referenced(t, tag)
    ensures Referenced(Flows.Observed(max, t, o).0, tag)
  {
    var u := Flows.Observed(max, t, o).0;
    var k :| k in t.flows && t.flows[k].id == tag.flowId && t.flows[k].communityId == tag.communityId;
    assert k in u.flows && u.flows[k].id == t.flows[k].id && u.flows[k].communityId == t.flows[k].communityId;
  }

  lemma NumberedAfter(max: nat, t: Flows.Table, o: Flows.Observation)
    requires Flows.Numbered(t)
    ensures Flows.Numbered(Flows.Observed(max, t, o).0)
  {
    var u, key := Flows.Observed(max, t, o).0, o.tuple.Key();
    forall j, k | j in u.flows && k in u.flows && u.flows[j].id == u.flows[k].id ensures j == k {
      assert j != key ==> u.flows[j] == t.flows[j];
      assert k != key ==> u.flows[k] == t.flows[k];
    }
  }

  lemma RowsAfter(max: nat, t: Flows.Table, o: Flows.Observation, rows: seq<Row>, row: Row)
    requires Agree(t, rows) && row.tag == Flows.Observed(max, t, o).1
    ensures Agree(Flows.Observed(max, t, o).0, rows + [row])
  {
    var u, key, all := Flows.Observed(max, t, o).0, o.tuple.Key(), rows + [row];
    assert all[..|rows|] == rows;
    NumberedAfter(max, t, o);
    forall k | k in u.flows ensures Counts(u.flows[k], all) {
      if k in t.flows {
        assert Counts(t.flows[k], rows) && u.flows[k].id == t.flows[k].id;
        assert k != key && key in t.flows ==> t.flows[k].id != t.flows[key].id;
      } else {
        UnusedId(t, rows, u.flows[k].id, true);
        UnusedId(t, rows, u.flows[k].id, false);
      }
    }
    forall i | 0 <= i < |all| && all[i].tag.Some? ensures Referenced(u, all[i].tag.value) {
      if i < |rows| {
        ReferencedAfter(max, t, o, rows[i].tag.value);
      } else {
        assert u.flows[key].id == row.tag.value.flowId && u.flows[key].communityId == row.tag.value.communityId;
      }
    }
  }

  lemma UntaggedAgree(t: Flows.Table, rows: seq<Row>, row: Row)
    requires Agree(t, rows) && row.tag.None?
    ensures Agree(t, rows + [row])
  {
    var all := rows + [row];
    assert all[..|rows|] == rows;
    forall k | k in t.flows ensures Counts(t.flows[k], all) {
      assert Counts(t.flows[k], rows);
    }
  }

  /** Grouping the packet rows by flow id gives back the counters of the flow rows. */
  lemma {:induction false} RowsAgreeWithFlows(x: Dissectors, c: Config, es: seq<Entry>)
    ensures Agree(Fold(x, c, START, es).0.flows, Fold(x, c, START, es).1)
  {
    if es != [] {
      var (s, rows) := Fold(x, c, START, es[..|es| - 1]);
      var e := es[|es| - 1];
      RowsAgreeWithFlows(x, c, es[..|es| - 1]);
      FoldLast(x, c, START, es);
      var o := PacketObserved(x, c, s, e);
      var row := AbsorbOne(x, c, s, e).1;
      if o.Some? {
        RowsAfter(c.maxFlows, s.flows, o.value, rows, row);
      } else {
        UntaggedAgree(s.flows, rows, row);
      }
    }
  }

  ghost function WithoutTuple(x: Dissectors, c: Config, es: seq<Entry>): nat {
    if es == [] then 0
    else WithoutTuple(x, c, es[..|es| - 1]) +
         if Joins(x, c, Fold(x, c, START, es[..|es| - 1]).0, es[|es| - 1]).None? then 1 else 0
  }

  lemma {:induction false} UntaggedAre(x: Dissectors, c: Config, es: seq<Entry>)
    ensures Untagged(Fold(x, c, START, es).1) == Fold(x, c, START, es).0.flows.evicted + WithoutTuple(x, c, es)
    ensures |PacketsObserved(x, c, es)| + WithoutTuple(x, c, es) == |es|
  {
    if es != [] {
      var (s, rows) := Fold(x, c, START, es[..|es| - 1]);
      UntaggedAre(x, c, es[..|es| - 1]);
      FoldLast(x, c, START, es);
      Dropped1(rows, AbsorbOne(x, c, s, es[|es| - 1]).1);
    }
  }

  /** Conservation: every packet is in a flow row, evicted, or of no conversation. */
  lemma EveryPacketAccounted(x: Dissectors, c: Config, es: seq<Entry>)
    ensures var (s, rows) := Fold(x, c, START, es);
            var ks := FlowTableRuns.Admitted(c.maxFlows, PacketsObserved(x, c, es));
            && (forall k | k in ks :: k in s.flows.flows)
            && s.stats.packets == |es|
               == FlowTableRuns.SumPackets(s.flows, ks) + s.flows.evicted + WithoutTuple(x, c, es)
            && Untagged(rows) == s.flows.evicted + WithoutTuple(x, c, es)
  {
    FlowTableIsRun(x, c, es);
    FlowTableRuns.EveryPacketCounted(c.maxFlows, PacketsObserved(x, c, es));
    UntaggedAre(x, c, es);
    FoldNumbers(x, c, es);
  }

  // ---------------------------------------------------------------------------
  // Reported times
  // ---------------------------------------------------------------------------

  predicate Timed(e: Entry) {
    e.o.raw.ts != 0
  }

  ghost predicate Bounds(es: seq<Entry>, lo: int, hi: int) {
    && (forall e | e in es && Timed(e) :: lo <= e.o.raw.ts <= hi)
    && (exists e :: e in es && Timed(e) && e.o.raw.ts == lo)
    && (exists e :: e in es && Timed(e) && e.o.raw.ts == hi)
  }

  ghost predicate Spans(es: seq<Entry>, lo: int, hi: int) {
    if forall e | e in es :: !Timed(e) then lo == I64_MAX && hi == I64_MIN else Bounds(es, lo, hi)
  }

  lemma SpansAfter(es: seq<Entry>, lo: int, hi: int, e: Entry)
    requires Spans(es, lo, hi)
    ensures if Timed(e) then Spans(es + [e], Min(lo, e.o.raw.ts), Max(hi, e.o.raw.ts)) else Spans(es + [e], lo, hi)
  {
    var all := es + [e];
    assert e in all && forall d :: d in all <==> d in es || d == e;
  }

  lemma {:induction false} TimesSoFar(x: Dissectors, c: Config, es: seq<Entry>)
    ensures var r := Fold(x, c, START, es).0.stats;
            Spans(es, r.firstTs, r.lastTs)
  {
    if es != [] {
      var init, e := es[..|es| - 1], es[|es| - 1];
      TimesSoFar(x, c, init);
      FoldLast(x, c, START, es);
      var r := Fold(x, c, START, init).0.stats;
      SpansAfter(init, r.firstTs, r.lastTs, e);
      assert es == init + [e];
    }
  }

  /**
   The reported interval spans the non-zero timestamps, unless there is none but the largest
   representable one, the value that marks "no timestamp seen"; then it is empty.
   */
  lemma ReportedInterval(x: Dissectors, c: Config, es: seq<Entry>, badBlocks: nat)
    ensures var r := Finalized(Fold(x, c, START, es).0, badBlocks);
            if exists e :: e in es && Timed(e) && e.o.raw.ts != I64_MAX then Bounds(es, r.firstTs, r.lastTs)
            else r.firstTs == 0 && r.lastTs == 0
  {
    TimesSoFar(x, c, es);
  }
}
