/**
 The run loop (`run` of rust/src/pipeline.rs): a reused buffer of slots, batches handed out as they
 fill, and the first refusal ending the run. It is proved to hand out one sequential pass over the
 capture, cut into batches: neither batch size nor schedule nor stale slots show in the rows.
 */
module RunLoop {
  import opened Integers
  import opened Wrappers
  import opened Pipeline
  import Flows

  // ---------------------------------------------------------------------------
  // Cutting rows into batches
  // ---------------------------------------------------------------------------

  function Batches(rows: seq<Row>, b: nat): seq<seq<Row>>
    requires b > 0
  {
    if rows == [] then []
    else if |rows| <= b then [rows]
    else [rows[..b]] + Batches(rows[b..], b)
  }

  predicate AllFull(bs: seq<seq<Row>>, b: nat) {
    forall k | 0 <= k < |bs| :: |bs[k]| == b
  }

  function Flat(bs: seq<seq<Row>>): seq<Row> {
    if bs == [] then [] else bs[0] + Flat(bs[1..])
  }

  /** No row is lost, repeated or moved; no batch is empty; all but the last are full. */
  lemma {:induction false} BatchesMean(rows: seq<Row>, b: nat)
    requires b > 0
    ensures Flat(Batches(rows, b)) == rows
    ensures forall k | 0 <= k < |Batches(rows, b)| :: 0 < |Batches(rows, b)[k]| <= b
    ensures forall k | 0 <= k < |Batches(rows, b)| - 1 :: |Batches(rows, b)[k]| == b
  {
    if |rows| > b {
      BatchesMean(rows[b..], b);
      assert Batches(rows, b)[1..] == Batches(rows[b..], b);
      forall k | 0 < k < |Batches(rows, b)| ensures Batches(rows, b)[k] == Batches(rows[b..], b)[k - 1] {
      }
    } else if rows != [] {
      assert Batches(rows, b)[1..] == [];
    }
  }

  lemma {:induction false} CutFurther(xs: seq<Row>, ys: seq<Row>, b: nat)
    requires b > 0 && AllFull(Batches(xs, b), b)
    ensures Batches(xs + ys, b) == Batches(xs, b) + Batches(ys, b)
  {
    if xs == [] {
      assert xs + ys == ys;
    } else if |xs| <= b {
      assert |Batches(xs, b)[0]| == b;
      assert ys == [] ==> xs + ys == xs;
      assert (xs + ys)[..b] == xs && (xs + ys)[b..] == ys;
    } else {
      var rest := xs[b..];
      assert forall k | 0 <= k < |Batches(rest, b)| :: Batches(rest, b)[k] == Batches(xs, b)[k + 1];
      CutFurther(rest, ys, b);
      assert (xs + ys)[..b] == xs[..b] && (xs + ys)[b..] == rest + ys;
    }
  }

  lemma OneBatch(rows: seq<Row>, b: nat)
    requires 0 < |rows| <= b
    ensures Batches(rows, b) == [rows]
  {
  }

  // ---------------------------------------------------------------------------
  // Folding in pieces
  // ---------------------------------------------------------------------------

  /** A run in two pieces is one run. */
  lemma {:induction false} MachineConcat<S, E, R>(step: (S, E) -> (S, R), s: S, es: seq<E>, fs: seq<E>)
    ensures var (t, u) := (Machine(step, s, es), Machine(step, Machine(step, s, es).0, fs));
            Machine(step, s, es + fs) == (u.0, t.1 + u.1) && |u.1| == |fs|
  {
    if fs == [] {
      assert es + fs == es && Machine(step, s, es).1 + [] == Machine(step, s, es).1;
    } else {
      var n := |fs| - 1;
      MachineConcat(step, s, es, fs[..n]);
      MachineStep(step, Machine(step, s, es).0, fs, n);
      MachineStep(step, s, es + fs, |es| + n);
      assert fs[..n + 1] == fs && (es + fs)[..|es| + n + 1] == es + fs;
      assert (es + fs)[..|es| + n] == es + fs[..n] && (es + fs)[|es| + n] == fs[n];
      var rs, more := Machine(step, s, es).1, Machine(step, Machine(step, s, es).0, fs[..n]);
      var r := step(more.0, fs[n]).1;
      assert (rs + more.1) + [r] == rs + (more.1 + [r]);
    }
  }

  // ---------------------------------------------------------------------------
  // Handing batches over
  // ---------------------------------------------------------------------------

  /** `on_batch`: it may refuse, depending on everything handed to it so far. */
  class Sink {
    const accepts: seq<seq<Row>> -> bool
    var batches: seq<seq<Row>>

    constructor (accepts: seq<seq<Row>> -> bool)
      ensures this.accepts == accepts && batches == []
    {
      this.accepts := accepts;
      batches := [];
    }

    method OnBatch(b: seq<Row>) returns (ok: bool)
      modifies this
      ensures batches == old(batches) + [b] && ok == accepts(batches)
    {
      batches := batches + [b];
      ok := accepts(batches);
    }
  }

  /** Every batch but the last was accepted, and the last one says whether the run goes on. */
  ghost predicate HandedOver(accepts: seq<seq<Row>> -> bool, bs: seq<seq<Row>>, refused: bool) {
    && (forall k | 0 < k < |bs| :: accepts(bs[..k]))
    && (refused ==> bs != [])
    && (bs != [] ==> accepts(bs) == !refused)
  }

  lemma HandOneMore(accepts: seq<seq<Row>> -> bool, bs: seq<seq<Row>>, b: seq<Row>)
    requires HandedOver(accepts, bs, false)
    ensures HandedOver(accepts, bs + [b], !accepts(bs + [b]))
  {
    var all := bs + [b];
    forall k | 0 < k < |all| ensures accepts(all[..k]) {
      assert all[..k] == if k < |bs| then bs[..k] else bs;
    }
  }

  datatype RunError = Callback

  /** The rows of a capture, one pass. */
  ghost function RowsOf(x: Dissectors, c: Config, raws: seq<RawPacket>): seq<Row> {
    Sequential(x, c, raws).1
  }

  /** The state and rows of `more`, picking up where `raws` left off. */
  ghost function Resumed(x: Dissectors, c: Config, raws: seq<RawPacket>, more: seq<RawPacket>): (State, seq<Row>) {
    Fold(x, c, Sequential(x, c, raws).0, Entries(x, c.reassemble, Records(more)))
  }

  lemma SequentialConcat(x: Dissectors, c: Config, raws: seq<RawPacket>, more: seq<RawPacket>)
    ensures var (t, tail) := Resumed(x, c, raws, more);
            Sequential(x, c, raws + more) == (t, RowsOf(x, c, raws) + tail) && |tail| == |more|
  {
    var es, fs := Entries(x, c.reassemble, Records(raws)), Entries(x, c.reassemble, Records(more));
    assert Entries(x, c.reassemble, Records(raws + more)) == es + fs;
    MachineConcat((t, e) => AbsorbOne(x, c, t, e), START, es, fs);
  }

  /** The slots hold the records read since `done`. */
  ghost predicate Holds(chunk: seq<Owned>, raws: seq<RawPacket>)
    requires |raws| <= |chunk|
    reads chunk
  {
    forall i | 0 <= i < |raws| :: chunk[i].View() == Copied(raws[i])
  }

  predicate Separate(chunk: seq<Owned>) {
    forall i, j | 0 <= i < j < |chunk| :: chunk[i] != chunk[j]
  }

  lemma HoldsViews(chunk: seq<Owned>, raws: seq<RawPacket>)
    requires |raws| <= |chunk| && Holds(chunk, raws)
    ensures Views(chunk[..|raws|]) == Records(raws)
  {
  }

  /** Put a record in the next slot, making one if the buffer has never been this full. */
  method Buffer(chunk0: seq<Owned>, filled: nat, raw: RawPacket, ghost held: seq<RawPacket>) returns (chunk: seq<Owned>)
    requires filled == |held| <= |chunk0| && Holds(chunk0, held) && Separate(chunk0)
    modifies chunk0
    ensures filled < |chunk| && Separate(chunk) && Holds(chunk, held + [raw])
    ensures forall i | 0 <= i < |chunk| :: if i < |chunk0| then chunk[i] == chunk0[i] else fresh(chunk[i])
  {
    chunk := chunk0;
    if filled == |chunk| {
      var slot := new Owned();
      chunk := chunk + [slot];
    }
    assert forall i | 0 <= i < filled :: chunk[i] == chunk0[i] && chunk[i] != chunk[filled];
    chunk[filled].Fill(raw);
  }

  /** What has been handed out is the sequential rows of the records in `done`, in full batches. */
  ghost predicate Handed(x: Dissectors, c: Config, b: nat, done: seq<RawPacket>, bs: seq<seq<Row>>)
    requires b > 0
  {
    bs == Batches(RowsOf(x, c, done), b) && AllFull(bs, b)
  }

  lemma HandedPrefix(x: Dissectors, c: Config, b: nat, done: seq<RawPacket>, bs: seq<seq<Row>>, raws: seq<RawPacket>)
    requires b > 0 && Handed(x, c, b, done, bs) && done <= raws
    ensures bs <= Batches(RowsOf(x, c, raws), b)
  {
    var more := raws[|done|..];
    assert raws == done + more;
    SequentialConcat(x, c, done, more);
    CutFurther(RowsOf(x, c, done), Resumed(x, c, done, more).1, b);
  }

  /** One more chunk, full or not, is one more batch. */
  lemma HandedMore(x: Dissectors, c: Config, b: nat, done: seq<RawPacket>, bs: seq<seq<Row>>, held: seq<RawPacket>)
    requires b > 0 && Handed(x, c, b, done, bs) && |held| <= b
    ensures var batch := Resumed(x, c, done, held).1;
            && |batch| == |held|
            && Batches(RowsOf(x, c, done + held), b) == (if held == [] then bs else bs + [batch])
            && (|held| == b ==> Handed(x, c, b, done + held, bs + [batch]))
  {
    SequentialConcat(x, c, done, held);
    var batch := Resumed(x, c, done, held).1;
    CutFurther(RowsOf(x, c, done), batch, b);
    if held != [] {
      OneBatch(batch, b);
    }
  }

  /** Dissect and absorb the filled part of the buffer, and take the batch. */
  method FlushChunk(engine: Engine, builder: WideBuilder, slice: seq<Owned>,
                    ghost done: seq<RawPacket>, ghost held: seq<RawPacket>)
    returns (batch: seq<Row>)
    requires engine.Valid() && builder.rows == [] && Views(slice) == Records(held)
    requires engine.View() == Sequential(engine.x, engine.cfg, done).0
    modifies engine, engine.flows, engine.streams, engine.frags, builder
    ensures engine.Valid() && builder.rows == []
    ensures engine.View() == Sequential(engine.x, engine.cfg, done + held).0
    ensures batch == Resumed(engine.x, engine.cfg, done, held).1
  {
    SequentialConcat(engine.x, engine.cfg, done, held);
    var ds := DissectChunk(engine.x, engine.cfg.threads, slice, engine.cfg.reassemble);
    engine.Absorb(slice, ds, builder);
    batch := builder.Finish();
    assert batch == [] + batch;
  }

  method HandOver(sink: Sink, batch: seq<Row>) returns (ok: bool)
    requires HandedOver(sink.accepts, sink.batches, false)
    modifies sink
    ensures sink.batches == old(sink.batches) + if batch == [] then [] else [batch]
    ensures HandedOver(sink.accepts, sink.batches, !ok)
  {
    ok := true;
    if |batch| > 0 {
      HandOneMore(sink.accepts, sink.batches, batch);
      ok := sink.OnBatch(batch);
    }
  }

  lemma Prefixes<T>(xs: seq<T>, n: nat)
    requires n <= |xs|
    ensures n < |xs| ==> xs[..n + 1] == xs[..n] + [xs[n]]
    ensures xs[..|xs|] == xs
  {
  }

  /**
   Between two records: `done` has been handed out, `held` waits in the first `filled` slots, and
   nothing more happens once a batch was refused.
   */
  ghost predicate Reading(engine: Engine, builder: WideBuilder, sink: Sink, chunk: seq<Owned>, b: nat,
                          done: seq<RawPacket>, held: seq<RawPacket>, failed: bool)
    requires b > 0
    reads engine, engine.flows, engine.streams, engine.frags, builder, sink, chunk
  {
    && engine.Valid() && builder.rows == [] && Separate(chunk)
    && |held| < b && |held| <= |chunk| && Holds(chunk, held)
    && engine.View() == Sequential(engine.x, engine.cfg, done).0
    && Handed(engine.x, engine.cfg, b, done, sink.batches) && HandedOver(sink.accepts, sink.batches, failed)
  }

  /** What the reader does with each record: buffer it, and flush a full buffer. */
  method OnRecord(engine: Engine, builder: WideBuilder, sink: Sink, chunk0: seq<Owned>, filled0: nat, b: nat,
                  raw: RawPacket, ghost done0: seq<RawPacket>, ghost held0: seq<RawPacket>)
    returns (chunk: seq<Owned>, filled: nat, failed: bool, ghost done: seq<RawPacket>, ghost held: seq<RawPacket>)
    requires b > 0 && filled0 == |held0| && Reading(engine, builder, sink, chunk0, b, done0, held0, false)
    modifies engine, engine.flows, engine.streams, engine.frags, builder, sink, chunk0
    ensures filled == |held| && Reading(engine, builder, sink, chunk, b, done, held, failed)
    ensures done + held == done0 + held0 + [raw]
    ensures forall i | 0 <= i < |chunk| :: if i < |chunk0| then chunk[i] == chunk0[i] else fresh(chunk[i])
  {
    chunk := Buffer(chunk0, filled0, raw, held0);
    filled, failed := filled0 + 1, false;
    done, held := done0, held0 + [raw];
    assert done + held == done0 + held0 + [raw];
    if filled >= b {
      failed := FlushFull(engine, builder, sink, chunk, b, done, held);
      filled := 0;
      done, held := done + held, [];
      assert done + held == done;
    }
  }

  /** A full buffer becomes a batch. */
  method FlushFull(engine: Engine, builder: WideBuilder, sink: Sink, chunk: seq<Owned>, b: nat,
                   ghost done: seq<RawPacket>, ghost held: seq<RawPacket>) returns (failed: bool)
    requires engine.Valid() && builder.rows == [] && Separate(chunk) && 0 < b == |held| <= |chunk| && Holds(chunk, held)
    requires engine.View() == Sequential(engine.x, engine.cfg, done).0
    requires Handed(engine.x, engine.cfg, b, done, sink.batches) && HandedOver(sink.accepts, sink.batches, false)
    modifies engine, engine.flows, engine.streams, engine.frags, builder, sink
    ensures Reading(engine, builder, sink, chunk, b, done + held, [], failed)
  {
    HoldsViews(chunk, held);
    HandedMore(engine.x, engine.cfg, b, done, sink.batches, held);
    var batch := FlushChunk(engine, builder, chunk[..b], done, held);
    var ok := HandOver(sink, batch);
    failed := !ok;
  }

  /**
   Run a capture end to end. The batches handed out are a prefix of the sequential rows cut every
   `max(1, batchSize)`, all of them unless one is refused; then that one is the last.
   */
  method Run(x: Dissectors, cfg: Config, raws: seq<RawPacket>, badBlocks: nat, sink: Sink)
    returns (r: Result<(RunStats, Flows.FlowTable), RunError>)
    requires sink.batches == []
    modifies sink
    ensures sink.batches <= Batches(RowsOf(x, cfg, raws), Max(cfg.batchSize, 1))
    ensures HandedOver(sink.accepts, sink.batches, r.Failure?)
    ensures r.Success? ==>
              && sink.batches == Batches(RowsOf(x, cfg, raws), Max(cfg.batchSize, 1))
              && r.value.0 == Finalized(Sequential(x, cfg, raws).0, badBlocks)
              && r.value.1.Model() == Sequential(x, cfg, raws).0.flows
  {
    var engine := new Engine(x, cfg);
    var builder := new WideBuilder();
    var chunk: seq<Owned> := [];
    var filled := 0;
    var failed := false;
    var b := Max(cfg.batchSize, 1);
    ghost var done: seq<RawPacket>, held: seq<RawPacket> := [], [];
    for n := 0 to |raws|
      invariant forall i | 0 <= i < |chunk| :: fresh(chunk[i])
      invariant filled == |held| && Reading(engine, builder, sink, chunk, b, done, held, failed)
      invariant if failed then done <= raws[..n] else raws[..n] == done + held
    {
      Prefixes(raws, n);
      if !failed {
        chunk, filled, failed, done, held := OnRecord(engine, builder, sink, chunk, filled, b, raws[n], done, held);
      }
    }
    Prefixes(raws, |raws|);
    if failed {
      HandedPrefix(x, cfg, b, done, sink.batches, raws);
      return Failure(Callback);
    }
    r := Conclude(engine, builder, sink, chunk, filled, b, badBlocks, done, held);
  }

  /** After the last record: flush what is left, settle the statistics, hand the tail over. */
  method Conclude(engine: Engine, builder: WideBuilder, sink: Sink, chunk: seq<Owned>, filled: nat, b: nat,
                  badBlocks: nat, ghost done: seq<RawPacket>, ghost held: seq<RawPacket>)
    returns (r: Result<(RunStats, Flows.FlowTable), RunError>)
    requires b > 0 && filled == |held| && Reading(engine, builder, sink, chunk, b, done, held, false)
    modifies engine, engine.flows, engine.streams, engine.frags, builder, sink
    ensures sink.batches == Batches(RowsOf(engine.x, engine.cfg, done + held), b)
    ensures HandedOver(sink.accepts, sink.batches, r.Failure?)
    ensures r.Success? ==>
              && r.value.0 == Finalized(Sequential(engine.x, engine.cfg, done + held).0, badBlocks)
              && r.value.1.Model() == Sequential(engine.x, engine.cfg, done + held).0.flows
  {
    HandedMore(engine.x, engine.cfg, b, done, sink.batches, held);
    var tail := [];
    if filled > 0 {
      HoldsViews(chunk, held);
      tail := FlushChunk(engine, builder, chunk[..filled], done, held);
    } else {
      assert done + held == done;
    }
    engine.FinalizeStats(badBlocks);
    var ok := HandOver(sink, tail);
    if !ok {
      return Failure(Callback);
    }
    return Success((engine.stats, engine.flows));
  }
}
