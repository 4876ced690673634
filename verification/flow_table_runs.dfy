/**
 Whole runs of the flow table: it refines the trace, accounts for every packet, merges like
 concatenation, and its TCP state only moves forward, with "client" meaning the lower endpoint.
 */
module FlowTableRuns {
  import opened Addresses
  import opened Flows
  import opened FlowRuns
  import opened Integers
  import opened Wrappers

  function Run(max: nat, tr: Trace): Table {
    if tr == [] then EMPTY_TABLE else Observed(max, Run(max, tr[..|tr| - 1]), tr[|tr| - 1]).0
  }

  // ---------------------------------------------------------------------------
  // Which conversations a trace holds, and in what order they first appear
  // ---------------------------------------------------------------------------

  function OfKey(tr: Trace, k: Tuple): Trace {
    if tr == [] then []
    else
      var rest := OfKey(tr[..|tr| - 1], k);
      if tr[|tr| - 1].tuple.Key() == k then rest + [tr[|tr| - 1]] else rest
  }

  /** The canonical tuples of a trace in order of first appearance. */
  function Distinct(tr: Trace): seq<Tuple> {
    if tr == [] then []
    else
      var ks := Distinct(tr[..|tr| - 1]);
      var k := tr[|tr| - 1].tuple.Key();
      if k in ks then ks else ks + [k]
  }

  /** The conversations that get a row: the first `max` of them. */
  function Admitted(max: nat, tr: Trace): seq<Tuple> {
    Distinct(tr)[..Min(max, |Distinct(tr)|)]
  }

  /** Packets of conversations not among `ks`. */
  function Outside(tr: Trace, ks: seq<Tuple>): nat {
    if tr == [] then 0
    else Outside(tr[..|tr| - 1], ks) + if tr[|tr| - 1].tuple.Key() in ks then 0 else 1
  }

  function ServiceOf(tr: Trace): Option<string> {
    if tr == [] then None else Upgraded(ServiceOf(tr[..|tr| - 1]), tr[|tr| - 1].highestLayer)
  }

  ghost predicate NoRepeats(ks: seq<Tuple>) {
    forall i, j | 0 <= i < j < |ks| :: ks[i] != ks[j]
  }

  lemma {:induction false} DistinctMeans(tr: Trace)
    ensures NoRepeats(Distinct(tr))
    ensures forall k :: k in Distinct(tr) <==> OfKey(tr, k) != []
  {
    if tr != [] {
      DistinctMeans(tr[..|tr| - 1]);
    }
  }

  // ---------------------------------------------------------------------------
  // The table refines the trace
  // ---------------------------------------------------------------------------

  /** Everything a row says but its id. */
  predicate RowIs(f: Flow, k: Tuple, tr: Trace) {
    && tr != []
    && f.key == k
    && f.communityId == Preimage(k, COMMUNITY_ID_SEED)
    && f.service == ServiceOf(tr)
    && f.stats == Summary(tr)
  }

  ghost predicate Rows(t: Table, tr: Trace) {
    forall k | k in t.flows :: RowIs(t.flows[k], k, OfKey(tr, k))
  }

  /** The rows are those of `ks`, numbered from 1 in that order. */
  ghost predicate Ids(t: Table, ks: seq<Tuple>) {
    && (forall k :: k in t.flows <==> k in ks)
    && (forall i | 0 <= i < |ks| :: t.flows[ks[i]].id == i + 1)
    && |t.flows| == |ks|
    && t.nextId == |ks| + 1
  }

  ghost predicate Refines(max: nat, t: Table, tr: Trace) {
    && Rows(t, tr)
    && Ids(t, Admitted(max, tr))
    && t.evicted == Outside(tr, Admitted(max, tr))
  }

  lemma SizeAfter(m: map<Tuple, Flow>, k: Tuple, f: Flow)
    ensures |m[k := f]| == if k in m then |m| else |m| + 1
  {
    assert m[k := f].Keys == m.Keys + {k};
    if k in m {
      assert m.Keys + {k} == m.Keys;
    }
  }

  lemma OfKeyStep(tr: Trace, o: Observation, k: Tuple)
    ensures OfKey(tr + [o], k) == if o.tuple.Key() == k then OfKey(tr, k) + [o] else OfKey(tr, k)
  {
    assert (tr + [o])[..|tr|] == tr;
  }

  lemma RowTakesPacket(f: Flow, k: Tuple, tr: Trace, o: Observation)
    requires RowIs(f, k, tr)
    ensures RowIs(Updated(f, o), k, tr + [o])
  {
    SummaryStep(f, tr, o);
    assert (tr + [o])[..|tr|] == tr;
  }

  lemma RowOpens(o: Observation, id: nat)
    ensures RowIs(Updated(Opened(o, id), o), o.tuple.Key(), [o])
  {
    assert [o][..0] == [];
  }

  /** Every row still says what its packets say. */
  lemma RowsAfter(max: nat, t: Table, tr: Trace, o: Observation)
    requires Rows(t, tr)
    requires o.tuple.Key() !in t.flows && |t.flows| < max ==> OfKey(tr, o.tuple.Key()) == []
    ensures Rows(Observed(max, t, o).0, tr + [o])
  {
    var u := Observed(max, t, o).0;
    forall k | k in u.flows ensures RowIs(u.flows[k], k, OfKey(tr + [o], k)) {
      OfKeyStep(tr, o, k);
      if k != o.tuple.Key() {
        assert u.flows[k] == t.flows[k];
      } else if k in t.flows {
        RowTakesPacket(t.flows[k], k, OfKey(tr, k), o);
      } else {
        RowOpens(o, t.nextId);
        assert [] + [o] == [o];
      }
    }
  }

  lemma KnownKeepsIds(t: Table, ks: seq<Tuple>, k: Tuple, f: Flow)
    requires Ids(t, ks) && k in t.flows && f.id == t.flows[k].id
    ensures Ids(t.(flows := t.flows[k := f]), ks) && f.id != t.nextId
  {
    SizeAfter(t.flows, k, f);
    var n :| 0 <= n < |ks| && ks[n] == k;
    assert t.flows[ks[n]].id == n + 1;
  }

  lemma NewTakesNextId(t: Table, ks: seq<Tuple>, k: Tuple, f: Flow)
    requires Ids(t, ks) && k !in t.flows && f.id == t.nextId
    ensures Ids(Table(t.flows[k := f], t.nextId + 1, t.evicted), ks + [k])
  {
    SizeAfter(t.flows, k, f);
  }

  /** Ids stay in order of first appearance: a known key keeps its id, a new one gets the next. */
  lemma IdsAfter(max: nat, t: Table, ks: seq<Tuple>, o: Observation)
    requires Ids(t, ks)
    ensures var k, u := o.tuple.Key(), Observed(max, t, o).0;
            && Ids(u, if k in ks || |ks| >= max then ks else ks + [k])
            && u.evicted == t.evicted + if k in ks || |ks| < max then 0 else 1
  {
    var k := o.tuple.Key();
    if k in t.flows {
      KnownKeepsIds(t, ks, k, Updated(t.flows[k], o));
    } else if |t.flows| < max {
      NewTakesNextId(t, ks, k, Updated(Opened(o, t.nextId), o));
    }
  }

  /**
   After any trace the table holds exactly the first `max` conversations, numbered from 1 in order
   of first appearance, each row summarising its own packets; every other packet is tallied.
   */
  lemma {:induction false} RefinesTrace(max: nat, tr: Trace)
    ensures Refines(max, Run(max, tr), tr)
  {
    if tr != [] {
      var init, o := tr[..|tr| - 1], tr[|tr| - 1];
      assert tr == init + [o];
      RefinesTrace(max, init);
      DistinctMeans(init);
      var t, ks, k := Run(max, init), Admitted(max, init), o.tuple.Key();
      assert |ks| < max ==> ks == Distinct(init);
      AdmittedStep(max, init, o);
      RowsAfter(max, t, init, o);
      IdsAfter(max, t, ks, o);
      if k !in ks && |ks| < max {
        OutsideWithNew(init, ks, k);
      }
    }
  }

  lemma AdmittedStep(max: nat, tr: Trace, o: Observation)
    ensures var ks, k := Admitted(max, tr), o.tuple.Key();
            Admitted(max, tr + [o]) == if k in ks || |ks| >= max then ks else ks + [k]
  {
    assert (tr + [o])[..|tr|] == tr;
    var all := Distinct(tr);
    assert |all| <= max ==> Admitted(max, tr) == all;
  }

  lemma {:induction false} OutsideWithNew(tr: Trace, ks: seq<Tuple>, k: Tuple)
    requires OfKey(tr, k) == []
    ensures Outside(tr, ks + [k]) == Outside(tr, ks)
  {
    if tr != [] {
      OutsideWithNew(tr[..|tr| - 1], ks, k);
    }
  }

  /** The row of a conversation in hand. */
  lemma RowOf(max: nat, tr: Trace, k: Tuple)
    requires k in Run(max, tr).flows
    ensures RowIs(Run(max, tr).flows[k], k, OfKey(tr, k))
    ensures Summarises(Run(max, tr).flows[k].stats, OfKey(tr, k))
  {
    RefinesTrace(max, tr);
    SummaryMeans(OfKey(tr, k));
  }

  /** With room for all, every conversation has its row and no packet is turned away. */
  lemma RowsExist(max: nat, tr: Trace)
    requires |Distinct(tr)| <= max
    ensures forall k :: k in Run(max, tr).flows <==> OfKey(tr, k) != []
    ensures Run(max, tr).evicted == 0
  {
    RowsAreAdmitted(max, tr);
    DistinctMeans(tr);
    assert Admitted(max, tr) == Distinct(tr);
    NothingOutside(tr);
  }

  lemma RowsAreAdmitted(max: nat, tr: Trace)
    ensures forall k :: k in Run(max, tr).flows <==> k in Admitted(max, tr)
    ensures Run(max, tr).evicted == Outside(tr, Admitted(max, tr))
  {
    RefinesTrace(max, tr);
  }

  lemma {:induction false} OutsideShrinks(tr: Trace, ks: seq<Tuple>, k: Tuple)
    ensures Outside(tr, ks + [k]) <= Outside(tr, ks)
  {
    if tr != [] {
      OutsideShrinks(tr[..|tr| - 1], ks, k);
    }
  }

  lemma {:induction false} NothingOutside(tr: Trace)
    ensures Outside(tr, Distinct(tr)) == 0
  {
    if tr != [] {
      NothingOutside(tr[..|tr| - 1]);
      OutsideShrinks(tr[..|tr| - 1], Distinct(tr[..|tr| - 1]), tr[|tr| - 1].tuple.Key());
    }
  }

  /** Ids never repeat, so `entry.id == id` recognises exactly the row just inserted. */
  lemma RunIsNumbered(max: nat, tr: Trace)
    ensures Numbered(Run(max, tr))
    ensures forall k | k in Run(max, tr).flows :: 1 <= Run(max, tr).flows[k].id < Run(max, tr).nextId
  {
    RefinesTrace(max, tr);
    IdsAreNumbers(Run(max, tr), Admitted(max, tr));
    assert forall k | k in Run(max, tr).flows :: RowIs(Run(max, tr).flows[k], k, OfKey(tr, k));
  }

  lemma IdsAreNumbers(t: Table, ks: seq<Tuple>)
    requires Ids(t, ks)
    ensures forall k | k in t.flows :: 1 <= t.flows[k].id < t.nextId
    ensures forall j, k | j in t.flows && k in t.flows && t.flows[j].id == t.flows[k].id :: j == k
  {
    forall k | k in t.flows ensures 1 <= t.flows[k].id <= |ks| && ks[t.flows[k].id - 1] == k {
      var i :| 0 <= i < |ks| && ks[i] == k;
      assert t.flows[ks[i]].id == i + 1;
    }
  }

  // ---------------------------------------------------------------------------
  // Every packet is accounted for
  // ---------------------------------------------------------------------------

  function PacketsOf(f: Flow): nat {
    f.stats.c2s.packets + f.stats.s2c.packets
  }

  function SumPackets(t: Table, ks: seq<Tuple>): nat
    requires forall k | k in ks :: k in t.flows
  {
    if ks == [] then 0 else SumPackets(t, ks[..|ks| - 1]) + PacketsOf(t.flows[ks[|ks| - 1]])
  }

  lemma {:induction false} HeadingsPartition(tr: Trace)
    ensures |Heading(tr, true)| + |Heading(tr, false)| == |tr|
  {
    if tr != [] {
      HeadingsPartition(tr[..|tr| - 1]);
    }
  }

  lemma {:induction false} OneMoreInside(tr: Trace, ks: seq<Tuple>, k: Tuple)
    requires k !in ks
    ensures Outside(tr, ks) == Outside(tr, ks + [k]) + |OfKey(tr, k)|
  {
    if tr != [] {
      OneMoreInside(tr[..|tr| - 1], ks, k);
    }
  }

  lemma {:induction false} AllOutsideNothing(tr: Trace)
    ensures Outside(tr, []) == |tr|
  {
    if tr != [] {
      AllOutsideNothing(tr[..|tr| - 1]);
    }
  }

  lemma {:induction false} SumsUp(max: nat, tr: Trace, ks: seq<Tuple>)
    requires NoRepeats(ks) && forall k | k in ks :: k in Run(max, tr).flows
    ensures SumPackets(Run(max, tr), ks) + Outside(tr, ks) == |tr|
  {
    if ks == [] {
      AllOutsideNothing(tr);
    } else {
      var init, k := ks[..|ks| - 1], ks[|ks| - 1];
      assert ks == init + [k];
      SumsUp(max, tr, init);
      OneMoreInside(tr, init, k);
      RowOf(max, tr, k);
      HeadingsPartition(OfKey(tr, k));
    }
  }

  /** Conservation: the packets of all rows plus the evicted ones are the packets observed. */
  lemma EveryPacketCounted(max: nat, tr: Trace)
    ensures forall k | k in Admitted(max, tr) :: k in Run(max, tr).flows
    ensures SumPackets(Run(max, tr), Admitted(max, tr)) + Run(max, tr).evicted == |tr|
  {
    RefinesTrace(max, tr);
    DistinctMeans(tr);
    SumsUp(max, tr, Admitted(max, tr));
  }

  // ---------------------------------------------------------------------------
  // Merging is concatenation
  // ---------------------------------------------------------------------------

  lemma {:induction false} OfKeyConcat(xs: Trace, ys: Trace, k: Tuple)
    ensures OfKey(xs + ys, k) == OfKey(xs, k) + OfKey(ys, k)
  {
    if ys == [] {
      assert xs + ys == xs;
    } else {
      SplitLast(xs, ys);
      OfKeyConcat(xs, ys[..|ys| - 1], k);
    }
  }

  lemma {:induction false} DistinctGrows(xs: Trace, ys: Trace)
    ensures Distinct(xs) <= Distinct(xs + ys)
  {
    if ys == [] {
      assert xs + ys == xs;
    } else {
      SplitLast(xs, ys);
      DistinctGrows(xs, ys[..|ys| - 1]);
    }
  }

  /** The merged row of one conversation, wherever its packets were. */
  lemma MergedRow(max: nat, max': nat, xs: Trace, ys: Trace, r: Table, k: Tuple)
    requires |Distinct(xs)| <= max && |Distinct(ys)| <= max'
    requires Merged(Run(max, xs), Run(max', ys), r) && k in r.flows
    ensures Summarises(r.flows[k].stats, OfKey(xs + ys, k))
    ensures r.flows[k].key == k && r.flows[k].communityId == Preimage(k, COMMUNITY_ID_SEED)
    ensures r.flows[k].service == TakeFirst(ServiceOf(OfKey(xs, k)), ServiceOf(OfKey(ys, k)))
  {
    var a, b := Run(max, xs), Run(max', ys);
    assert RowMerged(a, b, b.flows.Keys, k, r.flows[k]);
    OfKeyConcat(xs, ys, k);
    RowsExist(max, xs);
    RowsExist(max', ys);
    if k in a.flows {
      RowOf(max, xs, k);
    }
    if k in b.flows {
      RowOf(max', ys, k);
    }
    if k in a.flows && k in b.flows {
      SummaryConcat(a.flows[k].stats, b.flows[k].stats, OfKey(xs, k), OfKey(ys, k));
    } else if k in a.flows {
      assert OfKey(xs, k) + [] == OfKey(xs, k);
    } else {
      assert [] + OfKey(ys, k) == OfKey(ys, k);
    }
  }

  /**
   Homomorphism: wherever a trace is split, and in whatever order the rows are taken, merging the
   second table into the first gives the rows, figures and states of observing it all in one table.
   */
  lemma MergeIsConcatenation(max: nat, max': nat, xs: Trace, ys: Trace, r: Table)
    requires |Distinct(xs + ys)| <= max && |Distinct(ys)| <= max'
    requires Merged(Run(max, xs), Run(max', ys), r)
    ensures var whole := Run(max, xs + ys);
            && r.flows.Keys == whole.flows.Keys
            && r.evicted == whole.evicted
            && forall k | k in r.flows ::
                 && r.flows[k].stats == whole.flows[k].stats
                 && r.flows[k].State() == whole.flows[k].State()
                 && r.flows[k].communityId == whole.flows[k].communityId
  {
    var whole := Run(max, xs + ys);
    DistinctGrows(xs, ys);
    RowsExist(max, xs);
    RowsExist(max', ys);
    RowsExist(max, xs + ys);
    forall k ensures k in r.flows <==> k in whole.flows {
      OfKeyConcat(xs, ys, k);
    }
    forall k | k in r.flows
      ensures r.flows[k].stats == whole.flows[k].stats && r.flows[k].key == whole.flows[k].key
      ensures r.flows[k].communityId == whole.flows[k].communityId
    {
      MergedRow(max, max', xs, ys, r, k);
      RowOf(max, xs + ys, k);
      SummaryIsUnique(r.flows[k].stats, whole.flows[k].stats, OfKey(xs + ys, k));
    }
  }

  /** The rows of a merge, whatever `max` is: merging does not look at it. */
  lemma MergedKeys(max: nat, max': nat, xs: Trace, ys: Trace, r: Table)
    requires |Distinct(xs)| <= max && |Distinct(ys)| <= max'
    requires Merged(Run(max, xs), Run(max', ys), r)
    ensures forall k :: k in r.flows <==> k in Distinct(xs + ys)
  {
    RowsExist(max, xs);
    RowsExist(max', ys);
    DistinctMeans(xs + ys);
    forall k ensures k in r.flows <==> OfKey(xs + ys, k) != [] {
      OfKeyConcat(xs, ys, k);
    }
  }

  /** With room in either table for its own half, they agree on the rows exactly when there is room for both. */
  lemma MergedRowsIff(max: nat, max': nat, xs: Trace, ys: Trace, r: Table)
    requires |Distinct(xs)| <= max && |Distinct(ys)| <= max'
    requires Merged(Run(max, xs), Run(max', ys), r)
    ensures r.flows.Keys == Run(max, xs + ys).flows.Keys <==> |Distinct(xs + ys)| <= max
  {
    var ks := Distinct(xs + ys);
    MergedKeys(max, max', xs, ys, r);
    RowsAreAdmitted(max, xs + ys);
    if |ks| <= max {
      assert Admitted(max, xs + ys) == ks;
    } else {
      DistinctMeans(xs + ys);
      assert ks[max] in r.flows && ks[max] !in ks[..max];
    }
  }

  lemma {:induction false} ServiceConcat(xs: Trace, ys: Trace)
    ensures ServiceOf(xs + ys) ==
            if Generic(ServiceOf(xs)) && ServiceOf(ys).Some? then ServiceOf(ys) else ServiceOf(xs)
  {
    if ys == [] {
      assert xs + ys == xs;
    } else {
      SplitLast(xs, ys);
      ServiceConcat(xs, ys[..|ys| - 1]);
    }
  }

  /**
   The service is the exception: merging does not upgrade a row that only says "tcp" or "udp", so
   it agrees with observing exactly when there was nothing to upgrade to.
   */
  lemma MergedServiceIff(max: nat, max': nat, xs: Trace, ys: Trace, r: Table, k: Tuple)
    requires |Distinct(xs + ys)| <= max && |Distinct(ys)| <= max'
    requires Merged(Run(max, xs), Run(max', ys), r) && k in r.flows
    ensures k in Run(max, xs + ys).flows
    ensures var mine, theirs := ServiceOf(OfKey(xs, k)), ServiceOf(OfKey(ys, k));
            r.flows[k].service == Run(max, xs + ys).flows[k].service <==>
            mine.None? || !Generic(mine) || theirs.None? || theirs == mine
  {
    DistinctGrows(xs, ys);
    MergeIsConcatenation(max, max', xs, ys, r);
    MergedRow(max, max', xs, ys, r, k);
    RowOf(max, xs + ys, k);
    OfKeyConcat(xs, ys, k);
    ServiceConcat(OfKey(xs, k), OfKey(ys, k));
  }

  /** A packet of one conversation that says only which layer it reached. */
  function Reaching(t: Tuple, layer: string): Observation {
    Observation(t, None, NO_DETAILS, Some(layer), 0, 1, 60)
  }

  lemma {:induction false} OnePacketTrace(o: Observation, k: Tuple)
    requires o.tuple.Key() == k
    ensures Distinct([o]) == [k] && OfKey([o], k) == [o] && ServiceOf([o]) == o.highestLayer
  {
    assert [o][..0] == [];
  }

  lemma {:induction false} TwoPacketTrace(o: Observation, p: Observation, k: Tuple)
    requires o.tuple.Key() == k && p.tuple.Key() == k
    ensures Distinct([o, p]) == [k] && OfKey([o, p], k) == [o, p]
    ensures ServiceOf([o, p]) == Upgraded(o.highestLayer, p.highestLayer)
  {
    OnePacketTrace(o, k);
    assert [o, p][..1] == [o];
  }

  lemma MergeOfOneRow(a: Table, b: Table, k: Tuple) returns (r: Table)
    requires Numbered(a) && b.flows.Keys == {k} && b.flows[k].key == k && b.evicted == 0
    ensures Merged(a, b, r)
  {
    assert MergedUpTo(a, b, {}, a);
    AdoptedMerges(a, b, {}, a, k);
    assert {} + {k} == b.flows.Keys;
    r := Adopted(a, k, b.flows[k]);
  }

  /** Two tables that each saw one packet of a conversation, and what merging them gives. */
  lemma MergeOfTwoPackets(o: Observation, p: Observation, k: Tuple) returns (r: Table)
    requires o.tuple.Key() == k && p.tuple.Key() == k
    ensures |Distinct([o, p])| == |Distinct([o])| == |Distinct([p])| == 1
    ensures Merged(Run(1, [o]), Run(1, [p]), r) && k in r.flows
    ensures r.flows[k].service == TakeFirst(o.highestLayer, p.highestLayer)
  {
    OnePacketTrace(o, k);
    OnePacketTrace(p, k);
    TwoPacketTrace(o, p, k);
    RunIsNumbered(1, [o]);
    RunIsNumbered(1, [p]);
    RowsExist(1, [p]);
    RowsAreAdmitted(1, [p]);
    assert Run(1, [p]).flows.Keys == {k};
    r := MergeOfOneRow(Run(1, [o]), Run(1, [p]), k);
    MergedRow(1, 1, [o], [p], r, k);
  }

  lemma ServiceOfTwo(o: Observation, p: Observation, k: Tuple)
    requires o.tuple.Key() == k && p.tuple.Key() == k
    ensures k in Run(1, [o, p]).flows
    ensures Run(1, [o, p]).flows[k].service == Upgraded(o.highestLayer, p.highestLayer)
  {
    TwoPacketTrace(o, p, k);
    RowsExist(1, [o, p]);
    RowOf(1, [o, p], k);
  }

  /** The first table saw a handshake, the second the TLS that followed: the merged row stays at "tcp". */
  lemma MergeLosesTheService(tcp: Observation, tls: Observation, t: Tuple, k: Tuple) returns (r: Table)
    requires t.Key() == k && tcp == Reaching(t, "tcp") && tls == Reaching(t, "tls")
    ensures |Distinct([tcp, tls])| == 1 && Merged(Run(1, [tcp]), Run(1, [tls]), r)
    ensures k in r.flows && r.flows[k].service == Some("tcp")
    ensures k in Run(1, [tcp, tls]).flows && Run(1, [tcp, tls]).flows[k].service == Some("tls")
  {
    r := MergeOfTwoPackets(tcp, tls, k);
    ServiceOfTwo(tcp, tls, k);
  }

  // ---------------------------------------------------------------------------
  // TCP state
  // ---------------------------------------------------------------------------

  lemma UpdateMovesForward(f: Flow, o: Observation)
    ensures f.State().Rank() <= Updated(f, o).State().Rank()
  {
  }

  /** A conversation's state never moves down the order partial to reset. */
  lemma {:induction false} StateNeverFallsBack(max: nat, tr: Trace, n: nat, k: Tuple)
    requires n <= |tr| && k in Run(max, tr[..n]).flows
    ensures k in Run(max, tr).flows
    ensures Run(max, tr[..n]).flows[k].State().Rank() <= Run(max, tr).flows[k].State().Rank()
  {
    if n == |tr| {
      assert tr[..n] == tr;
    } else {
      var init, o := tr[..|tr| - 1], tr[|tr| - 1];
      assert init[..n] == tr[..n];
      StateNeverFallsBack(max, init, n, k);
      UpdateMovesForward(Run(max, init).flows[k], o);
    }
  }

  /** A clean handshake opened in direction `d`: bare SYNs run that way, SYNs with ACK the other. */
  ghost predicate HandshakeOpenedBy(tr: Trace, d: bool) {
    && (forall o | o in tr :: !o.Has(FIN) && !o.Has(RST))
    && (forall o | o in tr && o.Has(SYN) :: o.Runs(d) == !o.Has(ACK))
    && SynSeen(tr, false)
    && SynSeen(tr, true)
  }

  lemma {:induction false} HeadingMembers(tr: Trace, forward: bool)
    ensures forall o :: o in Heading(tr, forward) <==> o in tr && o.Runs(forward)
  {
    if tr != [] {
      HeadingMembers(tr[..|tr| - 1], forward);
    }
  }

  /** A packet of that kind came in the direction: a bare SYN, or one with ACK. */
  ghost predicate SynFrom(tr: Trace, forward: bool, ack: bool) {
    exists o :: o in tr && o.Runs(forward) && o.Has(SYN) && o.Has(ACK) == ack
  }

  lemma SynInHeading(tr: Trace, forward: bool, ack: bool)
    ensures SynSeen(Heading(tr, forward), ack) <==> SynFrom(tr, forward, ack)
  {
    HeadingMembers(tr, forward);
  }

  /**
   "Established: SYN and SYN-ACK seen": without a FIN or a reset the state is exactly that when a bare SYN
   came from the lower endpoint of the canonical tuple and a SYN with ACK from the higher.
   */
  lemma EstablishedIff(s: Stats, tr: Trace)
    requires Summarises(s, tr) && forall o | o in tr :: !o.Has(FIN) && !o.Has(RST)
    ensures StateOf(6, s) == Established <==> SynFrom(tr, true, false) && SynFrom(tr, false, true)
    ensures StateOf(6, s) == SynSent <==> SynFrom(tr, true, false) && !SynFrom(tr, false, true)
  {
    SynInHeading(tr, true, false);
    SynInHeading(tr, false, true);
    HeadingMembers(tr, true);
    HeadingMembers(tr, false);
    assert !Seen(tr, RST) && !Seen(Heading(tr, true), FIN) && !Seen(Heading(tr, false), FIN);
  }

  /**
   So a clean handshake reads established exactly when the lower endpoint opened it; one opened by the
   higher stays at partial.
   */
  lemma EstablishedIffLowerOpened(s: Stats, tr: Trace, d: bool)
    requires Summarises(s, tr) && HandshakeOpenedBy(tr, d)
    ensures StateOf(6, s) == Established <==> d
    ensures !d ==> StateOf(6, s) == Partial
  {
    EstablishedIff(s, tr);
    var a :| a in tr && a.Has(SYN) && a.Has(ACK) == false;
    var b :| b in tr && b.Has(SYN) && b.Has(ACK) == true;
    assert a.Runs(d) && b.Runs(!d);
    if !d {
      NoneStarted(s, tr);
    }
  }

  lemma NoneStarted(s: Stats, tr: Trace)
    requires Summarises(s, tr) && (forall o | o in tr :: !o.Has(FIN) && !o.Has(RST)) && !SynFrom(tr, true, false)
    ensures StateOf(6, s) == Partial
  {
    EstablishedIff(s, tr);
    SynInHeading(tr, true, false);
    HeadingMembers(tr, true);
    HeadingMembers(tr, false);
    assert !Seen(tr, RST) && !Seen(Heading(tr, true), FIN) && !Seen(Heading(tr, false), FIN);
  }

  /** A client whose address is the higher one, and the server's answer. */
  const FROM_HIGHER := Tuple(V4(2), V4(1), 40000, 443, 6)

  const OPENING := Observation(FROM_HIGHER, Some({SYN}), NO_DETAILS, Some("tcp"), 0, 1, 60)

  const ANSWER := Observation(FROM_HIGHER.Reversed(), Some({SYN, ACK}), NO_DETAILS, Some("tcp"), 1, 2, 60)

  /** SYN and SYN-ACK have been seen, and the row says partial. */
  lemma HandshakeStaysPartial()
    ensures HandshakeOpenedBy([OPENING, ANSWER], false)
    ensures var t, k := Run(1, [OPENING, ANSWER]), FROM_HIGHER.Key();
            k in t.flows && t.flows[k].State() == Partial
  {
    var tr, k := [OPENING, ANSWER], FROM_HIGHER.Key();
    assert k == FROM_HIGHER.Reversed() && ANSWER.tuple.Key() == k;
    OpensFromAbove();
    TwoPacketTrace(OPENING, ANSWER, k);
    RowsExist(1, tr);
    RowOf(1, tr, k);
    EstablishedIffLowerOpened(Run(1, tr).flows[k].stats, tr, false);
  }

  lemma OpensFromAbove()
    ensures HandshakeOpenedBy([OPENING, ANSWER], false)
  {
    assert OPENING in [OPENING, ANSWER] && ANSWER in [OPENING, ANSWER];
    assert !FROM_HIGHER.Forward() && FROM_HIGHER.Reversed().Forward();
  }

  // ---------------------------------------------------------------------------
  // Output order
  // ---------------------------------------------------------------------------

  predicate Before(f: Flow, g: Flow) {
    f.stats.span.firstFrame < g.stats.span.firstFrame
    || (f.stats.span.firstFrame == g.stats.span.firstFrame && f.id < g.id)
  }

  ghost predicate InOrder(fs: seq<Flow>) {
    forall i, j | 0 <= i < j < |fs| :: Before(fs[i], fs[j])
  }

  function Place(fs: seq<Flow>, f: Flow): seq<Flow> {
    if fs == [] || Before(fs[|fs| - 1], f) then fs + [f] else Place(fs[..|fs| - 1], f) + [fs[|fs| - 1]]
  }

  lemma {:induction false} PlaceKeeps(fs: seq<Flow>, f: Flow)
    ensures forall g :: g in Place(fs, f) <==> g in fs || g == f
  {
    if fs != [] && !Before(fs[|fs| - 1], f) {
      PlaceKeeps(fs[..|fs| - 1], f);
      assert fs == fs[..|fs| - 1] + [fs[|fs| - 1]];
    }
  }

  lemma AppendInOrder(fs: seq<Flow>, f: Flow)
    requires InOrder(fs) && forall g | g in fs :: Before(g, f)
    ensures InOrder(fs + [f])
  {
  }

  lemma {:induction false} PlaceKeepsOrder(fs: seq<Flow>, f: Flow)
    requires InOrder(fs) && forall g | g in fs :: g.id != f.id
    ensures InOrder(Place(fs, f))
  {
    if fs == [] || Before(fs[|fs| - 1], f) {
      if fs != [] {
        LastIsMaximal(fs);
      }
      AppendInOrder(fs, f);
    } else {
      var init, last := fs[..|fs| - 1], fs[|fs| - 1];
      assert last in fs && forall g :: g in init ==> g in fs;
      LastIsMaximal(fs);
      forall g | g in init ensures Before(g, last) {
        DroppedLast(fs, g);
      }
      PlaceKeepsOrder(init, f);
      PlaceKeeps(init, f);
      AppendInOrder(Place(init, f), last);
    }
  }

  /** The rows in ascending first-seen order, whatever order the hash map yields them in. */
  method SortedRows(table: Table) returns (fs: seq<Flow>)
    requires Numbered(table)
    ensures InOrder(fs)
    ensures forall f :: f in fs <==> f in table.flows.Values
  {
    fs := [];
    var todo := table.flows.Keys;
    while todo != {}
      invariant todo <= table.flows.Keys
      invariant InOrder(fs)
      invariant forall f :: f in fs <==> exists k :: k in table.flows && k !in todo && table.flows[k] == f
      decreases todo
    {
      var k :| k in todo;
      assert forall g | g in fs :: g.id != table.flows[k].id;
      PlaceKeepsOrder(fs, table.flows[k]);
      PlaceKeeps(fs, table.flows[k]);
      fs := Place(fs, table.flows[k]);
      todo := todo - {k};
    }
  }

  /** Only one sequence of the same rows is in order, so hash iteration order cannot show. */
  lemma {:induction false} OrderIsUnique(fs: seq<Flow>, gs: seq<Flow>)
    requires InOrder(fs) && InOrder(gs) && forall f :: f in fs <==> f in gs
    ensures fs == gs
  {
    if |fs| > 0 {
      assert fs[0] in gs;
    }
    if |gs| > 0 {
      assert gs[0] in fs;
    }
    if |fs| > 0 && |gs| > 0 {
      var f, g := fs[|fs| - 1], gs[|gs| - 1];
      assert f in fs && g in gs;
      LastIsMaximal(fs);
      LastIsMaximal(gs);
      assert f == g;
      var fs', gs' := fs[..|fs| - 1], gs[..|gs| - 1];
      forall h ensures h in fs' <==> h in gs' {
        DroppedLast(fs, h);
        DroppedLast(gs, h);
      }
      OrderIsUnique(fs', gs');
      assert fs == fs' + [f] && gs == gs' + [g];
    }
  }

  lemma LastIsMaximal(fs: seq<Flow>)
    requires InOrder(fs) && fs != []
    ensures forall f | f in fs :: f == fs[|fs| - 1] || Before(f, fs[|fs| - 1])
  {
  }

  lemma DroppedLast(fs: seq<Flow>, h: Flow)
    requires InOrder(fs) && fs != []
    ensures h in fs[..|fs| - 1] <==> h in fs && h != fs[|fs| - 1]
  {
    if h in fs[..|fs| - 1] {
      var i :| 0 <= i < |fs| - 1 && fs[i] == h;
      assert Before(fs[i], fs[|fs| - 1]);
    }
  }
}
