/**
 The bounded searches of rust/src/dissect/app/ber.rs against the TLV forest they walk: `collect`
 filters its pre-order, `find_after_oid` finds the first sibling pair led by the identifier.
 */
module BerSearch {
  import opened Ber
  import opened Cursor
  import opened Errors
  import opened Integers
  import opened Wrappers

  // ---------------------------------------------------------------------------
  // The forest
  // ---------------------------------------------------------------------------

  datatype Tree = Node(tlv: Tlv, kids: seq<Tree>)

  /** The TLVs side by side in `data`, up to the first that does not read, `depth` levels deep. */
  function Forest(data: seq<Byte>, depth: nat): seq<Tree>
    decreases depth, |data|
  {
    if depth == 0 || TlvAt(data).Failure? then []
    else [Node(TlvAt(data).value.0, Below(TlvAt(data).value.0, depth))] + Forest(data[TlvAt(data).value.1..], depth)
  }

  function Below(t: Tlv, depth: nat): seq<Tree>
    requires depth > 0
    decreases depth, 0
  {
    if t.constructed then Forest(t.val, depth - 1) else []
  }

  /** Every TLV before those inside it, and those before the next at its level. */
  function Preorder(ts: seq<Tree>): seq<Tlv> {
    if ts == [] then [] else [ts[0].tlv] + Preorder(ts[0].kids) + Preorder(ts[1..])
  }

  lemma ForestUnfold(data: seq<Byte>, depth: nat)
    requires depth > 0
    ensures if TlvAt(data).Failure? then Forest(data, depth) == []
            else
              && Forest(data, depth) != []
              && Forest(data, depth)[0] == Node(TlvAt(data).value.0, Below(TlvAt(data).value.0, depth))
              && Forest(data, depth)[1..] == Forest(data[TlvAt(data).value.1..], depth)
  {
  }

  lemma EmptyForest(depth: nat)
    ensures Forest([], depth) == []
  {
    assert TlvAt([]) == Failure(Truncated);
  }

  ghost predicate Within(part: seq<Byte>, whole: seq<Byte>) {
    exists i, j :: 0 <= i <= j <= |whole| && part == whole[i..j]
  }

  lemma WithinSlice(part: seq<Byte>, whole: seq<Byte>, from: nat, to: nat)
    requires from <= to <= |whole| && Within(part, whole[from..to])
    ensures Within(part, whole)
  {
    var i, j :| 0 <= i <= j <= |whole[from..to]| && part == whole[from..to][i..j];
    var a, b := whole[from..to][i..j], whole[from + i..from + j];
    assert |a| == |b| && forall k | 0 <= k < |a| :: a[k] == whole[from..to][i + k] == b[k];
  }

  lemma PreorderSplits(ts: seq<Tree>, t: Tlv)
    requires ts != []
    ensures t in Preorder(ts) <==> t == ts[0].tlv || t in Preorder(ts[0].kids) || t in Preorder(ts[1..])
  {
    assert Preorder(ts) == [ts[0].tlv] + Preorder(ts[0].kids) + Preorder(ts[1..]);
  }

  ghost predicate PartOf(t: Tlv, whole: seq<Byte>) {
    Within(t.val, whole) && |t.val| < |whole|
  }

  ghost predicate AllPartsOf(ts: seq<Tlv>, whole: seq<Byte>) {
    forall t | t in ts :: PartOf(t, whole)
  }

  lemma PartsOfSlice(ts: seq<Tlv>, whole: seq<Byte>, from: nat, to: nat)
    requires from <= to <= |whole| && AllPartsOf(ts, whole[from..to])
    ensures AllPartsOf(ts, whole)
  {
    forall t | t in ts ensures PartOf(t, whole) {
      WithinSlice(t.val, whole, from, to);
    }
  }

  lemma PartsJoin(ts: seq<Tree>, whole: seq<Byte>)
    requires ts != [] && PartOf(ts[0].tlv, whole)
    requires AllPartsOf(Preorder(ts[0].kids), whole) && AllPartsOf(Preorder(ts[1..]), whole)
    ensures AllPartsOf(Preorder(ts), whole)
  {
    forall t | t in Preorder(ts) ensures PartOf(t, whole) {
      PreorderSplits(ts, t);
    }
  }

  lemma ValueIsPart(data: seq<Byte>)
    requires TlvAt(data).Success?
    ensures PartOf(TlvAt(data).value.0, data)
  {
    var (u, n) := TlvAt(data).value;
    ValueEndsTlv(data);
    assert u.val == data[n - |u.val|..n];
  }

  /** Every TLV of the forest is a part of the input, and shorter than it. */
  lemma {:induction false} ForestIsWithin(data: seq<Byte>, depth: nat)
    ensures AllPartsOf(Preorder(Forest(data, depth)), data)
    decreases depth, |data|
  {
    if depth > 0 && TlvAt(data).Success? {
      var ts, u, n := Forest(data, depth), TlvAt(data).value.0, TlvAt(data).value.1;
      ForestUnfold(data, depth);
      ValueIsPart(data);
      if u.constructed {
        ForestIsWithin(u.val, depth - 1);
        ValueEndsTlv(data);
        PartsOfSlice(Preorder(ts[0].kids), data, n - |u.val|, n);
      }
      ForestIsWithin(data[n..], depth);
      assert data[n..] == data[n..|data|];
      PartsOfSlice(Preorder(ts[1..]), data, n, |data|);
      PartsJoin(ts, data);
    }
  }

  /** `read_in` as the searches use it: the next sibling, or none if the rest does not read. */
  method NextSibling(c: Cur, ghost depth: nat) returns (t: Option<Tlv>)
    requires c.Valid() && depth > 0
    modifies c
    ensures c.Valid()
    ensures var ts := Forest(old(c.Rest()), depth);
            if ts == [] then t == None
            else
              && t == Some(ts[0].tlv)
              && ts[0].kids == Below(ts[0].tlv, depth)
              && Forest(c.Rest(), depth) == ts[1..]
              && c.pos > old(c.pos)
  {
    ghost var s := c.Rest();
    ForestUnfold(s, depth);
    var r := ReadIn(c);
    if r.Failure? {
      return None;
    }
    assert c.Rest() == s[TlvAt(s).value.1..];
    return Some(r.value);
  }

  // ---------------------------------------------------------------------------
  // collect
  // ---------------------------------------------------------------------------

  function Filter(ts: seq<Tlv>, pred: Tlv -> bool): seq<Tlv> {
    if ts == [] then []
    else (if pred(ts[0]) then [ts[0]] else []) + Filter(ts[1..], pred)
  }

  lemma {:induction false} FilterConcat(xs: seq<Tlv>, ys: seq<Tlv>, pred: Tlv -> bool)
    ensures Filter(xs + ys, pred) == Filter(xs, pred) + Filter(ys, pred)
  {
    if xs == [] {
      assert xs + ys == ys;
    } else {
      var rest := xs[1..];
      FilterConcat(rest, ys, pred);
      assert (xs + ys)[0] == xs[0] && (xs + ys)[1..] == rest + ys;
      var head := if pred(xs[0]) then [xs[0]] else [];
      assert head + (Filter(rest, pred) + Filter(ys, pred)) == (head + Filter(rest, pred)) + Filter(ys, pred);
    }
  }

  /** `out` filled up to `limit` from `more`. */
  function FilledUp(out: seq<Tlv>, limit: nat, more: seq<Tlv>): seq<Tlv> {
    if |out| >= limit then out else out + more[..Min(limit - |out|, |more|)]
  }

  lemma FillInTurn(out: seq<Tlv>, limit: nat, xs: seq<Tlv>, ys: seq<Tlv>)
    ensures FilledUp(out, limit, xs + ys) == FilledUp(FilledUp(out, limit, xs), limit, ys)
  {
    if |out| < limit {
      var room := limit - |out|;
      if |xs| < room {
        var k := Min(room - |xs|, |ys|);
        assert xs[..|xs|] == xs;
        assert (xs + ys)[..|xs| + k] == xs + ys[..k];
        assert out + (xs + ys[..k]) == (out + xs) + ys[..k];
      } else {
        assert (xs + ys)[..room] == xs[..room];
      }
    }
  }

  lemma FillWithFew(out: seq<Tlv>, limit: nat, head: seq<Tlv>)
    requires |head| <= 1
    ensures |out| < limit ==> FilledUp(out, limit, head) == out + head
    ensures head == [] ==> FilledUp(out, limit, head) == out
  {
    assert head[..|head|] == head;
  }

  /** The first `limit - |out|` matches of the pre-order, after what is there. */
  function Collected(ts: seq<Tree>, limit: nat, pred: Tlv -> bool, out: seq<Tlv>): seq<Tlv> {
    FilledUp(out, limit, Filter(Preorder(ts), pred))
  }

  function Tested(out: seq<Tlv>, t: Tlv, pred: Tlv -> bool): seq<Tlv> {
    if pred(t) then out + [t] else out
  }

  lemma CollectedInTurn(ts: seq<Tree>, limit: nat, pred: Tlv -> bool, out: seq<Tlv>)
    requires |out| < limit && ts != []
    ensures Collected(ts, limit, pred, out) ==
            Collected(ts[1..], limit, pred, Collected(ts[0].kids, limit, pred, Tested(out, ts[0].tlv, pred)))
  {
    var t, inner, rest := ts[0].tlv, Preorder(ts[0].kids), Preorder(ts[1..]);
    FilterConcat([t] + inner, rest, pred);
    FilterConcat([t], inner, pred);
    var head := Filter([t], pred);
    assert head == if pred(t) then [t] else [];
    FillWithFew(out, limit, head);
    assert FilledUp(out, limit, head) == Tested(out, t, pred);
    FillInTurn(out, limit, head + Filter(inner, pred), Filter(rest, pred));
    FillInTurn(out, limit, head, Filter(inner, pred));
  }

  lemma NothingToCollect(ts: seq<Tree>, limit: nat, pred: Tlv -> bool, out: seq<Tlv>)
    requires ts == [] || |out| >= limit
    ensures Collected(ts, limit, pred, out) == out
  {
    FillWithFew(out, limit, []);
  }

  /** What is found goes after `out0`, until `limit` are there; a value is searched before its next sibling. */
  method Collect(data: seq<Byte>, depth: nat, limit: nat, pred: Tlv -> bool, out0: seq<Tlv>) returns (out: seq<Tlv>)
    ensures out == Collected(Forest(data, depth), limit, pred, out0)
    decreases depth
  {
    out := out0;
    ghost var all := Forest(data, depth);
    if depth == 0 || |out| >= limit {
      NothingToCollect(all, limit, pred, out);
      return;
    }
    var c := new Cur(data);
    ghost var todo := all;
    assert c.Rest() == data;
    while c.Remaining() > 0 && |out| < limit
      invariant c.Valid() && c.data == data
      invariant todo == Forest(c.Rest(), depth)
      invariant Collected(todo, limit, pred, out) == Collected(all, limit, pred, out0)
      decreases c.Remaining()
    {
      var r := NextSibling(c, depth);
      if r.None? {
        NothingToCollect(todo, limit, pred, out);
        return;
      }
      var t := r.value;
      CollectedInTurn(todo, limit, pred, out);
      out := Descend(t, depth, limit, pred, Tested(out, t, pred));
      todo := todo[1..];
    }
    EmptyForest(depth);
    assert |out| < limit ==> c.Rest() == [];
    NothingToCollect(todo, limit, pred, out);
  }

  method Descend(t: Tlv, depth: nat, limit: nat, pred: Tlv -> bool, out0: seq<Tlv>) returns (out: seq<Tlv>)
    requires depth > 0
    ensures out == Collected(Below(t, depth), limit, pred, out0)
    decreases depth, 0
  {
    if t.constructed {
      out := Collect(t.val, depth - 1, limit, pred, out0);
    } else {
      out := out0;
      NothingToCollect([], limit, pred, out);
    }
  }

  // ---------------------------------------------------------------------------
  // find_after_oid
  // ---------------------------------------------------------------------------

  /** Adjacent siblings anywhere in the forest, in the pre-order of the left one. */
  function Pairs(ts: seq<Tree>): seq<(Tlv, Tlv)> {
    if ts == [] then []
    else (if |ts| > 1 then [(ts[0].tlv, ts[1].tlv)] else []) + Pairs(ts[0].kids) + Pairs(ts[1..])
  }

  predicate IsOid(t: Tlv, oid: seq<Byte>) {
    t.cls == CLASS_UNIVERSAL && t.tag == TAG_OID && t.val == oid
  }

  /** The right half of the first pair whose left half is the identifier. */
  function FirstAfter(ps: seq<(Tlv, Tlv)>, oid: seq<Byte>): Option<Tlv> {
    if ps == [] then None
    else if IsOid(ps[0].0, oid) then Some(ps[0].1)
    else FirstAfter(ps[1..], oid)
  }

  lemma {:induction false} FirstAfterConcat(ps: seq<(Tlv, Tlv)>, qs: seq<(Tlv, Tlv)>, oid: seq<Byte>)
    ensures FirstAfter(ps + qs, oid) ==
            if FirstAfter(ps, oid).Some? then FirstAfter(ps, oid) else FirstAfter(qs, oid)
  {
    if ps == [] {
      assert ps + qs == qs;
    } else {
      FirstAfterConcat(ps[1..], qs, oid);
      assert (ps + qs)[0] == ps[0] && (ps + qs)[1..] == ps[1..] + qs;
    }
  }

  /** A forest of TLVs all shorter than the identifier does not hold it. */
  lemma {:induction false} NoneShort(ts: seq<Tree>, oid: seq<Byte>)
    requires forall t | t in Preorder(ts) :: |t.val| < |oid|
    ensures FirstAfter(Pairs(ts), oid) == None
  {
    if ts != [] {
      PreorderParts(ts);
      NoneShort(ts[0].kids, oid);
      NoneShort(ts[1..], oid);
      var here := if |ts| > 1 then [(ts[0].tlv, ts[1].tlv)] else [];
      assert FirstAfter(here, oid) == None;
      FirstAfterConcat(here + Pairs(ts[0].kids), Pairs(ts[1..]), oid);
      FirstAfterConcat(here, Pairs(ts[0].kids), oid);
    }
  }

  lemma PreorderParts(ts: seq<Tree>)
    requires ts != []
    ensures ts[0].tlv in Preorder(ts)
    ensures forall t :: t in Preorder(ts[0].kids) || t in Preorder(ts[1..]) ==> t in Preorder(ts)
  {
    forall t | t in Preorder(ts[0].kids) || t in Preorder(ts[1..]) ensures t in Preorder(ts) {
      PreorderSplits(ts, t);
    }
  }

  lemma FirstAfterInTurn(ts: seq<Tree>, depth: nat, oid: seq<Byte>)
    requires ts != [] && depth > 0 && ts[0].kids == Below(ts[0].tlv, depth)
    ensures FirstAfter(Pairs(ts), oid) ==
            if IsOid(ts[0].tlv, oid) then (if |ts| > 1 then Some(ts[1].tlv) else None)
            else
              var inner := FirstAfter(Pairs(ts[0].kids), oid);
              if inner.Some? then inner else FirstAfter(Pairs(ts[1..]), oid)
  {
    var u, kids := ts[0].tlv, ts[0].kids;
    var here := if |ts| > 1 then [(u, ts[1].tlv)] else [];
    FirstAfterConcat(here + Pairs(kids), Pairs(ts[1..]), oid);
    FirstAfterConcat(here, Pairs(kids), oid);
    assert |ts| > 1 ==> here[1..] == [];
    if IsOid(u, oid) && |ts| == 1 {
      NothingInside(u, depth);
      NoneShort(kids, oid);
      assert Pairs(ts[1..]) == [];
    }
  }

  lemma NothingInside(u: Tlv, depth: nat)
    requires depth > 0
    ensures forall t | t in Preorder(Below(u, depth)) :: |t.val| < |u.val|
  {
    if u.constructed {
      ForestIsWithin(u.val, depth - 1);
      assert forall t | t in Preorder(Below(u, depth)) :: PartOf(t, u.val);
    }
  }

  /** Depth-first search for the TLV right after the given identifier. */
  method FindAfterOid(data: seq<Byte>, oid: seq<Byte>, depth: nat) returns (r: Option<Tlv>)
    ensures r == FirstAfter(Pairs(Forest(data, depth)), oid)
    decreases depth
  {
    if depth == 0 {
      return None;
    }
    var c := new Cur(data);
    ghost var all := Forest(data, depth);
    ghost var todo := all;
    assert c.Rest() == data;
    while c.Remaining() > 0
      invariant c.Valid() && c.data == data
      invariant todo == Forest(c.Rest(), depth)
      invariant FirstAfter(Pairs(todo), oid) == FirstAfter(Pairs(all), oid)
      decreases c.Remaining()
    {
      var read := NextSibling(c, depth);
      if read.None? {
        return None;
      }
      var t := read.value;
      FirstAfterInTurn(todo, depth, oid);
      if t.cls == CLASS_UNIVERSAL && t.tag == TAG_OID && t.val == oid {
        var next := NextSibling(c, depth);
        return next;
      }
      var found := FindInside(t, oid, depth);
      if found.Some? {
        return found;
      }
      todo := todo[1..];
    }
    EmptyForest(depth);
    assert c.Rest() == [];
    return None;
  }

  method FindInside(t: Tlv, oid: seq<Byte>, depth: nat) returns (r: Option<Tlv>)
    requires depth > 0
    ensures r == FirstAfter(Pairs(Below(t, depth)), oid)
    decreases depth, 0
  {
    if t.constructed {
      r := FindAfterOid(t.val, oid, depth - 1);
    } else {
      r := None;
    }
  }
}
