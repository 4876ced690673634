/**
 IP fragment reassembly (`FragTable` of rust/src/reasm.rs).

 The specification keeps, for every open datagram, the fragments in the order they arrived and
 says declaratively which byte of which fragment wins each position. The class keeps what the
 program keeps (pieces that a failed attempt leaves sorted, a running length, a byte tally) and
 stitches them in one pass; its method is proved to do what the specification says.
 */
module Fragments {
  import opened Addresses
  import opened Integers
  import opened Wrappers

  datatype FragKey = FragKey(src: IpAddr, dst: IpAddr, id: U32, proto: Byte)

  /** What network dissection says of a fragment (rust/src/reasm.rs:40-46). */
  datatype FragMeta = FragMeta(key: FragKey, offset: U16, moreFragments: bool, payload: seq<Byte>)

  datatype Piece = Piece(offset: U16, data: seq<Byte>) {

    function End(): nat {
      offset + |data|
    }

    predicate Covers(i: int) {
      offset <= i < End()
    }
  }

  datatype Fragment = Fragment(piece: Piece, more: bool)

  function PiecesOf(h: seq<Fragment>): seq<Piece> {
    seq(|h|, i requires 0 <= i < |h| => h[i].piece)
  }

  // ---------------------------------------------------------------------------
  // Specification: the datagram a history of fragments stands for
  // ---------------------------------------------------------------------------

  ghost predicate Covered(ps: seq<Piece>, i: int) {
    exists p :: p in ps && p.Covers(i)
  }

  /** Index of the piece that supplies byte `i`: lowest offset first, then earliest arrival. */
  ghost function Winner(ps: seq<Piece>, i: int): (w: Option<nat>)
    ensures w.Some? ==> w.value < |ps| && ps[w.value].Covers(i)
  {
    if ps == [] then None
    else
      var w := Winner(ps[..|ps| - 1], i);
      var last := |ps| - 1;
      if ps[last].Covers(i) && (w.None? || ps[last].offset < ps[w.value].offset) then Some(last) else w
  }

  lemma {:induction false} WinnerIsLeast(ps: seq<Piece>, i: int)
    ensures Winner(ps, i).None? <==> !Covered(ps, i)
    ensures Winner(ps, i).Some? ==>
              var w := Winner(ps, i).value;
              forall j | 0 <= j < |ps| && ps[j].Covers(i) ::
                ps[w].offset < ps[j].offset || (ps[w].offset == ps[j].offset && w <= j)
  {
    if ps != [] {
      var init := ps[..|ps| - 1];
      WinnerIsLeast(init, i);
      assert forall j | 0 <= j < |init| :: init[j] == ps[j];
      assert forall p :: p in ps <==> p in init || p == ps[|ps| - 1];
    }
  }

  ghost function WinningPiece(ps: seq<Piece>, i: int): (c: Option<Piece>)
    ensures c.Some? ==> c.value in ps && c.value.Covers(i)
  {
    match Winner(ps, i)
    case None => None
    case Some(w) => Some(ps[w])
  }

  ghost function ByteAt(ps: seq<Piece>, i: int): Byte {
    match WinningPiece(ps, i)
    case None => 0
    case Some(p) => p.data[i - p.offset]
  }

  /** The length announced by the latest fragment with the more-fragments flag clear. */
  function Total(h: seq<Fragment>): Option<nat> {
    if h == [] then None
    else if !h[|h| - 1].more then Some(h[|h| - 1].piece.End())
    else Total(h[..|h| - 1])
  }

  /** No hole below `total`, and none below the start of any piece. */
  ghost predicate Whole(ps: seq<Piece>, total: nat) {
    && (forall i | 0 <= i < total :: Covered(ps, i))
    && (forall p, i | p in ps && 0 <= i < p.offset :: Covered(ps, i))
  }

  ghost function Bytes(ps: seq<Piece>, total: nat): seq<Byte> {
    seq(total, i => ByteAt(ps, i))
  }

  /** The datagram a history completes, if it completes one. */
  ghost function Datagram(h: seq<Fragment>): Option<seq<Byte>> {
    match Total(h)
    case None => None
    case Some(total) => if Whole(PiecesOf(h), total) then Some(Bytes(PiecesOf(h), total)) else None
  }

  function HeldBytes(h: seq<Fragment>): nat {
    if h == [] then 0 else HeldBytes(h[..|h| - 1]) + |h[|h| - 1].piece.data|
  }

  /** The table, abstractly: arrivals so far of every datagram still open, and the two tallies. */
  datatype Table = Table(open: map<FragKey, seq<Fragment>>, dropped: nat, completed: nat)

  datatype Limits = Limits(maxSets: nat, maxBytes: nat)

  datatype Outcome = Refused | Abandoned | Held | Completed(datagram: seq<Byte>) {

    function Delivered(): Option<seq<Byte>> {
      if Completed? then Some(datagram) else None
    }
  }

  const EMPTY_TABLE := Table(map[], 0, 0)

  function History(t: Table, k: FragKey): seq<Fragment> {
    if k in t.open then t.open[k] else []
  }

  ghost function Offer(l: Limits, t: Table, k: FragKey, f: Fragment): (Table, Outcome) {
    var h := History(t, k) + [f];
    if k !in t.open && |t.open| >= l.maxSets then
      (t.(dropped := t.dropped + 1), Refused)
    else if HeldBytes(h) > l.maxBytes then
      (t.(open := t.open - {k}, dropped := t.dropped + 1), Abandoned)
    else match Datagram(h)
      case None => (t.(open := t.open[k := h]), Held)
      case Some(d) => (t.(open := t.open - {k}, completed := t.completed + 1), Completed(d))
  }

  // ---------------------------------------------------------------------------
  // The stable sort by offset, and what it preserves
  // ---------------------------------------------------------------------------

  ghost predicate Sorted(ps: seq<Piece>) {
    forall i, j | 0 <= i < j < |ps| :: ps[i].offset <= ps[j].offset
  }

  function Insert(s: seq<Piece>, p: Piece): seq<Piece> {
    if s == [] || s[|s| - 1].offset <= p.offset then s + [p]
    else Insert(s[..|s| - 1], p) + [s[|s| - 1]]
  }

  /** `sort_by_key` on the offset: a stable sort. */
  function SortByOffset(ps: seq<Piece>): seq<Piece> {
    if ps == [] then [] else Insert(SortByOffset(ps[..|ps| - 1]), ps[|ps| - 1])
  }

  lemma {:induction false} InsertKeeps(s: seq<Piece>, p: Piece)
    ensures multiset(Insert(s, p)) == multiset(s + [p])
  {
    if s != [] && s[|s| - 1].offset > p.offset {
      InsertKeeps(s[..|s| - 1], p);
      assert s == s[..|s| - 1] + [s[|s| - 1]];
    }
  }

  lemma {:induction false} SortKeeps(ps: seq<Piece>)
    ensures multiset(SortByOffset(ps)) == multiset(ps)
  {
    if ps != [] {
      var init, last := ps[..|ps| - 1], ps[|ps| - 1];
      assert ps == init + [last];
      SortKeeps(init);
      InsertKeeps(SortByOffset(init), last);
    }
  }

  lemma SameMembers(ps: seq<Piece>, qs: seq<Piece>)
    requires multiset(ps) == multiset(qs)
    ensures forall p :: p in ps <==> p in qs
  {
    forall p ensures p in ps <==> p in qs {
      assert p in ps <==> p in multiset(ps);
      assert p in qs <==> p in multiset(qs);
    }
  }

  lemma {:induction false} InsertSorts(s: seq<Piece>, p: Piece)
    requires Sorted(s)
    ensures Sorted(Insert(s, p))
  {
    if s != [] && s[|s| - 1].offset > p.offset {
      var init, last := s[..|s| - 1], s[|s| - 1];
      InsertSorts(init, p);
      InsertKeeps(init, p);
      SameMembers(Insert(init, p), init + [p]);
      forall q | q in Insert(init, p) ensures q.offset <= last.offset {
        assert q in init || q == p;
      }
    }
  }

  lemma {:induction false} SortSorts(ps: seq<Piece>)
    ensures Sorted(SortByOffset(ps))
    ensures forall q :: q in SortByOffset(ps) <==> q in ps
  {
    SortKeeps(ps);
    SameMembers(SortByOffset(ps), ps);
    if ps != [] {
      SortSorts(ps[..|ps| - 1]);
      InsertSorts(SortByOffset(ps[..|ps| - 1]), ps[|ps| - 1]);
    }
  }

  lemma InsertLast(s: seq<Piece>)
    requires s != [] && Sorted(s)
    ensures Sorted(s[..|s| - 1]) && Insert(s[..|s| - 1], s[|s| - 1]) == s
  {
    assert s == s[..|s| - 1] + [s[|s| - 1]];
    assert |s| > 1 ==> s[|s| - 2].offset <= s[|s| - 1].offset;
  }

  lemma {:induction false} SortOfSorted(s: seq<Piece>)
    requires Sorted(s)
    ensures SortByOffset(s) == s
  {
    if s != [] {
      InsertLast(s);
      SortOfSorted(s[..|s| - 1]);
    }
  }

  lemma SortAppend(ps: seq<Piece>, p: Piece)
    ensures SortByOffset(ps + [p]) == Insert(SortByOffset(ps), p)
  {
    assert (ps + [p])[..|ps|] == ps;
  }

  /** The first piece of a list that covers position `i`. */
  function FirstCover(ps: seq<Piece>, i: int): (c: Option<Piece>)
    ensures c.Some? ==> c.value in ps && c.value.Covers(i)
  {
    if ps == [] then None
    else
      var c := FirstCover(ps[..|ps| - 1], i);
      if c.Some? then c
      else if ps[|ps| - 1].Covers(i) then Some(ps[|ps| - 1])
      else None
  }

  lemma FirstCoverAppend(ps: seq<Piece>, p: Piece, i: int)
    ensures FirstCover(ps + [p], i) ==
            if FirstCover(ps, i).Some? then FirstCover(ps, i) else if p.Covers(i) then Some(p) else None
  {
    assert (ps + [p])[..|ps|] == ps;
  }

  /** `c` challenged by a later arrival `p`: a strictly lower offset takes over. */
  function Challenge(c: Option<Piece>, p: Piece, i: int): Option<Piece> {
    if p.Covers(i) && (c.None? || p.offset < c.value.offset) then Some(p) else c
  }

  lemma {:induction false} FirstCoverOfInsert(s: seq<Piece>, p: Piece, i: int)
    requires Sorted(s)
    ensures FirstCover(Insert(s, p), i) == Challenge(FirstCover(s, i), p, i)
  {
    if s == [] || s[|s| - 1].offset <= p.offset {
      FirstCoverAppend(s, p, i);
    } else {
      var init, last := s[..|s| - 1], s[|s| - 1];
      FirstCoverOfInsert(init, p, i);
      FirstCoverAppend(Insert(init, p), last, i);
    }
  }

  lemma WinningPieceStep(ps: seq<Piece>, i: int)
    requires ps != []
    ensures WinningPiece(ps, i) == Challenge(WinningPiece(ps[..|ps| - 1], i), ps[|ps| - 1], i)
  {
    var init := ps[..|ps| - 1];
    if Winner(init, i).Some? {
      assert init[Winner(init, i).value] == ps[Winner(init, i).value];
    }
  }

  /** Sorting stably turns the winner of a position into its first cover. */
  lemma {:induction false} WinnerIsFirstInSortedOrder(ps: seq<Piece>, i: int)
    ensures FirstCover(SortByOffset(ps), i) == WinningPiece(ps, i)
  {
    if ps != [] {
      var init, last := ps[..|ps| - 1], ps[|ps| - 1];
      WinnerIsFirstInSortedOrder(init, i);
      WinningPieceStep(ps, i);
      SortSorts(init);
      FirstCoverOfInsert(SortByOffset(init), last, i);
    }
  }

  lemma WholeIgnoresOrder(ps: seq<Piece>, qs: seq<Piece>, total: nat)
    requires forall p :: p in ps <==> p in qs
    ensures Whole(ps, total) <==> Whole(qs, total)
  {
    forall i ensures Covered(ps, i) <==> Covered(qs, i) {
    }
  }

  // ---------------------------------------------------------------------------
  // Implementation
  // ---------------------------------------------------------------------------

  datatype FragSet = FragSet(pieces: seq<Piece>, totalLen: Option<nat>, bytesHeld: nat)

  ghost predicate Supplies(ps: seq<Piece>, i: int, b: Byte) {
    match FirstCover(ps, i)
    case None => false
    case Some(c) => b == c.data[i - c.offset]
  }

  /** `out` is what the pieces say from position 0 up, and none of them reaches beyond it. */
  ghost predicate Stitched(ps: seq<Piece>, out: seq<Byte>) {
    && (forall i | 0 <= i < |out| :: Supplies(ps, i, out[i]))
    && (forall p | p in ps :: p.End() <= |out|)
  }

  lemma StitchOne(ps: seq<Piece>, out: seq<Byte>, p: Piece, out': seq<Byte>)
    requires Stitched(ps, out) && p.offset <= |out|
    requires out' == if p.End() > |out| then out + p.data[|out| - p.offset..] else out
    ensures Stitched(ps + [p], out')
  {
    forall i | 0 <= i < |out'| ensures Supplies(ps + [p], i, out'[i]) {
      FirstCoverAppend(ps, p, i);
      if i < |out| {
        assert Supplies(ps, i, out[i]);
      } else {
        assert FirstCover(ps, i) == None;
        assert p.Covers(i) && out'[i] == p.data[|out| - p.offset..][i - |out|] == p.data[i - p.offset];
      }
    }
    forall q | q in ps + [p] ensures q.End() <= |out'| {
      assert q in ps || q == p;
    }
  }

  lemma SuppliedIsCovered(ps: seq<Piece>, i: int, b: Byte)
    requires Supplies(ps, i, b)
    ensures Covered(ps, i)
  {
    assert FirstCover(ps, i).value in ps;
  }

  /**
   One pass over the sorted pieces, keeping what is new of each and giving up at the first hole.
   */
  method Stitch(pieces: seq<Piece>, total: nat) returns (r: Option<seq<Byte>>)
    requires Sorted(pieces)
    ensures r.Some? <==> Whole(pieces, total)
    ensures r.Some? ==> |r.value| == total && forall i | 0 <= i < total :: Supplies(pieces, i, r.value[i])
  {
    var out: seq<Byte> := [];
    for n := 0 to |pieces|
      invariant Stitched(pieces[..n], out)
      invariant forall p | p in pieces[..n] :: p.offset <= |out|
    {
      var p := pieces[n];
      if p.offset > |out| {
        assert !Covered(pieces, |out|) by {
          forall q | q in pieces ensures !q.Covers(|out|) {
            assert q in pieces[..n] || q in pieces[n..];
          }
        }
        return None;
      }
      ghost var before := out;
      if p.End() > |out| {
        var skip := |out| - p.offset;
        out := out + p.data[skip..];
      }
      StitchOne(pieces[..n], before, p, out);
      assert pieces[..n + 1] == pieces[..n] + [p];
    }
    assert pieces[..|pieces|] == pieces;
    if |out| < total {
      assert !Covered(pieces, |out|);
      return None;
    }
    forall i | 0 <= i < |out| ensures Covered(pieces, i) {
      SuppliedIsCovered(pieces, i, out[i]);
    }
    return Some(out[..total]);
  }

  lemma StitchedIsBytes(ps: seq<Piece>, total: nat, out: seq<Byte>)
    requires |out| == total && forall i | 0 <= i < total :: Supplies(SortByOffset(ps), i, out[i])
    ensures out == Bytes(ps, total)
  {
    forall i | 0 <= i < total ensures out[i] == ByteAt(ps, i) {
      assert Supplies(SortByOffset(ps), i, out[i]);
      WinnerIsFirstInSortedOrder(ps, i);
    }
  }

  ghost predicate Matches(s: FragSet, h: seq<Fragment>) {
    && SortByOffset(s.pieces) == SortByOffset(PiecesOf(h))
    && s.totalLen == Total(h)
    && s.bytesHeld == HeldBytes(h)
  }

  /** One more fragment: the clear flag fixes the total length, the tally grows, the piece is kept. */
  function Added(s: FragSet, f: Fragment): FragSet {
    FragSet(s.pieces + [f.piece],
            if f.more then s.totalLen else Some(f.piece.End()),
            s.bytesHeld + |f.piece.data|)
  }

  /** A set left sorted by failed attempts still stands for its arrival history. */
  lemma AddedMatches(s: FragSet, h: seq<Fragment>, f: Fragment)
    requires Matches(s, h)
    ensures Matches(Added(s, f), h + [f])
  {
    SortAppend(s.pieces, f.piece);
    SortAppend(PiecesOf(h), f.piece);
    assert PiecesOf(h + [f]) == PiecesOf(h) + [f.piece];
    assert (h + [f])[..|h|] == h;
  }

  /** Try to complete a set whose total length is known; on a hole the pieces go back, sorted. */
  method Assemble(s: FragSet, ghost h: seq<Fragment>) returns (r: Option<seq<Byte>>, s': FragSet)
    requires Matches(s, h) && s.totalLen.Some?
    ensures r == Datagram(h)
    ensures Matches(s', h)
  {
    var total := s.totalLen.value;
    var pieces := SortByOffset(s.pieces);
    SortSorts(PiecesOf(h));
    WholeIgnoresOrder(pieces, PiecesOf(h), total);
    r := Stitch(pieces, total);
    if r.Some? {
      StitchedIsBytes(PiecesOf(h), total, r.value);
    }
    SortOfSorted(pieces);
    s' := s.(pieces := pieces);
  }

  class FragTable {
    var sets: map<FragKey, FragSet>
    const maxSets: nat
    const maxBytes: nat
    var dropped: nat
    var completed: nat
    /** Every open datagram's fragments in arrival order. */
    ghost var arrivals: map<FragKey, seq<Fragment>>

    ghost predicate Valid()
      reads this
    {
      && arrivals.Keys == sets.Keys
      && forall k | k in sets :: Matches(sets[k], arrivals[k])
    }

    ghost function Model(): Table
      reads this
    {
      Table(arrivals, dropped, completed)
    }

    function Bounds(): Limits {
      Limits(maxSets, maxBytes)
    }

    constructor (maxSets: nat, maxBytes: nat)
      ensures Valid() && Model() == EMPTY_TABLE
      ensures Bounds() == Limits(maxSets, maxBytes)
    {
      this.maxSets := maxSets;
      this.maxBytes := maxBytes;
      sets := map[];
      arrivals := map[];
      dropped := 0;
      completed := 0;
    }

    /** One arrival; a result is a whole datagram, and then its set is gone. */
    method Push(key: FragKey, offset: U16, moreFragments: bool, data: seq<Byte>) returns (r: Option<seq<Byte>>)
      requires Valid()
      modifies this
      ensures Valid()
      ensures var f := Fragment(Piece(offset, data), moreFragments);
              var (table, outcome) := Offer(Bounds(), old(Model()), key, f);
              Model() == table && r == outcome.Delivered()
    {
      assert |arrivals.Keys| == |sets.Keys|;
      if key !in sets && |sets| >= maxSets {
        dropped := dropped + 1;
        return None;
      }
      var s := if key in sets then sets[key] else FragSet([], None, 0);
      var f := Fragment(Piece(offset, data), moreFragments);
      ghost var h := History(Model(), key);
      AddedMatches(s, h, f);
      if s.bytesHeld + |data| > maxBytes {
        sets := sets - {key};
        arrivals := arrivals - {key};
        dropped := dropped + 1;
        return None;
      }
      r := Settle(key, Added(s, f), h + [f]);
    }

    /** Assemble the set if its length is known, and either forget the datagram or keep it open. */
    method Settle(key: FragKey, set0: FragSet, ghost h: seq<Fragment>) returns (r: Option<seq<Byte>>)
      requires Valid() && Matches(set0, h)
      modifies this
      ensures Valid()
      ensures r == Datagram(h)
      ensures Model() == match r
                         case None => old(Model()).(open := old(Model()).open[key := h])
                         case Some(_) =>
                           old(Model()).(open := old(Model()).open - {key}, completed := old(completed) + 1)
    {
      var s := set0;
      r := None;
      if s.totalLen.Some? {
        r, s := Assemble(s, h);
      }
      if r.Some? {
        sets := sets - {key};
        arrivals := arrivals - {key};
        completed := completed + 1;
      } else {
        sets := sets[key := s];
        arrivals := arrivals[key := h];
      }
    }

    method Pending() returns (n: nat)
      requires Valid()
      ensures n == |Model().open|
    {
      assert |arrivals.Keys| == |sets.Keys|;
      n := |sets|;
    }
  }
}
