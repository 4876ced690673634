/**
 What the fragment table guarantees over whole runs: overlap resolution, independence of the
 arrival order, caps and conservation, and where the README claims more than the code does.
 */
module FragmentRuns {
  import opened Fragments
  import opened Integers
  import opened Wrappers

  // ---------------------------------------------------------------------------
  // Overlap resolution for arbitrary, even conflicting, fragments
  // ---------------------------------------------------------------------------

  /** `n` is the length set by the latest fragment whose more-fragments flag is clear. */
  ghost predicate SetsLength(h: seq<Fragment>, n: nat) {
    exists j | 0 <= j < |h| ::
      && !h[j].more && n == h[j].piece.End()
      && forall m | j < m < |h| :: h[m].more
  }

  lemma {:induction false} TotalIsLatest(h: seq<Fragment>)
    ensures Total(h).None? <==> forall j | 0 <= j < |h| :: h[j].more
    ensures Total(h).Some? ==> SetsLength(h, Total(h).value)
  {
    if h != [] && h[|h| - 1].more {
      var init := h[..|h| - 1];
      TotalIsLatest(init);
      assert forall j | 0 <= j < |init| :: init[j] == h[j];
      if Total(init).Some? {
        var j :| 0 <= j < |init| && !init[j].more && Total(init).value == init[j].piece.End()
                 && forall m | j < m < |init| :: init[m].more;
        assert !h[j].more && forall m | j < m < |h| :: h[m].more;
      }
    }
  }

  /** Fragment `w` supplies byte `i`: lowest offset among those covering it, earliest on a tie. */
  ghost predicate Wins(h: seq<Fragment>, w: int, i: int) {
    && 0 <= w < |h| && h[w].piece.Covers(i)
    && forall j | 0 <= j < |h| && h[j].piece.Covers(i) ::
         h[w].piece.offset < h[j].piece.offset || (h[w].piece.offset == h[j].piece.offset && w <= j)
  }

  function ByteOf(f: Fragment, i: int): Byte
    requires f.piece.Covers(i)
  {
    f.piece.data[i - f.piece.offset]
  }

  ghost predicate CoveredBy(h: seq<Fragment>, i: int) {
    exists f :: f in h && f.piece.Covers(i)
  }

  lemma CoveredByIsCovered(h: seq<Fragment>)
    ensures forall i :: CoveredBy(h, i) <==> Covered(PiecesOf(h), i)
  {
    forall i ensures CoveredBy(h, i) <==> Covered(PiecesOf(h), i) {
      if CoveredBy(h, i) {
        var j :| 0 <= j < |h| && h[j].piece.Covers(i);
        assert PiecesOf(h)[j] in PiecesOf(h);
      }
      if Covered(PiecesOf(h), i) {
        var j :| 0 <= j < |h| && PiecesOf(h)[j].Covers(i);
        assert h[j] in h;
      }
    }
  }

  lemma WinnerWins(h: seq<Fragment>, i: int) returns (w: int)
    requires CoveredBy(h, i)
    ensures Wins(h, w, i) && ByteAt(PiecesOf(h), i) == ByteOf(h[w], i)
  {
    CoveredByIsCovered(h);
    WinnerIsLeast(PiecesOf(h), i);
    w := Winner(PiecesOf(h), i).value;
    forall j | 0 <= j < |h| && h[j].piece.Covers(i)
      ensures h[w].piece.offset < h[j].piece.offset || (h[w].piece.offset == h[j].piece.offset && w <= j)
    {
      assert PiecesOf(h)[j].Covers(i);
    }
  }

  /** No hole below the announced length and none below the start of any fragment. */
  ghost predicate NoHole(h: seq<Fragment>) {
    && Total(h).Some?
    && (forall i | 0 <= i < Total(h).value :: CoveredBy(h, i))
    && (forall j, i | 0 <= j < |h| && 0 <= i < h[j].piece.offset :: CoveredBy(h, i))
  }

  lemma CompletesIff(h: seq<Fragment>)
    ensures Datagram(h).Some? <==> NoHole(h)
  {
    var ps := PiecesOf(h);
    CoveredByIsCovered(h);
    if Total(h).Some? {
      if Whole(ps, Total(h).value) {
        forall j, i | 0 <= j < |h| && 0 <= i < h[j].piece.offset ensures CoveredBy(h, i) {
          assert ps[j] in ps;
        }
      }
      if NoHole(h) {
        forall p, i | p in ps && 0 <= i < p.offset ensures Covered(ps, i) {
          var j :| 0 <= j < |ps| && ps[j] == p;
          assert CoveredBy(h, i);
        }
      }
    }
  }

  ghost predicate SuppliedBy(h: seq<Fragment>, w: int, i: int, b: Byte) {
    Wins(h, w, i) && b == ByteOf(h[w], i)
  }

  lemma DatagramByte(h: seq<Fragment>, i: nat) returns (w: int)
    requires Datagram(h).Some? && i < |Datagram(h).value|
    ensures SuppliedBy(h, w, i, Datagram(h).value[i])
  {
    CompletesIff(h);
    w := WinnerWins(h, i);
  }

  ghost predicate FromWinner(h: seq<Fragment>, i: int, b: Byte) {
    exists w :: SuppliedBy(h, w, i, b)
  }

  ghost predicate EveryByteFromItsWinner(h: seq<Fragment>, d: seq<Byte>) {
    forall i | 0 <= i < |d| :: FromWinner(h, i, d[i])
  }

  /**
   A datagram comes out exactly when its length is known and there is no hole below that length
   or below any fragment's start; then every byte is the winner's byte.
   */
  lemma OverlapResolution(h: seq<Fragment>)
    ensures Datagram(h).Some? <==> NoHole(h)
    ensures Datagram(h).Some? ==>
              SetsLength(h, |Datagram(h).value|) && EveryByteFromItsWinner(h, Datagram(h).value)
  {
    CompletesIff(h);
    TotalIsLatest(h);
    if Datagram(h).Some? {
      var d := Datagram(h).value;
      forall i | 0 <= i < |d| ensures FromWinner(h, i, d[i]) {
        var w := DatagramByte(h, i);
      }
    }
  }

  // ---------------------------------------------------------------------------
  // First copy wins: the README's claim, and exactly when the code meets it
  // ---------------------------------------------------------------------------

  /** Fragment `f` is the first to arrive among those covering byte `i`. */
  ghost predicate ArrivesFirst(h: seq<Fragment>, f: int, i: int) {
    0 <= f < |h| && h[f].piece.Covers(i) && forall j | 0 <= j < f :: !h[j].piece.Covers(i)
  }

  /** Same offsets, lengths and flags; any contents. */
  ghost predicate SameLayout(h: seq<Fragment>, g: seq<Fragment>) {
    |h| == |g| && forall j | 0 <= j < |h| ::
      && h[j].more == g[j].more
      && h[j].piece.offset == g[j].piece.offset
      && |h[j].piece.data| == |g[j].piece.data|
  }

  ghost predicate FirstCopyWins(h: seq<Fragment>) {
    Datagram(h).Some? ==>
      forall i, f | 0 <= i < |Datagram(h).value| && ArrivesFirst(h, f, i) ::
        Datagram(h).value[i] == ByteOf(h[f], i)
  }

  /** No byte first supplied by one fragment is also covered by one that starts strictly lower. */
  ghost predicate NoLowerLatecomer(h: seq<Fragment>, total: nat) {
    forall i, f, j | 0 <= i < total && ArrivesFirst(h, f, i) && 0 <= j < |h| && h[j].piece.Covers(i) ::
      h[f].piece.offset <= h[j].piece.offset
  }

  /** `h` with fragment `f` filled with ones and every other with zeros. */
  function Painted(h: seq<Fragment>, f: int): seq<Fragment> {
    seq(|h|, j requires 0 <= j < |h| =>
      Fragment(Piece(h[j].piece.offset, seq(|h[j].piece.data|, _ => if j == f then 1 else 0)), h[j].more))
  }

  lemma LayoutDecidesCover(h: seq<Fragment>, g: seq<Fragment>)
    requires SameLayout(h, g)
    ensures forall j, i | 0 <= j < |h| :: h[j].piece.Covers(i) <==> g[j].piece.Covers(i)
    ensures forall i :: CoveredBy(h, i) <==> CoveredBy(g, i)
    ensures forall f, i :: ArrivesFirst(h, f, i) <==> ArrivesFirst(g, f, i)
    ensures forall w, i :: Wins(h, w, i) <==> Wins(g, w, i)
  {
    assert forall j, i | 0 <= j < |h| :: h[j].piece.Covers(i) <==> g[j].piece.Covers(i);
    forall i ensures CoveredBy(h, i) <==> CoveredBy(g, i) {
      if CoveredBy(h, i) {
        var j :| 0 <= j < |h| && h[j].piece.Covers(i);
        assert g[j] in g && g[j].piece.Covers(i);
      }
      if CoveredBy(g, i) {
        var j :| 0 <= j < |g| && g[j].piece.Covers(i);
        assert h[j] in h && h[j].piece.Covers(i);
      }
    }
  }

  lemma {:induction false} LayoutDecidesTotal(h: seq<Fragment>, g: seq<Fragment>)
    requires SameLayout(h, g)
    ensures Total(h) == Total(g)
  {
    if h != [] {
      LayoutDecidesTotal(h[..|h| - 1], g[..|g| - 1]);
    }
  }

  lemma LayoutDecidesCompletion(h: seq<Fragment>, g: seq<Fragment>)
    requires SameLayout(h, g)
    ensures Datagram(h).Some? <==> Datagram(g).Some?
    ensures Datagram(h).Some? ==> |Datagram(h).value| == |Datagram(g).value|
  {
    LayoutDecidesTotal(h, g);
    LayoutDecidesCover(h, g);
    CompletesIff(h);
    CompletesIff(g);
    forall j, i | 0 <= j < |h| && 0 <= i < h[j].piece.offset
      ensures NoHole(g) ==> CoveredBy(h, i)
      ensures NoHole(h) ==> CoveredBy(g, i)
    {
      assert h[j].piece.offset == g[j].piece.offset;
    }
    assert NoHole(h) <==> NoHole(g);
  }

  /**
   "Overlaps resolve first-copy-wins" holds for every content of a completed layout exactly when
   no later fragment that starts strictly lower covers an already supplied byte.
   */
  lemma FirstCopyWinsIff(h: seq<Fragment>)
    requires Datagram(h).Some?
    ensures NoLowerLatecomer(h, |Datagram(h).value|) <==>
            forall g | SameLayout(h, g) :: FirstCopyWins(g)
  {
    var n := |Datagram(h).value|;
    if NoLowerLatecomer(h, n) {
      forall g | SameLayout(h, g) ensures FirstCopyWins(g) {
        LayoutDecidesCompletion(h, g);
        FirstCopyWhenOrdered(h, g);
      }
    } else {
      var i, f, j :| 0 <= i < n && ArrivesFirst(h, f, i) && 0 <= j < |h| && h[j].piece.Covers(i)
                     && h[f].piece.offset > h[j].piece.offset;
      var g := Painted(h, f);
      assert SameLayout(h, g);
      LayoutDecidesCompletion(h, g);
      PaintedLoses(h, f, i, j);
    }
  }

  lemma FirstCopyWhenOrdered(h: seq<Fragment>, g: seq<Fragment>)
    requires SameLayout(h, g) && Datagram(g).Some?
    requires NoLowerLatecomer(h, |Datagram(g).value|)
    ensures FirstCopyWins(g)
  {
    var d := Datagram(g).value;
    LayoutDecidesCover(h, g);
    forall i, f | 0 <= i < |d| && ArrivesFirst(g, f, i)
      ensures d[i] == ByteOf(g[f], i)
    {
      var w := DatagramByte(g, i);
      assert ArrivesFirst(h, f, i) && h[w].piece.Covers(i);
    }
  }

  lemma PaintedLoses(h: seq<Fragment>, f: int, i: nat, j: nat)
    requires Datagram(Painted(h, f)).Some? && i < |Datagram(Painted(h, f)).value|
    requires ArrivesFirst(h, f, i) && j < |h| && h[j].piece.Covers(i) && h[j].piece.offset < h[f].piece.offset
    ensures !FirstCopyWins(Painted(h, f))
  {
    var g := Painted(h, f);
    assert SameLayout(h, g);
    LayoutDecidesCover(h, g);
    var w := DatagramByte(g, i);
    assert ArrivesFirst(g, f, i);
    assert g[j].piece.Covers(i) && w != f;
  }

  const SEVENS: seq<Byte> := [7, 7, 7, 7, 7, 7, 7, 7]

  const FIVES: seq<Byte> := [5, 5, 5, 5, 5, 5, 5, 5, 5, 5, 5, 5, 5, 5, 5, 5]

  const LATE_LOW_COPY := [Fragment(Piece(8, SEVENS), false), Fragment(Piece(0, FIVES), true)]

  lemma LateCopyCompletes()
    ensures Datagram(LATE_LOW_COPY).Some? && |Datagram(LATE_LOW_COPY).value| == 16
  {
    var h := LATE_LOW_COPY;
    assert Total(h) == Total(h[..1]) == Some(16);
    forall i | 0 <= i < 16 ensures CoveredBy(h, i) {
      assert h[1] in h && h[1].piece.Covers(i);
    }
    CompletesIff(h);
  }

  /** The smallest case, in units of eight octets: a copy arriving second, but starting lower, overwrites byte 8. */
  lemma FirstCopyCanLose()
    ensures Datagram(LATE_LOW_COPY).Some? && |Datagram(LATE_LOW_COPY).value| == 16
    ensures Datagram(LATE_LOW_COPY).value[8] == 5 && ArrivesFirst(LATE_LOW_COPY, 0, 8)
    ensures !FirstCopyWins(LATE_LOW_COPY)
  {
    var h := LATE_LOW_COPY;
    LateCopyCompletes();
    var w := DatagramByte(h, 8);
    assert h[1].piece.Covers(8) && w == 1 && ByteOf(h[1], 8) == 5;
    assert ArrivesFirst(h, 0, 8) && ByteOf(h[0], 8) == 7;
  }

  // ---------------------------------------------------------------------------
  // Slices of one datagram: order, duplication and overlap do not matter
  // ---------------------------------------------------------------------------

  predicate SliceOf(f: Fragment, d: seq<Byte>) {
    && f.piece.End() <= |d|
    && f.piece.data == d[f.piece.offset..f.piece.End()]
    && (!f.more ==> f.piece.End() == |d|)
  }

  ghost predicate AllSlices(h: seq<Fragment>, d: seq<Byte>) {
    forall f | f in h :: SliceOf(f, d)
  }

  /** The last fragment is here and the slices leave no byte out. */
  ghost predicate Complete(h: seq<Fragment>, d: seq<Byte>) {
    && (exists f :: f in h && !f.more)
    && forall i | 0 <= i < |d| :: CoveredBy(h, i)
  }

  lemma SlicesCompleteIff(h: seq<Fragment>, d: seq<Byte>)
    requires AllSlices(h, d)
    ensures NoHole(h) <==> Complete(h, d)
    ensures Total(h).Some? ==> Total(h).value == |d|
  {
    TotalIsLatest(h);
    assert forall j | 0 <= j < |h| :: h[j] in h;
    if Total(h).Some? {
      assert exists f :: f in h && !f.more;
    }
    if f :| f in h && !f.more {
      var j :| 0 <= j < |h| && h[j] == f;
      assert Total(h).Some?;
    }
    if Complete(h, d) {
      forall j, i | 0 <= j < |h| && 0 <= i < h[j].piece.offset ensures CoveredBy(h, i) {
        assert SliceOf(h[j], d);
      }
    }
  }

  lemma SlicesReassemble(h: seq<Fragment>, d: seq<Byte>)
    requires AllSlices(h, d)
    ensures Datagram(h) == if Complete(h, d) then Some(d) else None
  {
    CompletesIff(h);
    SlicesCompleteIff(h, d);
    if Datagram(h).Some? {
      var e := Datagram(h).value;
      forall i | 0 <= i < |e| ensures e[i] == d[i] {
        var w := DatagramByte(h, i);
        assert h[w] in h && SliceOf(h[w], d);
      }
      assert e == d;
    }
  }

  // ---------------------------------------------------------------------------
  // Runs of the table
  // ---------------------------------------------------------------------------

  datatype Arrival = Arrival(key: FragKey, frag: Fragment)

  ghost function Run(l: Limits, t: Table, tr: seq<Arrival>): Table {
    if tr == [] then t
    else Offer(l, Run(l, t, tr[..|tr| - 1]), tr[|tr| - 1].key, tr[|tr| - 1].frag).0
  }

  /** The outcome of one more arrival after a run. */
  ghost function Next(l: Limits, t: Table, tr: seq<Arrival>, k: FragKey, f: Fragment): Outcome {
    Offer(l, Run(l, t, tr), k, f).1
  }

  function FragmentsOf(tr: seq<Arrival>, k: FragKey): seq<Fragment> {
    if tr == [] then []
    else
      var rest := FragmentsOf(tr[..|tr| - 1], k);
      if tr[|tr| - 1].key == k then rest + [tr[|tr| - 1].frag] else rest
  }

  /** What an arrival does to the open datagrams: nothing, closes one, or lengthens one. */
  predicate Touched(open: map<FragKey, seq<Fragment>>, k: FragKey, h: seq<Fragment>,
                    open': map<FragKey, seq<Fragment>>)
  {
    open' == open || open' == open - {k} || open' == open[k := h]
  }

  lemma OfferTouches(l: Limits, t: Table, k: FragKey, f: Fragment)
    ensures Touched(t.open, k, History(t, k) + [f], Offer(l, t, k, f).0.open)
  {
  }

  lemma OtherKeysStay(open: map<FragKey, seq<Fragment>>, k: FragKey, h: seq<Fragment>,
                      open': map<FragKey, seq<Fragment>>)
    requires Touched(open, k, h, open')
    ensures open'.Keys <= open.Keys + {k}
    ensures forall j | j != k :: (j in open' <==> j in open) && (j in open ==> open'[j] == open[j])
  {
  }

  lemma OfferTouchesOneKey(l: Limits, t: Table, k: FragKey, f: Fragment)
    ensures Offer(l, t, k, f).0.open.Keys <= t.open.Keys + {k}
    ensures forall k' | k' != k ::
              && (k' in Offer(l, t, k, f).0.open <==> k' in t.open)
              && History(Offer(l, t, k, f).0, k') == History(t, k')
  {
    OfferTouches(l, t, k, f);
    OtherKeysStay(t.open, k, History(t, k) + [f], Offer(l, t, k, f).0.open);
  }

  lemma Subsets<T>(a: set<T>, b: set<T>)
    requires a <= b
    ensures |a| <= |b|
  {
    if a != {} {
      var x :| x in a;
      Subsets(a - {x}, b - {x});
    }
  }

  lemma SliceJoins(l: Limits, t: Table, k: FragKey, f: Fragment, d: seq<Byte>)
    requires k in t.open || |t.open| < l.maxSets
    requires HeldBytes(History(t, k) + [f]) <= l.maxBytes
    requires AllSlices(History(t, k) + [f], d)
    ensures var complete := Complete(History(t, k) + [f], d);
            var (u, outcome) := Offer(l, t, k, f);
            && outcome == (if complete then Completed(d) else Held)
            && (k in u.open <==> !complete)
            && (!complete ==> History(u, k) == History(t, k) + [f])
  {
    SlicesReassemble(History(t, k) + [f], d);
  }

  /** Dropping the last fragment leaves slices slices, incomplete incomplete, and the tally lower. */
  lemma OneFewer(l: Limits, g: seq<Fragment>, f: Fragment, d: seq<Byte>)
    requires AllSlices(g + [f], d) && HeldBytes(g + [f]) <= l.maxBytes
    ensures AllSlices(g, d) && HeldBytes(g) <= l.maxBytes
    ensures Complete(g, d) ==> Complete(g + [f], d)
  {
    assert forall x :: x in g ==> x in g + [f];
    assert (g + [f])[..|g|] == g;
    forall i | CoveredBy(g, i) ensures CoveredBy(g + [f], i) {
    }
  }

  /** When the first fragment of `k` arrives, there is room for one more set. */
  ghost predicate RoomAtFirst(l: Limits, t: Table, tr: seq<Arrival>, k: FragKey) {
    forall n | 0 <= n < |tr| && tr[n].key == k && FragmentsOf(tr[..n], k) == [] ::
      |Run(l, t, tr[..n]).open| < l.maxSets
  }

  lemma RoomBefore(l: Limits, t: Table, tr: seq<Arrival>, a: Arrival, k: FragKey)
    requires RoomAtFirst(l, t, tr + [a], k)
    ensures RoomAtFirst(l, t, tr, k)
    ensures a.key == k && FragmentsOf(tr, k) == [] ==> |Run(l, t, tr).open| < l.maxSets
  {
    var all := tr + [a];
    assert all[..|tr|] == tr && all[|tr|] == a;
    forall n | 0 <= n < |tr| && tr[n].key == k && FragmentsOf(tr[..n], k) == []
      ensures |Run(l, t, tr[..n]).open| < l.maxSets
    {
      assert all[n] == tr[n] && all[..n] == tr[..n];
    }
  }

  /** Until its datagram is complete, a key's entry is exactly the fragments that arrived for it. */
  lemma {:induction false} HistoryIsArrivals(l: Limits, t: Table, tr: seq<Arrival>, k: FragKey, d: seq<Byte>)
    requires k !in t.open
    requires AllSlices(FragmentsOf(tr, k), d) && !Complete(FragmentsOf(tr, k), d)
    requires HeldBytes(FragmentsOf(tr, k)) <= l.maxBytes
    requires RoomAtFirst(l, t, tr, k)
    ensures History(Run(l, t, tr), k) == FragmentsOf(tr, k)
  {
    if tr != [] {
      var init, a := tr[..|tr| - 1], tr[|tr| - 1];
      assert tr == init + [a];
      RoomBefore(l, t, init, a, k);
      if a.key == k {
        OneFewer(l, FragmentsOf(init, k), a.frag, d);
        HistoryIsArrivals(l, t, init, k, d);
        SliceJoins(l, Run(l, t, init), k, a.frag, d);
      } else {
        HistoryIsArrivals(l, t, init, k, d);
        OfferTouchesOneKey(l, Run(l, t, init), a.key, a.frag);
      }
    }
  }

  /**
   Arrival-order independence. However the fragments of one datagram `d` are ordered, repeated,
   overlapped and interleaved with other traffic, if there is room for a set when the first one
   arrives, the push that completes them returns `d` and forgets the key, and every earlier push
   returns nothing.
   */
  lemma DeliveredExactlyOnCompletion(l: Limits, t: Table, tr: seq<Arrival>, k: FragKey, f: Fragment, d: seq<Byte>)
    requires k !in t.open
    requires AllSlices(FragmentsOf(tr, k) + [f], d) && !Complete(FragmentsOf(tr, k), d)
    requires HeldBytes(FragmentsOf(tr, k) + [f]) <= l.maxBytes
    requires RoomAtFirst(l, t, tr + [Arrival(k, f)], k)
    ensures Next(l, t, tr, k, f) == if Complete(FragmentsOf(tr, k) + [f], d) then Completed(d) else Held
    ensures k in Run(l, t, tr + [Arrival(k, f)]).open <==> !Complete(FragmentsOf(tr, k) + [f], d)
  {
    OneFewer(l, FragmentsOf(tr, k), f, d);
    RoomBefore(l, t, tr, Arrival(k, f), k);
    HistoryIsArrivals(l, t, tr, k, d);
    SliceJoins(l, Run(l, t, tr), k, f, d);
    assert (tr + [Arrival(k, f)])[..|tr|] == tr;
  }

  /** Two histories holding the same slices stand for the same datagram, whatever their orders. */
  lemma OrderIrrelevant(h: seq<Fragment>, g: seq<Fragment>, d: seq<Byte>)
    requires AllSlices(h, d) && (forall f :: f in h <==> f in g)
    ensures Datagram(h) == Datagram(g)
  {
    SlicesReassemble(h, d);
    SlicesReassemble(g, d);
    forall i ensures CoveredBy(h, i) <==> CoveredBy(g, i) {
    }
    assert (exists f :: f in h && !f.more) <==> (exists f :: f in g && !f.more);
  }

  // ---------------------------------------------------------------------------
  // Caps and conservation in every reachable state
  // ---------------------------------------------------------------------------

  datatype Tally = Tally(begun: nat, abandoned: nat, refused: nat)

  ghost function Tallied(l: Limits, tr: seq<Arrival>): Tally {
    if tr == [] then Tally(0, 0, 0)
    else
      var init, a := tr[..|tr| - 1], tr[|tr| - 1];
      var before := Run(l, EMPTY_TABLE, init);
      var n := Tallied(l, init);
      match Offer(l, before, a.key, a.frag).1
      case Refused => n.(refused := n.refused + 1)
      case Abandoned => Tally(n.begun + (if a.key in before.open then 0 else 1), n.abandoned + 1, n.refused)
      case _ => n.(begun := n.begun + (if a.key in before.open then 0 else 1))
  }

  ghost predicate WithinCaps(l: Limits, t: Table) {
    && |t.open| <= l.maxSets
    && forall k | k in t.open :: t.open[k] != [] && HeldBytes(t.open[k]) <= l.maxBytes
  }

  lemma OfferKeepsCaps(l: Limits, t: Table, k: FragKey, f: Fragment)
    requires WithinCaps(l, t)
    ensures WithinCaps(l, Offer(l, t, k, f).0)
  {
    var u := Offer(l, t, k, f).0;
    var h := History(t, k) + [f];
    if k in t.open {
      assert u.open.Keys <= t.open.Keys;
      Subsets(u.open.Keys, t.open.Keys);
    } else if |t.open| < l.maxSets {
      assert u.open.Keys <= t.open.Keys + {k};
      Subsets(u.open.Keys, t.open.Keys + {k});
      assert |t.open.Keys + {k}| == |t.open| + 1;
    }
  }

  lemma SizeAfter<K, V>(m: map<K, V>, k: K, v: V)
    ensures |m[k := v]| == if k in m then |m| else |m| + 1
    ensures |m - {k}| == if k in m then |m| - 1 else |m|
  {
    assert m[k := v].Keys == m.Keys + {k};
    assert (m - {k}).Keys == m.Keys - {k};
    if k in m {
      assert m.Keys + {k} == m.Keys;
    } else {
      assert m.Keys - {k} == m.Keys;
    }
  }

  /** What one arrival does to the number of open sets and to the two counters. */
  lemma OfferBalance(l: Limits, t: Table, k: FragKey, f: Fragment)
    ensures var (u, outcome) := Offer(l, t, k, f);
            var extra := if k in t.open then 0 else 1;
            match outcome
            case Refused => |u.open| == |t.open| && u.dropped == t.dropped + 1 && u.completed == t.completed
            case Abandoned =>
              |u.open| == |t.open| + extra - 1 && u.dropped == t.dropped + 1 && u.completed == t.completed
            case Held => |u.open| == |t.open| + extra && u.dropped == t.dropped && u.completed == t.completed
            case Completed(_) =>
              |u.open| == |t.open| + extra - 1 && u.dropped == t.dropped && u.completed == t.completed + 1
  {
    SizeAfter(t.open, k, History(t, k) + [f]);
  }

  /** Every datagram ever begun is completed, abandoned or still pending; every drop is accounted. */
  lemma {:induction false} Conservation(l: Limits, tr: seq<Arrival>)
    ensures var t, n := Run(l, EMPTY_TABLE, tr), Tallied(l, tr);
            && WithinCaps(l, t)
            && n.begun == t.completed + n.abandoned + |t.open|
            && t.dropped == n.abandoned + n.refused
  {
    if tr != [] {
      var init, a := tr[..|tr| - 1], tr[|tr| - 1];
      Conservation(l, init);
      OfferKeepsCaps(l, Run(l, EMPTY_TABLE, init), a.key, a.frag);
      OfferBalance(l, Run(l, EMPTY_TABLE, init), a.key, a.frag);
    }
  }

  /**
   "A datagram with a missing fragment is dropped and counted": the drop counter (less the
   refused arrivals) equals the number of sets begun and never completed exactly when none is
   still pending. A datagram abandoned over budget and begun again is two sets, and two drops.
   */
  lemma IncompleteAllCountedIff(l: Limits, tr: seq<Arrival>)
    ensures var t, n := Run(l, EMPTY_TABLE, tr), Tallied(l, tr);
            n.begun - t.completed == t.dropped - n.refused <==> t.open == map[]
  {
    Conservation(l, tr);
    var open := Run(l, EMPTY_TABLE, tr).open;
    assert |open| == 0 <==> open == map[];
  }

  /** One fragment whose successor never comes is neither completed nor counted. */
  lemma PendingIsNeverCounted(k: FragKey)
    ensures var tr := [Arrival(k, Fragment(Piece(0, [1]), true))];
            var t := Run(Limits(1, 1), EMPTY_TABLE, tr);
            t.dropped == 0 && t.completed == 0 && Tallied(Limits(1, 1), tr).begun == 1
  {
    var f := Fragment(Piece(0, [1]), true);
    var tr := [Arrival(k, f)];
    assert tr[..0] == [];
    assert History(EMPTY_TABLE, k) + [f] == [f];
    assert [f][..0] == [];
    assert HeldBytes([f]) == 1;
    assert Total([f]) == Total([]) == None;
  }
}
