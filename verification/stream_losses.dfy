/**
 What the counters of the stream table report: which streams are flagged, and when everything that is
 dropped at a limit shows in a counter.
 */
module StreamLosses {
  import opened Integers
  import opened StreamRuns
  import opened Streams
  import opened Wrappers

  // ---------------------------------------------------------------------------
  // What the table's counters report
  // ---------------------------------------------------------------------------

  ghost function Flagged(t: Table): set<StreamKey> {
    set k | k in t.streams && t.streams[k].truncated
  }

  /** The segment would be the 65th held ahead of a gap: all of them are dropped. */
  predicate Spills(max: nat, s: Stream, seg: Segment) {
    s.base.Some? && |s.pending| == MAX_PENDING && |s.buf| < WrappingSub(seg.seqNo, s.base.value) < max
  }

  predicate Overflows(max: nat, s: Stream, seg: Segment) {
    !s.truncated && Spills(max, s, seg)
  }

  ghost function Overflowed(l: Limits, tr: seq<Arrival>): nat {
    if tr == [] then 0
    else
      var t, a := Run(l, tr[..|tr| - 1]), tr[|tr| - 1];
      var now := a.seg.data != [] && Admits(l, t, a.key) && Overflows(l.maxBytes, Current(t, a.key), a.seg);
      Overflowed(l, tr[..|tr| - 1]) + if now then 1 else 0
  }

  /**
   Every flagged stream is counted once, except those flagged for overflowing their held list:
   the counter equals the number of partial streams exactly when no list ever overflowed.
   */
  lemma {:induction false} FlaggedAccounting(l: Limits, tr: seq<Arrival>)
    ensures |Flagged(Run(l, tr))| == Run(l, tr).truncated + Overflowed(l, tr)
    ensures Run(l, tr).truncated == |Flagged(Run(l, tr))| <==> Overflowed(l, tr) == 0
  {
    if tr == [] {
      assert Flagged(EMPTY_TABLE) == {};
    } else {
      var init, a := tr[..|tr| - 1], tr[|tr| - 1];
      FlaggedAccounting(l, init);
      CapsHold(l, init);
      FlagsAfter(l, Run(l, init), a.key, a.seg);
    }
  }

  /** Placing a segment raises the flag exactly when it overflows the held list. */
  lemma OverflowFlags(max: nat, s: Stream, seg: Segment)
    requires WithinCaps(max, s)
    ensures Placed(max, s, seg).truncated <==> s.truncated || Overflows(max, s, seg)
  {
  }

  lemma FlagsAfter(l: Limits, t: Table, k: StreamKey, seg: Segment)
    requires TableWithinCaps(l, t)
    ensures var u := Offer(l, t, k, seg).0;
            var overflow := seg.data != [] && Admits(l, t, k) && Overflows(l.maxBytes, Current(t, k), seg);
            |Flagged(u)| == |Flagged(t)| + u.truncated - t.truncated + if overflow then 1 else 0
  {
    var u := Offer(l, t, k, seg).0;
    if seg.data != [] && Admits(l, t, k) {
      FeedExtends(l.maxBytes, Current(t, k), seg);
      OverflowFlags(l.maxBytes, Current(t, k), seg);
      if u.streams[k].truncated {
        assert Flagged(u) == Flagged(t) + {k};
      } else {
        assert Flagged(u) == Flagged(t);
      }
    } else {
      assert Flagged(u) == Flagged(t);
    }
  }

  // ---------------------------------------------------------------------------
  // Whatever is dropped at a limit is counted: when that is so
  // ---------------------------------------------------------------------------

  /** Ahead of the buffer, at or past the cap: the segment is ignored. One from before the base looks like that too. */
  predicate IsPastCap(max: nat, s: Stream, seg: Segment) {
    s.base.Some? && |s.buf| < WrappingSub(seg.seqNo, s.base.value) && max <= WrappingSub(seg.seqNo, s.base.value)
  }

  /** The buffer grows past the cap, and is cut there. */
  predicate IsCut(max: nat, s: Stream, seg: Segment) {
    |Placed(max, s, seg).buf| > max
  }

  /** An admitted stream drops something. */
  predicate Loses(max: nat, s: Stream, seg: Segment) {
    Spills(max, s, seg) || IsPastCap(max, s, seg) || IsCut(max, s, seg)
  }

  /** Arrival `n` is of an admitted stream. */
  predicate Enters(l: Limits, tr: seq<Arrival>, n: nat)
    requires n < |tr|
  {
    tr[n].seg.data != [] && Admits(l, Run(l, tr[..n]), tr[n].key)
  }

  function Before(l: Limits, tr: seq<Arrival>, n: nat): Stream
    requires n < |tr|
  {
    Current(Run(l, tr[..n]), tr[n].key)
  }

  predicate LosesAt(l: Limits, tr: seq<Arrival>, n: nat)
    requires n < |tr|
  {
    Enters(l, tr, n) && Loses(l.maxBytes, Before(l, tr, n), tr[n].seg)
  }

  predicate SpillsAt(l: Limits, tr: seq<Arrival>, n: nat)
    requires n < |tr|
  {
    Enters(l, tr, n) && Spills(l.maxBytes, Before(l, tr, n), tr[n].seg)
  }

  predicate CutAt(l: Limits, tr: seq<Arrival>, n: nat)
    requires n < |tr|
  {
    Enters(l, tr, n) && IsCut(l.maxBytes, Before(l, tr, n), tr[n].seg)
  }

  /** The streams with an arrival of a kind. */
  function KeysWhere(tr: seq<Arrival>, at: nat -> bool): set<StreamKey> {
    set n: nat | n < |tr| && at(n) :: tr[n].key
  }

  function Losing(l: Limits, tr: seq<Arrival>): nat -> bool {
    (n: nat) => n < |tr| && LosesAt(l, tr, n)
  }

  function Spilling(l: Limits, tr: seq<Arrival>): nat -> bool {
    (n: nat) => n < |tr| && SpillsAt(l, tr, n)
  }

  /** The streams that dropped something. */
  function Losers(l: Limits, tr: seq<Arrival>): set<StreamKey> {
    KeysWhere(tr, Losing(l, tr))
  }

  /** The streams whose held list overflowed. */
  function Spillers(l: Limits, tr: seq<Arrival>): set<StreamKey> {
    KeysWhere(tr, Spilling(l, tr))
  }

  /** Cut, and the held list had not overflowed before. */
  predicate CutUnspilled(l: Limits, tr: seq<Arrival>, n: nat)
    requires n < |tr|
  {
    CutAt(l, tr, n) && tr[n].key !in Spillers(l, tr[..n])
  }

  function Reporting(l: Limits, tr: seq<Arrival>): nat -> bool {
    (n: nat) => n < |tr| && CutUnspilled(l, tr, n)
  }

  function Reported(l: Limits, tr: seq<Arrival>): set<StreamKey> {
    KeysWhere(tr, Reporting(l, tr))
  }

  /** Segments turned away by a full table. */
  function TurnedAway(l: Limits, tr: seq<Arrival>): nat {
    if tr == [] then 0
    else
      var a := tr[|tr| - 1];
      TurnedAway(l, tr[..|tr| - 1])
      + if a.seg.data != [] && !Admits(l, Run(l, tr[..|tr| - 1]), a.key) then 1 else 0
  }

  lemma SameSoFar(l: Limits, tr: seq<Arrival>, n: nat)
    requires n < |tr| - 1
    ensures var init := tr[..|tr| - 1];
            && init[..n] == tr[..n] && init[n] == tr[n]
            && LosesAt(l, init, n) == LosesAt(l, tr, n) && SpillsAt(l, init, n) == SpillsAt(l, tr, n)
            && CutUnspilled(l, init, n) == CutUnspilled(l, tr, n)
  {
    assert tr[..|tr| - 1][..n] == tr[..n];
  }

  function IfThen(b: bool, k: StreamKey): set<StreamKey> {
    if b then {k} else {}
  }

  lemma KeysStep(tr: seq<Arrival>, at: nat -> bool, before: nat -> bool)
    requires tr != [] && forall n: nat | n < |tr| - 1 :: at(n) == before(n)
    ensures KeysWhere(tr, at) == KeysWhere(tr[..|tr| - 1], before) + IfThen(at(|tr| - 1), tr[|tr| - 1].key)
  {
    var init := tr[..|tr| - 1];
    assert forall n: nat | n < |init| :: init[n] == tr[n];
  }

  lemma LosersStep(l: Limits, tr: seq<Arrival>)
    requires tr != []
    ensures var n := |tr| - 1; Losers(l, tr) == Losers(l, tr[..n]) + IfThen(LosesAt(l, tr, n), tr[n].key)
  {
    forall n: nat | n < |tr| - 1 ensures Losing(l, tr)(n) == Losing(l, tr[..|tr| - 1])(n) {
      SameSoFar(l, tr, n);
    }
    KeysStep(tr, Losing(l, tr), Losing(l, tr[..|tr| - 1]));
  }

  lemma SpillersStep(l: Limits, tr: seq<Arrival>)
    requires tr != []
    ensures var n := |tr| - 1; Spillers(l, tr) == Spillers(l, tr[..n]) + IfThen(SpillsAt(l, tr, n), tr[n].key)
  {
    forall n: nat | n < |tr| - 1 ensures Spilling(l, tr)(n) == Spilling(l, tr[..|tr| - 1])(n) {
      SameSoFar(l, tr, n);
    }
    KeysStep(tr, Spilling(l, tr), Spilling(l, tr[..|tr| - 1]));
  }

  lemma ReportedStep(l: Limits, tr: seq<Arrival>)
    requires tr != []
    ensures var n := |tr| - 1; Reported(l, tr) == Reported(l, tr[..n]) + IfThen(CutUnspilled(l, tr, n), tr[n].key)
  {
    forall n: nat | n < |tr| - 1 ensures Reporting(l, tr)(n) == Reporting(l, tr[..|tr| - 1])(n) {
      SameSoFar(l, tr, n);
    }
    KeysStep(tr, Reporting(l, tr), Reporting(l, tr[..|tr| - 1]));
  }

  /** What one arrival does to the flag of its stream and to the counter. */
  lemma FlagAfter(l: Limits, t: Table, k: StreamKey, seg: Segment)
    requires TableWithinCaps(l, t) && seg.data != [] && Admits(l, t, k)
    ensures var u, s := Offer(l, t, k, seg).0, Current(t, k);
            && k in u.streams
            && (u.streams[k].truncated <==> s.truncated || Spills(l.maxBytes, s, seg) || IsCut(l.maxBytes, s, seg))
            && (s.truncated ==> u.truncated == t.truncated)
            && (!s.truncated && IsCut(l.maxBytes, s, seg) ==> u.truncated == t.truncated + 1)
            && (!IsCut(l.maxBytes, s, seg) ==> u.truncated == t.truncated)
            && !(Spills(l.maxBytes, s, seg) && IsCut(l.maxBytes, s, seg))
            && u.evicted == t.evicted
  {
    OverflowFlags(l.maxBytes, Current(t, k), seg);
  }

  /** A stream is flagged once it has spilt or been cut, and the counter has one for each that was cut unspilt. */
  ghost predicate Accounts(t: Table, spilt: set<StreamKey>, reported: set<StreamKey>, lossy: set<StreamKey>) {
    && (forall k | k in t.streams :: t.streams[k].truncated <==> k in spilt || k in reported)
    && spilt <= t.streams.Keys && reported <= t.streams.Keys
    && reported <= lossy && t.truncated == |reported|
  }

  ghost predicate Accounted(l: Limits, tr: seq<Arrival>) {
    && Accounts(Run(l, tr), Spillers(l, tr), Reported(l, tr), Losers(l, tr))
    && Run(l, tr).evicted == TurnedAway(l, tr)
  }

  lemma ReportedOnce(reported: set<StreamKey>, k: StreamKey, now: bool)
    ensures |reported + IfThen(now, k)| == |reported| + if now && k !in reported then 1 else 0
  {
    if !now || k in reported {
      assert reported + IfThen(now, k) == reported;
    }
  }

  lemma FlagsStep(t: Table, u: Table, k: StreamKey, spills: bool, cut: bool,
                  spilt: set<StreamKey>, reported: set<StreamKey>)
    requires forall j | j in t.streams :: t.streams[j].truncated <==> j in spilt || j in reported
    requires spilt <= t.streams.Keys && reported <= t.streams.Keys
    requires u.streams.Keys == t.streams.Keys + {k}
    requires forall j | j in t.streams && j != k :: u.streams[j] == t.streams[j]
    requires u.streams[k].truncated <==> k in spilt || k in reported || spills || cut
    ensures var spilt', reported' := spilt + IfThen(spills, k), reported + IfThen(cut && k !in spilt, k);
            && spilt' <= u.streams.Keys && reported' <= u.streams.Keys
            && forall j | j in u.streams :: u.streams[j].truncated <==> j in spilt' || j in reported'
  {
  }

  lemma ReportedStayLossy(reported: set<StreamKey>, lossy: set<StreamKey>, k: StreamKey, now: bool, loses: bool)
    requires reported <= lossy && (now ==> loses)
    ensures reported + IfThen(now, k) <= lossy + IfThen(loses, k)
  {
  }

  predicate Was(t: Table, k: StreamKey) {
    k in t.streams && t.streams[k].truncated
  }

  /** What the arrival of an admitted segment does to its stream's flag and to the counter. */
  predicate Effect(t: Table, u: Table, k: StreamKey, spills: bool, cut: bool) {
    && u.streams.Keys == t.streams.Keys + {k}
    && (forall j | j in t.streams && j != k :: u.streams[j] == t.streams[j])
    && (u.streams[k].truncated <==> Was(t, k) || spills || cut)
    && u.truncated == t.truncated + (if cut && !Was(t, k) then 1 else 0)
  }

  lemma EffectOf(l: Limits, t: Table, k: StreamKey, seg: Segment)
    requires TableWithinCaps(l, t) && seg.data != [] && Admits(l, t, k)
    ensures Effect(t, Offer(l, t, k, seg).0, k, Spills(l.maxBytes, Current(t, k), seg),
                   IsCut(l.maxBytes, Current(t, k), seg))
  {
    OfferTouchesOneKey(l, t, k, seg);
    FlagAfter(l, t, k, seg);
  }

  lemma AccountsStep(t: Table, u: Table, k: StreamKey, spills: bool, cut: bool, loses: bool,
                     spilt: set<StreamKey>, reported: set<StreamKey>, lossy: set<StreamKey>,
                     spilt': set<StreamKey>, reported': set<StreamKey>, lossy': set<StreamKey>)
    requires Accounts(t, spilt, reported, lossy) && Effect(t, u, k, spills, cut) && (cut ==> loses)
    requires spilt' == spilt + IfThen(spills, k) && reported' == reported + IfThen(cut && k !in spilt, k)
    requires lossy' == lossy + IfThen(loses, k)
    ensures Accounts(u, spilt', reported', lossy')
  {
    assert Was(t, k) <==> k in spilt || k in reported;
    ReportedOnce(reported, k, cut && k !in spilt);
    FlagsStep(t, u, k, spills, cut, spilt, reported);
    ReportedStayLossy(reported, lossy, k, cut && k !in spilt, loses);
  }

  lemma AccountedEntering(l: Limits, tr: seq<Arrival>)
    requires tr != [] && Enters(l, tr, |tr| - 1) && Accounted(l, tr[..|tr| - 1])
    requires TableWithinCaps(l, Run(l, tr[..|tr| - 1]))
    ensures Accounted(l, tr)
  {
    var n, init := |tr| - 1, tr[..|tr| - 1];
    var t, u := Run(l, init), Run(l, tr);
    SpillersStep(l, tr);
    ReportedStep(l, tr);
    LosersStep(l, tr);
    EffectOf(l, t, tr[n].key, tr[n].seg);
    AccountsStep(t, u, tr[n].key, SpillsAt(l, tr, n), CutAt(l, tr, n), LosesAt(l, tr, n),
                 Spillers(l, init), Reported(l, init), Losers(l, init),
                 Spillers(l, tr), Reported(l, tr), Losers(l, tr));
    assert u.evicted == t.evicted;
  }

  lemma AccountedOutside(l: Limits, tr: seq<Arrival>)
    requires tr != [] && !Enters(l, tr, |tr| - 1) && Accounted(l, tr[..|tr| - 1])
    ensures Accounted(l, tr)
  {
    var n := |tr| - 1;
    var t := Run(l, tr[..n]);
    SpillersStep(l, tr);
    ReportedStep(l, tr);
    LosersStep(l, tr);
    OutsideKeeps(l, t, tr[n].key, tr[n].seg);
    AccountsSame(t, Run(l, tr), Spillers(l, tr[..n]), Reported(l, tr[..n]), Losers(l, tr[..n]), tr[n].key);
  }

  lemma OutsideKeeps(l: Limits, t: Table, k: StreamKey, seg: Segment)
    requires seg.data == [] || !Admits(l, t, k)
    ensures var u := Offer(l, t, k, seg).0;
            && u.streams == t.streams && u.truncated == t.truncated
            && u.evicted == t.evicted + if seg.data != [] then 1 else 0
  {
  }

  lemma AccountsSame(t: Table, u: Table, spilt: set<StreamKey>, reported: set<StreamKey>, lossy: set<StreamKey>,
                     k: StreamKey)
    requires Accounts(t, spilt, reported, lossy) && u.streams == t.streams && u.truncated == t.truncated
    ensures Accounts(u, spilt + IfThen(false, k), reported + IfThen(false, k), lossy + IfThen(false, k))
  {
    assert spilt + {} == spilt && reported + {} == reported && lossy + {} == lossy;
  }

  lemma {:induction false} LossesAccounted(l: Limits, tr: seq<Arrival>)
    ensures Accounted(l, tr)
  {
    if tr != [] {
      LossesAccounted(l, tr[..|tr| - 1]);
      CapsHold(l, tr[..|tr| - 1]);
      if Enters(l, tr, |tr| - 1) {
        AccountedEntering(l, tr);
      } else {
        AccountedOutside(l, tr);
      }
    }
  }

  /** Some arrival of the stream is cut at the cap, and its held list had not overflowed before. */
  ghost predicate IsReported(l: Limits, tr: seq<Arrival>, k: StreamKey) {
    exists n :: 0 <= n < |tr| && CutUnspilled(l, tr, n) && tr[n].key == k
  }

  /**
   "Anything dropped at those limits is counted": every segment that a full table turned away is, and
   every stream that dropped something is exactly when each of them was cut at the cap while its held
   list had not overflowed. A stream that only ignored segments past the cap, or overflowed, is not.
   */
  lemma EveryLossCountedIff(l: Limits, tr: seq<Arrival>)
    ensures Run(l, tr).evicted == TurnedAway(l, tr)
    ensures Run(l, tr).truncated == |Losers(l, tr)| <==>
            forall n | 0 <= n < |tr| && LosesAt(l, tr, n) :: IsReported(l, tr, tr[n].key)
  {
    LossesAccounted(l, tr);
    var some, all := Reported(l, tr), Losers(l, tr);
    assert forall k :: k in some <==> IsReported(l, tr, k);
    if |some| == |all| {
      EqualSets(some, all);
    }
    if forall n | 0 <= n < |tr| && LosesAt(l, tr, n) :: IsReported(l, tr, tr[n].key) {
      assert all <= some;
      assert all == some;
    }
  }

  lemma EqualSets<T>(a: set<T>, b: set<T>)
    requires a <= b && |a| == |b|
    ensures a == b
  {
    assert |b - a| == |b| - |a|;
  }

  /** In particular when no held list overflows and nothing arrives past the cap. */
  lemma CutsAreCounted(l: Limits, tr: seq<Arrival>)
    requires forall n | 0 <= n < |tr| && LosesAt(l, tr, n) :: CutAt(l, tr, n)
    ensures Run(l, tr).truncated == |Losers(l, tr)|
  {
    CapsHold(l, tr);
    forall n | 0 <= n < |tr| && LosesAt(l, tr, n) ensures IsReported(l, tr, tr[n].key) {
      NoneSpilt(l, tr, n);
      assert CutUnspilled(l, tr, n);
    }
    EveryLossCountedIff(l, tr);
  }

  lemma NoneSpilt(l: Limits, tr: seq<Arrival>, n: nat)
    requires n <= |tr| && forall m | 0 <= m < |tr| && LosesAt(l, tr, m) :: CutAt(l, tr, m)
    ensures Spillers(l, tr[..n]) == {}
  {
    forall m | 0 <= m < n ensures !SpillsAt(l, tr[..n], m) {
      assert tr[..n][..m] == tr[..m];
      if SpillsAt(l, tr, m) {
        CapsHold(l, tr[..m]);
        FlagAfter(l, Run(l, tr[..m]), tr[m].key, tr[m].seg);
        assert LosesAt(l, tr, m);
      }
    }
  }

  predicate PastCapAt(l: Limits, tr: seq<Arrival>, n: nat)
    requires n < |tr|
  {
    Enters(l, tr, n) && IsPastCap(l.maxBytes, Before(l, tr, n), tr[n].seg)
  }

  lemma ReportedSoFar(l: Limits, tr: seq<Arrival>, n: nat)
    requires n < |tr|
    ensures Reported(l, tr[..n + 1]) == Reported(l, tr[..n]) + IfThen(CutUnspilled(l, tr, n), tr[n].key)
  {
    var sofar := tr[..n + 1];
    assert sofar[..n] == tr[..n];
    ReportedStep(l, sofar);
  }

  lemma CutIsFull(l: Limits, t: Table, k: StreamKey, seg: Segment)
    requires seg.data != [] && Admits(l, t, k) && IsCut(l.maxBytes, Current(t, k), seg)
    ensures var u := Offer(l, t, k, seg).0; k in u.streams && |u.streams[k].buf| == l.maxBytes
  {
  }

  lemma FullAfter(l: Limits, tr: seq<Arrival>, n: nat)
    requires n < |tr| && CutAt(l, tr, n)
    ensures var u := Run(l, tr[..n + 1]); tr[n].key in u.streams && |u.streams[tr[n].key].buf| == l.maxBytes
  {
    assert tr[..n + 1][..n] == tr[..n];
    CutIsFull(l, Run(l, tr[..n]), tr[n].key, tr[n].seg);
  }

  /** A stream that has been counted is full, and stays so. */
  lemma ReportedIsFull(l: Limits, tr: seq<Arrival>, k: StreamKey)
    requires k in Reported(l, tr)
    ensures k in Run(l, tr).streams && |Run(l, tr).streams[k].buf| == l.maxBytes
  {
    var n: nat :| n < |tr| && CutUnspilled(l, tr, n) && tr[n].key == k;
    FullAfter(l, tr, n);
    PrefixNeverChanges(l, tr, n + 1, k);
    CapsHold(l, tr);
  }

  lemma OnlyOneWay(max: nat, s: Stream, seg: Segment)
    requires WithinCaps(max, s)
    ensures IsPastCap(max, s, seg) ==> !IsCut(max, s, seg)
    ensures Spills(max, s, seg) ==> !IsCut(max, s, seg) && |s.buf| < max
  {
  }

  /** As soon as something is dropped, its stream is counted. */
  predicate CountedAt(l: Limits, tr: seq<Arrival>, n: nat)
    requires n < |tr|
  {
    tr[n].key in Reported(l, tr[..n + 1])
  }

  /** No held list ever overflows, and nothing arrives past the cap of a stream that has not been counted already. */
  ghost predicate DropsOnlyWhenCut(l: Limits, tr: seq<Arrival>) {
    forall n | 0 <= n < |tr| ::
      !SpillsAt(l, tr, n) && (PastCapAt(l, tr, n) ==> tr[n].key in Reported(l, tr[..n]))
  }

  /** Under exactly that condition every drop of an admitted stream is counted when it happens. */
  lemma EachDropCountedIff(l: Limits, tr: seq<Arrival>)
    ensures (forall n | 0 <= n < |tr| && LosesAt(l, tr, n) :: CountedAt(l, tr, n)) <==> DropsOnlyWhenCut(l, tr)
  {
    forall n | 0 <= n < |tr|
      ensures SpillsAt(l, tr, n) ==> LosesAt(l, tr, n) && !CountedAt(l, tr, n)
      ensures PastCapAt(l, tr, n) ==> LosesAt(l, tr, n)
      ensures PastCapAt(l, tr, n) ==> (CountedAt(l, tr, n) <==> tr[n].key in Reported(l, tr[..n]))
    {
      DropIsCounted(l, tr, n);
    }
    if DropsOnlyWhenCut(l, tr) {
      forall n | 0 <= n < |tr| && LosesAt(l, tr, n) ensures CountedAt(l, tr, n) {
        CutsAreCountedAtOnce(l, tr, n);
      }
    }
  }

  lemma CutsAreCountedAtOnce(l: Limits, tr: seq<Arrival>, n: nat)
    requires n < |tr| && LosesAt(l, tr, n) && DropsOnlyWhenCut(l, tr)
    ensures CountedAt(l, tr, n)
  {
    NoSpillers(l, tr, n);
    DropIsCounted(l, tr, n);
    assert !SpillsAt(l, tr, n);
    assert CutAt(l, tr, n) ==> CutUnspilled(l, tr, n);
  }

  lemma DropIsCounted(l: Limits, tr: seq<Arrival>, n: nat)
    requires n < |tr|
    ensures SpillsAt(l, tr, n) ==> LosesAt(l, tr, n) && !CountedAt(l, tr, n)
    ensures PastCapAt(l, tr, n) ==> LosesAt(l, tr, n)
    ensures PastCapAt(l, tr, n) ==> (CountedAt(l, tr, n) <==> tr[n].key in Reported(l, tr[..n]))
    ensures CutUnspilled(l, tr, n) ==> CountedAt(l, tr, n)
  {
    ReportedSoFar(l, tr, n);
    CapsHold(l, tr[..n]);
    OnlyOneWay(l.maxBytes, Before(l, tr, n), tr[n].seg);
    if tr[n].key in Reported(l, tr[..n]) {
      ReportedIsFull(l, tr[..n], tr[n].key);
    }
  }

  lemma NoSpillers(l: Limits, tr: seq<Arrival>, n: nat)
    requires n <= |tr| && forall m | 0 <= m < |tr| :: !SpillsAt(l, tr, m)
    ensures Spillers(l, tr[..n]) == {}
  {
    forall m: nat | m < n ensures !SpillsAt(l, tr[..n], m) {
      SameInPrefix(l, tr, n, m);
    }
  }

  lemma SameInPrefix(l: Limits, tr: seq<Arrival>, n: nat, m: nat)
    requires m < n <= |tr|
    ensures SpillsAt(l, tr[..n], m) == SpillsAt(l, tr, m)
  {
    assert tr[..n][..m] == tr[..m] && tr[..n][m] == tr[m];
  }

  const BEYOND := Segment(9, [9])

  /** A gap as long as the cap: what follows it is ignored, unflagged and uncounted. */
  lemma GapLosesTheRest(k: StreamKey)
    ensures var tr := Waiting(k, 0) + [Arrival(k, BEYOND)];
            && Losers(ROOMY, tr) == {k}
            && Run(ROOMY, tr) == Run(ROOMY, Waiting(k, 0)) == Stuck(k, [], false)
            && Run(ROOMY, tr).truncated == 0 && Run(ROOMY, tr).evicted == 0 && Flagged(Run(ROOMY, tr)) == {}
  {
    var first, tr := Waiting(k, 0), Waiting(k, 0) + [Arrival(k, BEYOND)];
    StartHeld(k);
    assert tr[..1] == first && tr[1] == Arrival(k, BEYOND);
    var s := Stream(Some(0), [1], [], false);
    assert Placed(8, s, BEYOND) == s;
    assert map[k := s][k := s] == map[k := s];
    assert LosesAt(ROOMY, tr, 1);
    LosersStep(ROOMY, tr);
    assert forall n | 0 <= n < |tr| :: tr[n].key == k;
  }

  // Sixty-five segments ahead of a gap.

  const ROOMY := Limits(1, 8)
  const START := Segment(0, [1])
  const LATER := Segment(2, [3])

  function Waiting(k: StreamKey, n: nat): (tr: seq<Arrival>)
    ensures |tr| == n + 1
  {
    if n == 0 then [Arrival(k, START)] else Waiting(k, n - 1) + [Arrival(k, LATER)]
  }

  /** One more segment joins those waiting: the same segment every time. */
  lemma WaitingStep(k: StreamKey, n: nat)
    requires n > 0 && k in Run(ROOMY, Waiting(k, n - 1)).streams
    ensures var t := Run(ROOMY, Waiting(k, n - 1));
            && Run(ROOMY, Waiting(k, n)) == Offer(ROOMY, t, k, LATER).0
            && Overflowed(ROOMY, Waiting(k, n)) ==
               Overflowed(ROOMY, Waiting(k, n - 1)) + if Overflows(8, t.streams[k], LATER) then 1 else 0
  {
    var tr := Waiting(k, n);
    assert tr[..n] == Waiting(k, n - 1) && tr[n] == Arrival(k, LATER);
  }

  function Stuck(k: StreamKey, pending: seq<Segment>, flagged: bool): Table {
    Table(map[k := Stream(Some(0), [1], pending, flagged)], 0, 0)
  }

  lemma OneMoreHeld(k: StreamKey, pending: seq<Segment>)
    requires |pending| <= MAX_PENDING
    ensures Offer(ROOMY, Stuck(k, pending, false), k, LATER).0 ==
            if |pending| == MAX_PENDING then Stuck(k, [], true) else Stuck(k, pending + [LATER], false)
  {
    var t, s := Stuck(k, pending, false), Stream(Some(0), [1], pending, false);
    var after := if |pending| == MAX_PENDING then Stream(Some(0), [1], [], true) else s.(pending := pending + [LATER]);
    assert Placed(8, s, LATER) == after;
    assert Offer(ROOMY, t, k, LATER).0 == Table(t.streams[k := after], 0, 0);
    assert t.streams[k := after] == map[k := after];
  }

  lemma StartHeld(k: StreamKey)
    ensures Run(ROOMY, Waiting(k, 0)) == Stuck(k, [], false) && Overflowed(ROOMY, Waiting(k, 0)) == 0
  {
    assert Waiting(k, 0)[..0] == [];
    var s := Stream(Some(0), [1], [], false);
    assert [] + START.data == [1];
    assert Drain(0, [1], []) == ([1], []);
    assert Placed(8, NEW_STREAM, START) == s;
    assert EMPTY_TABLE.streams[k := s] == map[k := s];
  }

  lemma OneMoreWaits(k: StreamKey, n: nat, before: seq<Segment>)
    requires 0 < n <= MAX_PENDING && |before| == n - 1
    requires Run(ROOMY, Waiting(k, n - 1)) == Stuck(k, before, false) && Overflowed(ROOMY, Waiting(k, n - 1)) == 0
    ensures Run(ROOMY, Waiting(k, n)) == Stuck(k, before + [LATER], false) && Overflowed(ROOMY, Waiting(k, n)) == 0
  {
    WaitingStep(k, n);
    OneMoreHeld(k, before);
  }

  lemma {:induction false} HeldWaiting(k: StreamKey, n: nat) returns (pending: seq<Segment>)
    requires n <= MAX_PENDING
    ensures |pending| == n && Run(ROOMY, Waiting(k, n)) == Stuck(k, pending, false)
    ensures Overflowed(ROOMY, Waiting(k, n)) == 0
  {
    if n == 0 {
      StartHeld(k);
      pending := [];
    } else {
      var before := HeldWaiting(k, n - 1);
      OneMoreWaits(k, n, before);
      pending := before + [LATER];
    }
  }

  /** The 65th is dropped with the rest, the stream is flagged, and no counter says so. */
  lemma OverflowIsNotCounted(k: StreamKey)
    ensures Overflowed(ROOMY, Waiting(k, MAX_PENDING + 1)) == 1
    ensures var t := Run(ROOMY, Waiting(k, MAX_PENDING + 1)); Flagged(t) == {k} && t.truncated == 0
  {
    var n := MAX_PENDING + 1;
    var pending := HeldWaiting(k, n - 1);
    WaitingStep(k, n);
    OneMoreHeld(k, pending);
  }
}
