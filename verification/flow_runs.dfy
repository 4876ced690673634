/**
 The flow table against a declarative reading of the trace: which conversations are admitted, what
 every row says, when merging equals observing, and what the TCP state means.
 */
module FlowRuns {
  import opened Flows
  import opened Wrappers

  type Trace = seq<Observation>

  // ---------------------------------------------------------------------------
  // The declarative summary of one conversation's packets
  // ---------------------------------------------------------------------------

  function Heading(tr: Trace, forward: bool): Trace {
    if tr == [] then []
    else
      var rest := Heading(tr[..|tr| - 1], forward);
      if tr[|tr| - 1].Runs(forward) then rest + [tr[|tr| - 1]] else rest
  }

  function TotalLen(tr: Trace): nat {
    if tr == [] then 0 else TotalLen(tr[..|tr| - 1]) + tr[|tr| - 1].len
  }

  function FlagsOf(o: Observation): Flags {
    if o.tcpFlags.Some? then o.tcpFlags.value else {}
  }

  function AllFlags(tr: Trace): Flags {
    if tr == [] then {} else AllFlags(tr[..|tr| - 1]) + FlagsOf(tr[|tr| - 1])
  }

  function Count(tr: Trace, bit: TcpFlag): nat {
    if tr == [] then 0 else Count(tr[..|tr| - 1], bit) + if tr[|tr| - 1].Has(bit) then 1 else 0
  }

  ghost predicate Seen(tr: Trace, bit: TcpFlag) {
    exists o :: o in tr && o.Has(bit)
  }

  /** A bare SYN, or a SYN with ACK. */
  ghost predicate SynSeen(tr: Trace, ack: bool) {
    exists o :: o in tr && o.Has(SYN) && o.Has(ACK) == ack
  }

  function FirstSome(tr: Trace, f: Field): Option<string> {
    if tr == [] then None
    else TakeFirst(FirstSome(tr[..|tr| - 1], f), tr[|tr| - 1].details.Get(f))
  }

  ghost predicate Spans(s: Span, tr: Trace) {
    && (exists o :: o in tr && o.ts == s.firstTs)
    && (exists o :: o in tr && o.ts == s.lastTs)
    && (forall o | o in tr :: s.firstTs <= o.ts <= s.lastTs)
    && (exists o :: o in tr && o.frame == s.firstFrame)
    && (exists o :: o in tr && o.frame == s.lastFrame)
    && (forall o | o in tr :: s.firstFrame <= o.frame <= s.lastFrame)
  }

  /** The packets of one direction. */
  ghost predicate Tells(s: Side, tr: Trace, ack: bool) {
    && s.packets == |tr|
    && s.bytes == TotalLen(tr)
    && s.flags == AllFlags(tr)
    && s.fin == Seen(tr, FIN)
    && s.syn == SynSeen(tr, ack)
  }

  ghost predicate Counts(s: Stats, tr: Trace) {
    && s.synCount == Count(tr, SYN) && s.finCount == Count(tr, FIN) && s.rstCount == Count(tr, RST)
    && s.sawReset == Seen(tr, RST)
  }

  ghost predicate Carries(d: Details, tr: Trace) {
    forall f: Field :: d.Get(f) == FirstSome(tr, f)
  }

  /** The row's figures say about the packets of a conversation what their names promise. */
  ghost predicate Summarises(s: Stats, tr: Trace) {
    && Spans(s.span, tr)
    && Tells(s.c2s, Heading(tr, true), false)
    && Tells(s.s2c, Heading(tr, false), true)
    && Counts(s, tr)
    && Carries(s.details, tr)
  }

  lemma DetailsByField(d: Details, e: Details)
    requires forall f: Field :: d.Get(f) == e.Get(f)
    ensures d == e
  {
    assert d.Get(Sni) == e.Get(Sni) && d.Get(HttpHost) == e.Get(HttpHost) && d.Get(DnsQname) == e.Get(DnsQname);
    assert d.Get(Ja3) == e.Get(Ja3) && d.Get(Ja3s) == e.Get(Ja3s) && d.Get(Ja4) == e.Get(Ja4);
  }

  /** A trace has only one summary. */
  lemma SummaryIsUnique(s: Stats, s': Stats, tr: Trace)
    requires Summarises(s, tr) && Summarises(s', tr)
    ensures s == s'
  {
    assert s.span == s'.span && s.c2s == s'.c2s && s.s2c == s'.s2c;
    DetailsByField(s.details, s'.details);
  }

  /** A detail is the one carried by the earliest packet that carried any. */
  lemma {:induction false} FirstSomeIsEarliest(tr: Trace, f: Field)
    ensures FirstSome(tr, f).None? <==> forall o | o in tr :: o.details.Get(f).None?
    ensures FirstSome(tr, f).Some? ==>
              exists i :: 0 <= i < |tr| && tr[i].details.Get(f) == FirstSome(tr, f)
                          && forall j | 0 <= j < i :: tr[j].details.Get(f).None?
  {
    if tr != [] {
      var init := tr[..|tr| - 1];
      FirstSomeIsEarliest(init, f);
      assert forall o :: o in tr <==> o in init || o == tr[|tr| - 1];
      if FirstSome(init, f).Some? {
        var i :| 0 <= i < |init| && init[i].details.Get(f) == FirstSome(init, f)
                 && forall j | 0 <= j < i :: init[j].details.Get(f).None?;
        assert tr[i] == init[i] && forall j | 0 <= j < i :: tr[j] == init[j];
      } else {
        assert forall j | 0 <= j < |init| :: tr[j] in init;
        assert FirstSome(tr, f).Some? ==> tr[|tr| - 1].details.Get(f) == FirstSome(tr, f);
      }
    }
  }

  // ---------------------------------------------------------------------------
  // Summaries of concatenated traces combine
  // ---------------------------------------------------------------------------

  lemma SplitLast(xs: Trace, ys: Trace)
    requires ys != []
    ensures (xs + ys)[..|xs + ys| - 1] == xs + ys[..|ys| - 1]
    ensures (xs + ys)[|xs + ys| - 1] == ys[|ys| - 1]
  {
  }

  lemma {:induction false} HeadingConcat(xs: Trace, ys: Trace, forward: bool)
    ensures Heading(xs + ys, forward) == Heading(xs, forward) + Heading(ys, forward)
  {
    if ys == [] {
      assert xs + ys == xs;
    } else {
      SplitLast(xs, ys);
      HeadingConcat(xs, ys[..|ys| - 1], forward);
    }
  }

  lemma {:induction false} TotalLenConcat(xs: Trace, ys: Trace)
    ensures TotalLen(xs + ys) == TotalLen(xs) + TotalLen(ys)
  {
    if ys == [] {
      assert xs + ys == xs;
    } else {
      SplitLast(xs, ys);
      TotalLenConcat(xs, ys[..|ys| - 1]);
    }
  }

  lemma {:induction false} AllFlagsConcat(xs: Trace, ys: Trace)
    ensures AllFlags(xs + ys) == AllFlags(xs) + AllFlags(ys)
  {
    if ys == [] {
      assert xs + ys == xs;
    } else {
      SplitLast(xs, ys);
      AllFlagsConcat(xs, ys[..|ys| - 1]);
    }
  }

  lemma {:induction false} CountConcat(xs: Trace, ys: Trace, bit: TcpFlag)
    ensures Count(xs + ys, bit) == Count(xs, bit) + Count(ys, bit)
  {
    if ys == [] {
      assert xs + ys == xs;
    } else {
      SplitLast(xs, ys);
      CountConcat(xs, ys[..|ys| - 1], bit);
    }
  }

  lemma {:induction false} FirstSomeConcat(xs: Trace, ys: Trace, f: Field)
    ensures FirstSome(xs + ys, f) == TakeFirst(FirstSome(xs, f), FirstSome(ys, f))
  {
    if ys == [] {
      assert xs + ys == xs;
    } else {
      SplitLast(xs, ys);
      FirstSomeConcat(xs, ys[..|ys| - 1], f);
    }
  }

  lemma SpansConcat(a: Span, b: Span, xs: Trace, ys: Trace)
    requires Spans(a, xs) && Spans(b, ys)
    ensures Spans(CombinedSpan(a, b), xs + ys)
  {
    assert forall o :: o in xs + ys <==> o in xs || o in ys;
    var c := CombinedSpan(a, b);
    assert c.firstTs == a.firstTs || c.firstTs == b.firstTs;
    assert c.lastTs == a.lastTs || c.lastTs == b.lastTs;
    assert c.firstFrame == a.firstFrame || c.firstFrame == b.firstFrame;
    assert c.lastFrame == a.lastFrame || c.lastFrame == b.lastFrame;
  }

  lemma SeenConcat(xs: Trace, ys: Trace)
    ensures forall bit :: Seen(xs + ys, bit) <==> Seen(xs, bit) || Seen(ys, bit)
    ensures forall ack :: SynSeen(xs + ys, ack) <==> SynSeen(xs, ack) || SynSeen(ys, ack)
  {
    assert forall o :: o in xs + ys <==> o in xs || o in ys;
  }

  lemma TellsConcat(a: Side, b: Side, xs: Trace, ys: Trace, ack: bool)
    requires Tells(a, xs, ack) && Tells(b, ys, ack)
    ensures Tells(CombinedSide(a, b), xs + ys, ack)
  {
    TotalLenConcat(xs, ys);
    AllFlagsConcat(xs, ys);
    SeenConcat(xs, ys);
  }

  lemma CarriesConcat(d: Details, e: Details, xs: Trace, ys: Trace)
    requires Carries(d, xs) && Carries(e, ys)
    ensures Carries(TakeAll(d, e), xs + ys)
  {
    forall f: Field ensures TakeAll(d, e).Get(f) == FirstSome(xs + ys, f) {
      FirstSomeConcat(xs, ys, f);
      assert TakeAll(d, e).Get(f) == TakeFirst(d.Get(f), e.Get(f));
    }
  }

  /** Combining two rows summarises one trace followed by the other. */
  lemma SummaryConcat(a: Stats, b: Stats, xs: Trace, ys: Trace)
    requires Summarises(a, xs) && Summarises(b, ys)
    ensures Summarises(Combined(a, b), xs + ys)
  {
    SpansConcat(a.span, b.span, xs, ys);
    HeadingConcat(xs, ys, true);
    HeadingConcat(xs, ys, false);
    TellsConcat(a.c2s, b.c2s, Heading(xs, true), Heading(ys, true), false);
    TellsConcat(a.s2c, b.s2c, Heading(xs, false), Heading(ys, false), true);
    CountConcat(xs, ys, SYN);
    CountConcat(xs, ys, FIN);
    CountConcat(xs, ys, RST);
    SeenConcat(xs, ys);
    CarriesConcat(a.details, b.details, xs, ys);
  }

  lemma SingleTells(o: Observation, ack: bool)
    ensures Tells(Grown(QUIET, o, ack), [o], ack)
    ensures Tells(QUIET, [], ack)
  {
    assert o in [o] && [o][..0] == [];
    assert TotalLen([]) == 0 && AllFlags([]) == {};
  }

  /** The row of one packet alone. */
  function Single(o: Observation): Stats {
    Updated(Opened(o, 0), o).stats
  }

  lemma OnePacket(o: Observation)
    ensures Summarises(Single(o), [o])
  {
    var s, tr := Single(o), [o];
    assert o in tr && tr[..0] == [];
    assert Heading([], true) == Heading([], false) == [];
    SingleTells(o, false);
    SingleTells(o, true);
    assert Count([], SYN) == Count([], FIN) == Count([], RST) == 0;
    forall f: Field ensures s.details.Get(f) == FirstSome(tr, f) {
      assert FirstSome([], f) == None;
    }
  }

  /** Observing a packet is combining with the row of that packet alone. */
  lemma UpdatedIsCombined(f: Flow, o: Observation)
    ensures Updated(f, o).stats == Combined(f.stats, Single(o))
  {
  }

  /** The summary of a conversation, packet by packet. */
  function Summary(tr: Trace): Stats
    requires tr != []
  {
    if |tr| == 1 then Single(tr[0]) else Combined(Summary(tr[..|tr| - 1]), Single(tr[|tr| - 1]))
  }

  lemma {:induction false} SummaryMeans(tr: Trace)
    requires tr != []
    ensures Summarises(Summary(tr), tr)
  {
    var init, o := tr[..|tr| - 1], tr[|tr| - 1];
    OnePacket(o);
    assert tr == init + [o];
    if init != [] {
      SummaryMeans(init);
      SummaryConcat(Summary(init), Single(o), init, [o]);
      var whole := init + [o];
      assert Summarises(Summary(tr), whole);
    }
  }

  lemma SummaryStep(f: Flow, tr: Trace, o: Observation)
    requires tr != [] && f.stats == Summary(tr)
    ensures Updated(f, o).stats == Summary(tr + [o])
  {
    UpdatedIsCombined(f, o);
    assert (tr + [o])[..|tr|] == tr;
  }
}
