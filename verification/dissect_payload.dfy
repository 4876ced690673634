/**
 Whether the pipeline finds the payload that dissection took: exactly when no IPv4 total length and
 no UDP length on the way to it says that its packet ends before the frame does. And whether an IPv4
 payload ends where its packet does.
 */
module DissectPayload {
  import opened Addresses
  import opened Cursor
  import opened DissectFacts
  import opened DissectFields
  import opened DissectInduction
  import opened DissectRuns
  import opened DissectSlices
  import opened DissectSpec
  import opened DissectState
  import opened Integers
  import opened IpHeaders
  import opened PayloadRange
  import opened Wrappers

  /** The length field says that what it covers ends before the frame does. */
  predicate Cuts(frame: seq<Byte>, b: Bound) {
    SaidEnd(frame, b).Some? && SaidEnd(frame, b).value < |frame|
  }

  lemma {:induction false} WindowIsWholeIff(frame: seq<Byte>, bs: seq<Bound>)
    ensures WindowEnd(frame, bs) <= |frame|
    ensures WindowEnd(frame, bs) == |frame| <==> forall b | b in bs :: !Cuts(frame, b)
  {
    if bs != [] {
      var init, last := bs[..|bs| - 1], bs[|bs| - 1];
      WindowIsWholeIff(frame, init);
      InInitOrLast(bs);
      assert last in bs && forall b | b in init :: b in bs;
      assert WindowEnd(frame, bs) == |frame| <==> WindowEnd(frame, init) == |frame| && !Cuts(frame, last);
    }
  }

  lemma InInitOrLast(bs: seq<Bound>)
    requires bs != []
    ensures forall b | b in bs :: b in bs[..|bs| - 1] || b == bs[|bs| - 1]
  {
    assert bs == bs[..|bs| - 1] + [bs[|bs| - 1]];
  }

  /** Where the range lies when `after` octets follow the payload. */
  lemma RangeAmong(before: nat, len: nat, after: nat)
    ensures TcpPayloadRange(Some(len % TWO_TO_THE_32), before + len + after) == Some((before, len))
       <==> 0 < len <= 0xffff && ((after == 0 && before <= 0xffff) || before == 0xffff)
  {
    if len >= TWO_TO_THE_32 {
      assert len > 0xffff;
    }
  }

  /**
   The range the pipeline hands to stream reassembly is where the payload is exactly when no length
   field cuts the frame short, or the payload starts just where the range saturates; and the payload
   is neither empty nor too long for the range.
   */
  lemma RangeIsPayloadIff(e: Env, linktype: U16)
    ensures var p := LinkOf(e, linktype).past;
            match p.payload
            case None => TcpPayloadRange(p.tcpPayloadLen, |e.frame|) == None
            case Some(t) =>
              && t.start + |t.bytes| <= |e.frame| && t.bytes == e.frame[t.start..t.start + |t.bytes|]
              && (TcpPayloadRange(p.tcpPayloadLen, |e.frame|) == Some((t.start, |t.bytes|)) <==>
                  && 0 < |t.bytes| <= 0xffff
                  && (((forall b | b in p.bounds :: !Cuts(e.frame, b)) && t.start <= 0xffff) || t.start == 0xffff))
  {
    EveryFrameIsTold(e, linktype);
    PlacedRange(e.frame, LinkOf(e, linktype).past);
  }

  lemma PlacedRange(frame: seq<Byte>, p: Past)
    requires PayloadIsPlaced(frame, p)
    ensures match p.payload
            case None => TcpPayloadRange(p.tcpPayloadLen, |frame|) == None
            case Some(t) =>
              && t.start + |t.bytes| <= |frame| && t.bytes == frame[t.start..t.start + |t.bytes|]
              && (TcpPayloadRange(p.tcpPayloadLen, |frame|) == Some((t.start, |t.bytes|)) <==>
                  && 0 < |t.bytes| <= 0xffff
                  && (((forall b | b in p.bounds :: !Cuts(frame, b)) && t.start <= 0xffff) || t.start == 0xffff))
  {
    WindowIsWholeIff(frame, p.bounds);
    if p.payload.Some? {
      var t := p.payload.value;
      RangeAmong(t.start, |t.bytes|, |frame| - t.start - |t.bytes|);
    }
  }

  /** In a frame that 16 bits can index, only a length field can lead the pipeline astray. */
  lemma CapturedRangeIsPayloadIff(e: Env, linktype: U16)
    requires |e.frame| <= 0xffff
    ensures var p := LinkOf(e, linktype).past;
            p.payload.Some? && p.payload.value.bytes != [] ==>
              var t := p.payload.value;
              TcpPayloadRange(p.tcpPayloadLen, |e.frame|) == Some((t.start, |t.bytes|)) <==>
              forall b | b in p.bounds :: !Cuts(e.frame, b)
  {
    RangeIsPayloadIff(e, linktype);
  }

  // ---------------------------------------------------------------------------
  // A frame padded to the Ethernet minimum
  // ---------------------------------------------------------------------------

  const ETHERNET: seq<Byte> := [2, 0, 0, 0, 0, 1, 2, 0, 0, 0, 0, 2, 8, 0]

  /** The total length is 42: 20 of header, 20 of TCP and two of payload. */
  const SHORT_V4: seq<Byte> := [0x45, 0, 0, 42, 0, 1, 0, 0, 64, 6, 0, 0, 10, 0, 0, 1, 10, 0, 0, 2]

  const SEGMENT: seq<Byte> := [3, 232, 0, 80, 0, 0, 0, 1, 0, 0, 0, 0, 0x50, 0x18, 1, 0, 0, 0, 0, 0, 104, 105]

  const PADDED: seq<Byte> := ETHERNET + SHORT_V4 + SEGMENT + [0, 0, 0, 0]

  const SHORT_HEADER := V4Header(20, 42, 1, 0, 6, 0x0a00_0001, 0x0a00_0002)

  lemma OctetsOfShort()
    ensures ParseV4(SHORT_V4) == Success(SHORT_HEADER)
  {
    var s := SHORT_V4;
    assert |s| == 20 && s[0] == 0x45 && s[9] == 6;
    assert s[2..4] == [0, 42] && s[4..6] == [0, 1] && s[6..8] == [0, 0];
    FourOctets(10, 0, 0, 1);
    FourOctets(10, 0, 0, 2);
    assert s[12..16] == [10, 0, 0, 1] && s[16..20] == [10, 0, 0, 2];
  }

  lemma PartsOfPadded()
    ensures |PADDED| == 60 && PADDED[12] == 8 && PADDED[13] == 0
    ensures PADDED[14..60] == SHORT_V4 + (SEGMENT + [0, 0, 0, 0])
    ensures PADDED[34..56] == SEGMENT
  {
  }

  lemma EtherCarriesV4(e: Env)
    requires |e.frame| == 60 && e.frame[12] == 8 && e.frame[13] == 0
    ensures LinkOf(e, 1) == Ip4Of(e, 14, 60, NOTHING.On("eth"))
  {
    assert e.frame[0..60][12..14] == [8, 0] && Value16([8, 0]) == 0x0800;
  }

  lemma ParsesShort()
    ensures |PADDED| == 60 && ParseV4(PADDED[14..60]) == Success(SHORT_HEADER) && PADDED[14..] == PADDED[14..60]
  {
    PartsOfPadded();
    OctetsOfShort();
    LongerV4(SHORT_V4, SEGMENT + [0, 0, 0, 0]);
  }

  /** A whole TCP packet right after an Ethernet header. */
  lemma V4CarriesTcp(e: Env, p: Past, v: V4Header) returns (q: Past)
    requires |e.frame| == 60 && p.bounds == [] && ParseV4(e.frame[14..60]) == Success(v)
    requires v.headerLen == 20 && v.flagsFrag == 0 && v.proto == 6
    ensures 34 <= EndV4(v, 14, 60) <= 60
    ensures Ip4Of(e, 14, 60, p) == TcpOf(e, V4(v.src), V4(v.dst), 34, EndV4(v, 14, 60), q) && q.bounds == [ByIp(14)]
  {
    Ip4Step(e, 14, 60, p, v);
    q := HeaderCarriesTcp(e, HeaderV4(14, 60, v, 1), Told4(p, v).Met(ByIp(14)));
  }

  lemma HeaderCarriesTcp(e: Env, h: Header, p: Past) returns (q: Past)
    requires Within(e, h.body, h.end) && h.proto == 6 && h.offset == 0
    ensures CarriedOf(e, h, p) == TcpOf(e, h.src, h.dst, h.body, h.end, q) && q.bounds == p.bounds
  {
    q := p.Recorded(h, e.frame[h.body..h.end]).(tuple := Some(Tuple(h.src, h.dst, 0, 0, 6)));
    assert CarriedOf(e, h, p) == ProtoOf(e, 6, h.src, h.dst, h.body, h.end, q);
  }

  lemma TcpTakesTwo(e: Env, src: IpAddr, dst: IpAddr, q: Past)
    requires e.frame == PADDED
    ensures |PADDED| == 60
    ensures var p := TcpOf(e, src, dst, 34, 56, q).past;
            && p.payload == Some(Taken(54, [104, 105])) && p.tcpPayloadLen == Some(2) && p.bounds == q.bounds
  {
    PartsOfPadded();
    assert SEGMENT[12..14] == [0x50, 0x18] && SEGMENT[20..] == [104, 105];
    assert TcpPayloadAt(SEGMENT) == 20;
  }

  lemma ShortIsCut()
    ensures |PADDED| == 60 && PADDED[58..60] == [0, 0] && Cuts(PADDED, ByIp(14))
  {
    ParsesShort();
    assert SaidEnd(PADDED, ByIp(14)) == Some(56);
  }

  /** The two octets at 54 are taken, but the pipeline looks at the last two, which are padding. */
  lemma PaddingIsTakenForPayload(e: Env)
    requires e.frame == PADDED
    ensures |PADDED| == 60
    ensures var p := LinkOf(e, 1).past;
            && p.payload == Some(Taken(54, [104, 105])) && p.bounds == [ByIp(14)] && Cuts(PADDED, ByIp(14))
            && TcpPayloadRange(p.tcpPayloadLen, 60) == Some((58, 2)) && PADDED[58..60] == [0, 0]
  {
    PartsOfPadded();
    EtherCarriesV4(e);
    ParsesShort();
    var q := V4CarriesTcp(e, NOTHING.On("eth"), SHORT_HEADER);
    TcpTakesTwo(e, V4(0x0a00_0001), V4(0x0a00_0002), q);
    ShortIsCut();
  }

  // ---------------------------------------------------------------------------
  // Where an IPv4 payload ends
  // ---------------------------------------------------------------------------

  /**
   The payload of an IPv4 header ends where RFC 791 says, as far as the window around it goes, exactly
   when the total length exceeds the header's or nothing follows the header: a packet with no payload
   is given whatever comes after it.
   */
  lemma PayloadEndsAsSaidIff(e: Env, linktype: U16, i: nat)
    requires i < |LinkOf(e, linktype).past.headers| && !LinkOf(e, linktype).past.headers[i].v6
    ensures var (p, h) := (LinkOf(e, linktype).past, LinkOf(e, linktype).past.headers[i]);
            && Describes(e.frame, h) && Confined(e.frame, p.bounds, h)
            && var (v, limit) := (ParseV4(e.frame[h.at..]).value, Limit(e.frame, p.bounds, h));
               v.totalLen >= v.headerLen ==>
                 (h.end == Min(h.at + v.totalLen, limit) <==> v.totalLen > v.headerLen || limit == h.body)
  {
    var p := LinkOf(e, linktype).past;
    EveryFrameIsTold(e, linktype);
    SoundAt(e.frame, p.bounds, p.headers, i);
    EndsAsSaidIff(e.frame, p.bounds, p.headers[i]);
  }

  lemma EndsAsSaidIff(frame: seq<Byte>, bs: seq<Bound>, h: Header)
    requires !h.v6 && Describes(frame, h) && Confined(frame, bs, h)
    ensures var (v, limit) := (ParseV4(frame[h.at..]).value, Limit(frame, bs, h));
            v.totalLen >= v.headerLen ==>
              (h.end == Min(h.at + v.totalLen, limit) <==> v.totalLen > v.headerLen || limit == h.body)
  {
    LimitHolds(frame, bs, h);
  }

  /** The total length is 20, that of the header alone. */
  const EMPTY_V4: seq<Byte> := [0x45, 0, 0, 20, 0, 1, 0, 0, 64, 6, 0, 0, 10, 0, 0, 1, 10, 0, 0, 2]

  const TWENTY_ZEROS: seq<Byte> := [0, 0, 0, 0, 0, 0, 0, 0, 0, 0, 0, 0, 0, 0, 0, 0, 0, 0, 0, 0]

  const SIX_ZEROS: seq<Byte> := [0, 0, 0, 0, 0, 0]

  const ALL_PADDING: seq<Byte> := ETHERNET + EMPTY_V4 + (TWENTY_ZEROS + SIX_ZEROS)

  const EMPTY_HEADER := V4Header(20, 20, 1, 0, 6, 0x0a00_0001, 0x0a00_0002)

  lemma OctetsOfEmpty()
    ensures ParseV4(EMPTY_V4) == Success(EMPTY_HEADER)
  {
    var s := EMPTY_V4;
    assert |s| == 20 && s[0] == 0x45 && s[9] == 6;
    assert s[2..4] == [0, 20] && s[4..6] == [0, 1] && s[6..8] == [0, 0];
    FourOctets(10, 0, 0, 1);
    FourOctets(10, 0, 0, 2);
    assert s[12..16] == [10, 0, 0, 1] && s[16..20] == [10, 0, 0, 2];
  }

  lemma PartsOfPadding()
    ensures |ALL_PADDING| == 60 && ALL_PADDING[12] == 8 && ALL_PADDING[13] == 0
    ensures ALL_PADDING[14..60] == EMPTY_V4 + (TWENTY_ZEROS + SIX_ZEROS)
    ensures ALL_PADDING[34..60] == TWENTY_ZEROS + SIX_ZEROS
  {
  }

  lemma AllZeros()
    ensures TcpHeaderAt(TWENTY_ZEROS + SIX_ZEROS) == Success(TcpHeader(0, 0, 0, 0))
    ensures (TWENTY_ZEROS + SIX_ZEROS)[20..] == SIX_ZEROS
  {
    var s := TWENTY_ZEROS + SIX_ZEROS;
    assert forall i | 0 <= i < 20 :: s[i] == TWENTY_ZEROS[i] == 0;
    FourOctets(0, 0, 0, 0);
    assert s[4..8] == [0, 0, 0, 0];
  }

  lemma PaddingReadsAsTcp(e: Env, src: IpAddr, dst: IpAddr, q: Past)
    requires e.frame == ALL_PADDING
    ensures |ALL_PADDING| == 60
    ensures var p := TcpOf(e, src, dst, 34, 60, q).past;
            p.payload == Some(Taken(54, SIX_ZEROS)) && p.tuple == Some(Tuple(src, dst, 0, 0, 6))
  {
    PartsOfPadding();
    var s := TWENTY_ZEROS + SIX_ZEROS;
    AllZeros();
    assert TcpHeaderAt(s) == Success(TcpHeader(0, 0, 0, 0)) && TcpPayloadAt(s) == 20;
  }

  /** A packet that is all header, padded by its Ethernet frame: the padding is taken for a TCP segment. */
  lemma PaddingIsTakenForTcp(e: Env)
    requires e.frame == ALL_PADDING
    ensures var p := LinkOf(e, 1).past;
            && p.payload == Some(Taken(54, SIX_ZEROS))
            && p.tuple == Some(Tuple(V4(0x0a00_0001), V4(0x0a00_0002), 0, 0, 6))
  {
    PartsOfPadding();
    OctetsOfEmpty();
    LongerV4(EMPTY_V4, TWENTY_ZEROS + SIX_ZEROS);
    EtherCarriesV4(e);
    var q := V4CarriesTcp(e, NOTHING.On("eth"), EMPTY_HEADER);
    PaddingReadsAsTcp(e, V4(0x0a00_0001), V4(0x0a00_0002), q);
  }
}
