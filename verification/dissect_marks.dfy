/**
 Frames whose fragment mark is not the slice they carry, one for each way this can come about.
 */
module DissectMarks {
  import opened Addresses
  import opened Cursor
  import opened DissectInduction
  import opened DissectRuns
  import opened DissectSlices
  import opened DissectSpec
  import opened DissectState
  import opened Errors
  import opened Fragments
  import opened Integers
  import opened IpHeaders
  import opened Wrappers

  // ---------------------------------------------------------------------------
  // A first IPv4 fragment that carries a whole IPv6 packet
  // ---------------------------------------------------------------------------

  const V4_OCTETS: seq<Byte> := [0x45, 0, 0, 60, 0, 7, 0x20, 0, 64, 41, 0, 0, 1, 2, 3, 4, 5, 6, 7, 8]

  const ZEROS: seq<Byte> := [0, 0, 0, 0, 0, 0, 0, 0, 0, 0, 0, 0, 0, 0, 0]

  const V6_OCTETS: seq<Byte> := [0x60, 0, 0, 0, 0, 0, 59, 64] + ZEROS + [1] + ZEROS + [2]

  const V4_FIELDS := V4Header(20, 60, 7, 0x2000, 41, 0x0102_0304, 0x0506_0708)

  const V6_FIELDS := V6Header(59, 1, 2)

  const OUTER: Header := Header(0, 20, 60, false, V4(0x0102_0304), V4(0x0506_0708), 41, 0, Some(true), Some(7), 1)

  const INNER: Header := Header(20, 60, 60, true, V6(1), V6(2), 59, 0, None, None, 1)

  lemma {:induction false} ZerosThen(s: seq<Byte>, b: Byte)
    requires forall i | 0 <= i < |s| :: s[i] == 0
    ensures FromOctets(s) == 0 && FromOctets(s + [b]) == b
  {
    if s != [] {
      ZerosThen(s[..|s| - 1], 0);
    }
    assert (s + [b])[..|s|] == s;
  }

  lemma OctetsOfV4()
    ensures ParseV4(V4_OCTETS) == Success(V4_FIELDS)
  {
    var s := V4_OCTETS;
    assert |s| == 20 && s[0] == 0x45 && s[9] == 41;
    assert s[2..4] == [0, 60] && s[4..6] == [0, 7] && s[6..8] == [0x20, 0];
    FourOctets(1, 2, 3, 4);
    FourOctets(5, 6, 7, 8);
    assert s[12..16] == [1, 2, 3, 4] && s[16..20] == [5, 6, 7, 8];
  }

  lemma OctetsOfV6()
    ensures |V6_OCTETS| == 40 && ParseV6(V6_OCTETS) == Success(V6_FIELDS)
  {
    assert V6_OCTETS[8..24] == ZEROS + [1] && V6_OCTETS[24..40] == ZEROS + [2];
    ZerosThen(ZEROS, 1);
    ZerosThen(ZEROS, 2);
  }

  lemma OctetsOfTheFrame(frame: seq<Byte>)
    requires frame == V4_OCTETS + V6_OCTETS
    ensures |frame| == 60 && frame[0] == 0x45
    ensures ParseV4(frame[0..60]) == Success(V4_FIELDS) && ParseV6(frame[20..60]) == Success(V6_FIELDS)
  {
    OctetsOfV4();
    OctetsOfV6();
    LongerV4(V4_OCTETS, V6_OCTETS);
    assert frame[0..60] == frame && frame[20..60] == V6_OCTETS;
  }

  lemma FieldsOfOuter()
    ensures V4_FIELDS.MoreFragments() && HeaderV4(0, 60, V4_FIELDS, 1) == OUTER
  {
  }

  lemma OuterIsRead(e: Env, p: Past) returns (known: Past)
    requires e.frame == V4_OCTETS + V6_OCTETS && p.headers == [] && p.bounds == []
    ensures |e.frame| == 60 && Ip4Of(e, 0, 60, p) == CarriedOf(e, OUTER, known)
    ensures known.headers == [] && known.bounds == [ByIp(0)] && known.depth == p.depth
    ensures known.ipFlagMf == Some(true) && known.ipId == Some(7)
  {
    OctetsOfTheFrame(e.frame);
    Ip4Step(e, 0, 60, p, V4_FIELDS);
    known := Told4(p, V4_FIELDS).Met(ByIp(0));
    FieldsOfOuter();
  }

  /** The outer header marks the frame, and its payload is taken for an IPv6 packet in a tunnel. */
  lemma OuterIsMarked(e: Env, known: Past) returns (q: Past)
    requires |e.frame| == 60 && known.headers == [] && known.bounds == [ByIp(0)] && known.depth == 0
    requires known.ipFlagMf == Some(true) && known.ipId == Some(7)
    ensures CarriedOf(e, OUTER, known) == Ip6Of(e, 20, 60, q)
    ensures q.headers == [OUTER] && q.bounds == [ByIp(0)] && q.ipFlagMf == Some(true) && q.ipId == Some(7)
  {
    var t := known.Recorded(OUTER, e.frame[20..60]).(tuple := Some(Tuple(OUTER.src, OUTER.dst, 0, 0, 41)));
    assert CarriedOf(e, OUTER, known) == ProtoOf(e, 41, OUTER.src, OUTER.dst, 20, 60, t);
    assert ProtoOf(e, 41, OUTER.src, OUTER.dst, 20, 60, t) == IpIpOf(e, true, 20, 60, t);
    q := t.Entered(IpIp).value;
  }

  /** The inner header, no fragment, is marked too: with the flag and identification of the outer. */
  lemma InnerIsMarked(e: Env, q: Past)
    requires e.frame == V4_OCTETS + V6_OCTETS
    requires q.headers == [OUTER] && q.bounds == [ByIp(0)] && q.ipFlagMf == Some(true) && q.ipId == Some(7)
    ensures |e.frame| == 60
    ensures var p := Ip6Of(e, 20, 60, q).past;
            p.headers == [OUTER, INNER] && p.frag == Some(FragMeta(FragKey(V6(1), V6(2), 7, 59), 0, true, []))
  {
    OctetsOfTheFrame(e.frame);
    assert Walked(e.frame[60..60], Start(59), 0) == Walk(Start(59), Success(()));
    Ip6Step(e, 20, 60, q, V6_FIELDS, Start(59));
    var told := Told6(q, V6_FIELDS, Start(59));
    assert told.ipFlagMf == Some(true) && told.ipId == Some(7) && told.headers == [OUTER];
    assert HeaderV6(20, 60, V6_FIELDS, Start(59), 1) == INNER;
    assert e.frame[60..60] == [];
    var t := told.Recorded(INNER, []).(tuple := Some(Tuple(V6(1), V6(2), 0, 0, 59)));
    assert CarriedOf(e, INNER, told) == ProtoOf(e, 59, V6(1), V6(2), 60, 60, t);
    assert ProtoOf(e, 59, V6(1), V6(2), 60, 60, t) == DissectSpec.Refused(t);
  }

  lemma SliceOfOuter(frame: seq<Byte>)
    requires frame == V4_OCTETS + V6_OCTETS
    ensures |frame| == 60
    ensures Slice4(frame, 0, 60) ==
            Some(Slice(20, FragMeta(FragKey(V4(0x0102_0304), V4(0x0506_0708), 7, 41), 0, true, V6_OCTETS)))
  {
    OctetsOfTheFrame(frame);
    FieldsOfOuter();
    assert frame[0..] == frame[0..60] && frame[20..60] == V6_OCTETS;
  }

  /** The outer datagram's first fragment is never offered: the frame is marked as the inner packet. */
  lemma InnerPacketTakesTheMark(e: Env)
    requires e.frame == V4_OCTETS + V6_OCTETS
    ensures |e.frame| == 60
    ensures LinkOf(e, 101).past.headers == [OUTER, INNER]
    ensures LinkOf(e, 101).past.frag == Some(FragMeta(FragKey(V6(1), V6(2), 7, 59), 0, true, []))
    ensures Slice4(e.frame, 0, 60) ==
            Some(Slice(20, FragMeta(FragKey(V4(0x0102_0304), V4(0x0506_0708), 7, 41), 0, true, V6_OCTETS)))
  {
    OctetsOfTheFrame(e.frame);
    SliceOfOuter(e.frame);
    RawStep(e, 4);
    var known := OuterIsRead(e, NOTHING);
    var q := OuterIsMarked(e, known);
    InnerIsMarked(e, q);
  }

  // ---------------------------------------------------------------------------
  // IPv6 fragments whose data looks like more headers
  // ---------------------------------------------------------------------------

  const FRONT: seq<Byte> := [44, 64] + ZEROS + [1] + ZEROS + [2]

  const FRONT_FIELDS := V6Header(44, 1, 2)

  /** A bare IPv6 packet: a fragment header with the given first four octets and identification, then data. */
  function Fragmented(head: seq<Byte>, id: seq<Byte>, data: seq<Byte>): seq<Byte>
    requires |head| == |id| == 4 && |data| <= 16
  {
    [0x60, 0, 0, 0, 0, 8 + |data|] + FRONT + (head + id + data)
  }

  lemma OctetsOfFragmented(frame: seq<Byte>, head: seq<Byte>, id: seq<Byte>, data: seq<Byte>)
    requires |head| == |id| == 4 && |data| <= 16 && frame == Fragmented(head, id, data)
    ensures |frame| == 48 + |data| && frame[0] == 0x60 && frame[40..] == head + id + data
    ensures ParseV6(frame) == Success(FRONT_FIELDS) && frame[4..6] == [0, 8 + |data|]
  {
    assert frame[8..24] == ZEROS + [1] && frame[24..40] == ZEROS + [2];
    ZerosThen(ZEROS, 1);
    ZerosThen(ZEROS, 2);
    assert frame[4] == 0 && frame[5] == 8 + |data|;
  }

  /** The chain right after the fragment header. */
  function AfterHeader(head: seq<Byte>, id: seq<Byte>): Chain
    requires |head| == |id| == 4
  {
    var off: int := Value16(head[2..4]);
    Chain(head[0], 8, off / 8 * 8, Some(off % 2 == 1), Some(Value32(id)))
  }

  lemma HeaderIsRead(s: seq<Byte>, head: seq<Byte>, id: seq<Byte>, data: seq<Byte>)
    requires |head| == |id| == 4 && s == head + id + data
    ensures Extension(s, Start(44)) == Success(AfterHeader(head, id)) && s[8..] == data
  {
    assert s[2..4] == head[2..4] && s[4..8] == id;
  }

  /** By RFC 8200 the data is a slice under the header's own protocol, whatever it looks like. */
  lemma SliceOfFragmented(frame: seq<Byte>, head: seq<Byte>, id: seq<Byte>, data: seq<Byte>)
    requires |head| == |id| == 4 && |data| <= 16 && frame == Fragmented(head, id, data)
    requires Parted(AfterHeader(head, id))
    ensures |frame| == 48 + |data|
    ensures var c := AfterHeader(head, id);
            Slice6(frame, 0, |frame|) ==
            Some(Slice(48, FragMeta(FragKey(V6(1), V6(2), Value32(id), c.proto), c.offset, c.flag == Some(true), data)))
  {
    OctetsOfFragmented(frame, head, id, data);
    var s := head + id + data;
    HeaderIsRead(s, head, id, data);
    assert frame[0..] == frame && frame[40..|frame|] == s;
    assert PacketEnd6(frame, 0) == |frame| && Packet6(frame, 0, |frame|) == s;
    assert FirstFragment(s, Start(44)) == Some(AfterHeader(head, id));
  }

  lemma MarkOfRaw(e: Env, c: Chain)
    requires |e.frame| >= 40 && e.frame[0] == 0x60 && ParseV6(e.frame) == Success(FRONT_FIELDS)
    requires Walked(e.frame[40..], Start(44), 0) == Walk(c, Success(()))
    requires c.flag.Some? && c.id.Some? && Parted(c) && c.proto in {1, 59}
    ensures 40 + c.pos <= |e.frame|
    ensures LinkOf(e, 101).past.frag ==
            Some(FragMeta(FragKey(V6(1), V6(2), c.id.value, c.proto), c.offset, c.flag.value, e.frame[40 + c.pos..]))
  {
    var n := |e.frame|;
    assert e.frame[0..n] == e.frame && e.frame[40..n] == e.frame[40..];
    RawStep(e, 6);
    Ip6Step(e, 0, n, NOTHING, FRONT_FIELDS, c);
    MarkOfCarried(e, HeaderV6(0, n, FRONT_FIELDS, c, 0), Told6(NOTHING, FRONT_FIELDS, c));
    assert e.frame[40 + c.pos..n] == e.frame[40 + c.pos..];
  }

  lemma LeafKeepsMark(e: Env, h: Header, t: Past)
    requires Within(e, h.body, h.end) && h.proto in {1, 59}
    ensures ProtoOf(e, h.proto, h.src, h.dst, h.body, h.end, t).past.frag == t.frag
  {
    if h.proto == 1 {
      assert ProtoOf(e, 1, h.src, h.dst, h.body, h.end, t) == PortlessOf(e, 1, h.body, h.end, t);
    } else {
      assert ProtoOf(e, 59, h.src, h.dst, h.body, h.end, t) == PortlessOf(e, 59, h.body, h.end, t);
    }
  }

  lemma MarkOfCarried(e: Env, h: Header, p: Past)
    requires Within(e, h.body, h.end) && h.proto in {1, 59}
    requires p.ipFlagMf == h.flag && p.ipId == h.id && (h.flag == Some(true) || h.offset != 0)
    ensures CarriedOf(e, h, p).past.frag ==
            Some(FragMeta(FragKey(h.src, h.dst, OrZero(h.id), h.proto), h.offset, h.flag == Some(true),
                          e.frame[h.body..h.end]))
  {
    var q := p.Recorded(h, e.frame[h.body..h.end]);
    if h.offset == 0 {
      var t := q.(tuple := Some(Tuple(h.src, h.dst, 0, 0, h.proto)));
      assert CarriedOf(e, h, p) == ProtoOf(e, h.proto, h.src, h.dst, h.body, h.end, t);
      LeafKeepsMark(e, h, t);
    }
  }

  const ID: seq<Byte> := [0, 0, 0, 9]

  const EIGHTS: seq<Byte> := [8, 8, 8, 8, 8, 8, 8, 8]

  lemma TwoSteps(s: seq<Byte>, c: Chain, d: Chain)
    requires Extension(s, Start(44)) == Success(c) && IsExtension(c.proto)
    requires Extension(s, c) == Success(d) && !IsExtension(d.proto)
    ensures Walked(s, Start(44), 0) == Walk(d, Success(()))
  {
    WalkedStep(s, Start(44), 0);
    WalkedStep(s, c, 1);
  }

  /** What the program makes of such a packet when the walk takes it to `d`. */
  lemma MarkOfFragmented(e: Env, head: seq<Byte>, id: seq<Byte>, data: seq<Byte>, d: Chain)
    requires |head| == |id| == 4 && |data| <= 16 && e.frame == Fragmented(head, id, data)
    requires Walked(head + id + data, Start(44), 0) == Walk(d, Success(()))
    requires d.flag.Some? && d.id.Some? && Parted(d) && d.proto in {1, 59} && 8 <= d.pos <= 8 + |data|
    ensures LinkOf(e, 101).past.frag ==
            Some(FragMeta(FragKey(V6(1), V6(2), d.id.value, d.proto), d.offset, d.flag.value, data[d.pos - 8..]))
  {
    OctetsOfFragmented(e.frame, head, id, data);
    MarkOfRaw(e, d);
    assert e.frame[40 + d.pos..] == (head + id + data)[d.pos..] == data[d.pos - 8..];
  }

  const FIRST_HEAD: seq<Byte> := [60, 0, 0, 1]

  const OPTIONS: seq<Byte> := [59, 0, 0, 0, 0, 0, 0, 0]

  lemma WalkOfFirst()
    ensures AfterHeader(FIRST_HEAD, ID) == Chain(60, 8, 0, Some(true), Some(9))
    ensures Walked(FIRST_HEAD + ID + (OPTIONS + EIGHTS), Start(44), 0) ==
            Walk(Chain(59, 16, 0, Some(true), Some(9)), Success(()))
  {
    var s, c := FIRST_HEAD + ID + (OPTIONS + EIGHTS), Chain(60, 8, 0, Some(true), Some(9));
    FourOctets(0, 0, 0, 9);
    assert FIRST_HEAD[2..4] == [0, 1];
    HeaderIsRead(s, FIRST_HEAD, ID, OPTIONS + EIGHTS);
    assert s[8] == 59 && s[9] == 0;
    TwoSteps(s, c, c.(proto := 59, pos := 16));
  }

  /** The first fragment of a datagram that starts with destination options: its mark lacks them. */
  lemma MarkOfFirst(e: Env)
    requires e.frame == Fragmented(FIRST_HEAD, ID, OPTIONS + EIGHTS)
    ensures LinkOf(e, 101).past.frag == Some(FragMeta(FragKey(V6(1), V6(2), 9, 59), 0, true, EIGHTS))
    ensures |e.frame| == 64
    ensures Slice6(e.frame, 0, 64) ==
            Some(Slice(48, FragMeta(FragKey(V6(1), V6(2), 9, 60), 0, true, OPTIONS + EIGHTS)))
  {
    WalkOfFirst();
    FourOctets(0, 0, 0, 9);
    SliceOfFragmented(e.frame, FIRST_HEAD, ID, OPTIONS + EIGHTS);
    MarkOfFragmented(e, FIRST_HEAD, ID, OPTIONS + EIGHTS, Chain(59, 16, 0, Some(true), Some(9)));
    assert (OPTIONS + EIGHTS)[8..] == EIGHTS;
  }

  const LAST_HEAD: seq<Byte> := [60, 0, 0, 16]

  const LAST_DATA: seq<Byte> := [1, 0, 0, 0, 0, 0, 0, 0]

  lemma WalkOfLast()
    ensures AfterHeader(LAST_HEAD, ID) == Chain(60, 8, 16, Some(false), Some(9))
    ensures Walked(LAST_HEAD + ID + LAST_DATA, Start(44), 0) ==
            Walk(Chain(1, 16, 16, Some(false), Some(9)), Success(()))
  {
    var s, c := LAST_HEAD + ID + LAST_DATA, Chain(60, 8, 16, Some(false), Some(9));
    FourOctets(0, 0, 0, 9);
    assert LAST_HEAD[2..4] == [0, 16];
    HeaderIsRead(s, LAST_HEAD, ID, LAST_DATA);
    assert s[8] == 1 && s[9] == 0;
    TwoSteps(s, c, c.(proto := 1, pos := 16));
  }

  /** The last fragment of that datagram: its data is taken for a header, and it gets another key. */
  lemma MarkOfLast(e: Env)
    requires e.frame == Fragmented(LAST_HEAD, ID, LAST_DATA)
    ensures LinkOf(e, 101).past.frag == Some(FragMeta(FragKey(V6(1), V6(2), 9, 1), 16, false, []))
    ensures |e.frame| == 56
    ensures Slice6(e.frame, 0, 56) == Some(Slice(48, FragMeta(FragKey(V6(1), V6(2), 9, 60), 16, false, LAST_DATA)))
  {
    WalkOfLast();
    FourOctets(0, 0, 0, 9);
    SliceOfFragmented(e.frame, LAST_HEAD, ID, LAST_DATA);
    MarkOfFragmented(e, LAST_HEAD, ID, LAST_DATA, Chain(1, 16, 16, Some(false), Some(9)));
  }

  const TWICE_HEAD: seq<Byte> := [44, 0, 0, 1]

  /** What the datagram starts with: a second fragment header, with an offset of 16. */
  const SECOND: seq<Byte> := [59, 0, 0, 17] + [0, 0, 0, 5]

  lemma FragmentOctets(s: seq<Byte>, second: seq<Byte>, more: seq<Byte>)
    requires |second| == 8 && |s| >= 16 && s[8..] == second + more
    ensures s[8] == second[0] && s[10..12] == second[2..4] && s[12..16] == second[4..8]
  {
    assert forall i | 0 <= i < 8 :: s[8 + i] == s[8..][i];
  }

  lemma WalkOfTwice()
    ensures AfterHeader(TWICE_HEAD, ID) == Chain(44, 8, 0, Some(true), Some(9))
    ensures Walked(TWICE_HEAD + ID + (SECOND + EIGHTS), Start(44), 0) ==
            Walk(Chain(59, 16, 16, Some(true), Some(5)), Success(()))
  {
    var s, c := TWICE_HEAD + ID + (SECOND + EIGHTS), Chain(44, 8, 0, Some(true), Some(9));
    FourOctets(0, 0, 0, 9);
    FourOctets(0, 0, 0, 5);
    assert TWICE_HEAD[2..4] == [0, 1];
    HeaderIsRead(s, TWICE_HEAD, ID, SECOND + EIGHTS);
    FragmentOctets(s, SECOND, EIGHTS);
    assert SECOND[0] == 59 && SECOND[2..4] == [0, 17] && SECOND[4..8] == [0, 0, 0, 5];
    TwoSteps(s, c, Chain(59, 16, 16, Some(true), Some(5)));
  }

  /** The fragment header inside the data overrules the packet's own: another key, another offset. */
  lemma SecondHeaderTakesTheMark(e: Env)
    requires e.frame == Fragmented(TWICE_HEAD, ID, SECOND + EIGHTS)
    ensures LinkOf(e, 101).past.frag == Some(FragMeta(FragKey(V6(1), V6(2), 5, 59), 16, true, EIGHTS))
    ensures |e.frame| == 64
    ensures Slice6(e.frame, 0, 64) ==
            Some(Slice(48, FragMeta(FragKey(V6(1), V6(2), 9, 44), 0, true, SECOND + EIGHTS)))
  {
    WalkOfTwice();
    FourOctets(0, 0, 0, 9);
    SliceOfFragmented(e.frame, TWICE_HEAD, ID, SECOND + EIGHTS);
    MarkOfFragmented(e, TWICE_HEAD, ID, SECOND + EIGHTS, Chain(59, 16, 16, Some(true), Some(5)));
    assert (SECOND + EIGHTS)[8..] == EIGHTS;
  }

  /** Options that claim more octets than there are. */
  const OVERLONG: seq<Byte> := [59, 255, 0, 0, 0, 0, 0, 0]

  lemma WalkOfOverlong()
    ensures AfterHeader(FIRST_HEAD, ID) == Chain(60, 8, 0, Some(true), Some(9))
    ensures Walked(FIRST_HEAD + ID + OVERLONG, Start(44), 0).r == Failure(Truncated)
  {
    var s, c := FIRST_HEAD + ID + OVERLONG, Chain(60, 8, 0, Some(true), Some(9));
    FourOctets(0, 0, 0, 9);
    assert FIRST_HEAD[2..4] == [0, 1];
    HeaderIsRead(s, FIRST_HEAD, ID, OVERLONG);
    assert s[9] == 255 && Extension(s, c) == Failure(Truncated);
    WalkedStep(s, Start(44), 0);
    WalkedStep(s, c, 1);
  }

  /** The walk fails in the data, and the fragment is not marked at all. */
  lemma FragmentIsLost(e: Env)
    requires e.frame == Fragmented(FIRST_HEAD, ID, OVERLONG)
    ensures |e.frame| == 56
    ensures LinkOf(e, 101).past.frag == None && LinkOf(e, 101).past.lost == Some(Lost(0, 56))
    ensures Slice6(e.frame, 0, 56) == Some(Slice(48, FragMeta(FragKey(V6(1), V6(2), 9, 60), 0, true, OVERLONG)))
  {
    WalkOfOverlong();
    FourOctets(0, 0, 0, 9);
    SliceOfFragmented(e.frame, FIRST_HEAD, ID, OVERLONG);
    OctetsOfFragmented(e.frame, FIRST_HEAD, ID, OVERLONG);
    assert e.frame[0..56] == e.frame && e.frame[40..56] == FIRST_HEAD + ID + OVERLONG;
    RawStep(e, 6);
  }
}
