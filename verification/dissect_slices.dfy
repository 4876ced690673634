/**
 Whether a frame's fragment mark is the slice of a datagram that RFC 791 (section 3.2) or RFC 8200
 (section 4.5) says the frame carries. Both are read off the octets: an IPv4 fragment's data lies
 between its header and its total length, an IPv6 fragment's between its first fragment header and
 its payload length. The program instead makes the mark of whatever its columns hold once it has
 walked every header it takes for an extension.
 */
module DissectSlices {
  import opened Addresses
  import opened DissectFacts
  import opened DissectRuns
  import opened DissectSpec
  import opened DissectState
  import opened Cursor
  import opened Fragments
  import opened Integers
  import opened IpHeaders
  import opened Wrappers

  /** A slice of a datagram, and where in the frame its data starts. */
  datatype Slice = Slice(from: nat, meta: FragMeta)

  // ---------------------------------------------------------------------------
  // IPv6: the first fragment header decides
  // ---------------------------------------------------------------------------

  /** What a fragment header says of a datagram sent in parts; one sent whole may carry such a header too. */
  predicate Parted(c: Chain) {
    c.flag == Some(true) || c.offset != 0
  }

  lemma ExtensionAdvances(s: seq<Byte>, c: Chain)
    requires IsExtension(c.proto) && Extension(s, c).Success?
    ensures c.pos + 8 <= Extension(s, c).value.pos <= |s|
  {
  }

  /** Right after the first fragment header of a datagram in parts, however many headers come before it. */
  function FirstFragment(s: seq<Byte>, c: Chain): (r: Option<Chain>)
    requires c.pos <= |s|
    ensures r.Some? ==> c.pos + 8 <= r.value.pos <= |s| && r.value.flag.Some? && r.value.id.Some? && Parted(r.value)
    decreases |s| - c.pos
  {
    if !IsExtension(c.proto) || Extension(s, c).Failure? then None
    else
      ExtensionAdvances(s, c);
      var next := Extension(s, c).value;
      if c.proto == IP_FRAGMENT && Parted(next) then Some(next) else FirstFragment(s, next)
  }

  lemma {:induction false} LongerFirst(s: seq<Byte>, t: seq<Byte>, c: Chain)
    requires c.pos <= |s| && FirstFragment(s, c).Some?
    ensures FirstFragment(s + t, c) == FirstFragment(s, c)
    decreases |s| - c.pos
  {
    var next := Extension(s, c).value;
    LongerExtension(s, t, c);
    ExtensionAdvances(s, c);
    if !(c.proto == IP_FRAGMENT && Parted(next)) {
      LongerFirst(s, t, next);
    }
  }

  /** A walk that ends well ends right there, or else further on. */
  lemma {:induction false} WalkPassesFirst(s: seq<Byte>, c: Chain, n: nat)
    requires c.pos <= |s| && Walked(s, c, n).r.Success? && FirstFragment(s, c).Some?
    ensures var (r, first) := (Walked(s, c, n).chain, FirstFragment(s, c).value);
            if IsExtension(first.proto) then r.pos > first.pos else r == first
    decreases |s| - c.pos
  {
    var next := Extension(s, c).value;
    ExtensionAdvances(s, c);
    if !(c.proto == IP_FRAGMENT && Parted(next)) {
      WalkPassesFirst(s, next, n + 1);
    } else if IsExtension(next.proto) {
      ExtensionAdvances(s, next);
      ChainAdvances(s, Extension(s, next).value, n + 2);
    }
  }

  /** Where the IPv6 packet ends by its own payload length. */
  function PacketEnd6(frame: seq<Byte>, at: nat): nat
    requires at + 40 <= |frame|
  {
    at + 40 + Value16(frame[at + 4..at + 6])
  }

  /** The packet's octets after its fixed header, as far as the window holds them. */
  function Packet6(frame: seq<Byte>, at: nat, end: nat): seq<Byte>
    requires at + 40 <= end <= |frame|
  {
    frame[at + 40..Min(PacketEnd6(frame, at), end)]
  }

  function First6(frame: seq<Byte>, at: nat, end: nat): Option<Chain>
    requires at + 40 <= end <= |frame|
  {
    match ParseV6(frame[at..])
    case Failure(_) => None
    case Success(v) => FirstFragment(Packet6(frame, at, end), Start(v.next))
  }

  /** The slice that RFC 8200 says the packet carries, if it is a fragment. */
  function Slice6(frame: seq<Byte>, at: nat, end: nat): Option<Slice>
    requires at + 40 <= end <= |frame|
  {
    match First6(frame, at, end)
    case None => None
    case Some(c) =>
      var v := ParseV6(frame[at..]).value;
      var key := FragKey(V6(v.src), V6(v.dst), OrZero(c.id), c.proto);
      var data := Packet6(frame, at, end)[c.pos..];
      Some(Slice(at + 40 + c.pos, FragMeta(key, c.offset, c.flag == Some(true), data)))
  }

  // ---------------------------------------------------------------------------
  // IPv4
  // ---------------------------------------------------------------------------

  /** The slice that RFC 791 says the packet carries, if it is a fragment and long enough for its header. */
  function Slice4(frame: seq<Byte>, at: nat, limit: nat): Option<Slice>
    requires at <= limit <= |frame|
  {
    match ParseV4(frame[at..])
    case Failure(_) => None
    case Success(v) =>
      var body := at + v.headerLen;
      if (!v.MoreFragments() && v.Offset() == 0) || v.totalLen < v.headerLen || body > limit then None
      else
        var key := FragKey(V4(v.src), V4(v.dst), v.id, v.proto);
        Some(Slice(body, FragMeta(key, v.Offset(), v.MoreFragments(), frame[body..Min(at + v.totalLen, limit)])))
  }

  // ---------------------------------------------------------------------------
  // The slice of a header the program recorded
  // ---------------------------------------------------------------------------

  /** Where the window of a header ends before its own length field has its say. */
  function Limit(frame: seq<Byte>, bs: seq<Bound>, h: Header): nat
    requires Confined(frame, bs, h)
  {
    if h.v6 then h.end else WindowEnd(frame, bs[..h.within - 1])
  }

  lemma LimitHolds(frame: seq<Byte>, bs: seq<Bound>, h: Header)
    requires Describes(frame, h) && Confined(frame, bs, h)
    ensures h.end <= Limit(frame, bs, h) <= |frame|
    ensures !h.v6 ==> h.end == EndV4(ParseV4(frame[h.at..]).value, h.at, Limit(frame, bs, h))
  {
    if !h.v6 {
      var all := bs[..h.within];
      assert all[..h.within - 1] == bs[..h.within - 1] && all[h.within - 1] == ByIp(h.at);
      WindowIsInFrame(frame, bs[..h.within - 1]);
    }
  }

  lemma {:induction false} WindowIsInFrame(frame: seq<Byte>, bs: seq<Bound>)
    ensures WindowEnd(frame, bs) <= |frame|
  {
    if bs != [] {
      WindowIsInFrame(frame, bs[..|bs| - 1]);
    }
  }

  function Assigned(frame: seq<Byte>, bs: seq<Bound>, h: Header): Option<Slice>
    requires Describes(frame, h) && Confined(frame, bs, h)
  {
    LimitHolds(frame, bs, h);
    if h.v6 then Slice6(frame, h.at, h.end) else Slice4(frame, h.at, Limit(frame, bs, h))
  }

  /**
   The program cuts the header's slice right: for IPv6, no extension header follows the fragment header
   and nothing in the window follows the packet; for IPv4, the total length exceeds the header's, or
   nothing follows the header.
   */
  predicate CutsRight(frame: seq<Byte>, bs: seq<Bound>, h: Header)
    requires Describes(frame, h) && Confined(frame, bs, h)
  {
    if h.v6 then
      && h.end <= PacketEnd6(frame, h.at)
      && match First6(frame, h.at, h.end)
         case None => true
         case Some(c) => !IsExtension(c.proto)
    else
      var v := ParseV4(frame[h.at..]).value;
      v.totalLen > v.headerLen || Limit(frame, bs, h) == h.body
  }

  /** What the columns make of the last header. */
  function ColumnSlice(frame: seq<Byte>, hs: seq<Header>): Slice
    requires hs != []
  {
    var h := hs[|hs| - 1];
    Slice(h.body, FragMeta(FragKey(h.src, h.dst, OrZero(IdColumn(hs)), h.proto), h.offset,
                           MfColumn(hs) == Some(true), PayloadOf(frame, h)))
  }

  /** The guard under which the program marks the frame at its last header. */
  predicate Claims(hs: seq<Header>)
    requires hs != []
  {
    MfColumn(hs) == Some(true) || hs[|hs| - 1].offset != 0
  }

  lemma {:induction false} Described6(frame: seq<Byte>, h: Header)
    requires h.v6 && Describes(frame, h) && First6(frame, h.at, h.end).Some?
    ensures var c := First6(frame, h.at, h.end).value;
            if IsExtension(c.proto) then h.body > h.at + 40 + c.pos
            else Chain(h.proto, h.body - h.at - 40, h.offset, h.flag, h.id) == c
  {
    var (s, packet, v) := (frame[h.at + 40..], Packet6(frame, h.at, h.end), ParseV6(frame[h.at..]).value);
    assert s == packet + frame[Min(PacketEnd6(frame, h.at), h.end)..];
    LongerFirst(packet, frame[Min(PacketEnd6(frame, h.at), h.end)..], Start(v.next));
    WalkPassesFirst(s, Start(v.next), 0);
  }

  lemma ColumnSliceIff6(frame: seq<Byte>, bs: seq<Bound>, hs: seq<Header>)
    requires hs != [] && Sound(frame, bs, hs)
    requires var h := hs[|hs| - 1]; h.v6 && Assigned(frame, bs, h).Some?
    ensures var h := hs[|hs| - 1];
            Claims(hs) && Some(ColumnSlice(frame, hs)) == Assigned(frame, bs, h) <==> CutsRight(frame, bs, h)
  {
    var h := hs[|hs| - 1];
    var c, packet := First6(frame, h.at, h.end).value, Packet6(frame, h.at, h.end);
    Described6(frame, h);
    if !IsExtension(c.proto) {
      var stop := Min(PacketEnd6(frame, h.at), h.end);
      assert packet[c.pos..] == frame[h.body..stop];
      assert |PayloadOf(frame, h)| == h.end - h.body;
    }
  }

  lemma ColumnSliceIff4(frame: seq<Byte>, bs: seq<Bound>, hs: seq<Header>)
    requires hs != [] && Sound(frame, bs, hs)
    requires var h := hs[|hs| - 1]; !h.v6 && Assigned(frame, bs, h).Some?
    ensures var h := hs[|hs| - 1];
            Claims(hs) && Some(ColumnSlice(frame, hs)) == Assigned(frame, bs, h) <==> CutsRight(frame, bs, h)
  {
    var h := hs[|hs| - 1];
    LimitHolds(frame, bs, h);
    assert |PayloadOf(frame, h)| == h.end - h.body;
  }

  // ---------------------------------------------------------------------------
  // All the headers of a frame
  // ---------------------------------------------------------------------------

  function MetaOf(s: Option<Slice>): Option<FragMeta> {
    if s.Some? then Some(s.value.meta) else None
  }

  /** The program's mark, and where in the frame it takes the data from. */
  function MarkAt(frame: seq<Byte>, hs: seq<Header>): Option<Slice> {
    if hs == [] then None
    else if Claims(hs) then Some(ColumnSlice(frame, hs))
    else MarkAt(frame, hs[..|hs| - 1])
  }

  lemma {:induction false} MarkAtIsMarked(frame: seq<Byte>, hs: seq<Header>)
    ensures Marked(frame, hs) == MetaOf(MarkAt(frame, hs))
  {
    if hs != [] {
      MarkAtIsMarked(frame, hs[..|hs| - 1]);
    }
  }

  /** The slice of the last header that has one. */
  function AssignedAt(frame: seq<Byte>, bs: seq<Bound>, hs: seq<Header>): Option<Slice>
    requires Sound(frame, bs, hs)
  {
    if hs == [] then None
    else
      var own := Assigned(frame, bs, hs[|hs| - 1]);
      if own.Some? then own else AssignedAt(frame, bs, hs[..|hs| - 1])
  }

  /** Where the last header that has a slice stands, -1 if none has. */
  function LastAssigned(frame: seq<Byte>, bs: seq<Bound>, hs: seq<Header>): (i: int)
    requires Sound(frame, bs, hs)
    ensures -1 <= i < |hs|
  {
    if hs == [] then -1
    else if Assigned(frame, bs, hs[|hs| - 1]).Some? then |hs| - 1
    else LastAssigned(frame, bs, hs[..|hs| - 1])
  }

  predicate ClaimsAt(hs: seq<Header>, i: int)
    requires 0 <= i < |hs|
  {
    Claims(hs[..i + 1])
  }

  predicate NoneClaims(hs: seq<Header>, from: int)
    requires from >= -1
  {
    forall i | from < i < |hs| :: !ClaimsAt(hs, i)
  }

  /** The last slice is cut right, and no later header marks the frame. */
  predicate MarksRight(frame: seq<Byte>, bs: seq<Bound>, hs: seq<Header>)
    requires Sound(frame, bs, hs)
  {
    var f := LastAssigned(frame, bs, hs);
    NoneClaims(hs, f) && (f >= 0 ==> CutsRightAt(frame, bs, hs, f))
  }

  predicate CutsRightAt(frame: seq<Byte>, bs: seq<Bound>, hs: seq<Header>, i: nat)
    requires Sound(frame, bs, hs) && i < |hs|
  {
    SoundAt(frame, bs, hs, i);
    CutsRight(frame, bs, hs[i])
  }

  lemma NoneClaimsInit(hs: seq<Header>, from: int)
    requires hs != [] && -1 <= from < |hs| - 1
    ensures NoneClaims(hs, from) <==> !Claims(hs) && NoneClaims(hs[..|hs| - 1], from)
  {
    var n := |hs| - 1;
    assert hs[..n + 1] == hs;
    forall i | from < i < n ensures ClaimsAt(hs, i) == ClaimsAt(hs[..n], i) {
      assert hs[..i + 1] == hs[..n][..i + 1];
    }
    assert ClaimsAt(hs, n) == Claims(hs);
  }

  lemma SliceIsInside(frame: seq<Byte>, bs: seq<Bound>, h: Header)
    requires Describes(frame, h) && Confined(frame, bs, h) && Assigned(frame, bs, h).Some?
    ensures h.at < Assigned(frame, bs, h).value.from <= h.body
  {
    if h.v6 {
      Described6(frame, h);
    }
  }

  lemma {:induction false} SlicesComeEarlier(frame: seq<Byte>, bs: seq<Bound>, hs: seq<Header>)
    requires hs != [] && Sound(frame, bs, hs) && Nested(hs)
    ensures AssignedAt(frame, bs, hs).Some? ==> AssignedAt(frame, bs, hs).value.from <= hs[|hs| - 1].body
  {
    var init, h := hs[..|hs| - 1], hs[|hs| - 1];
    if Assigned(frame, bs, h).Some? {
      SliceIsInside(frame, bs, h);
    } else if init != [] {
      SlicesComeEarlier(frame, bs, init);
    }
  }

  lemma {:induction false} MarksComeEarlier(frame: seq<Byte>, bs: seq<Bound>, hs: seq<Header>)
    requires hs != [] && Sound(frame, bs, hs) && Nested(hs)
    ensures MarkAt(frame, hs).Some? ==> MarkAt(frame, hs).value.from <= hs[|hs| - 1].body
  {
    if !Claims(hs) && |hs| > 1 {
      MarksComeEarlier(frame, bs, hs[..|hs| - 1]);
    }
  }

  /** The last header has a slice: it is the mark exactly when it is cut right. */
  lemma LastSliceIff(frame: seq<Byte>, bs: seq<Bound>, hs: seq<Header>)
    requires hs != [] && Sound(frame, bs, hs) && Nested(hs) && Assigned(frame, bs, hs[|hs| - 1]).Some?
    ensures MarkAt(frame, hs) == Assigned(frame, bs, hs[|hs| - 1]) <==> CutsRight(frame, bs, hs[|hs| - 1])
  {
    var init, h := hs[..|hs| - 1], hs[|hs| - 1];
    SliceIsInside(frame, bs, h);
    if init != [] {
      MarksComeEarlier(frame, bs, init);
    }
    if h.v6 {
      ColumnSliceIff6(frame, bs, hs);
    } else {
      ColumnSliceIff4(frame, bs, hs);
    }
  }

  /** The last header has no slice, but marks the frame. */
  lemma FalseClaim(frame: seq<Byte>, bs: seq<Bound>, hs: seq<Header>)
    requires hs != [] && Sound(frame, bs, hs) && Nested(hs) && Claims(hs) && Assigned(frame, bs, hs[|hs| - 1]).None?
    ensures MarkAt(frame, hs) != AssignedAt(frame, bs, hs)
  {
    var init, h := hs[..|hs| - 1], hs[|hs| - 1];
    if init != [] {
      SlicesComeEarlier(frame, bs, init);
    }
    assert h.at < h.body;
  }

  lemma {:induction false} MarkIsSliceIff(frame: seq<Byte>, bs: seq<Bound>, hs: seq<Header>)
    requires Sound(frame, bs, hs) && Nested(hs)
    ensures MarkAt(frame, hs) == AssignedAt(frame, bs, hs) <==> MarksRight(frame, bs, hs)
  {
    if hs != [] {
      var init, n := hs[..|hs| - 1], |hs| - 1;
      if Assigned(frame, bs, hs[n]).Some? {
        LastSliceIff(frame, bs, hs);
        assert NoneClaims(hs, n);
      } else {
        var f := LastAssigned(frame, bs, init);
        NoneClaimsInit(hs, f);
        if Claims(hs) {
          FalseClaim(frame, bs, hs);
        } else {
          MarkIsSliceIff(frame, bs, init);
          assert f >= 0 ==> init[f] == hs[f];
        }
      }
    }
  }

  // ---------------------------------------------------------------------------
  // Whole frames
  // ---------------------------------------------------------------------------

  /** A header whose extensions could not be walked, though it is that of a fragment. */
  predicate LostSlice(frame: seq<Byte>, p: Past)
    requires LostIsLast(frame, p)
  {
    p.lost.Some? && Slice6(frame, p.lost.value.at, p.lost.value.end).Some?
  }

  /** The slice of the innermost fragment of the frame, by its octets. */
  function FrameSlice(frame: seq<Byte>, p: Past): Option<Slice>
    requires Told(frame, p)
  {
    if LostSlice(frame, p) then Slice6(frame, p.lost.value.at, p.lost.value.end)
    else AssignedAt(frame, p.bounds, p.headers)
  }

  lemma LostIsNeverMarked(frame: seq<Byte>, bs: seq<Bound>, hs: seq<Header>, l: Lost)
    requires Sound(frame, bs, hs) && Nested(hs) && IsLost(frame, l)
    requires hs != [] ==> hs[|hs| - 1].body <= l.at
    ensures Slice6(frame, l.at, l.end).Some? ==> MarkAt(frame, hs) != Slice6(frame, l.at, l.end)
  {
    if hs != [] {
      MarksComeEarlier(frame, bs, hs);
    }
  }

  /**
   On every frame of every link type the program's mark is the slice of its innermost fragment, taken
   from where that lies, exactly when: the extensions of no fragment failed to be walked; the innermost
   fragment is cut right; and no header inside it marks the frame.
   */
  lemma FrameMarkIsSliceIff(e: Env, linktype: U16)
    ensures var p := LinkOf(e, linktype).past;
            && Told(e.frame, p)
            && p.frag == MetaOf(MarkAt(e.frame, p.headers))
            && (MarkAt(e.frame, p.headers) == FrameSlice(e.frame, p) <==>
                !LostSlice(e.frame, p) && MarksRight(e.frame, p.bounds, p.headers))
  {
    var p := LinkOf(e, linktype).past;
    EveryFrameIsTold(e, linktype);
    MarkAtIsMarked(e.frame, p.headers);
    MarkIsSliceIff(e.frame, p.bounds, p.headers);
    if p.lost.Some? {
      LostIsNeverMarked(e.frame, p.bounds, p.headers, p.lost.value);
    }
  }
}
