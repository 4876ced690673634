/**
 What must be true of the columns at every step of a frame's dissection, and how each update keeps
 it: tunnels and depth, whose addresses the outer columns hold, which header the tuple and the
 fragment mark come from, and where the length fields let a payload end.
 */
module DissectFacts {
  import opened Addresses
  import opened Cursor
  import opened DissectState
  import opened Fragments
  import opened Integers
  import opened IpHeaders
  import opened Wrappers

  function Tunnels(stack: seq<Layer>): nat {
    if stack == [] then 0 else Tunnels(stack[..|stack| - 1]) + if stack[|stack| - 1].Tunnel? then 1 else 0
  }

  function IpLayers(stack: seq<Layer>): nat {
    if stack == [] then 0 else IpLayers(stack[..|stack| - 1]) + if stack[|stack| - 1].Ip? then 1 else 0
  }

  // ---------------------------------------------------------------------------
  // Headers
  // ---------------------------------------------------------------------------

  /** The header is what the octets of the frame say, in RFC 791 or RFC 8200 terms. */
  predicate Describes(frame: seq<Byte>, h: Header) {
    && h.at < h.body <= h.end <= |frame|
    && if h.v6 then
         match ParseV6(frame[h.at..])
         case Failure(_) => false
         case Success(v) =>
           && h.at + 40 <= h.body && h.src == V6(v.src) && h.dst == V6(v.dst)
           && Walked(frame[h.at + 40..], Start(v.next), 0) ==
              Walk(Chain(h.proto, h.body - h.at - 40, h.offset, h.flag, h.id), Success(()))
       else
         match ParseV4(frame[h.at..])
         case Failure(_) => false
         case Success(v) =>
           && h.body == h.at + v.headerLen
           && h.src == V4(v.src) && h.dst == V4(v.dst) && h.proto == v.proto
           && h.offset == v.Offset() && h.flag == Some(v.MoreFragments()) && h.id == Some(v.id)
  }

  /** Where a length field of the frame says that what it covers ends, if it says anything. */
  function SaidEnd(frame: seq<Byte>, b: Bound): Option<nat> {
    match b
    case ByIp(at) =>
      if at > |frame| || ParseV4(frame[at..]).Failure? then None
      else
        var v := ParseV4(frame[at..]).value;
        if v.totalLen > v.headerLen then Some(at + v.totalLen) else None
    case ByUdp(at) =>
      if at + 8 > |frame| then None
      else
        var len := Value16(frame[at + 4..at + 6]);
        if len >= 8 then Some(at + len) else None
  }

  /** The least of the frame's own end and all that the length fields say. */
  function WindowEnd(frame: seq<Byte>, bs: seq<Bound>): nat {
    if bs == [] then |frame|
    else
      var outer := WindowEnd(frame, bs[..|bs| - 1]);
      match SaidEnd(frame, bs[|bs| - 1])
      case None => outer
      case Some(n) => Min(outer, n)
  }

  /** The payload of `h` ends where the first `h.within` length fields let it, its own among them. */
  predicate Confined(frame: seq<Byte>, bs: seq<Bound>, h: Header) {
    && h.within <= |bs|
    && h.end == WindowEnd(frame, bs[..h.within])
    && (!h.v6 ==> h.within > 0 && bs[h.within - 1] == ByIp(h.at))
  }

  /** Every header starts after the one before, and its payload ends no later. */
  predicate Nested(hs: seq<Header>) {
    |hs| <= 1 ||
    (hs[|hs| - 2].body <= hs[|hs| - 1].at && hs[|hs| - 1].end <= hs[|hs| - 2].end && Nested(hs[..|hs| - 1]))
  }

  predicate Sound(frame: seq<Byte>, bs: seq<Bound>, hs: seq<Header>) {
    if hs == [] then true
    else
      var h := hs[|hs| - 1];
      Describes(frame, h) && Confined(frame, bs, h) && Sound(frame, bs, hs[..|hs| - 1])
  }

  // ---------------------------------------------------------------------------
  // Columns, as functions of the headers met
  // ---------------------------------------------------------------------------

  /** The MF column: an IPv6 header without a fragment header leaves it as it was. */
  function MfColumn(hs: seq<Header>): Option<bool> {
    if hs == [] then None
    else if hs[|hs| - 1].flag.Some? then hs[|hs| - 1].flag
    else MfColumn(hs[..|hs| - 1])
  }

  function IdColumn(hs: seq<Header>): Option<U32> {
    if hs == [] then None
    else if hs[|hs| - 1].id.Some? then hs[|hs| - 1].id
    else IdColumn(hs[..|hs| - 1])
  }

  function PayloadOf(frame: seq<Byte>, h: Header): seq<Byte> {
    if h.body <= h.end <= |frame| then frame[h.body..h.end] else []
  }

  /** The fragment mark after a header: made from the columns, so it may be made of stale ones. */
  function Marked(frame: seq<Byte>, hs: seq<Header>): Option<FragMeta> {
    if hs == [] then None
    else
      var h, mf := hs[|hs| - 1], MfColumn(hs) == Some(true);
      if mf || h.offset != 0 then
        Some(FragMeta(FragKey(h.src, h.dst, OrZero(IdColumn(hs)), h.proto), h.offset, mf, PayloadOf(frame, h)))
      else Marked(frame, hs[..|hs| - 1])
  }

  /** The last header whose payload starts with a transport header. */
  function Dispatched(hs: seq<Header>): Option<Header> {
    if hs == [] then None
    else if hs[|hs| - 1].offset == 0 then Some(hs[|hs| - 1])
    else Dispatched(hs[..|hs| - 1])
  }

  predicate Identifies(t: Tuple, h: Header) {
    t.srcIp == h.src && t.dstIp == h.dst && t.proto == h.proto
  }

  // ---------------------------------------------------------------------------
  // What holds
  // ---------------------------------------------------------------------------

  predicate Counted(p: Past) {
    && p.depth == Tunnels(p.stack) <= MAX_DEPTH
    && |p.headers| <= IpLayers(p.stack) <= |p.headers| + 1
    && |p.headers| <= p.depth + 1
  }

  /** The outer columns hold the first header's addresses from the first tunnel on. */
  predicate OuterIsFirst(p: Past) {
    if p.depth == 0 then
      && p.outer == NO_OUTER
      && (p.headers != [] ==> p.ipSrc == Some(p.headers[0].src) && p.ipDst == Some(p.headers[0].dst))
    else
      p.headers != [] && p.outer.src == Some(p.headers[0].src) && p.outer.dst == Some(p.headers[0].dst)
  }

  predicate TupleIsLast(p: Past) {
    match p.tuple
    case None => Dispatched(p.headers) == None
    case Some(t) => Dispatched(p.headers).Some? && Identifies(t, Dispatched(p.headers).value)
  }

  /** The payload is the part of the frame that ends where the length fields let it. */
  predicate PayloadIsPlaced(frame: seq<Byte>, p: Past) {
    match p.payload
    case None => p.tcpPayloadLen == None
    case Some(t) =>
      && t.start + |t.bytes| == WindowEnd(frame, p.bounds) <= |frame|
      && t.bytes == frame[t.start..t.start + |t.bytes|]
      && p.tcpPayloadLen == Some(|t.bytes| % TWO_TO_THE_32)
  }

  /** There is a whole IPv6 header at the place. */
  predicate IsLost(frame: seq<Byte>, l: Lost) {
    l.at + 40 <= l.end <= |frame| && ParseV6(frame[l.at..]).Success?
  }

  predicate LostIsLast(frame: seq<Byte>, p: Past) {
    match p.lost
    case None => true
    case Some(l) =>
      && IsLost(frame, l) && l.end == WindowEnd(frame, p.bounds)
      && (p.headers != [] ==> p.headers[|p.headers| - 1].body <= l.at && l.end <= p.headers[|p.headers| - 1].end)
  }

  /** Holds of a frame's columns however far dissection came. */
  predicate Told(frame: seq<Byte>, p: Past) {
    && Counted(p) && OuterIsFirst(p) && TupleIsLast(p) && PayloadIsPlaced(frame, p)
    && Sound(frame, p.bounds, p.headers) && Nested(p.headers)
    && p.frag == Marked(frame, p.headers) && LostIsLast(frame, p)
  }

  /** Holds while there is still `frame[pos..end]` to read. */
  predicate Going(frame: seq<Byte>, pos: nat, end: nat, p: Past) {
    && Told(frame, p)
    && pos <= end == WindowEnd(frame, p.bounds) <= |frame|
    && IpLayers(p.stack) == |p.headers|
    && p.ipFlagMf == MfColumn(p.headers) && p.ipId == IdColumn(p.headers)
    && p.payload == None && p.lost == None
    && (p.headers != [] ==> p.headers[|p.headers| - 1].body <= pos && end <= p.headers[|p.headers| - 1].end)
  }

  /** Ready for a link or network header: any earlier IP header has been wrapped in a tunnel. */
  predicate Ready(frame: seq<Byte>, pos: nat, end: nat, p: Past) {
    Going(frame, pos, end, p) && |p.headers| <= p.depth
  }

  /** Ready for what an IP header carries. */
  predicate Inside(frame: seq<Byte>, pos: nat, end: nat, p: Past) {
    Going(frame, pos, end, p) && p.headers != []
  }

  // ---------------------------------------------------------------------------
  // What each update keeps
  // ---------------------------------------------------------------------------

  lemma StackGrows(stack: seq<Layer>, l: Layer)
    ensures Tunnels(stack + [l]) == Tunnels(stack) + if l.Tunnel? then 1 else 0
    ensures IpLayers(stack + [l]) == IpLayers(stack) + if l.Ip? then 1 else 0
  {
    assert (stack + [l])[..|stack|] == stack;
  }

  lemma ToldOn(frame: seq<Byte>, p: Past, name: string)
    requires Told(frame, p)
    ensures Told(frame, p.On(name))
  {
    StackGrows(p.stack, Named(name));
  }

  lemma GoingOn(frame: seq<Byte>, pos: nat, end: nat, p: Past, name: string, pos': nat)
    requires Going(frame, pos, end, p) && pos <= pos' <= end
    ensures Going(frame, pos', end, p.On(name))
  {
    StackGrows(p.stack, Named(name));
  }

  lemma EnteredCounts(p: Past, kind: TunnelKind)
    requires Counted(p) && p.Entered(kind).Success?
    ensures var q := p.Entered(kind).value;
            && Counted(q) && |q.headers| <= q.depth
            && IpLayers(q.stack) == IpLayers(p.stack)
  {
    StackGrows(p.stack, Tunnel(kind));
  }

  lemma EnteredKeepsOuter(p: Past, kind: TunnelKind)
    requires p.headers != [] && OuterIsFirst(p) && |p.headers| <= p.depth + 1 && p.Entered(kind).Success?
    ensures OuterIsFirst(p.Entered(kind).value)
  {
  }

  /** Nothing but the stack, the depth and the addressing columns changes. */
  lemma EnteredIsElsewhere(p: Past, kind: TunnelKind)
    requires p.Entered(kind).Success?
    ensures var q := p.Entered(kind).value;
            && q.tuple == p.tuple && q.frag == p.frag && q.headers == p.headers && q.bounds == p.bounds
            && q.payload == p.payload && q.tcpPayloadLen == p.tcpPayloadLen && q.lost == p.lost
            && q.ipFlagMf == p.ipFlagMf && q.ipId == p.ipId
  {
  }

  lemma GoingFrom(frame: seq<Byte>, pos: nat, end: nat, p: Past, q: Past, pos': nat)
    requires Going(frame, pos, end, p) && pos <= pos' <= end
    requires Counted(q) && OuterIsFirst(q) && IpLayers(q.stack) == IpLayers(p.stack)
    requires q.tuple == p.tuple && q.frag == p.frag && q.headers == p.headers && q.bounds == p.bounds
    requires q.payload == p.payload && q.tcpPayloadLen == p.tcpPayloadLen && q.lost == p.lost
    requires q.ipFlagMf == p.ipFlagMf && q.ipId == p.ipId
    ensures Going(frame, pos', end, q)
  {
  }

  lemma EntersTunnel(frame: seq<Byte>, pos: nat, end: nat, p: Past, kind: TunnelKind, pos': nat)
    requires Inside(frame, pos, end, p) && pos <= pos' <= end && p.Entered(kind).Success?
    ensures Ready(frame, pos', end, p.Entered(kind).value)
  {
    var q := p.Entered(kind).value;
    EnteredCounts(p, kind);
    EnteredKeepsOuter(p, kind);
    EnteredIsElsewhere(p, kind);
    GoingFrom(frame, pos, end, p, q, pos');
  }

  // ---------------------------------------------------------------------------
  // An IP header
  // ---------------------------------------------------------------------------

  lemma {:induction false} SoundGrows(frame: seq<Byte>, bs: seq<Bound>, hs: seq<Header>, more: seq<Bound>)
    requires Sound(frame, bs, hs)
    ensures Sound(frame, bs + more, hs)
  {
    if hs != [] {
      var h := hs[|hs| - 1];
      SoundGrows(frame, bs, hs[..|hs| - 1], more);
      assert (bs + more)[..h.within] == bs[..h.within];
    }
  }

  lemma WindowShrinks(frame: seq<Byte>, bs: seq<Bound>, b: Bound)
    ensures WindowEnd(frame, bs + [b]) ==
            match SaidEnd(frame, b)
            case None => WindowEnd(frame, bs)
            case Some(n) => Min(WindowEnd(frame, bs), n)
  {
    assert (bs + [b])[..|bs|] == bs;
  }

  lemma HeaderGrows(frame: seq<Byte>, bs: seq<Bound>, hs: seq<Header>, h: Header)
    requires Sound(frame, bs, hs) && Nested(hs) && Describes(frame, h) && Confined(frame, bs, h)
    requires hs != [] ==> hs[|hs| - 1].body <= h.at && h.end <= hs[|hs| - 1].end
    ensures Sound(frame, bs, hs + [h]) && Nested(hs + [h])
  {
    assert (hs + [h])[..|hs|] == hs;
  }

  lemma ColumnsGrow(frame: seq<Byte>, hs: seq<Header>, h: Header)
    ensures MfColumn(hs + [h]) == if h.flag.Some? then h.flag else MfColumn(hs)
    ensures IdColumn(hs + [h]) == if h.id.Some? then h.id else IdColumn(hs)
    ensures Dispatched(hs + [h]) == if h.offset == 0 then Some(h) else Dispatched(hs)
    ensures Marked(frame, hs + [h]) ==
            var mf := MfColumn(hs + [h]) == Some(true);
            if mf || h.offset != 0 then
              Some(FragMeta(FragKey(h.src, h.dst, OrZero(IdColumn(hs + [h])), h.proto), h.offset, mf,
                            PayloadOf(frame, h)))
            else Marked(frame, hs)
  {
    assert (hs + [h])[..|hs|] == hs;
  }

  /**
   A header has been read, and its addresses and fragment columns set: all is as before it, but for
   its layer, and it is what the octets say.
   */
  predicate Parsed(frame: seq<Byte>, h: Header, p: Past) {
    && Told(frame, p) && |p.headers| <= p.depth
    && IpLayers(p.stack) == |p.headers| + 1 && p.payload == None && p.lost == None
    && Describes(frame, h) && Confined(frame, p.bounds, h) && h.end == WindowEnd(frame, p.bounds)
    && (p.headers != [] ==> p.headers[|p.headers| - 1].body <= h.at && h.end <= p.headers[|p.headers| - 1].end)
    && p.ipFlagMf == (if h.flag.Some? then h.flag else MfColumn(p.headers))
    && p.ipId == (if h.id.Some? then h.id else IdColumn(p.headers))
    && p.ipSrc == Some(h.src) && p.ipDst == Some(h.dst)
  }

  /** `Going`, but for the tuple. */
  predicate Arrived(frame: seq<Byte>, pos: nat, end: nat, p: Past) {
    && Counted(p) && OuterIsFirst(p) && PayloadIsPlaced(frame, p)
    && Sound(frame, p.bounds, p.headers) && Nested(p.headers)
    && p.frag == Marked(frame, p.headers)
    && pos <= end == WindowEnd(frame, p.bounds) <= |frame|
    && IpLayers(p.stack) == |p.headers|
    && p.ipFlagMf == MfColumn(p.headers) && p.ipId == IdColumn(p.headers)
    && p.payload == None && p.lost == None
    && p.headers != [] && p.headers[|p.headers| - 1].body == pos && end == p.headers[|p.headers| - 1].end
  }

  lemma Records(frame: seq<Byte>, h: Header, p: Past)
    requires Parsed(frame, h, p)
    ensures var q := p.Recorded(h, frame[h.body..h.end]);
            && Arrived(frame, h.body, h.end, q)
            && q.headers == p.headers + [h] && q.tuple == p.tuple
            && Dispatched(q.headers) == if h.offset == 0 then Some(h) else Dispatched(p.headers)
  {
    HeaderGrows(frame, p.bounds, p.headers, h);
    ColumnsGrow(frame, p.headers, h);
  }
}
