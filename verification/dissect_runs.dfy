/**
 Whole frames: whatever the octets and the link type, the facts of `DissectFacts` hold of the columns
 dissection ends with. Each update keeps them, and induction does the rest.
 */
module DissectRuns {
  import opened Addresses
  import opened Cursor
  import opened DissectFacts
  import opened DissectFields
  import opened DissectInduction
  import opened DissectSpec
  import opened DissectState
  import opened Integers
  import opened IpHeaders
  import opened Wrappers

  // ---------------------------------------------------------------------------
  // An IP header keeps the facts
  // ---------------------------------------------------------------------------

  /** The layer of a header is named, and perhaps its addresses and fragment columns set. */
  lemma IpOpens(frame: seq<Byte>, pos: nat, end: nat, p: Past, v6: bool, q: Past)
    requires Ready(frame, pos, end, p)
    requires q == WithIp(p, v6).(ipSrc := q.ipSrc, ipDst := q.ipDst, ipFlagMf := q.ipFlagMf, ipId := q.ipId)
    ensures Told(frame, q) && |q.headers| <= q.depth && IpLayers(q.stack) == |q.headers| + 1
  {
    StackGrows(p.stack, Ip(v6));
  }

  lemma DescribesV4(frame: seq<Byte>, pos: nat, end: nat, v: V4Header, within: nat)
    requires pos <= end <= |frame| && ParseV4(frame[pos..end]) == Success(v) && v.headerLen <= end - pos
    ensures ParseV4(frame[pos..]) == Success(v) && Describes(frame, HeaderV4(pos, end, v, within))
  {
    assert frame[pos..] == frame[pos..end] + frame[end..];
    LongerV4(frame[pos..end], frame[end..]);
  }

  /** A length field is met: nothing else that is told of depends on it. */
  lemma BoundMet(frame: seq<Byte>, p: Past, b: Bound)
    requires Told(frame, p) && p.payload == None && p.lost == None
    ensures Told(frame, p.Met(b))
  {
    SoundGrows(frame, p.bounds, p.headers, [b]);
  }

  lemma ConfinesV4(frame: seq<Byte>, bs: seq<Bound>, pos: nat, end: nat, v: V4Header)
    requires pos <= |frame| && ParseV4(frame[pos..]) == Success(v) && end == WindowEnd(frame, bs)
    ensures WindowEnd(frame, bs + [ByIp(pos)]) == EndV4(v, pos, end)
  {
    WindowShrinks(frame, bs, ByIp(pos));
  }

  lemma ConfinedV4(frame: seq<Byte>, bs: seq<Bound>, pos: nat, end: nat, v: V4Header)
    requires WindowEnd(frame, bs + [ByIp(pos)]) == EndV4(v, pos, end)
    ensures Confined(frame, bs + [ByIp(pos)], HeaderV4(pos, end, v, |bs| + 1))
  {
    assert (bs + [ByIp(pos)])[..|bs| + 1] == bs + [ByIp(pos)];
  }

  lemma Places4(frame: seq<Byte>, bs: seq<Bound>, pos: nat, end: nat, v: V4Header, h: Header)
    requires pos <= end == WindowEnd(frame, bs) <= |frame|
    requires ParseV4(frame[pos..end]) == Success(v) && v.headerLen <= end - pos
    requires h == HeaderV4(pos, end, v, |bs| + 1)
    ensures Describes(frame, h)
    ensures Confined(frame, bs + [ByIp(pos)], h) && h.end == WindowEnd(frame, bs + [ByIp(pos)]) <= end
  {
    DescribesV4(frame, pos, end, v, |bs| + 1);
    ConfinesV4(frame, bs, pos, end, v);
    ConfinedV4(frame, bs, pos, end, v);
  }

  lemma Opens4(frame: seq<Byte>, pos: nat, end: nat, p: Past, v: V4Header, q: Past)
    requires Ready(frame, pos, end, p) && q == Told4(p, v).Met(ByIp(pos))
    ensures Told(frame, q) && |q.headers| <= q.depth && IpLayers(q.stack) == |q.headers| + 1
  {
    IpOpens(frame, pos, end, p, false, Told4(p, v));
    BoundMet(frame, Told4(p, v), ByIp(pos));
  }

  lemma Parses4(frame: seq<Byte>, pos: nat, end: nat, p: Past, v: V4Header, h: Header, q: Past)
    requires Ready(frame, pos, end, p)
    requires ParseV4(frame[pos..end]) == Success(v) && v.headerLen <= end - pos
    requires q == Told4(p, v).Met(ByIp(pos)) && h == HeaderV4(pos, end, v, |q.bounds|)
    ensures Parsed(frame, h, q)
  {
    Places4(frame, p.bounds, pos, end, v, h);
    Opens4(frame, pos, end, p, v, q);
  }

  lemma DescribesV6(frame: seq<Byte>, pos: nat, end: nat, v: V6Header, c: Chain, within: nat)
    requires pos + 40 <= end <= |frame| && ParseV6(frame[pos..end]) == Success(v)
    requires Walked(frame[pos + 40..end], Start(v.next), 0) == Walk(c, Success(()))
    ensures Describes(frame, HeaderV6(pos, end, v, c, within))
  {
    assert frame[pos..] == frame[pos..end] + frame[end..];
    LongerV6(frame[pos..end], frame[end..]);
    assert frame[pos + 40..] == frame[pos + 40..end] + frame[end..];
    LongerChain(frame[pos + 40..end], frame[end..], Start(v.next), 0);
    ChainAdvances(frame[pos + 40..end], Start(v.next), 0);
  }

  lemma Parses6(frame: seq<Byte>, pos: nat, end: nat, p: Past, v: V6Header, c: Chain)
    requires Ready(frame, pos, end, p)
    requires ParseV6(frame[pos..end]) == Success(v)
    requires Walked(frame[pos + 40..end], Start(v.next), 0) == Walk(c, Success(()))
    ensures Parsed(frame, HeaderV6(pos, end, v, c, |p.bounds|), Told6(p, v, c))
  {
    IpOpens(frame, pos, end, p, true, Told6(p, v, c));
    DescribesV6(frame, pos, end, v, c, |p.bounds|);
    assert p.bounds[..|p.bounds|] == p.bounds;
  }

  lemma MissedIsLost(frame: seq<Byte>, pos: nat, end: nat, v: V6Header)
    requires pos + 40 <= end <= |frame| && ParseV6(frame[pos..end]) == Success(v)
    ensures IsLost(frame, Lost(pos, end))
  {
    assert frame[pos..] == frame[pos..end] + frame[end..];
    LongerV6(frame[pos..end], frame[end..]);
  }

  lemma MissedIsTold(frame: seq<Byte>, p: Past, q: Past)
    requires Told(frame, p) && q == p.(lost := q.lost) && LostIsLast(frame, q)
    ensures Told(frame, q)
  {
  }

  lemma Loses6(frame: seq<Byte>, pos: nat, end: nat, p: Past, v: V6Header, c: Chain, q: Past)
    requires Ready(frame, pos, end, p) && ParseV6(frame[pos..end]) == Success(v)
    requires q == Told6(p, v, c).Missed(pos, end)
    ensures Told(frame, q)
  {
    IpOpens(frame, pos, end, p, true, Told6(p, v, c));
    MissedIsLost(frame, pos, end, v);
    MissedIsTold(frame, Told6(p, v, c), q);
  }

  // ---------------------------------------------------------------------------
  // Transport
  // ---------------------------------------------------------------------------

  lemma {:induction false} NamesCount(stack: seq<Layer>, names: seq<string>)
    ensures Tunnels(stack + AllNamed(names)) == Tunnels(stack) && IpLayers(stack + AllNamed(names)) == IpLayers(stack)
  {
    if names == [] {
      assert stack + AllNamed(names) == stack;
    } else {
      var n := |names| - 1;
      NamesCount(stack, names[..n]);
      StackGrows(stack + AllNamed(names[..n]), Named(names[n]));
      assert stack + AllNamed(names) == (stack + AllNamed(names[..n])) + [Named(names[n])];
    }
  }

  lemma AppKeeps(e: Env, payload: seq<Byte>, sport: U16, dport: U16, tcp: bool, p: Past)
    requires Told(e.frame, p)
    ensures Told(e.frame, WithApp(e, payload, sport, dport, tcp, p))
  {
    if payload != [] && !(tcp && e.deferTcpApp) {
      var names := e.app(payload, sport, dport, tcp);
      NamesCount(p.stack, names);
      StackKeeps(e.frame, p, p.(stack := p.stack + AllNamed(names)));
    }
  }

  lemma StackKeeps(frame: seq<Byte>, p: Past, q: Past)
    requires Told(frame, p) && q == p.(stack := q.stack)
    requires Tunnels(q.stack) == Tunnels(p.stack) && IpLayers(q.stack) == IpLayers(p.stack)
    ensures Told(frame, q)
  {
  }

  lemma PortsKeep(frame: seq<Byte>, pos: nat, end: nat, p: Past, t: Tuple, pos': nat)
    requires Inside(frame, pos, end, p) && pos <= pos' <= end && Portless(p, t.srcIp, t.dstIp, t.proto)
    ensures Inside(frame, pos', end, p.Ported(t))
  {
  }

  lemma TookKeeps(frame: seq<Byte>, pos: nat, end: nat, p: Past)
    requires Going(frame, pos, end, p)
    ensures Told(frame, Took(frame[pos..end], pos, p))
  {
  }

  lemma ConnectedKeeps(frame: seq<Byte>, pos: nat, end: nat, p: Past, h: TcpHeader, q: Past)
    requires Inside(frame, pos, end, p) && p.tuple.Some? && Portless(p, p.tuple.value.srcIp, p.tuple.value.dstIp, 6)
    requires q == Connected(h, p.tuple.value.srcIp, p.tuple.value.dstIp, p)
    ensures Going(frame, pos, end, q)
  {
    PortsKeep(frame, pos, end, p, q.tuple.value, pos);
  }

  lemma PayloadKeeps(e: Env, h: TcpHeader, pos: nat, end: nat, n: nat, payload: seq<Byte>, p: Past)
    requires Going(e.frame, pos, end, p) && pos + n <= end && payload == e.frame[pos + n..end]
    ensures Told(e.frame, WithApp(e, payload, h.sport, h.dport, true, Took(payload, pos + n, p)))
  {
    TookKeeps(e.frame, pos + n, end, p);
    AppKeeps(e, payload, h.sport, h.dport, true, Took(payload, pos + n, p));
  }

  lemma TcpBodyIs(e: Env, h: TcpHeader, src: IpAddr, dst: IpAddr, pos: nat, s: seq<Byte>, p: Past, n: nat)
    requires |s| >= 20 && n == TcpPayloadAt(s)
    ensures TcpBodyOf(e, h, src, dst, pos, s, p) ==
            WithApp(e, s[n..], h.sport, h.dport, true, Took(s[n..], pos + n, Connected(h, src, dst, p)))
  {
  }

  lemma TcpBodyKeeps(e: Env, h: TcpHeader, src: IpAddr, dst: IpAddr, pos: nat, end: nat, p: Past, q: Past)
    requires Inside(e.frame, pos, end, p) && Portless(p, src, dst, 6) && end - pos >= 20
    requires q == TcpBodyOf(e, h, src, dst, pos, e.frame[pos..end], p)
    ensures Told(e.frame, q)
  {
    var s := e.frame[pos..end];
    var n := TcpPayloadAt(s);
    assert s[n..] == e.frame[pos + n..end];
    ConnectedKeeps(e.frame, pos, end, p, h, Connected(h, src, dst, p));
    TcpBodyIs(e, h, src, dst, pos, s, p, n);
    PayloadKeeps(e, h, pos, end, n, s[n..], Connected(h, src, dst, p));
  }

  lemma TcpKeeps(e: Env, src: IpAddr, dst: IpAddr, pos: nat, end: nat, p: Past)
    requires Inside(e.frame, pos, end, p) && Portless(p, src, dst, 6)
    ensures Told(e.frame, TcpOf(e, src, dst, pos, end, p).past)
  {
    var q := p.On("tcp");
    GoingOn(e.frame, pos, end, p, "tcp", pos);
    if end - pos >= 20 {
      var h := TcpHeaderAt(e.frame[pos..end]).value;
      TcpBodyKeeps(e, h, src, dst, pos, end, q, TcpBodyOf(e, h, src, dst, pos, e.frame[pos..end], q));
    }
  }

  lemma SctpKeeps(e: Env, src: IpAddr, dst: IpAddr, pos: nat, end: nat, p: Past)
    requires Inside(e.frame, pos, end, p) && Portless(p, src, dst, 132)
    ensures Told(e.frame, SctpOf(e, src, dst, pos, end, p).past)
  {
    var q, s := p.On("sctp"), e.frame[pos..end];
    GoingOn(e.frame, pos, end, p, "sctp", pos);
    if |s| >= 12 {
      PortsKeep(e.frame, pos, end, q, Tuple(src, dst, Value16(s[0..2]), Value16(s[2..4]), 132), pos);
    }
  }

  lemma ConfinesUdp(frame: seq<Byte>, bs: seq<Bound>, pos: nat, end: nat, len: U16)
    requires pos + 8 <= end == WindowEnd(frame, bs) <= |frame| && len == Value16(frame[pos..end][4..6])
    ensures WindowEnd(frame, bs + [ByUdp(pos)]) == EndUdp(len, pos, end)
  {
    assert frame[pos..end][4..6] == frame[pos + 4..pos + 6];
    WindowShrinks(frame, bs, ByUdp(pos));
  }

  lemma UdpConfines(frame: seq<Byte>, pos: nat, end: nat, p: Past, len: U16)
    requires Inside(frame, pos + 8, end, p) && len == Value16(frame[pos..end][4..6])
    ensures Inside(frame, pos + 8, EndUdp(len, pos, end), p.Met(ByUdp(pos)))
  {
    BoundMet(frame, p, ByUdp(pos));
    ConfinesUdp(frame, p.bounds, pos, end, len);
    GoingWithin(frame, pos + 8, end, p, EndUdp(len, pos, end), p.Met(ByUdp(pos)));
  }

  lemma GoingWithin(frame: seq<Byte>, pos: nat, end: nat, p: Past, end': nat, q: Past)
    requires Inside(frame, pos, end, p) && Told(frame, q) && q == p.(bounds := q.bounds)
    requires pos <= end' == WindowEnd(frame, q.bounds) <= end
    ensures Inside(frame, pos, end', q)
  {
  }

  lemma UdpKeeps(e: Env, src: IpAddr, dst: IpAddr, proto: Byte, pos: nat, end: nat, p: Past)
    requires pos + 8 <= end && Inside(e.frame, pos, end, p) && Portless(p, src, dst, proto)
    ensures var s := e.frame[pos..end];
            var t := Tuple(src, dst, Value16(s[0..2]), Value16(s[2..4]), proto);
            Inside(e.frame, pos + 8, EndUdp(Value16(s[4..6]), pos, end),
                   p.On("udp").Ported(t).Met(ByUdp(pos)))
  {
    var s := e.frame[pos..end];
    var t := Tuple(src, dst, Value16(s[0..2]), Value16(s[2..4]), proto);
    GoingOn(e.frame, pos, end, p, "udp", pos);
    PortsKeep(e.frame, pos, end, p.On("udp"), t, pos + 8);
    UdpConfines(e.frame, pos, end, p.On("udp").Ported(t), Value16(s[4..6]));
  }

  /** Once the tuple is its own, what a recorded header carries can be looked into. */
  lemma TupleSet(frame: seq<Byte>, pos: nat, end: nat, p: Past, h: Header)
    requires Arrived(frame, pos, end, p) && Dispatched(p.headers) == Some(h)
    ensures Inside(frame, pos, end, p.(tuple := Some(Tuple(h.src, h.dst, 0, 0, h.proto))))
  {
  }

  lemma CarriedFacts(e: Env, h: Header, p: Past)
    requires Parsed(e.frame, h, p)
    ensures var q := p.Recorded(h, e.frame[h.body..h.end]);
            if h.offset != 0 then Told(e.frame, q.On("ip-fragment"))
            else Inside(e.frame, h.body, h.end, q.(tuple := Some(Tuple(h.src, h.dst, 0, 0, h.proto))))
  {
    var q := p.Recorded(h, e.frame[h.body..h.end]);
    Records(e.frame, h, p);
    if h.offset != 0 {
      ToldOn(e.frame, q, "ip-fragment");
    } else {
      TupleSet(e.frame, h.body, h.end, q, h);
    }
  }

  // ---------------------------------------------------------------------------
  // Whole frames
  // ---------------------------------------------------------------------------

  function FactsOf(frame: seq<Byte>): Facts {
    Facts(p => Told(frame, p), (pos: nat, end: nat, p) => Ready(frame, pos, end, p),
          (pos: nat, end: nat, p) => Inside(frame, pos, end, p), (h, p) => Parsed(frame, h, p))
  }

  lemma StackLaws(e: Env)
    ensures var k := FactsOf(e.frame);
            && (forall p, name :: ToldOnLaw(k, p, name))
            && (forall pos: nat, end: nat, p, name, pos': nat :: OnLaw(k, pos, end, p, name, pos'))
            && (forall payload, sport, dport, tcp, p :: AppLaw(e, k, payload, sport, dport, tcp, p))
  {
    var k := FactsOf(e.frame);
    forall p, name ensures ToldOnLaw(k, p, name) {
      if Told(e.frame, p) {
        ToldOn(e.frame, p, name);
      }
    }
    forall pos: nat, end: nat, p, name, pos': nat ensures OnLaw(k, pos, end, p, name, pos') {
      if Ready(e.frame, pos, end, p) && pos <= pos' <= end {
        GoingOn(e.frame, pos, end, p, name, pos');
      }
    }
    forall payload, sport, dport, tcp, p ensures AppLaw(e, k, payload, sport, dport, tcp, p) {
      if Told(e.frame, p) {
        AppKeeps(e, payload, sport, dport, tcp, p);
      }
    }
  }

  lemma WindowLaws(e: Env)
    ensures var k := FactsOf(e.frame);
            && (forall pos: nat, end: nat, p :: EndLaw(k, pos, end, p))
            && (forall pos: nat, end: nat, p, pos': nat :: FurtherLaw(k, pos, end, p, pos'))
            && (forall pos: nat, end: nat, p, kind, pos': nat :: EnterLaw(k, pos, end, p, kind, pos'))
  {
    var k := FactsOf(e.frame);
    forall pos: nat, end: nat, p, pos': nat ensures FurtherLaw(k, pos, end, p, pos') {
      if pos <= pos' <= end {
        Further(e.frame, pos, end, p, pos');
      }
    }
    forall pos: nat, end: nat, p, kind, pos': nat ensures EnterLaw(k, pos, end, p, kind, pos') {
      if Inside(e.frame, pos, end, p) && pos <= pos' <= end && p.depth < MAX_DEPTH {
        EntersTunnel(e.frame, pos, end, p, kind, pos');
      }
    }
  }

  lemma Further(frame: seq<Byte>, pos: nat, end: nat, p: Past, pos': nat)
    requires pos <= pos' <= end
    ensures Ready(frame, pos, end, p) ==> Ready(frame, pos', end, p)
    ensures Inside(frame, pos, end, p) ==> Inside(frame, pos', end, p)
  {
  }

  lemma IpLaws(e: Env)
    ensures var k := FactsOf(e.frame);
            && (forall pos: nat, end: nat, p :: Ip4Law(e, k, pos, end, p))
            && (forall pos: nat, end: nat, p :: Ip6Law(e, k, pos, end, p))
            && (forall h, p :: RecordLaw(e, k, h, p))
  {
    var k := FactsOf(e.frame);
    forall pos: nat, end: nat, p ensures Ip4Law(e, k, pos, end, p) {
      if Within(e, pos, end) && Ready(e.frame, pos, end, p) {
        Ip4Facts(e, pos, end, p);
      }
    }
    forall pos: nat, end: nat, p ensures Ip6Law(e, k, pos, end, p) {
      if Within(e, pos, end) && Ready(e.frame, pos, end, p) {
        Ip6Facts(e, pos, end, p);
      }
    }
    forall h, p ensures RecordLaw(e, k, h, p) {
      if Within(e, h.body, h.end) && Parsed(e.frame, h, p) {
        CarriedFacts(e, h, p);
      }
    }
  }

  lemma Ip4Facts(e: Env, pos: nat, end: nat, p: Past)
    requires Within(e, pos, end) && Ready(e.frame, pos, end, p)
    ensures Ip4Law(e, FactsOf(e.frame), pos, end, p)
  {
    IpOpens(e.frame, pos, end, p, false, WithIp(p, false));
    var parsed := ParseV4(e.frame[pos..end]);
    if parsed.Success? {
      var v := parsed.value;
      if end - pos < v.headerLen {
        IpOpens(e.frame, pos, end, p, false, Told4(p, v));
      } else {
        var known := Told4(p, v).Met(ByIp(pos));
        Parses4(e.frame, pos, end, p, v, HeaderV4(pos, end, v, |known.bounds|), known);
      }
    }
  }

  lemma Ip6Facts(e: Env, pos: nat, end: nat, p: Past)
    requires Within(e, pos, end) && Ready(e.frame, pos, end, p)
    ensures Ip6Law(e, FactsOf(e.frame), pos, end, p)
  {
    IpOpens(e.frame, pos, end, p, true, WithIp(p, true));
    var parsed := ParseV6(e.frame[pos..end]);
    if parsed.Success? {
      var v := parsed.value;
      var w := Walked(e.frame[pos + 40..end], Start(v.next), 0);
      if w.r.Failure? {
        Loses6(e.frame, pos, end, p, v, w.chain, Told6(p, v, w.chain).Missed(pos, end));
      } else {
        assert w.r.value == ();
        Parses6(e.frame, pos, end, p, v, w.chain);
      }
    }
  }

  lemma TransportLaws(e: Env)
    ensures var k := FactsOf(e.frame);
            && (forall src, dst, pos: nat, end: nat, p :: TcpLaw(e, k, src, dst, pos, end, p))
            && (forall src, dst, pos: nat, end: nat, p :: SctpLaw(e, k, src, dst, pos, end, p))
            && (forall src, dst, proto, pos: nat, end: nat, p :: UdpLaw(e, k, src, dst, proto, pos, end, p))
  {
    var k := FactsOf(e.frame);
    forall src, dst, pos: nat, end: nat, p ensures TcpLaw(e, k, src, dst, pos, end, p) {
      if Within(e, pos, end) && Inside(e.frame, pos, end, p) && Portless(p, src, dst, 6) {
        TcpKeeps(e, src, dst, pos, end, p);
      }
    }
    forall src, dst, pos: nat, end: nat, p ensures SctpLaw(e, k, src, dst, pos, end, p) {
      if Within(e, pos, end) && Inside(e.frame, pos, end, p) && Portless(p, src, dst, 132) {
        SctpKeeps(e, src, dst, pos, end, p);
      }
    }
    forall src, dst, proto, pos: nat, end: nat, p ensures UdpLaw(e, k, src, dst, proto, pos, end, p) {
      UdpFacts(e, src, dst, proto, pos, end, p);
    }
  }

  lemma UdpFacts(e: Env, src: IpAddr, dst: IpAddr, proto: Byte, pos: nat, end: nat, p: Past)
    ensures UdpLaw(e, FactsOf(e.frame), src, dst, proto, pos, end, p)
  {
    if Within(e, pos, end) && Inside(e.frame, pos, end, p) && Portless(p, src, dst, proto) {
      if end - pos < 8 {
        ToldOn(e.frame, p, "udp");
      } else {
        UdpKeeps(e, src, dst, proto, pos, end, p);
      }
    }
  }

  /** The facts hold of every frame of every link type. */
  lemma EveryFrameIsTold(e: Env, linktype: U16)
    ensures Told(e.frame, LinkOf(e, linktype).past)
  {
    StackLaws(e);
    WindowLaws(e);
    IpLaws(e);
    TransportLaws(e);
    assert Ready(e.frame, 0, |e.frame|, NOTHING);
    HoldsAtTheEnd(e, FactsOf(e.frame), linktype);
  }

  /**
   As many tunnel layers as the depth, and no more than eight; and from the first tunnel on the outer
   columns hold the addresses of the outermost IP header.
   */
  lemma OuterColumnsAreOutermost(e: Env, linktype: U16)
    ensures var p := LinkOf(e, linktype).past;
            && Tunnels(p.stack) == p.depth <= MAX_DEPTH
            && (p.depth > 0 ==>
                  && p.headers != []
                  && p.outer.src == Some(p.headers[0].src) && p.outer.dst == Some(p.headers[0].dst))
            && (p.depth == 0 ==> p.outer == NO_OUTER)
  {
    EveryFrameIsTold(e, linktype);
  }

  lemma {:induction false} SoundAt(frame: seq<Byte>, bs: seq<Bound>, hs: seq<Header>, i: nat)
    requires Sound(frame, bs, hs) && i < |hs|
    ensures Describes(frame, hs[i]) && Confined(frame, bs, hs[i])
  {
    if i < |hs| - 1 {
      SoundAt(frame, bs, hs[..|hs| - 1], i);
    }
  }

  /** Each IP header met is what its octets say, and its payload ends where the length fields let it. */
  lemma HeadersAreOctets(e: Env, linktype: U16, i: nat)
    requires i < |LinkOf(e, linktype).past.headers|
    ensures var p := LinkOf(e, linktype).past;
            && Describes(e.frame, p.headers[i])
            && p.headers[i].within <= |p.bounds|
            && p.headers[i].end == WindowEnd(e.frame, p.bounds[..p.headers[i].within])
  {
    var p := LinkOf(e, linktype).past;
    EveryFrameIsTold(e, linktype);
    SoundAt(e.frame, p.bounds, p.headers, i);
  }

  /** The tuple is that of the last header whose payload starts with a transport header. */
  lemma TupleIsLastDispatched(e: Env, linktype: U16)
    ensures var p := LinkOf(e, linktype).past;
            match p.tuple
            case None => Dispatched(p.headers) == None
            case Some(t) => Dispatched(p.headers).Some? && Identifies(t, Dispatched(p.headers).value)
  {
    EveryFrameIsTold(e, linktype);
  }

  // ---------------------------------------------------------------------------
  // What is lost
  // ---------------------------------------------------------------------------

  /** A whole IPv6 header in its window, whose chain of extensions cannot be walked to an end. */
  predicate Unwalkable(frame: seq<Byte>, l: Lost) {
    && l.at + 40 <= l.end <= |frame|
    && match ParseV6(frame[l.at..l.end])
       case Failure(_) => false
       case Success(v) => Walked(frame[l.at + 40..l.end], Start(v.next), 0).r.Failure?
  }

  predicate LosesRight(frame: seq<Byte>, p: Past) {
    p.lost.Some? ==> Unwalkable(frame, p.lost.value)
  }

  function LossFacts(frame: seq<Byte>): Facts {
    Facts(p => LosesRight(frame, p), (pos: nat, end: nat, p: Past) => p.lost == None,
          (pos: nat, end: nat, p: Past) => p.lost == None, (h: Header, p: Past) => p.lost == None)
  }

  lemma LossOfIp6(e: Env, pos: nat, end: nat, p: Past)
    ensures Ip6Law(e, LossFacts(e.frame), pos, end, p)
  {
    if Within(e, pos, end) && p.lost == None && ParseV6(e.frame[pos..end]).Success? {
      var v := ParseV6(e.frame[pos..end]).value;
      var w := Walked(e.frame[pos + 40..end], Start(v.next), 0);
      if w.r.Failure? {
        assert Unwalkable(e.frame, Lost(pos, end));
      }
    }
  }

  lemma TransportLosesNothing(e: Env, src: IpAddr, dst: IpAddr, pos: nat, end: nat, p: Past)
    requires Within(e, pos, end)
    ensures TcpOf(e, src, dst, pos, end, p).past.lost == p.lost
    ensures SctpOf(e, src, dst, pos, end, p).past.lost == p.lost
  {
  }

  lemma LossLaws(e: Env)
    ensures Laws(e, LossFacts(e.frame))
  {
    var k := LossFacts(e.frame);
    forall pos: nat, end: nat, p ensures Ip6Law(e, k, pos, end, p) {
      LossOfIp6(e, pos, end, p);
    }
    forall src, dst, pos: nat, end: nat, p
      ensures TcpLaw(e, k, src, dst, pos, end, p) && SctpLaw(e, k, src, dst, pos, end, p)
    {
      if Within(e, pos, end) {
        TransportLosesNothing(e, src, dst, pos, end, p);
      }
    }
  }

  /** The header that is kept as lost is one whose extensions cannot be walked. */
  lemma LostIsUnwalkable(e: Env, linktype: U16)
    ensures LosesRight(e.frame, LinkOf(e, linktype).past)
  {
    LossLaws(e);
    HoldsAtTheEnd(e, LossFacts(e.frame), linktype);
  }

  // ---------------------------------------------------------------------------
  // Steps of a given frame
  // ---------------------------------------------------------------------------

  /** A whole IPv4 header is recorded next, confined by its own total length. */
  lemma Ip4Step(e: Env, pos: nat, end: nat, p: Past, v: V4Header)
    requires Within(e, pos, end) && ParseV4(e.frame[pos..end]) == Success(v) && v.headerLen <= end - pos
    ensures var known := Told4(p, v).Met(ByIp(pos));
            Ip4Of(e, pos, end, p) == CarriedOf(e, HeaderV4(pos, end, v, |p.bounds| + 1), known)
  {
    assert |Told4(p, v).Met(ByIp(pos)).bounds| == |p.bounds| + 1;
  }

  /** A whole IPv6 header is recorded next, with its extensions. */
  lemma Ip6Step(e: Env, pos: nat, end: nat, p: Past, v: V6Header, c: Chain)
    requires Within(e, pos, end) && ParseV6(e.frame[pos..end]) == Success(v)
    requires Walked(e.frame[pos + 40..end], Start(v.next), 0) == Walk(c, Success(()))
    ensures pos + 40 + c.pos <= end
    ensures Ip6Of(e, pos, end, p) == CarriedOf(e, HeaderV6(pos, end, v, c, |p.bounds|), Told6(p, v, c))
  {
    ChainAdvances(e.frame[pos + 40..end], Start(v.next), 0);
  }

  /** With no link header, the first octet tells the version. */
  lemma RawStep(e: Env, version: nat)
    requires e.frame != [] && version == e.frame[0] as int / 0x10
    ensures version == 4 ==> LinkOf(e, 101) == Ip4Of(e, 0, |e.frame|, NOTHING)
    ensures version == 6 ==> LinkOf(e, 101) == Ip6Of(e, 0, |e.frame|, NOTHING)
  {
  }
}
