/**
 An induction principle for dissection: what each update of the columns keeps holds when a frame is
 done. One lemma for each function of `DissectSpec`, along the same recursion.
 */
module DissectInduction {
  import opened Addresses
  import opened Cursor
  import opened DissectFields
  import opened DissectSpec
  import opened DissectState
  import opened Integers
  import opened IpHeaders
  import opened Wrappers

  /**
   What is to be kept: of the columns once dissection ends; while `frame[pos..end]` is ahead and a
   link or network header may follow, or what an IP header carries; and when a header has been read
   but not recorded.
   */
  datatype Facts = Facts(
    told: Past -> bool,
    ready: (nat, nat, Past) -> bool,
    inside: (nat, nat, Past) -> bool,
    parsed: (Header, Past) -> bool)

  function WithIp(p: Past, v6: bool): Past {
    p.(stack := p.stack + [Ip(v6)])
  }

  function Told4(p: Past, v: V4Header): Past {
    WithIp(p, false).Addressed(V4(v.src), V4(v.dst)).Flagged(Some(v.MoreFragments()), Some(v.id))
  }

  function Told6(p: Past, v: V6Header, c: Chain): Past {
    WithIp(p, true).Addressed(V6(v.src), V6(v.dst)).Flagged(c.flag, c.id)
  }

  /** The tuple a packet was given when its protocol was dispatched, before it had any ports. */
  predicate Portless(p: Past, src: IpAddr, dst: IpAddr, proto: Byte) {
    p.tuple == Some(Tuple(src, dst, 0, 0, proto))
  }

  // ---------------------------------------------------------------------------
  // What each update must keep
  // ---------------------------------------------------------------------------

  predicate EndLaw(k: Facts, pos: nat, end: nat, p: Past) {
    k.ready(pos, end, p) || k.inside(pos, end, p) ==> k.told(p)
  }

  predicate ToldOnLaw(k: Facts, p: Past, name: string) {
    k.told(p) ==> k.told(p.On(name))
  }

  predicate OnLaw(k: Facts, pos: nat, end: nat, p: Past, name: string, pos': nat) {
    k.ready(pos, end, p) && pos <= pos' <= end ==> k.ready(pos', end, p.On(name)) && k.told(p.On(name))
  }

  predicate FurtherLaw(k: Facts, pos: nat, end: nat, p: Past, pos': nat) {
    pos <= pos' <= end ==>
      && (k.ready(pos, end, p) ==> k.ready(pos', end, p))
      && (k.inside(pos, end, p) ==> k.inside(pos', end, p))
  }

  predicate EnterLaw(k: Facts, pos: nat, end: nat, p: Past, kind: TunnelKind, pos': nat) {
    k.inside(pos, end, p) && pos <= pos' <= end && p.depth < MAX_DEPTH ==>
      k.ready(pos', end, p.Entered(kind).value) && k.told(p.Entered(kind).value)
  }

  predicate Ip4Law(e: Env, k: Facts, pos: nat, end: nat, p: Past) {
    Within(e, pos, end) && k.ready(pos, end, p) ==>
      match ParseV4(e.frame[pos..end])
      case Failure(_) => k.told(WithIp(p, false))
      case Success(v) =>
        if end - pos < v.headerLen then k.told(Told4(p, v))
        else
          var known := Told4(p, v).Met(ByIp(pos));
          k.parsed(HeaderV4(pos, end, v, |known.bounds|), known)
  }

  predicate Ip6Law(e: Env, k: Facts, pos: nat, end: nat, p: Past) {
    Within(e, pos, end) && k.ready(pos, end, p) ==>
      match ParseV6(e.frame[pos..end])
      case Failure(_) => k.told(WithIp(p, true))
      case Success(v) =>
        var w := Walked(e.frame[pos + 40..end], Start(v.next), 0);
        var told := Told6(p, v, w.chain);
        if w.r.Failure? then k.told(told.Missed(pos, end))
        else k.parsed(HeaderV6(pos, end, v, w.chain, |p.bounds|), told)
  }

  predicate RecordLaw(e: Env, k: Facts, h: Header, p: Past) {
    Within(e, h.body, h.end) && k.parsed(h, p) ==>
      var q := p.Recorded(h, e.frame[h.body..h.end]);
      if h.offset != 0 then k.told(q.On("ip-fragment"))
      else k.inside(h.body, h.end, q.(tuple := Some(Tuple(h.src, h.dst, 0, 0, h.proto))))
  }

  predicate TcpLaw(e: Env, k: Facts, src: IpAddr, dst: IpAddr, pos: nat, end: nat, p: Past) {
    Within(e, pos, end) && k.inside(pos, end, p) && Portless(p, src, dst, 6) ==>
      k.told(TcpOf(e, src, dst, pos, end, p).past)
  }

  predicate SctpLaw(e: Env, k: Facts, src: IpAddr, dst: IpAddr, pos: nat, end: nat, p: Past) {
    Within(e, pos, end) && k.inside(pos, end, p) && Portless(p, src, dst, 132) ==>
      k.told(SctpOf(e, src, dst, pos, end, p).past)
  }

  predicate UdpLaw(e: Env, k: Facts, src: IpAddr, dst: IpAddr, proto: Byte, pos: nat, end: nat, p: Past) {
    Within(e, pos, end) && k.inside(pos, end, p) && Portless(p, src, dst, proto) ==>
      var s := e.frame[pos..end];
      if |s| < 8 then k.told(p.On("udp"))
      else
        var t := Tuple(src, dst, Value16(s[0..2]), Value16(s[2..4]), proto);
        k.inside(pos + 8, EndUdp(Value16(s[4..6]), pos, end), p.On("udp").Ported(t).Met(ByUdp(pos)))
  }

  predicate AppLaw(e: Env, k: Facts, payload: seq<Byte>, sport: U16, dport: U16, tcp: bool, p: Past) {
    k.told(p) ==> k.told(WithApp(e, payload, sport, dport, tcp, p))
  }

  ghost predicate Laws(e: Env, k: Facts) {
    && (forall pos: nat, end: nat, p :: EndLaw(k, pos, end, p))
    && (forall p, name :: ToldOnLaw(k, p, name))
    && (forall pos: nat, end: nat, p, name, pos': nat :: OnLaw(k, pos, end, p, name, pos'))
    && (forall pos: nat, end: nat, p, pos': nat :: FurtherLaw(k, pos, end, p, pos'))
    && (forall pos: nat, end: nat, p, kind, pos': nat :: EnterLaw(k, pos, end, p, kind, pos'))
    && (forall pos: nat, end: nat, p :: Ip4Law(e, k, pos, end, p))
    && (forall pos: nat, end: nat, p :: Ip6Law(e, k, pos, end, p))
    && (forall h, p :: RecordLaw(e, k, h, p))
    && (forall src, dst, pos: nat, end: nat, p :: TcpLaw(e, k, src, dst, pos, end, p))
    && (forall src, dst, pos: nat, end: nat, p :: SctpLaw(e, k, src, dst, pos, end, p))
    && (forall src, dst, proto, pos: nat, end: nat, p :: UdpLaw(e, k, src, dst, proto, pos, end, p))
    && (forall payload, sport, dport, tcp, p :: AppLaw(e, k, payload, sport, dport, tcp, p))
  }

  // ---------------------------------------------------------------------------
  // The recursion
  // ---------------------------------------------------------------------------

  lemma EtherKeeps(e: Env, k: Facts, pos: nat, end: nat, p: Past)
    requires Laws(e, k) && Within(e, pos, end) && k.ready(pos, end, p)
    ensures k.told(EtherOf(e, pos, end, p).past)
    decreases end - pos, 0
  {
    assert EndLaw(k, pos, end, p);
    var q, s := p.On("eth"), e.frame[pos..end];
    assert OnLaw(k, pos, end, p, "eth", if |s| >= 14 then pos + 14 else pos);
    if |s| >= 14 {
      var ethertype := Value16(s[12..14]);
      if ethertype <= 1500 {
        LlcKeeps(e, k, pos + 14, end, q);
      } else {
        TypeKeeps(e, k, ethertype, pos + 14, end, q);
      }
    }
  }

  lemma TypeKeeps(e: Env, k: Facts, ethertype: U16, pos: nat, end: nat, p: Past)
    requires Laws(e, k) && Within(e, pos, end) && k.ready(pos, end, p)
    ensures k.told(TypeOf(e, ethertype, pos, end, p).past)
    decreases end - pos, 2
  {
    assert EndLaw(k, pos, end, p);
    match ethertype
    case 0x0800 => Ip4Keeps(e, k, pos, end, p);
    case 0x86dd => Ip6Keeps(e, k, pos, end, p);
    case 0x8847 => MplsKeeps(e, k, pos, end, p);
    case 0x8848 => MplsKeeps(e, k, pos, end, p);
    case _ => TagKeeps(e, k, ethertype, pos, end, p);
  }

  lemma TagKeeps(e: Env, k: Facts, ethertype: U16, pos: nat, end: nat, p: Past)
    requires Laws(e, k) && Within(e, pos, end) && k.ready(pos, end, p)
    ensures k.told(TagOf(e, ethertype, pos, end, p).past)
    decreases end - pos, 1
  {
    assert EndLaw(k, pos, end, p);
    match ethertype
    case 0x0806 => assert ToldOnLaw(k, p, "arp");
    case 0x8035 => assert ToldOnLaw(k, p, "arp");
    case 0x8100 => VlanKeeps(e, k, pos, end, p);
    case 0x88a8 => VlanKeeps(e, k, pos, end, p);
    case 0x9100 => VlanKeeps(e, k, pos, end, p);
    case 0x8863 => assert ToldOnLaw(k, p, "pppoed");
    case 0x8864 => PppoeKeeps(e, k, pos, end, p);
    case 0x88cc => assert ToldOnLaw(k, p, "lldp");
    case _ =>
  }

  lemma VlanKeeps(e: Env, k: Facts, pos: nat, end: nat, p: Past)
    requires Laws(e, k) && Within(e, pos, end) && k.ready(pos, end, p)
    ensures k.told(VlanOf(e, pos, end, p).past)
    decreases end - pos, 0
  {
    assert EndLaw(k, pos, end, p);
    var q, s := p.On("vlan"), e.frame[pos..end];
    assert OnLaw(k, pos, end, p, "vlan", if |s| >= 4 then pos + 4 else pos);
    if |s| >= 4 {
      var inner := Value16(s[2..4]);
      if inner <= 1500 {
        LlcKeeps(e, k, pos + 4, end, q);
      } else {
        TypeKeeps(e, k, inner, pos + 4, end, q);
      }
    }
  }

  lemma LlcKeeps(e: Env, k: Facts, pos: nat, end: nat, p: Past)
    requires Laws(e, k) && Within(e, pos, end) && k.ready(pos, end, p)
    ensures k.told(LlcOf(e, pos, end, p).past)
    decreases end - pos, 0
  {
    assert EndLaw(k, pos, end, p);
    var q, s := p.On("llc"), e.frame[pos..end];
    assert OnLaw(k, pos, end, p, "llc", if |s| >= 3 then pos + 3 else pos);
    if |s| >= 3 && s[0] == 0xaa && s[1] == 0xaa {
      SnapKeeps(e, k, pos + 3, end, q);
    }
  }

  lemma SnapKeeps(e: Env, k: Facts, pos: nat, end: nat, p: Past)
    requires Laws(e, k) && Within(e, pos, end) && k.ready(pos, end, p)
    ensures k.told(SnapOf(e, pos, end, p).past)
    decreases end - pos, 0
  {
    assert EndLaw(k, pos, end, p);
    var q, s := p.On("snap"), e.frame[pos..end];
    assert OnLaw(k, pos, end, p, "snap", if |s| >= 5 then pos + 5 else pos);
    if |s| >= 5 && s[0..3] == [0, 0, 0] {
      TypeKeeps(e, k, Value16(s[3..5]), pos + 5, end, q);
    }
  }

  lemma MplsKeeps(e: Env, k: Facts, pos: nat, end: nat, p: Past)
    requires Laws(e, k) && Within(e, pos, end) && k.ready(pos, end, p)
    ensures k.told(MplsOf(e, pos, end, p).past)
    decreases end - pos, 0
  {
    assert EndLaw(k, pos, end, p);
    var n := LabelsEnd(e.frame[pos..end], 0);
    assert OnLaw(k, pos, end, p, "mpls", if n.Some? then pos + n.value else pos);
    if n.Some? {
      VersionKeeps(e, k, pos + n.value, end, p.On("mpls"));
    }
  }

  lemma VersionKeeps(e: Env, k: Facts, pos: nat, end: nat, p: Past)
    requires Laws(e, k) && Within(e, pos, end) && k.ready(pos, end, p)
    ensures k.told(VersionOf(e, pos, end, p).past)
    decreases end - pos, 1
  {
    assert EndLaw(k, pos, end, p);
    if pos < end && e.frame[pos] as int / 0x10 == 4 {
      Ip4Keeps(e, k, pos, end, p);
    } else if pos < end && e.frame[pos] as int / 0x10 == 6 {
      Ip6Keeps(e, k, pos, end, p);
    }
  }

  lemma PppoeKeeps(e: Env, k: Facts, pos: nat, end: nat, p: Past)
    requires Laws(e, k) && Within(e, pos, end) && k.ready(pos, end, p)
    ensures k.told(PppoeOf(e, pos, end, p).past)
    decreases end - pos, 0
  {
    assert EndLaw(k, pos, end, p);
    var q, s := p.On("pppoe"), e.frame[pos..end];
    assert OnLaw(k, pos, end, p, "pppoe", if |s| >= 8 then pos + 8 else pos);
    if |s| >= 8 {
      PppKeeps(e, k, Value16(s[6..8]), pos + 8, end, q);
    }
  }

  lemma PppKeeps(e: Env, k: Facts, proto: U16, pos: nat, end: nat, p: Past)
    requires Laws(e, k) && Within(e, pos, end) && k.ready(pos, end, p)
    ensures k.told(PppOf(e, proto, pos, end, p).past)
    decreases end - pos, 1
  {
    assert EndLaw(k, pos, end, p);
    if proto == 0x0021 {
      Ip4Keeps(e, k, pos, end, p);
    } else if proto == 0x0057 {
      Ip6Keeps(e, k, pos, end, p);
    }
  }

  lemma Ip4Keeps(e: Env, k: Facts, pos: nat, end: nat, p: Past)
    requires Laws(e, k) && Within(e, pos, end) && k.ready(pos, end, p)
    ensures k.told(Ip4Of(e, pos, end, p).past)
    decreases end - pos, 0
  {
    assert EndLaw(k, pos, end, p);
    assert Ip4Law(e, k, pos, end, p);
    var parsed := ParseV4(e.frame[pos..end]);
    if parsed.Success? && parsed.value.headerLen <= end - pos {
      var v := parsed.value;
      var known := Told4(p, v).Met(ByIp(pos));
      CarriedKeeps(e, k, HeaderV4(pos, end, v, |known.bounds|), known);
    }
  }

  lemma Ip6Keeps(e: Env, k: Facts, pos: nat, end: nat, p: Past)
    requires Laws(e, k) && Within(e, pos, end) && k.ready(pos, end, p)
    ensures k.told(Ip6Of(e, pos, end, p).past)
    decreases end - pos, 0
  {
    assert EndLaw(k, pos, end, p);
    assert Ip6Law(e, k, pos, end, p);
    var parsed := ParseV6(e.frame[pos..end]);
    if parsed.Success? {
      var v := parsed.value;
      var w := Walked(e.frame[pos + 40..end], Start(v.next), 0);
      if w.r.Success? {
        ChainAdvances(e.frame[pos + 40..end], Start(v.next), 0);
        CarriedKeeps(e, k, HeaderV6(pos, end, v, w.chain, |p.bounds|), Told6(p, v, w.chain));
      }
    }
  }

  lemma CarriedKeeps(e: Env, k: Facts, h: Header, p: Past)
    requires Laws(e, k) && k.parsed(h, p) && Within(e, h.body, h.end)
    ensures k.told(CarriedOf(e, h, p).past)
    decreases h.end - h.body, 5
  {
    assert RecordLaw(e, k, h, p);
    if h.offset == 0 {
      var q := p.Recorded(h, e.frame[h.body..h.end]).(tuple := Some(Tuple(h.src, h.dst, 0, 0, h.proto)));
      ProtoKeeps(e, k, h.proto, h.src, h.dst, h.body, h.end, q);
    }
  }

  lemma ProtoKeeps(e: Env, k: Facts, proto: Byte, src: IpAddr, dst: IpAddr, pos: nat, end: nat, p: Past)
    requires Laws(e, k) && Within(e, pos, end) && k.inside(pos, end, p) && Portless(p, src, dst, proto)
    ensures k.told(ProtoOf(e, proto, src, dst, pos, end, p).past)
    decreases end - pos, 4
  {
    assert EndLaw(k, pos, end, p);
    match proto
    case 6 => assert TcpLaw(e, k, src, dst, pos, end, p);
    case 17 => UdpKeeps(e, k, src, dst, proto, pos, end, p);
    case 136 => UdpKeeps(e, k, src, dst, proto, pos, end, p);
    case 132 => assert SctpLaw(e, k, src, dst, pos, end, p);
    case _ => PortlessKeeps(e, k, proto, pos, end, p);
  }

  lemma PortlessKeeps(e: Env, k: Facts, proto: Byte, pos: nat, end: nat, p: Past)
    requires Laws(e, k) && Within(e, pos, end) && k.inside(pos, end, p)
    ensures k.told(PortlessOf(e, proto, pos, end, p).past)
    decreases end - pos, 3, 1
  {
    assert EndLaw(k, pos, end, p);
    match proto
    case 47 => GreKeeps(e, k, pos, end, p);
    case 4 => IpIpKeeps(e, k, false, pos, end, p);
    case 41 => IpIpKeeps(e, k, true, pos, end, p);
    case _ => PlainKeeps(e, k, proto, pos, end, p);
  }

  lemma PlainKeeps(e: Env, k: Facts, proto: Byte, pos: nat, end: nat, p: Past)
    requires Laws(e, k) && Within(e, pos, end) && k.inside(pos, end, p)
    ensures k.told(PlainOf(e, proto, pos, end, p).past)
  {
    assert EndLaw(k, pos, end, p);
    match proto
    case 1 => assert ToldOnLaw(k, p, "icmp");
    case 2 => assert ToldOnLaw(k, p, "igmp");
    case 50 => assert ToldOnLaw(k, p, "esp");
    case 58 => assert ToldOnLaw(k, p, "icmpv6");
    case 89 => assert ToldOnLaw(k, p, "ospf");
    case 103 => assert ToldOnLaw(k, p, "pim");
    case 112 => assert ToldOnLaw(k, p, "vrrp");
    case _ =>
  }

  lemma UdpKeeps(e: Env, k: Facts, src: IpAddr, dst: IpAddr, proto: Byte, pos: nat, end: nat, p: Past)
    requires Laws(e, k) && Within(e, pos, end) && k.inside(pos, end, p) && Portless(p, src, dst, proto)
    ensures k.told(UdpOf(e, src, dst, proto, pos, end, p).past)
    decreases end - pos, 0
  {
    assert EndLaw(k, pos, end, p);
    var s := e.frame[pos..end];
    assert UdpLaw(e, k, src, dst, proto, pos, end, p);
    if |s| >= 8 {
      var t := Tuple(src, dst, Value16(s[0..2]), Value16(s[2..4]), proto);
      var q := p.On("udp").Ported(t).Met(ByUdp(pos));
      UdpPayloadKeeps(e, k, t.srcPort, t.dstPort, pos + 8, EndUdp(Value16(s[4..6]), pos, end), q);
    }
  }

  lemma UdpPayloadKeeps(e: Env, k: Facts, sport: U16, dport: U16, pos: nat, end: nat, p: Past)
    requires Laws(e, k) && Within(e, pos, end) && k.inside(pos, end, p)
    ensures k.told(UdpPayloadOf(e, sport, dport, pos, end, p).past)
    decreases end - pos, 4
  {
    assert EndLaw(k, pos, end, p);
    match UdpTunnel(sport, dport)
    case Some(Vxlan) => VxlanKeeps(e, k, pos, end, p);
    case Some(Geneve) => GeneveKeeps(e, k, pos, end, p);
    case Some(Gtp) => GtpKeeps(e, k, pos, end, p);
    case Some(L2tp) => L2tpKeeps(e, k, pos, end, p);
    case Some(_) => TeredoKeeps(e, k, pos, end, p);
    case None => assert AppLaw(e, k, e.frame[pos..end], sport, dport, false, p);
  }

  lemma GreKeeps(e: Env, k: Facts, pos: nat, end: nat, p: Past)
    requires Laws(e, k) && Within(e, pos, end) && k.inside(pos, end, p)
    ensures k.told(GreOf(e, pos, end, p).past)
    decreases end - pos, 0
  {
    assert EndLaw(k, pos, end, p);
    var s := e.frame[pos..end];
    if |s| >= 4 && |s| >= GreLen(s) {
      var proto := Value16(s[2..4]);
      assert FurtherLaw(k, pos, end, p, pos + GreLen(s));
      if proto == 0x88be || proto == 0x22eb {
        ErspanKeeps(e, k, proto, pos + GreLen(s), end, p);
      } else {
        PlainGreKeeps(e, k, proto, pos + GreLen(s), end, p);
      }
    }
  }

  lemma ErspanKeeps(e: Env, k: Facts, proto: U16, pos: nat, end: nat, p: Past)
    requires Laws(e, k) && Within(e, pos, end) && k.inside(pos, end, p)
    ensures k.told(ErspanOf(e, proto, pos, end, p).past)
    decreases end - pos, 3
  {
    assert EndLaw(k, pos, end, p);
    var n := ErspanLen(proto);
    if p.depth < MAX_DEPTH {
      assert EnterLaw(k, pos, end, p, Erspan, if end - pos < n then pos else pos + n);
      if end - pos >= n {
        EtherKeeps(e, k, pos + n, end, p.Entered(Erspan).value);
      }
    }
  }

  lemma PlainGreKeeps(e: Env, k: Facts, proto: U16, pos: nat, end: nat, p: Past)
    requires Laws(e, k) && Within(e, pos, end) && k.inside(pos, end, p)
    ensures k.told(PlainGreOf(e, proto, pos, end, p).past)
    decreases end - pos, 3
  {
    assert EndLaw(k, pos, end, p);
    if p.depth < MAX_DEPTH {
      assert EnterLaw(k, pos, end, p, TunnelKind.Gre, pos);
      BridgedKeeps(e, k, proto, pos, end, p.Entered(TunnelKind.Gre).value);
    }
  }

  lemma BridgedKeeps(e: Env, k: Facts, proto: U16, pos: nat, end: nat, p: Past)
    requires Laws(e, k) && Within(e, pos, end) && k.ready(pos, end, p)
    ensures k.told(BridgedOf(e, proto, pos, end, p).past)
    decreases end - pos, 1
  {
    assert EndLaw(k, pos, end, p);
    match proto
    case 0x0800 => Ip4Keeps(e, k, pos, end, p);
    case 0x86dd => Ip6Keeps(e, k, pos, end, p);
    case 0x6558 => EtherKeeps(e, k, pos, end, p);
    case _ =>
  }

  lemma IpIpKeeps(e: Env, k: Facts, innerIsV6: bool, pos: nat, end: nat, p: Past)
    requires Laws(e, k) && Within(e, pos, end) && k.inside(pos, end, p)
    ensures k.told(IpIpOf(e, innerIsV6, pos, end, p).past)
    decreases end - pos, 3, 0
  {
    assert EndLaw(k, pos, end, p);
    if p.depth < MAX_DEPTH {
      assert EnterLaw(k, pos, end, p, IpIp, pos);
      if innerIsV6 {
        Ip6Keeps(e, k, pos, end, p.Entered(IpIp).value);
      } else {
        Ip4Keeps(e, k, pos, end, p.Entered(IpIp).value);
      }
    }
  }

  lemma VxlanKeeps(e: Env, k: Facts, pos: nat, end: nat, p: Past)
    requires Laws(e, k) && Within(e, pos, end) && k.inside(pos, end, p)
    ensures k.told(VxlanOf(e, pos, end, p).past)
    decreases end - pos, 2
  {
    assert EndLaw(k, pos, end, p);
    if end - pos >= 8 && p.depth < MAX_DEPTH {
      assert EnterLaw(k, pos, end, p, Vxlan, pos + 8);
      EtherKeeps(e, k, pos + 8, end, p.Entered(Vxlan).value);
    }
  }

  lemma GeneveKeeps(e: Env, k: Facts, pos: nat, end: nat, p: Past)
    requires Laws(e, k) && Within(e, pos, end) && k.inside(pos, end, p)
    ensures k.told(GeneveOf(e, pos, end, p).past)
    decreases end - pos, 2
  {
    assert EndLaw(k, pos, end, p);
    var s := e.frame[pos..end];
    if |s| >= 8 && p.depth < MAX_DEPTH {
      assert EnterLaw(k, pos, end, p, Geneve, pos + 8);
      GenevePayloadKeeps(e, k, s[0], Value16(s[2..4]), pos + 8, end, p.Entered(Geneve).value);
    }
  }

  lemma GenevePayloadKeeps(e: Env, k: Facts, first: Byte, proto: U16, pos: nat, end: nat, p: Past)
    requires Laws(e, k) && Within(e, pos, end) && k.ready(pos, end, p)
    ensures k.told(GenevePayloadOf(e, first, proto, pos, end, p).past)
    decreases end - pos, 2
  {
    assert EndLaw(k, pos, end, p);
    var options := first as int % 0x40 * 4;
    if end - pos >= options {
      assert FurtherLaw(k, pos, end, p, pos + options);
      BridgedKeeps(e, k, proto, pos + options, end, p);
    }
  }

  lemma GtpKeeps(e: Env, k: Facts, pos: nat, end: nat, p: Past)
    requires Laws(e, k) && Within(e, pos, end) && k.inside(pos, end, p)
    ensures k.told(GtpOf(e, pos, end, p).past)
    decreases end - pos, 2
  {
    assert EndLaw(k, pos, end, p);
    var s := e.frame[pos..end];
    if |s| >= 8 && p.depth < MAX_DEPTH {
      assert EnterLaw(k, pos, end, p, Gtp, pos + 8);
      GtpPayloadKeeps(e, k, s[0], s[1], pos + 8, end, p.Entered(Gtp).value);
    }
  }

  lemma GtpPayloadKeeps(e: Env, k: Facts, flags: Byte, msgType: Byte, pos: nat, end: nat, p: Past)
    requires Laws(e, k) && Within(e, pos, end) && k.ready(pos, end, p)
    ensures k.told(GtpPayloadOf(e, flags, msgType, pos, end, p).past)
    decreases end - pos, 3
  {
    assert EndLaw(k, pos, end, p);
    var n := if flags as int % 8 == 0 then Success(0) else GtpOptionsEnd(e.frame[pos..end]);
    if n.Success? {
      assert FurtherLaw(k, pos, end, p, pos + n.value);
      if msgType == 255 {
        VersionKeeps(e, k, pos + n.value, end, p);
      }
    }
  }

  lemma L2tpKeeps(e: Env, k: Facts, pos: nat, end: nat, p: Past)
    requires Laws(e, k) && Within(e, pos, end) && k.inside(pos, end, p)
    ensures k.told(L2tpOf(e, pos, end, p).past)
    decreases end - pos, 2
  {
    assert EndLaw(k, pos, end, p);
    var s := e.frame[pos..end];
    if |s| >= 2 && p.depth < MAX_DEPTH {
      assert EnterLaw(k, pos, end, p, L2tp, pos + 2);
      L2tpPayloadKeeps(e, k, Value16(s[0..2]), pos + 2, end, p.Entered(L2tp).value);
    }
  }

  lemma L2tpPayloadKeeps(e: Env, k: Facts, flags: U16, pos: nat, end: nat, p: Past)
    requires Laws(e, k) && Within(e, pos, end) && k.ready(pos, end, p)
    ensures k.told(L2tpPayloadOf(e, flags, pos, end, p).past)
    decreases end - pos, 2
  {
    assert EndLaw(k, pos, end, p);
    var r := L2tpAt(e.frame[pos..end], flags);
    if r.Success? && r.value.0.Some? {
      assert FurtherLaw(k, pos, end, p, pos + r.value.1);
      PppKeeps(e, k, r.value.0.value, pos + r.value.1, end, p);
    }
  }

  lemma TeredoKeeps(e: Env, k: Facts, pos: nat, end: nat, p: Past)
    requires Laws(e, k) && Within(e, pos, end) && k.inside(pos, end, p)
    ensures k.told(TeredoOf(e, pos, end, p).past)
    decreases end - pos, 2
  {
    assert EndLaw(k, pos, end, p);
    var n := TeredoEnd(e.frame[pos..end], 0);
    if n.Success? {
      assert FurtherLaw(k, pos, end, p, pos + n.value);
      TeredoPayloadKeeps(e, k, pos + n.value, end, p);
    }
  }

  lemma TeredoPayloadKeeps(e: Env, k: Facts, pos: nat, end: nat, p: Past)
    requires Laws(e, k) && Within(e, pos, end) && k.inside(pos, end, p)
    ensures k.told(TeredoPayloadOf(e, pos, end, p).past)
    decreases end - pos, 1
  {
    assert EndLaw(k, pos, end, p);
    if pos < end && e.frame[pos] as int / 0x10 == 6 && p.depth < MAX_DEPTH {
      assert EnterLaw(k, pos, end, p, Teredo, pos);
      Ip6Keeps(e, k, pos, end, p.Entered(Teredo).value);
    }
  }

  // ---------------------------------------------------------------------------
  // Whole frames
  // ---------------------------------------------------------------------------

  /** What holds at the start and is kept by every update holds when a frame is done. */
  lemma HoldsAtTheEnd(e: Env, k: Facts, linktype: U16)
    requires Laws(e, k) && k.ready(0, |e.frame|, NOTHING)
    ensures k.told(LinkOf(e, linktype).past)
  {
    var end := |e.frame|;
    assert EndLaw(k, 0, end, NOTHING);
    match linktype
    case 1 => EtherKeeps(e, k, 0, end, NOTHING);
    case 101 => VersionKeeps(e, k, 0, end, NOTHING);
    case 228 => VersionKeeps(e, k, 0, end, NOTHING);
    case 229 => VersionKeeps(e, k, 0, end, NOTHING);
    case 0 => LoopbackKeeps(e, k, 0, end, NOTHING);
    case 108 => LoopbackKeeps(e, k, 0, end, NOTHING);
    case 9 => PppLinkKeeps(e, k, 0, end, NOTHING);
    case 105 => WlanKeeps(e, k, 0, end, NOTHING);
    case 113 => SllKeeps(e, k, 0, end, NOTHING);
    case 127 => RadiotapKeeps(e, k, 0, end, NOTHING);
    case 276 => Sll2Keeps(e, k, 0, end, NOTHING);
    case _ =>
  }

  lemma LoopbackKeeps(e: Env, k: Facts, pos: nat, end: nat, p: Past)
    requires Laws(e, k) && Within(e, pos, end) && k.ready(pos, end, p)
    ensures k.told(LoopbackOf(e, pos, end, p).past)
  {
    assert EndLaw(k, pos, end, p);
    if end - pos >= 4 {
      assert OnLaw(k, pos, end, p, "null", pos + 4);
      Ip4Keeps(e, k, pos + 4, end, p.On("null"));
      Ip6Keeps(e, k, pos + 4, end, p.On("null"));
    }
  }

  lemma PppLinkKeeps(e: Env, k: Facts, pos: nat, end: nat, p: Past)
    requires Laws(e, k) && Within(e, pos, end) && k.ready(pos, end, p)
    ensures k.told(PppLinkOf(e, pos, end, p).past)
  {
    assert EndLaw(k, pos, end, p);
    var s := e.frame[pos..end];
    assert OnLaw(k, pos, end, p, "ppp", if |s| >= 2 then pos + 2 else pos);
    if |s| >= 2 {
      PppKeeps(e, k, Value16(s[0..2]), pos + 2, end, p.On("ppp"));
    }
  }

  lemma SllKeeps(e: Env, k: Facts, pos: nat, end: nat, p: Past)
    requires Laws(e, k) && Within(e, pos, end) && k.ready(pos, end, p)
    ensures k.told(SllOf(e, pos, end, p).past)
  {
    assert EndLaw(k, pos, end, p);
    var s := e.frame[pos..end];
    assert OnLaw(k, pos, end, p, "sll", if |s| >= 16 then pos + 16 else pos);
    if |s| >= 16 {
      TypeKeeps(e, k, Value16(s[14..16]), pos + 16, end, p.On("sll"));
    }
  }

  lemma Sll2Keeps(e: Env, k: Facts, pos: nat, end: nat, p: Past)
    requires Laws(e, k) && Within(e, pos, end) && k.ready(pos, end, p)
    ensures k.told(Sll2Of(e, pos, end, p).past)
  {
    assert EndLaw(k, pos, end, p);
    var s := e.frame[pos..end];
    assert OnLaw(k, pos, end, p, "sll2", if |s| >= 20 then pos + 20 else pos);
    if |s| >= 20 {
      TypeKeeps(e, k, Value16(s[0..2]), pos + 20, end, p.On("sll2"));
    }
  }

  lemma RadiotapKeeps(e: Env, k: Facts, pos: nat, end: nat, p: Past)
    requires Laws(e, k) && Within(e, pos, end) && k.ready(pos, end, p)
    ensures k.told(RadiotapOf(e, pos, end, p).past)
  {
    assert EndLaw(k, pos, end, p);
    var n := RadiotapLen(e.frame[pos..end]);
    assert OnLaw(k, pos, end, p, "radiotap", if n.Success? then pos + n.value else pos);
    if n.Success? {
      WlanKeeps(e, k, pos + n.value, end, p.On("radiotap"));
    }
  }

  lemma WlanKeeps(e: Env, k: Facts, pos: nat, end: nat, p: Past)
    requires Laws(e, k) && Within(e, pos, end) && k.ready(pos, end, p)
    ensures k.told(WlanOf(e, pos, end, p).past)
  {
    assert EndLaw(k, pos, end, p);
    var r := WlanAt(e.frame[pos..end]);
    assert OnLaw(k, pos, end, p, "wlan", if r.Success? then pos + r.value.1 else pos);
    if r.Success? && r.value.0 {
      LlcKeeps(e, k, pos + r.value.1, end, p.On("wlan"));
    }
  }
}
