/**
 What dissection comes to (rust/src/dissect: l2.rs, l3.rs, l4.rs, tunnel.rs), as functions of the
 octets `frame[pos..end]` and of the columns so far. Each layer decides the next one. They end on
 every frame, because each layer takes octets or is of lower rank; the tunnel cap is not needed for
 that.
 */
module DissectSpec {
  import opened Addresses
  import opened Cursor
  import opened DissectFields
  import opened DissectState
  import opened Errors
  import opened Integers
  import opened IpHeaders
  import opened Wrappers

  /** The columns when dissection ends, and whether it ended well. */
  datatype Ended = Ended(past: Past, r: DResult<()>)

  predicate Within(e: Env, pos: nat, end: nat) {
    pos <= end <= |e.frame|
  }

  function Cut(p: Past): Ended {
    Ended(p, Failure(Truncated))
  }

  function Refused(p: Past): Ended {
    Ended(p, Failure(Unsupported))
  }

  function Fine(p: Past): Ended {
    Ended(p, Success(()))
  }

  // ---------------------------------------------------------------------------
  // Link layer
  // ---------------------------------------------------------------------------

  function EtherOf(e: Env, pos: nat, end: nat, p: Past): Ended
    requires Within(e, pos, end)
    decreases end - pos, 0
  {
    var q, s := p.On("eth"), e.frame[pos..end];
    if |s| < 14 then Cut(q)
    else
      var ethertype := Value16(s[12..14]);
      if ethertype <= 1500 then LlcOf(e, pos + 14, end, q) else TypeOf(e, ethertype, pos + 14, end, q)
  }

  function TypeOf(e: Env, ethertype: U16, pos: nat, end: nat, p: Past): Ended
    requires Within(e, pos, end)
    decreases end - pos, 2
  {
    match ethertype
    case 0x0800 => Ip4Of(e, pos, end, p)
    case 0x86dd => Ip6Of(e, pos, end, p)
    case 0x8847 => MplsOf(e, pos, end, p)
    case 0x8848 => MplsOf(e, pos, end, p)
    case _ => TagOf(e, ethertype, pos, end, p)
  }

  function TagOf(e: Env, ethertype: U16, pos: nat, end: nat, p: Past): Ended
    requires Within(e, pos, end)
    decreases end - pos, 1
  {
    match ethertype
    case 0x0806 => LeafOf(e, "arp", pos, end, p)
    case 0x8035 => LeafOf(e, "arp", pos, end, p)
    case 0x8100 => VlanOf(e, pos, end, p)
    case 0x88a8 => VlanOf(e, pos, end, p)
    case 0x9100 => VlanOf(e, pos, end, p)
    case 0x8863 => Fine(p.On("pppoed"))
    case 0x8864 => PppoeOf(e, pos, end, p)
    case 0x88cc => Fine(p.On("lldp"))
    case _ => Refused(p)
  }

  function VlanOf(e: Env, pos: nat, end: nat, p: Past): Ended
    requires Within(e, pos, end)
    decreases end - pos, 0
  {
    var q, s := p.On("vlan"), e.frame[pos..end];
    if |s| < 4 then Cut(q)
    else
      var inner := Value16(s[2..4]);
      if inner <= 1500 then LlcOf(e, pos + 4, end, q) else TypeOf(e, inner, pos + 4, end, q)
  }

  function LlcOf(e: Env, pos: nat, end: nat, p: Past): Ended
    requires Within(e, pos, end)
    decreases end - pos, 0
  {
    var q, s := p.On("llc"), e.frame[pos..end];
    if |s| < 3 then Cut(q)
    else if s[0] == 0xaa && s[1] == 0xaa then SnapOf(e, pos + 3, end, q)
    else Fine(q)
  }

  function SnapOf(e: Env, pos: nat, end: nat, p: Past): Ended
    requires Within(e, pos, end)
    decreases end - pos, 0
  {
    var q, s := p.On("snap"), e.frame[pos..end];
    if |s| < 5 then Cut(q)
    else if s[0..3] == [0, 0, 0] then TypeOf(e, Value16(s[3..5]), pos + 5, end, q)
    else Fine(q)
  }

  function MplsOf(e: Env, pos: nat, end: nat, p: Past): Ended
    requires Within(e, pos, end)
    decreases end - pos, 0
  {
    var q, s := p.On("mpls"), e.frame[pos..end];
    match LabelsEnd(s, 0)
    case None => Cut(q)
    case Some(n) => VersionOf(e, pos + n, end, q)
  }

  /** No protocol number: the first nibble tells the IP version. */
  function VersionOf(e: Env, pos: nat, end: nat, p: Past): Ended
    requires Within(e, pos, end)
    decreases end - pos, 1
  {
    if pos == end then Cut(p)
    else if e.frame[pos] as int / 0x10 == 4 then Ip4Of(e, pos, end, p)
    else if e.frame[pos] as int / 0x10 == 6 then Ip6Of(e, pos, end, p)
    else Refused(p)
  }

  function PppoeOf(e: Env, pos: nat, end: nat, p: Past): Ended
    requires Within(e, pos, end)
    decreases end - pos, 0
  {
    var q, s := p.On("pppoe"), e.frame[pos..end];
    if |s| < 8 then Cut(q) else PppOf(e, Value16(s[6..8]), pos + 8, end, q)
  }

  function PppOf(e: Env, proto: U16, pos: nat, end: nat, p: Past): Ended
    requires Within(e, pos, end)
    decreases end - pos, 1
  {
    if proto == 0x0021 then Ip4Of(e, pos, end, p)
    else if proto == 0x0057 then Ip6Of(e, pos, end, p)
    else Refused(p)
  }

  function LeafOf(e: Env, name: string, pos: nat, end: nat, p: Past): Ended
    requires Within(e, pos, end)
  {
    Ended(p.On(name), e.leaf(name, e.frame[pos..end]))
  }

  function LinkOf(e: Env, linktype: U16): Ended {
    var end := |e.frame|;
    match linktype
    case 1 => EtherOf(e, 0, end, NOTHING)
    case 101 => VersionOf(e, 0, end, NOTHING)
    case 228 => VersionOf(e, 0, end, NOTHING)
    case 229 => VersionOf(e, 0, end, NOTHING)
    case 0 => LoopbackOf(e, 0, end, NOTHING)
    case 108 => LoopbackOf(e, 0, end, NOTHING)
    case 9 => PppLinkOf(e, 0, end, NOTHING)
    case 105 => WlanOf(e, 0, end, NOTHING)
    case 113 => SllOf(e, 0, end, NOTHING)
    case 127 => RadiotapOf(e, 0, end, NOTHING)
    case 276 => Sll2Of(e, 0, end, NOTHING)
    case _ => Refused(NOTHING)
  }

  /** A 4-byte address family in the byte order of a little-endian host. */
  function LoopbackOf(e: Env, pos: nat, end: nat, p: Past): Ended
    requires Within(e, pos, end)
  {
    if end - pos < 4 then Cut(p)
    else FamilyOf(e, LittleEndian(e.frame[pos..end][0..4]), pos + 4, end, p.On("null"))
  }

  function FamilyOf(e: Env, af: nat, pos: nat, end: nat, p: Past): Ended
    requires Within(e, pos, end)
  {
    if af == 2 then Ip4Of(e, pos, end, p)
    else if af == 24 || af == 28 || af == 30 then Ip6Of(e, pos, end, p)
    else Refused(p)
  }

  function PppLinkOf(e: Env, pos: nat, end: nat, p: Past): Ended
    requires Within(e, pos, end)
  {
    var q, s := p.On("ppp"), e.frame[pos..end];
    if |s| < 2 then Cut(q) else PppOf(e, Value16(s[0..2]), pos + 2, end, q)
  }

  function SllOf(e: Env, pos: nat, end: nat, p: Past): Ended
    requires Within(e, pos, end)
  {
    var q, s := p.On("sll"), e.frame[pos..end];
    if |s| < 16 then Cut(q) else TypeOf(e, Value16(s[14..16]), pos + 16, end, q)
  }

  function Sll2Of(e: Env, pos: nat, end: nat, p: Past): Ended
    requires Within(e, pos, end)
  {
    var q, s := p.On("sll2"), e.frame[pos..end];
    if |s| < 20 then Cut(q) else TypeOf(e, Value16(s[0..2]), pos + 20, end, q)
  }

  function RadiotapOf(e: Env, pos: nat, end: nat, p: Past): Ended
    requires Within(e, pos, end)
  {
    var q := p.On("radiotap");
    match RadiotapLen(e.frame[pos..end])
    case Failure(x) => Ended(q, Failure(x))
    case Success(n) => WlanOf(e, pos + n, end, q)
  }

  function WlanOf(e: Env, pos: nat, end: nat, p: Past): Ended
    requires Within(e, pos, end)
  {
    var q := p.On("wlan");
    match WlanAt(e.frame[pos..end])
    case Failure(x) => Ended(q, Failure(x))
    case Success((llc, n)) => if llc then LlcOf(e, pos + n, end, q) else Fine(q)
  }

  // ---------------------------------------------------------------------------
  // Network layer
  // ---------------------------------------------------------------------------

  /** The payload ends where the total length says, unless the window is shorter or it says nothing. */
  function EndV4(v: V4Header, at: nat, limit: nat): nat {
    if v.totalLen > v.headerLen then Min(at + v.totalLen, limit) else limit
  }

  function HeaderV4(at: nat, limit: nat, v: V4Header, within: nat): Header {
    Header(at, at + v.headerLen, EndV4(v, at, limit), false, V4(v.src), V4(v.dst), v.proto, v.Offset(),
           Some(v.MoreFragments()), Some(v.id), within)
  }

  function Ip4Of(e: Env, pos: nat, end: nat, p: Past): Ended
    requires Within(e, pos, end)
    decreases end - pos, 0
  {
    var q, s := p.(stack := p.stack + [Ip(false)]), e.frame[pos..end];
    match ParseV4(s)
    case Failure(x) => Ended(q, Failure(x))
    case Success(v) =>
      var told := q.Addressed(V4(v.src), V4(v.dst)).Flagged(Some(v.MoreFragments()), Some(v.id));
      if |s| < v.headerLen then Cut(told)
      else
        var known := told.Met(ByIp(pos));
        CarriedOf(e, HeaderV4(pos, end, v, |known.bounds|), known)
  }

  function HeaderV6(at: nat, end: nat, v: V6Header, c: Chain, within: nat): Header {
    Header(at, at + 40 + c.pos, end, true, V6(v.src), V6(v.dst), c.proto, c.offset, c.flag, c.id, within)
  }

  function Ip6Of(e: Env, pos: nat, end: nat, p: Past): Ended
    requires Within(e, pos, end)
    decreases end - pos, 0
  {
    var q, s := p.(stack := p.stack + [Ip(true)]), e.frame[pos..end];
    match ParseV6(s)
    case Failure(x) => Ended(q, Failure(x))
    case Success(v) => Ip6PayloadOf(e, v, pos, end, q.Addressed(V6(v.src), V6(v.dst)))
  }

  function Ip6PayloadOf(e: Env, v: V6Header, pos: nat, end: nat, p: Past): Ended
    requires Within(e, pos + 40, end)
    decreases end - pos, 0, 0
  {
    var s := e.frame[pos + 40..end];
    var w := Walked(s, Start(v.next), 0);
    var told := p.Flagged(w.chain.flag, w.chain.id);
    match w.r
    case Failure(x) => Ended(told.Missed(pos, end), Failure(x))
    case Success(_) =>
      ChainAdvances(s, Start(v.next), 0);
      CarriedOf(e, HeaderV6(pos, end, v, w.chain, |told.bounds|), told)
  }

  /** Mark a fragment; only a first one has a transport header to go on to. */
  function CarriedOf(e: Env, h: Header, p: Past): Ended
    requires Within(e, h.body, h.end)
    decreases h.end - h.body, 5
  {
    var q := p.Recorded(h, e.frame[h.body..h.end]);
    if h.offset != 0 then Fine(q.On("ip-fragment"))
    else ProtoOf(e, h.proto, h.src, h.dst, h.body, h.end, q.(tuple := Some(Tuple(h.src, h.dst, 0, 0, h.proto))))
  }

  function ProtoOf(e: Env, proto: Byte, src: IpAddr, dst: IpAddr, pos: nat, end: nat, p: Past): Ended
    requires Within(e, pos, end)
    decreases end - pos, 4
  {
    match proto
    case 6 => TcpOf(e, src, dst, pos, end, p)
    case 17 => UdpOf(e, src, dst, proto, pos, end, p)
    case 136 => UdpOf(e, src, dst, proto, pos, end, p)
    case 132 => SctpOf(e, src, dst, pos, end, p)
    case _ => PortlessOf(e, proto, pos, end, p)
  }

  function PortlessOf(e: Env, proto: Byte, pos: nat, end: nat, p: Past): Ended
    requires Within(e, pos, end)
    decreases end - pos, 3, 1
  {
    match proto
    case 47 => GreOf(e, pos, end, p)
    case 4 => IpIpOf(e, false, pos, end, p)
    case 41 => IpIpOf(e, true, pos, end, p)
    case _ => PlainOf(e, proto, pos, end, p)
  }

  /** Protocols with nothing of their own to go on to. */
  function PlainOf(e: Env, proto: Byte, pos: nat, end: nat, p: Past): Ended
    requires Within(e, pos, end)
  {
    match proto
    case 1 => LeafOf(e, "icmp", pos, end, p)
    case 2 => LeafOf(e, "igmp", pos, end, p)
    case 50 => LeafOf(e, "esp", pos, end, p)
    case 58 => LeafOf(e, "icmpv6", pos, end, p)
    case 89 => Fine(p.On("ospf"))
    case 103 => Fine(p.On("pim"))
    case 112 => Fine(p.On("vrrp"))
    case _ => Refused(p)
  }

  // ---------------------------------------------------------------------------
  // Transport layer
  // ---------------------------------------------------------------------------

  /** A deferred payload waits for stream reassembly, an empty one has no application layer. */
  function WithApp(e: Env, payload: seq<Byte>, sport: U16, dport: U16, tcp: bool, p: Past): Past {
    if payload == [] || (tcp && e.deferTcpApp) then p
    else p.(stack := p.stack + AllNamed(e.app(payload, sport, dport, tcp)))
  }

  /** The rest of the window is the payload; only its length is kept. */
  function Took(payload: seq<Byte>, start: nat, p: Past): Past {
    p.(tcpPayloadLen := Some(|payload| % TWO_TO_THE_32), payload := Some(Taken(start, payload)))
  }

  function Connected(h: TcpHeader, src: IpAddr, dst: IpAddr, p: Past): Past {
    p.Ported(Tuple(src, dst, h.sport, h.dport, 6)).(tcpSeq := Some(h.seqNo))
  }

  function TcpOf(e: Env, src: IpAddr, dst: IpAddr, pos: nat, end: nat, p: Past): Ended
    requires Within(e, pos, end)
  {
    var q, s := p.On("tcp"), e.frame[pos..end];
    match TcpHeaderAt(s)
    case Failure(x) => Ended(q, Failure(x))
    case Success(h) => Fine(TcpBodyOf(e, h, src, dst, pos, s, q))
  }

  function TcpBodyOf(e: Env, h: TcpHeader, src: IpAddr, dst: IpAddr, pos: nat, s: seq<Byte>, p: Past): Past
    requires |s| >= 20
  {
    var payload := s[TcpPayloadAt(s)..];
    WithApp(e, payload, h.sport, h.dport, true, Took(payload, pos + TcpPayloadAt(s), Connected(h, src, dst, p)))
  }

  function EndUdp(len: U16, at: nat, limit: nat): nat {
    if len >= 8 then Min(at + len, limit) else limit
  }

  function UdpOf(e: Env, src: IpAddr, dst: IpAddr, proto: Byte, pos: nat, end: nat, p: Past): Ended
    requires Within(e, pos, end)
    decreases end - pos, 0
  {
    var q, s := p.On("udp"), e.frame[pos..end];
    if |s| < 8 then Cut(q)
    else
      UdpBodyOf(e, Tuple(src, dst, Value16(s[0..2]), Value16(s[2..4]), proto), Value16(s[4..6]), pos, end, q)
  }

  function UdpBodyOf(e: Env, t: Tuple, len: U16, pos: nat, end: nat, p: Past): Ended
    requires Within(e, pos + 8, end)
    decreases end - pos, 0, 0
  {
    var q := p.Ported(t).Met(ByUdp(pos));
    UdpPayloadOf(e, t.srcPort, t.dstPort, pos + 8, EndUdp(len, pos, end), q)
  }

  /** The tunnel a pair of ports stands for, either port deciding, in this order. */
  function UdpTunnel(sport: U16, dport: U16): Option<TunnelKind> {
    if 4789 in {sport, dport} || dport == 4790 then Some(Vxlan)
    else if 6081 in {sport, dport} then Some(Geneve)
    else if 2152 in {sport, dport} || 2123 in {sport, dport} then Some(Gtp)
    else if 1701 in {sport, dport} then Some(L2tp)
    else if 3544 in {sport, dport} then Some(Teredo)
    else None
  }

  function UdpPayloadOf(e: Env, sport: U16, dport: U16, pos: nat, end: nat, p: Past): Ended
    requires Within(e, pos, end)
    decreases end - pos, 3
  {
    match UdpTunnel(sport, dport)
    case Some(Vxlan) => VxlanOf(e, pos, end, p)
    case Some(Geneve) => GeneveOf(e, pos, end, p)
    case Some(Gtp) => GtpOf(e, pos, end, p)
    case Some(L2tp) => L2tpOf(e, pos, end, p)
    case Some(_) => TeredoOf(e, pos, end, p)
    case None => Fine(WithApp(e, e.frame[pos..end], sport, dport, false, p))
  }

  function SctpOf(e: Env, src: IpAddr, dst: IpAddr, pos: nat, end: nat, p: Past): Ended
    requires Within(e, pos, end)
  {
    var q, s := p.On("sctp"), e.frame[pos..end];
    if |s| < 12 then Cut(q)
    else Fine(q.Ported(Tuple(src, dst, Value16(s[0..2]), Value16(s[2..4]), 132)))
  }

  // ---------------------------------------------------------------------------
  // Tunnels
  // ---------------------------------------------------------------------------

  function GreOf(e: Env, pos: nat, end: nat, p: Past): Ended
    requires Within(e, pos, end)
    decreases end - pos, 0
  {
    var s := e.frame[pos..end];
    if |s| < 4 || |s| < GreLen(s) then Cut(p)
    else
      var proto := Value16(s[2..4]);
      if proto == 0x88be || proto == 0x22eb then ErspanOf(e, proto, pos + GreLen(s), end, p)
      else PlainGreOf(e, proto, pos + GreLen(s), end, p)
  }

  /** A mirrored Ethernet frame, behind four or twelve more octets. */
  function ErspanOf(e: Env, proto: U16, pos: nat, end: nat, p: Past): Ended
    requires Within(e, pos, end)
    decreases end - pos, 3
  {
    match p.Entered(Erspan)
    case Failure(x) => Ended(p, Failure(x))
    case Success(q) =>
      if end - pos < ErspanLen(proto) then Cut(q) else EtherOf(e, pos + ErspanLen(proto), end, q)
  }

  function PlainGreOf(e: Env, proto: U16, pos: nat, end: nat, p: Past): Ended
    requires Within(e, pos, end)
    decreases end - pos, 3
  {
    match p.Entered(TunnelKind.Gre)
    case Failure(x) => Ended(p, Failure(x))
    case Success(q) => if proto == 0x880b then Fine(q) else BridgedOf(e, proto, pos, end, q)
  }

  /** A network packet, or an Ethernet frame, named by EtherType. */
  function BridgedOf(e: Env, proto: U16, pos: nat, end: nat, p: Past): Ended
    requires Within(e, pos, end)
    decreases end - pos, 1
  {
    match proto
    case 0x0800 => Ip4Of(e, pos, end, p)
    case 0x86dd => Ip6Of(e, pos, end, p)
    case 0x6558 => EtherOf(e, pos, end, p)
    case _ => Refused(p)
  }

  function IpIpOf(e: Env, innerIsV6: bool, pos: nat, end: nat, p: Past): Ended
    requires Within(e, pos, end)
    decreases end - pos, 3, 0
  {
    match p.Entered(IpIp)
    case Failure(x) => Ended(p, Failure(x))
    case Success(q) => if innerIsV6 then Ip6Of(e, pos, end, q) else Ip4Of(e, pos, end, q)
  }

  function VxlanOf(e: Env, pos: nat, end: nat, p: Past): Ended
    requires Within(e, pos, end)
    decreases end - pos, 2
  {
    var s := e.frame[pos..end];
    if |s| < 8 then Cut(p)
    else if s[0] as int / 8 % 2 == 0 then Ended(p, Failure(Malformed))
    else
      match p.Entered(Vxlan)
      case Failure(x) => Ended(p, Failure(x))
      case Success(q) => EtherOf(e, pos + 8, end, q)
  }

  function GeneveOf(e: Env, pos: nat, end: nat, p: Past): Ended
    requires Within(e, pos, end)
    decreases end - pos, 2
  {
    var s := e.frame[pos..end];
    if |s| < 8 then Cut(p)
    else
      match p.Entered(Geneve)
      case Failure(x) => Ended(p, Failure(x))
      case Success(q) => GenevePayloadOf(e, s[0], Value16(s[2..4]), pos + 8, end, q)
  }

  /** Options are counted in words in the first octet. */
  function GenevePayloadOf(e: Env, first: Byte, proto: U16, pos: nat, end: nat, p: Past): Ended
    requires Within(e, pos, end)
    decreases end - pos, 2
  {
    var options := first as int % 0x40 * 4;
    if end - pos < options then Cut(p) else BridgedOf(e, proto, pos + options, end, p)
  }

  function GtpOf(e: Env, pos: nat, end: nat, p: Past): Ended
    requires Within(e, pos, end)
    decreases end - pos, 2
  {
    var s := e.frame[pos..end];
    if |s| < 8 then Cut(p)
    else
      match p.Entered(Gtp)
      case Failure(x) => Ended(p, Failure(x))
      case Success(q) => GtpPayloadOf(e, s[0], s[1], pos + 8, end, q)
  }

  function GtpPayloadOf(e: Env, flags: Byte, msgType: Byte, pos: nat, end: nat, p: Past): Ended
    requires Within(e, pos, end)
    decreases end - pos, 3
  {
    match if flags as int % 8 == 0 then Success(0) else GtpOptionsEnd(e.frame[pos..end])
    case Failure(x) => Ended(p, Failure(x))
    case Success(n) => GtpUserOf(e, msgType, pos + n, end, p)
  }

  /** Only a G-PDU carries a user packet. */
  function GtpUserOf(e: Env, msgType: Byte, pos: nat, end: nat, p: Past): Ended
    requires Within(e, pos, end)
    decreases end - pos, 2
  {
    if msgType != 255 then Fine(p) else VersionOf(e, pos, end, p)
  }

  function L2tpOf(e: Env, pos: nat, end: nat, p: Past): Ended
    requires Within(e, pos, end)
    decreases end - pos, 2
  {
    var s := e.frame[pos..end];
    if |s| < 2 then Cut(p)
    else
      match p.Entered(L2tp)
      case Failure(x) => Ended(p, Failure(x))
      case Success(q) => L2tpPayloadOf(e, Value16(s[0..2]), pos + 2, end, q)
  }

  function L2tpPayloadOf(e: Env, flags: U16, pos: nat, end: nat, p: Past): Ended
    requires Within(e, pos, end)
    decreases end - pos, 2
  {
    match L2tpAt(e.frame[pos..end], flags)
    case Failure(x) => Ended(p, Failure(x))
    case Success((proto, n)) => if proto.None? then Fine(p) else PppOf(e, proto.value, pos + n, end, p)
  }

  function TeredoOf(e: Env, pos: nat, end: nat, p: Past): Ended
    requires Within(e, pos, end)
    decreases end - pos, 2
  {
    match TeredoEnd(e.frame[pos..end], 0)
    case Failure(x) => Ended(p, Failure(x))
    case Success(n) => TeredoPayloadOf(e, pos + n, end, p)
  }

  function TeredoPayloadOf(e: Env, pos: nat, end: nat, p: Past): Ended
    requires Within(e, pos, end)
    decreases end - pos, 1
  {
    if pos == end then Cut(p)
    else if e.frame[pos] as int / 0x10 != 6 then Ended(p, Failure(Malformed))
    else
      match p.Entered(Teredo)
      case Failure(x) => Ended(p, Failure(x))
      case Success(q) => Ip6Of(e, pos, end, q)
  }
}
