/**
 Link, network, transport and tunnel dissection (rust/src/dissect) as it runs: mutually recursive
 methods over one shrinking cursor and one mutable context. Each is proved to do exactly what its
 function in `DissectSpec` says of the octets the cursor has left and of the columns so far.
 */
module Dissection {
  import opened Addresses
  import opened Cursor
  import opened DissectFields
  import opened DissectSpec
  import opened DissectState
  import opened Errors
  import opened Fragments
  import opened Integers
  import opened IpHeaders
  import opened Wrappers

  class Ctx {
    const deferTcpApp: bool
    const app: (seq<Byte>, U16, U16, bool) -> seq<string>
    const leaf: (string, seq<Byte>) -> DResult<()>
    ghost const frame: seq<Byte>

    var stack: seq<Layer>
    var depth: nat
    var tuple: Option<Tuple>
    var frag: Option<FragMeta>
    var ipSrc: Option<IpAddr>
    var ipDst: Option<IpAddr>
    var srcPort: Option<U16>
    var dstPort: Option<U16>
    var ipFlagMf: Option<bool>
    var ipId: Option<U32>
    var outer: Outer
    var tunnelType: Option<TunnelKind>
    var tcpSeq: Option<U32>
    var tcpPayloadLen: Option<U32>

    ghost var headers: seq<Header>
    ghost var bounds: seq<Bound>
    ghost var payload: Option<Taken>
    ghost var lost: Option<Lost>

    ghost function Now(): Past
      reads this
    {
      Past(stack, depth, tuple, frag, ipSrc, ipDst, srcPort, dstPort, ipFlagMf, ipId, outer, tunnelType,
           tcpSeq, tcpPayloadLen, headers, bounds, payload, lost)
    }

    ghost function World(): Env {
      Env(frame, deferTcpApp, app, leaf)
    }

    /** What `c` has left is the octets from `pos` to `end`. */
    ghost predicate Reads(c: Cur, pos: nat, end: nat)
      reads c
    {
      c.Valid() && pos <= end <= |frame| && c.Rest() == frame[pos..end]
    }

    /** Once `n` octets are taken, it is those from `pos + n`. */
    lemma Took(c: Cur, pos: nat, end: nat, n: nat)
      requires pos <= end <= |frame| && Ahead(c, frame[pos..end], n)
      ensures Reads(c, pos + n, end)
    {
      assert frame[pos..end][n..] == frame[pos + n..end];
    }

    constructor (ghost frame: seq<Byte>, deferTcpApp: bool,
                 app: (seq<Byte>, U16, U16, bool) -> seq<string>, leaf: (string, seq<Byte>) -> DResult<()>)
      ensures World() == Env(frame, deferTcpApp, app, leaf) && Now() == NOTHING
    {
      this.frame, this.deferTcpApp, this.app, this.leaf := frame, deferTcpApp, app, leaf;
      stack, depth, tuple, frag := [], 0, None, None;
      ipSrc, ipDst, srcPort, dstPort, ipFlagMf, ipId := None, None, None, None, None, None;
      outer, tunnelType, tcpSeq, tcpPayloadLen := NO_OUTER, None, None, None;
      headers, bounds, payload, lost := [], [], None, None;
    }

    /** The fragment columns are what the chain so far says, and where it says nothing what they were. */
    ghost predicate Shows(chain: Chain, mf: Option<bool>, id: Option<U32>)
      reads this`ipFlagMf, this`ipId
    {
      && ipFlagMf == (if chain.flag.Some? then chain.flag else mf)
      && ipId == (if chain.id.Some? then chain.id else id)
    }

    method Layer(name: string)
      modifies this
      ensures Now() == old(Now()).On(name)
    {
      stack := stack + [Named(name)];
    }

    method IpLayer(v6: bool)
      modifies this
      ensures Now() == old(Now()).(stack := old(stack) + [Ip(v6)])
    {
      stack := stack + [Ip(v6)];
    }

    /** One level deeper, unless that is one too many. */
    method Descend() returns (r: DResult<()>)
      modifies this`depth
      ensures r == if old(depth) >= MAX_DEPTH then Failure(DepthExceeded) else Success(())
      ensures depth == old(depth) + if r.Success? then 1 else 0
    {
      if depth >= MAX_DEPTH {
        return Failure(DepthExceeded);
      }
      depth := depth + 1;
      return Success(());
    }

    /** The first tunnel moves the addresses and ports out; a tunnel inside it leaves them there. */
    method Enter(kind: TunnelKind) returns (r: DResult<()>)
      modifies this
      ensures match old(Now()).Entered(kind)
              case Failure(x) => r == Failure(x) && Now() == old(Now())
              case Success(q) => r == Success(()) && Now() == q
    {
      var down :- Descend();
      stack := stack + [Tunnel(kind)];
      tunnelType := Some(kind);
      Promote();
      return Success(());
    }

    /** Outer columns that are taken stay as they are. */
    method Promote()
      modifies this`outer, this`ipSrc, this`ipDst, this`srcPort, this`dstPort
      ensures Now() == if old(outer).src.Some? then old(Now()) else old(Now()).MovedOut()
    {
      if outer.src.None? {
        outer := Outer(ipSrc, ipDst, srcPort, dstPort);
        ipSrc, ipDst, srcPort, dstPort := None, None, None, None;
      }
    }

    method SetAddresses(src: IpAddr, dst: IpAddr)
      modifies this
      ensures Now() == old(Now()).Addressed(src, dst)
    {
      ipSrc, ipDst := Some(src), Some(dst);
    }

    method SetFragment(flag: bool, id: U32)
      modifies this
      ensures Now() == old(Now()).Flagged(Some(flag), Some(id))
    {
      ipFlagMf, ipId := Some(flag), Some(id);
    }

    method SetTuple(t: Tuple)
      modifies this
      ensures Now() == old(Now()).(tuple := Some(t))
    {
      tuple := Some(t);
    }

    method SetPorts(t: Tuple)
      modifies this
      ensures Now() == old(Now()).Ported(t)
    {
      srcPort, dstPort := Some(t.srcPort), Some(t.dstPort);
      tuple := Some(t);
    }

    ghost method Miss(at: nat, end: nat)
      modifies this`lost
      ensures Now() == old(Now()).Missed(at, end)
    {
      lost := Some(Lost(at, end));
    }

    ghost method Confined(b: Bound)
      modifies this`bounds
      ensures Now() == old(Now()).(bounds := old(bounds) + [b])
    {
      bounds := bounds + [b];
    }

    /** The mark is made of the columns, not of the header at hand. */
    method MarkFragment(c: Cur, proto: Byte, src: IpAddr, dst: IpAddr, offset: U16, ghost h: Header)
      requires c.Valid() && (proto, src, dst, offset) == (h.proto, h.src, h.dst, h.offset)
      modifies this
      ensures Now() == old(Now()).Recorded(h, c.Rest())
    {
      var mf := ipFlagMf == Some(true);
      if mf || offset != 0 {
        frag := Some(FragMeta(FragKey(src, dst, OrZero(ipId), proto), offset, mf, c.Rest()));
      }
      headers := headers + [h];
    }

    method AppLayers(payload: seq<Byte>, sport: U16, dport: U16, tcp: bool)
      modifies this
      ensures Now() == WithApp(World(), payload, sport, dport, tcp, old(Now()))
    {
      if payload != [] && !(tcp && deferTcpApp) {
        stack := stack + AllNamed(app(payload, sport, dport, tcp));
      }
    }
  }

  /** Confine what follows to `want` octets, if that is a limit at all and less than what is left. */
  method Confine(c: Cur, limited: bool, want: nat, ctx: Ctx, ghost pos: nat, ghost end: nat) returns (sub: Cur)
    requires ctx.Reads(c, pos, end)
    modifies c
    ensures sub == c || fresh(sub)
    ensures ctx.Reads(sub, pos, if limited then Min(pos + want, end) else end)
  {
    sub := c;
    if limited && want < c.Remaining() {
      ghost var s := c.Rest();
      var taken := c.Take(want);
      sub := new Cur(taken.value);
      assert sub.Rest() == s[..want] == ctx.frame[pos..pos + want];
    } else {
      assert c.Remaining() == end - pos;
    }
  }

  // ---------------------------------------------------------------------------
  // Link layer
  // ---------------------------------------------------------------------------

  method Ethernet(c: Cur, ctx: Ctx, ghost pos: nat, ghost end: nat) returns (r: DResult<()>)
    requires ctx.Reads(c, pos, end)
    modifies c, ctx
    ensures Ended(ctx.Now(), r) == EtherOf(ctx.World(), pos, end, old(ctx.Now()))
    decreases end - pos, 0
  {
    ctx.Layer("eth");
    var ethertype :- ReadEthernet(c);
    ctx.Took(c, pos, end, 14);
    if ethertype <= 1500 {
      r := Llc(c, ctx, pos + 14, end);
    } else {
      r := EthertypePayload(c, ethertype, ctx, pos + 14, end);
    }
  }

  method EthertypePayload(c: Cur, ethertype: U16, ctx: Ctx, ghost pos: nat, ghost end: nat) returns (r: DResult<()>)
    requires ctx.Reads(c, pos, end)
    modifies c, ctx
    ensures Ended(ctx.Now(), r) == TypeOf(ctx.World(), ethertype, pos, end, old(ctx.Now()))
    decreases end - pos, 2
  {
    match ethertype
    case 0x0800 => r := Ipv4(c, ctx, pos, end);
    case 0x86dd => r := Ipv6(c, ctx, pos, end);
    case 0x8847 => r := Mpls(c, ctx, pos, end);
    case 0x8848 => r := Mpls(c, ctx, pos, end);
    case _ => r := TagPayload(c, ethertype, ctx, pos, end);
  }

  method TagPayload(c: Cur, ethertype: U16, ctx: Ctx, ghost pos: nat, ghost end: nat) returns (r: DResult<()>)
    requires ctx.Reads(c, pos, end)
    modifies c, ctx
    ensures Ended(ctx.Now(), r) == TagOf(ctx.World(), ethertype, pos, end, old(ctx.Now()))
    decreases end - pos, 1
  {
    r := Success(());
    match ethertype
    case 0x0806 => r := Leaf(c, "arp", ctx, pos, end);
    case 0x8035 => r := Leaf(c, "arp", ctx, pos, end);
    case 0x8100 => r := Vlan(c, ctx, pos, end);
    case 0x88a8 => r := Vlan(c, ctx, pos, end);
    case 0x9100 => r := Vlan(c, ctx, pos, end);
    case 0x8863 => ctx.Layer("pppoed");
    case 0x8864 => r := Pppoe(c, ctx, pos, end);
    case 0x88cc => ctx.Layer("lldp");
    case _ => r := Failure(Unsupported);
  }

  method Vlan(c: Cur, ctx: Ctx, ghost pos: nat, ghost end: nat) returns (r: DResult<()>)
    requires ctx.Reads(c, pos, end)
    modifies c, ctx
    ensures Ended(ctx.Now(), r) == VlanOf(ctx.World(), pos, end, old(ctx.Now()))
    decreases end - pos, 0
  {
    ctx.Layer("vlan");
    var inner :- ReadTag(c);
    ctx.Took(c, pos, end, 4);
    if inner <= 1500 {
      r := Llc(c, ctx, pos + 4, end);
    } else {
      r := EthertypePayload(c, inner, ctx, pos + 4, end);
    }
  }

  method Llc(c: Cur, ctx: Ctx, ghost pos: nat, ghost end: nat) returns (r: DResult<()>)
    requires ctx.Reads(c, pos, end)
    modifies c, ctx
    ensures Ended(ctx.Now(), r) == LlcOf(ctx.World(), pos, end, old(ctx.Now()))
    decreases end - pos, 0
  {
    ctx.Layer("llc");
    var saps :- ReadLlc(c);
    if saps == (0xaa, 0xaa) {
      ctx.Took(c, pos, end, 3);
      r := Snap(c, ctx, pos + 3, end);
    } else {
      r := Success(());
    }
  }

  method Snap(c: Cur, ctx: Ctx, ghost pos: nat, ghost end: nat) returns (r: DResult<()>)
    requires ctx.Reads(c, pos, end)
    modifies c, ctx
    ensures Ended(ctx.Now(), r) == SnapOf(ctx.World(), pos, end, old(ctx.Now()))
    decreases end - pos, 0
  {
    ctx.Layer("snap");
    var id :- ReadSnap(c);
    if id.0 == [0, 0, 0] {
      ctx.Took(c, pos, end, 5);
      r := EthertypePayload(c, id.1, ctx, pos + 5, end);
    } else {
      r := Success(());
    }
  }

  method Mpls(c: Cur, ctx: Ctx, ghost pos: nat, ghost end: nat) returns (r: DResult<()>)
    requires ctx.Reads(c, pos, end)
    modifies c, ctx
    ensures Ended(ctx.Now(), r) == MplsOf(ctx.World(), pos, end, old(ctx.Now()))
    decreases end - pos, 0
  {
    ctx.Layer("mpls");
    ghost var n;
    r, n := Labels(c, ctx, pos, end);
    if r.Success? {
      r := RawIp(c, ctx, pos + n, end);
    }
  }

  /** The label stack, and where it ends. */
  method Labels(c: Cur, ctx: Ctx, ghost pos: nat, ghost end: nat) returns (r: DResult<()>, ghost n: nat)
    requires ctx.Reads(c, pos, end)
    modifies c
    ensures match LabelsEnd(ctx.frame[pos..end], 0)
            case None => r == Failure(Truncated)
            case Some(m) => r == Success(()) && n == m && ctx.Reads(c, pos + n, end)
  {
    r := ReadLabels(c);
    n := 0;
    if r.Success? {
      n := LabelsEnd(ctx.frame[pos..end], 0).value;
      ctx.Took(c, pos, end, n);
    }
  }

  /** No protocol number: the first nibble tells the IP version. */
  method RawIp(c: Cur, ctx: Ctx, ghost pos: nat, ghost end: nat) returns (r: DResult<()>)
    requires ctx.Reads(c, pos, end)
    modifies c, ctx
    ensures Ended(ctx.Now(), r) == VersionOf(ctx.World(), pos, end, old(ctx.Now()))
    decreases end - pos, 1
  {
    var b :- c.PeekU8();
    if b as int / 0x10 == 4 {
      r := Ipv4(c, ctx, pos, end);
    } else if b as int / 0x10 == 6 {
      r := Ipv6(c, ctx, pos, end);
    } else {
      r := Failure(Unsupported);
    }
  }

  method Pppoe(c: Cur, ctx: Ctx, ghost pos: nat, ghost end: nat) returns (r: DResult<()>)
    requires ctx.Reads(c, pos, end)
    modifies c, ctx
    ensures Ended(ctx.Now(), r) == PppoeOf(ctx.World(), pos, end, old(ctx.Now()))
    decreases end - pos, 0
  {
    ctx.Layer("pppoe");
    var proto :- ReadPppoe(c);
    ctx.Took(c, pos, end, 8);
    r := PppPayload(c, proto, ctx, pos + 8, end);
  }

  method PppPayload(c: Cur, proto: U16, ctx: Ctx, ghost pos: nat, ghost end: nat) returns (r: DResult<()>)
    requires ctx.Reads(c, pos, end)
    modifies c, ctx
    ensures Ended(ctx.Now(), r) == PppOf(ctx.World(), proto, pos, end, old(ctx.Now()))
    decreases end - pos, 1
  {
    if proto == 0x0021 {
      r := Ipv4(c, ctx, pos, end);
    } else if proto == 0x0057 {
      r := Ipv6(c, ctx, pos, end);
    } else {
      r := Failure(Unsupported);
    }
  }

  /** A protocol that ends the frame: its name, and whether its own fields read well. */
  method Leaf(c: Cur, name: string, ctx: Ctx, ghost pos: nat, ghost end: nat) returns (r: DResult<()>)
    requires ctx.Reads(c, pos, end)
    modifies ctx
    ensures Ended(ctx.Now(), r) == LeafOf(ctx.World(), name, pos, end, old(ctx.Now()))
  {
    ctx.Layer(name);
    r := ctx.leaf(name, c.Rest());
  }

  // ---------------------------------------------------------------------------
  // Network layer
  // ---------------------------------------------------------------------------

  method Ipv4(c: Cur, ctx: Ctx, ghost pos: nat, ghost end: nat) returns (r: DResult<()>)
    requires ctx.Reads(c, pos, end)
    modifies c, ctx
    ensures Ended(ctx.Now(), r) == Ip4Of(ctx.World(), pos, end, old(ctx.Now()))
    decreases end - pos, 0
  {
    ctx.IpLayer(false);
    var v :- ReadV4(c);
    ctx.SetAddresses(V4(v.src), V4(v.dst));
    ctx.SetFragment(v.MoreFragments(), v.id);
    var options :- SkipV4Options(c, v.headerLen, ctx.frame[pos..end]);
    ctx.Took(c, pos, end, v.headerLen);
    r := Ipv4Payload(c, v, ctx, pos, end);
  }

  method SkipV4Options(c: Cur, headerLen: nat, ghost s: seq<Byte>) returns (r: DResult<()>)
    requires headerLen >= 20 && Ahead(c, s, 20)
    modifies c
    ensures c.Valid()
    ensures if |s| < headerLen then r == Failure(Truncated) else r == Success(()) && Ahead(c, s, headerLen)
  {
    if headerLen > 20 {
      var opts :- ReadTake(c, headerLen - 20, s, 20);
    }
    return Success(());
  }

  /** The total length bounds the payload unless the capture is shorter still. */
  method Ipv4Payload(c: Cur, v: V4Header, ctx: Ctx, ghost pos: nat, ghost end: nat) returns (r: DResult<()>)
    requires v.headerLen > 0 && ctx.Reads(c, pos + v.headerLen, end)
    modifies c, ctx
    ensures var known := old(ctx.Now()).(bounds := old(ctx.bounds) + [ByIp(pos)]);
            Ended(ctx.Now(), r) == CarriedOf(ctx.World(), HeaderV4(pos, end, v, |known.bounds|), known)
    decreases end - pos, 0, 0
  {
    ctx.Confined(ByIp(pos));
    var limited := v.totalLen > v.headerLen;
    var want := if limited then v.totalLen - v.headerLen else 0;
    var sub := Confine(c, limited, want, ctx, pos + v.headerLen, end);
    r := AfterIp(sub, v.proto, V4(v.src), V4(v.dst), v.Offset(), ctx, HeaderV4(pos, end, v, |ctx.bounds|));
  }

  method Ipv6(c: Cur, ctx: Ctx, ghost pos: nat, ghost end: nat) returns (r: DResult<()>)
    requires ctx.Reads(c, pos, end)
    modifies c, ctx
    ensures Ended(ctx.Now(), r) == Ip6Of(ctx.World(), pos, end, old(ctx.Now()))
    decreases end - pos, 0
  {
    ctx.IpLayer(true);
    var v :- ReadV6(c);
    ctx.SetAddresses(V6(v.src), V6(v.dst));
    ctx.Took(c, pos, end, 40);
    r := Ipv6Payload(c, v, ctx, pos, end);
  }

  method Ipv6Payload(c: Cur, v: V6Header, ctx: Ctx, ghost pos: nat, ghost end: nat) returns (r: DResult<()>)
    requires ctx.Reads(c, pos + 40, end)
    modifies c, ctx
    ensures Ended(ctx.Now(), r) == Ip6PayloadOf(ctx.World(), v, pos, end, old(ctx.Now()))
    decreases end - pos, 0, 0
  {
    ghost var s := ctx.frame[pos + 40..end];
    ChainAdvances(s, Start(v.next), 0);
    var walked := WalkExtensions(c, v.next, ctx);
    match walked {
      case Failure(x) =>
        ctx.Miss(pos, end);
        r := Failure(x);
      case Success(chain) =>
        ctx.Took(c, pos + 40, end, chain.pos);
        ghost var h := HeaderV6(pos, end, v, chain, |ctx.bounds|);
        r := AfterIp(c, chain.proto, V6(v.src), V6(v.dst), chain.offset, ctx, h);
    }
  }

  /** Step over extension headers, noting what a fragment header says as it is met. */
  method WalkExtensions(c: Cur, next: Byte, ctx: Ctx) returns (r: DResult<Chain>)
    requires c.Valid()
    modifies c, ctx`ipFlagMf, ctx`ipId
    ensures c.Valid()
    ensures var w := Walked(old(c.Rest()), Start(next), 0);
            && ctx.Shows(w.chain, old(ctx.ipFlagMf), old(ctx.ipId))
            && match w.r
               case Failure(x) => r == Failure(x)
               case Success(_) => r == Success(w.chain) && Ahead(c, old(c.Rest()), w.chain.pos)
  {
    ghost var s := c.Rest();
    ghost var w := Walked(s, Start(next), 0);
    ghost var mf, id := ctx.ipFlagMf, ctx.ipId;
    var chain := Start(next);
    var guard := 0;
    while true
      invariant guard <= MAX_EXTENSIONS && Ahead(c, s, chain.pos) && c.pos == old(c.pos) + chain.pos
      invariant Walked(s, chain, guard) == w
      invariant ctx.Shows(chain, mf, id)
      decreases MAX_EXTENSIONS - guard
    {
      guard := guard + 1;
      if guard > MAX_EXTENSIONS {
        return Failure(Malformed);
      }
      if !IsExtension(chain.proto) {
        return Success(chain);
      }
      WalkedStep(s, chain, guard - 1);
      chain :- StepExtension(c, chain, ctx, s, mf, id);
    }
  }

  /** One header of the chain; a fragment header shows in the columns at once. */
  method StepExtension(c: Cur, chain: Chain, ctx: Ctx, ghost s: seq<Byte>,
                       ghost mf: Option<bool>, ghost id: Option<U32>)
    returns (r: DResult<Chain>)
    requires IsExtension(chain.proto) && Ahead(c, s, chain.pos) && ctx.Shows(chain, mf, id)
    modifies c, ctx`ipFlagMf, ctx`ipId
    ensures c.Valid() && r == Extension(s, chain)
    ensures r.Success? ==> Ahead(c, s, r.value.pos) && c.pos == old(c.pos) + r.value.pos - chain.pos
    ensures ctx.Shows(if r.Success? then r.value else chain, mf, id)
  {
    r := ReadExtension(c, chain, s);
    if r.Success? && chain.proto == IP_FRAGMENT {
      ctx.ipFlagMf, ctx.ipId := r.value.flag, r.value.id;
    }
  }

  /** Mark a fragment; only a first one has a transport header to go on to. */
  method AfterIp(c: Cur, proto: Byte, src: IpAddr, dst: IpAddr, offset: U16, ctx: Ctx, ghost h: Header)
    returns (r: DResult<()>)
    requires ctx.Reads(c, h.body, h.end) && (proto, src, dst, offset) == (h.proto, h.src, h.dst, h.offset)
    modifies c, ctx
    ensures Ended(ctx.Now(), r) == CarriedOf(ctx.World(), h, old(ctx.Now()))
    decreases h.end - h.body, 5
  {
    ctx.MarkFragment(c, proto, src, dst, offset, h);
    if offset != 0 {
      ctx.Layer("ip-fragment");
      return Success(());
    }
    ctx.SetTuple(Tuple(src, dst, 0, 0, proto));
    r := DispatchIpProto(c, proto, src, dst, ctx, h.body, h.end);
  }

  method DispatchIpProto(c: Cur, proto: Byte, src: IpAddr, dst: IpAddr, ctx: Ctx, ghost pos: nat, ghost end: nat)
    returns (r: DResult<()>)
    requires ctx.Reads(c, pos, end)
    modifies c, ctx
    ensures Ended(ctx.Now(), r) == ProtoOf(ctx.World(), proto, src, dst, pos, end, old(ctx.Now()))
    decreases end - pos, 4
  {
    match proto
    case 6 => r := Tcp(c, src, dst, ctx, pos, end);
    case 17 => r := Udp(c, src, dst, proto, ctx, pos, end);
    case 136 => r := Udp(c, src, dst, proto, ctx, pos, end);
    case 132 => r := Sctp(c, src, dst, ctx, pos, end);
    case _ => r := Portless(c, proto, ctx, pos, end);
  }

  method Portless(c: Cur, proto: Byte, ctx: Ctx, ghost pos: nat, ghost end: nat) returns (r: DResult<()>)
    requires ctx.Reads(c, pos, end)
    modifies c, ctx
    ensures Ended(ctx.Now(), r) == PortlessOf(ctx.World(), proto, pos, end, old(ctx.Now()))
    decreases end - pos, 3, 1
  {
    match proto
    case 47 => r := Gre(c, ctx, pos, end);
    case 4 => r := IpInIp(c, false, ctx, pos, end);
    case 41 => r := IpInIp(c, true, ctx, pos, end);
    case _ => r := Plain(c, proto, ctx, pos, end);
  }

  method Plain(c: Cur, proto: Byte, ctx: Ctx, ghost pos: nat, ghost end: nat) returns (r: DResult<()>)
    requires ctx.Reads(c, pos, end)
    modifies ctx
    ensures Ended(ctx.Now(), r) == PlainOf(ctx.World(), proto, pos, end, old(ctx.Now()))
  {
    r := Success(());
    match proto
    case 1 => r := Leaf(c, "icmp", ctx, pos, end);
    case 2 => r := Leaf(c, "igmp", ctx, pos, end);
    case 50 => r := Leaf(c, "esp", ctx, pos, end);
    case 58 => r := Leaf(c, "icmpv6", ctx, pos, end);
    case 89 => ctx.Layer("ospf");
    case 103 => ctx.Layer("pim");
    case 112 => ctx.Layer("vrrp");
    case _ => r := Failure(Unsupported);
  }

  // ---------------------------------------------------------------------------
  // Transport layer
  // ---------------------------------------------------------------------------

  method Tcp(c: Cur, src: IpAddr, dst: IpAddr, ctx: Ctx, ghost pos: nat, ghost end: nat) returns (r: DResult<()>)
    requires ctx.Reads(c, pos, end)
    modifies c, ctx
    ensures Ended(ctx.Now(), r) == TcpOf(ctx.World(), src, dst, pos, end, old(ctx.Now()))
  {
    ctx.Layer("tcp");
    var h :- ReadTcp(c);
    TcpBody(c, h, src, dst, ctx, pos, ctx.frame[pos..end]);
    return Success(());
  }

  method TcpBody(c: Cur, h: TcpHeader, src: IpAddr, dst: IpAddr, ctx: Ctx, ghost pos: nat, ghost s: seq<Byte>)
    requires Ahead(c, s, 20) && TcpHeaderAt(s) == Success(h)
    modifies c, ctx
    ensures ctx.Now() == TcpBodyOf(ctx.World(), h, src, dst, pos, s, old(ctx.Now()))
  {
    ctx.SetPorts(Tuple(src, dst, h.sport, h.dport, 6));
    ctx.tcpSeq := Some(h.seqNo);
    SkipOptions(c, h.dataOffset, s);
    TcpPayload(c, h.sport, h.dport, ctx, pos + TcpPayloadAt(s));
  }

  /** The rest of the window is the payload; only its length is kept. */
  method TcpPayload(c: Cur, sport: U16, dport: U16, ctx: Ctx, ghost start: nat)
    requires c.Valid()
    modifies c, ctx
    ensures var payload := old(c.Rest());
            ctx.Now() == WithApp(ctx.World(), payload, sport, dport, true, Took(payload, start, old(ctx.Now())))
  {
    var payload := c.TakeRest();
    ctx.tcpPayloadLen := Some(|payload| % TWO_TO_THE_32);
    ctx.payload := Some(Taken(start, payload));
    ctx.AppLayers(payload, sport, dport, true);
  }

  method Udp(c: Cur, src: IpAddr, dst: IpAddr, proto: Byte, ctx: Ctx, ghost pos: nat, ghost end: nat)
    returns (r: DResult<()>)
    requires ctx.Reads(c, pos, end)
    modifies c, ctx
    ensures Ended(ctx.Now(), r) == UdpOf(ctx.World(), src, dst, proto, pos, end, old(ctx.Now()))
    decreases end - pos, 0
  {
    ctx.Layer("udp");
    var h :- ReadUdp(c);
    ctx.Took(c, pos, end, 8);
    r := UdpBody(c, h.0, h.1, h.2, src, dst, proto, ctx, pos, end);
  }

  /** The length covers the header too, and can lie. */
  method UdpBody(c: Cur, sport: U16, dport: U16, len: U16, src: IpAddr, dst: IpAddr, proto: Byte, ctx: Ctx,
                 ghost pos: nat, ghost end: nat)
    returns (r: DResult<()>)
    requires ctx.Reads(c, pos + 8, end)
    modifies c, ctx
    ensures Ended(ctx.Now(), r) ==
            UdpBodyOf(ctx.World(), Tuple(src, dst, sport, dport, proto), len, pos, end, old(ctx.Now()))
    decreases end - pos, 0, 0
  {
    ctx.SetPorts(Tuple(src, dst, sport, dport, proto));
    ctx.Confined(ByUdp(pos));
    var sub := Confine(c, len >= 8, if len >= 8 then len as int - 8 else 0, ctx, pos + 8, end);
    r := UdpPayload(sub, sport, dport, ctx, pos + 8, EndUdp(len, pos, end));
  }

  /** A tunnel if the ports stand for one; else the octets are an application's. */
  method UdpPayload(c: Cur, sport: U16, dport: U16, ctx: Ctx, ghost pos: nat, ghost end: nat) returns (r: DResult<()>)
    requires ctx.Reads(c, pos, end)
    modifies c, ctx
    ensures Ended(ctx.Now(), r) ==
            UdpPayloadOf(ctx.World(), sport, dport, pos, end, old(ctx.Now()))
    decreases end - pos, 4
  {
    var tunnelled := TryUdpTunnel(c, sport, dport, ctx, pos, end);
    if tunnelled.Some? {
      return tunnelled.value;
    }
    var payload := c.TakeRest();
    ctx.AppLayers(payload, sport, dport, false);
    return Success(());
  }

  method Sctp(c: Cur, src: IpAddr, dst: IpAddr, ctx: Ctx, ghost pos: nat, ghost end: nat) returns (r: DResult<()>)
    requires ctx.Reads(c, pos, end)
    modifies c, ctx
    ensures Ended(ctx.Now(), r) == SctpOf(ctx.World(), src, dst, pos, end, old(ctx.Now()))
  {
    ctx.Layer("sctp");
    var h :- ReadSctp(c);
    ctx.SetPorts(Tuple(src, dst, h.0, h.1, 132));
    return Success(());
  }

  // ---------------------------------------------------------------------------
  // Tunnels
  // ---------------------------------------------------------------------------

  method Gre(c: Cur, ctx: Ctx, ghost pos: nat, ghost end: nat) returns (r: DResult<()>)
    requires ctx.Reads(c, pos, end)
    modifies c, ctx
    ensures Ended(ctx.Now(), r) == GreOf(ctx.World(), pos, end, old(ctx.Now()))
    decreases end - pos, 0
  {
    var proto :- ReadGre(c);
    ghost var n := GreLen(ctx.frame[pos..end]);
    ctx.Took(c, pos, end, n);
    if proto == 0x88be || proto == 0x22eb {
      r := ErspanTunnel(c, proto, ctx, pos + n, end);
    } else {
      r := PlainGre(c, proto, ctx, pos + n, end);
    }
  }

  /** A mirrored Ethernet frame, behind four or twelve more octets. */
  method ErspanTunnel(c: Cur, proto: U16, ctx: Ctx, ghost pos: nat, ghost end: nat) returns (r: DResult<()>)
    requires ctx.Reads(c, pos, end)
    modifies c, ctx
    ensures Ended(ctx.Now(), r) == ErspanOf(ctx.World(), proto, pos, end, old(ctx.Now()))
    decreases end - pos, 3
  {
    var entered :- ctx.Enter(Erspan);
    var shim :- ReadErspan(c, proto);
    ctx.Took(c, pos, end, ErspanLen(proto));
    r := Ethernet(c, ctx, pos + ErspanLen(proto), end);
  }

  method PlainGre(c: Cur, proto: U16, ctx: Ctx, ghost pos: nat, ghost end: nat) returns (r: DResult<()>)
    requires ctx.Reads(c, pos, end)
    modifies c, ctx
    ensures Ended(ctx.Now(), r) == PlainGreOf(ctx.World(), proto, pos, end, old(ctx.Now()))
    decreases end - pos, 3
  {
    var entered :- ctx.Enter(TunnelKind.Gre);
    if proto == 0x880b {
      return Success(());
    }
    r := Bridged(c, proto, ctx, pos, end);
  }

  /** A network packet, or an Ethernet frame, named by EtherType. */
  method Bridged(c: Cur, proto: U16, ctx: Ctx, ghost pos: nat, ghost end: nat) returns (r: DResult<()>)
    requires ctx.Reads(c, pos, end)
    modifies c, ctx
    ensures Ended(ctx.Now(), r) == BridgedOf(ctx.World(), proto, pos, end, old(ctx.Now()))
    decreases end - pos, 1
  {
    match proto
    case 0x0800 => r := Ipv4(c, ctx, pos, end);
    case 0x86dd => r := Ipv6(c, ctx, pos, end);
    case 0x6558 => r := Ethernet(c, ctx, pos, end);
    case _ => r := Failure(Unsupported);
  }

  method IpInIp(c: Cur, innerIsV6: bool, ctx: Ctx, ghost pos: nat, ghost end: nat) returns (r: DResult<()>)
    requires ctx.Reads(c, pos, end)
    modifies c, ctx
    ensures Ended(ctx.Now(), r) == IpIpOf(ctx.World(), innerIsV6, pos, end, old(ctx.Now()))
    decreases end - pos, 3, 0
  {
    var entered :- ctx.Enter(IpIp);
    if innerIsV6 {
      r := Ipv6(c, ctx, pos, end);
    } else {
      r := Ipv4(c, ctx, pos, end);
    }
  }

  /** Tunnels over UDP are known by port; no result means this is not one, and nothing was read. */
  method TryUdpTunnel(c: Cur, sport: U16, dport: U16, ctx: Ctx, ghost pos: nat, ghost end: nat)
    returns (r: Option<DResult<()>>)
    requires ctx.Reads(c, pos, end)
    modifies c, ctx
    ensures match UdpTunnel(sport, dport)
            case None => r == None && unchanged(c, ctx)
            case Some(_) =>
              r.Some? &&
              Ended(ctx.Now(), r.value) ==
              UdpPayloadOf(ctx.World(), sport, dport, pos, end, old(ctx.Now()))
    decreases end - pos, 3
  {
    if dport == 4789 || sport == 4789 || dport == 4790 {
      var t := VxlanTunnel(c, ctx, pos, end);
      return Some(t);
    }
    if dport == 6081 || sport == 6081 {
      var t := GeneveTunnel(c, ctx, pos, end);
      return Some(t);
    }
    if dport == 2152 || sport == 2152 || dport == 2123 || sport == 2123 {
      var t := GtpTunnel(c, ctx, pos, end);
      return Some(t);
    }
    if dport == 1701 || sport == 1701 {
      var t := L2tpTunnel(c, ctx, pos, end);
      return Some(t);
    }
    if dport == 3544 || sport == 3544 {
      var t := TeredoTunnel(c, ctx, pos, end);
      return Some(t);
    }
    return None;
  }

  method VxlanTunnel(c: Cur, ctx: Ctx, ghost pos: nat, ghost end: nat) returns (r: DResult<()>)
    requires ctx.Reads(c, pos, end)
    modifies c, ctx
    ensures Ended(ctx.Now(), r) == VxlanOf(ctx.World(), pos, end, old(ctx.Now()))
    decreases end - pos, 2
  {
    ghost var s := ctx.frame[pos..end];
    var flags :- ReadByte(c, s, 0);
    var reserved :- ReadTake(c, 3, s, 1);
    var vni :- Read32(c, s, 4);
    if flags as int / 8 % 2 == 0 {
      return Failure(Malformed);
    }
    var entered :- ctx.Enter(Vxlan);
    ctx.Took(c, pos, end, 8);
    r := Ethernet(c, ctx, pos + 8, end);
  }

  method GeneveTunnel(c: Cur, ctx: Ctx, ghost pos: nat, ghost end: nat) returns (r: DResult<()>)
    requires ctx.Reads(c, pos, end)
    modifies c, ctx
    ensures Ended(ctx.Now(), r) == GeneveOf(ctx.World(), pos, end, old(ctx.Now()))
    decreases end - pos, 2
  {
    var h :- ReadEight(c);
    var entered :- ctx.Enter(Geneve);
    ctx.Took(c, pos, end, 8);
    r := GenevePayload(c, h.0, h.2, ctx, pos + 8, end);
  }

  method StepOver(c: Cur, n: nat, ctx: Ctx, ghost pos: nat, ghost end: nat) returns (r: DResult<()>)
    requires ctx.Reads(c, pos, end)
    modifies c
    ensures if end - pos < n then r == Failure(Truncated) else r == Success(()) && ctx.Reads(c, pos + n, end)
  {
    var skipped :- ReadTake(c, n, ctx.frame[pos..end], 0);
    ctx.Took(c, pos, end, n);
    return Success(());
  }

  method GenevePayload(c: Cur, first: Byte, proto: U16, ctx: Ctx, ghost pos: nat, ghost end: nat)
    returns (r: DResult<()>)
    requires ctx.Reads(c, pos, end)
    modifies c, ctx
    ensures Ended(ctx.Now(), r) == GenevePayloadOf(ctx.World(), first, proto, pos, end, old(ctx.Now()))
    decreases end - pos, 2
  {
    var n := first as int % 0x40 * 4;
    r := StepOver(c, n, ctx, pos, end);
    if r.Success? {
      r := Bridged(c, proto, ctx, pos + n, end);
    }
  }

  method GtpTunnel(c: Cur, ctx: Ctx, ghost pos: nat, ghost end: nat) returns (r: DResult<()>)
    requires ctx.Reads(c, pos, end)
    modifies c, ctx
    ensures Ended(ctx.Now(), r) == GtpOf(ctx.World(), pos, end, old(ctx.Now()))
    decreases end - pos, 2
  {
    var h :- ReadEight(c);
    var entered :- ctx.Enter(Gtp);
    ctx.Took(c, pos, end, 8);
    r := GtpPayload(c, h.0, h.1, ctx, pos + 8, end);
  }

  method GtpPayload(c: Cur, flags: Byte, msgType: Byte, ctx: Ctx, ghost pos: nat, ghost end: nat)
    returns (r: DResult<()>)
    requires ctx.Reads(c, pos, end)
    modifies c, ctx
    ensures Ended(ctx.Now(), r) == GtpPayloadOf(ctx.World(), flags, msgType, pos, end, old(ctx.Now()))
    decreases end - pos, 3
  {
    ghost var n := 0;
    if flags as int % 8 != 0 {
      var extensions :- ReadGtpExtensions(c);
      n := GtpOptionsEnd(ctx.frame[pos..end]).value;
    }
    ctx.Took(c, pos, end, n);
    r := GtpUser(c, msgType, ctx, pos + n, end);
  }

  /** Only a G-PDU carries a user packet. */
  method GtpUser(c: Cur, msgType: Byte, ctx: Ctx, ghost pos: nat, ghost end: nat) returns (r: DResult<()>)
    requires ctx.Reads(c, pos, end)
    modifies c, ctx
    ensures Ended(ctx.Now(), r) == GtpUserOf(ctx.World(), msgType, pos, end, old(ctx.Now()))
    decreases end - pos, 2
  {
    if msgType != 255 {
      return Success(());
    }
    r := RawIp(c, ctx, pos, end);
  }

  method L2tpTunnel(c: Cur, ctx: Ctx, ghost pos: nat, ghost end: nat) returns (r: DResult<()>)
    requires ctx.Reads(c, pos, end)
    modifies c, ctx
    ensures Ended(ctx.Now(), r) == L2tpOf(ctx.World(), pos, end, old(ctx.Now()))
    decreases end - pos, 2
  {
    var flags :- Read16(c, ctx.frame[pos..end], 0);
    var entered :- ctx.Enter(L2tp);
    ctx.Took(c, pos, end, 2);
    r := L2tpPayload(c, flags, ctx, pos + 2, end);
  }

  method L2tpPayload(c: Cur, flags: U16, ctx: Ctx, ghost pos: nat, ghost end: nat) returns (r: DResult<()>)
    requires ctx.Reads(c, pos, end)
    modifies c, ctx
    ensures Ended(ctx.Now(), r) == L2tpPayloadOf(ctx.World(), flags, pos, end, old(ctx.Now()))
    decreases end - pos, 2
  {
    var proto :- ReadL2tp(c, flags);
    if proto.None? {
      return Success(());
    }
    ghost var n := L2tpAt(ctx.frame[pos..end], flags).value.1;
    ctx.Took(c, pos, end, n);
    r := PppPayload(c, proto.value, ctx, pos + n, end);
  }

  method TeredoTunnel(c: Cur, ctx: Ctx, ghost pos: nat, ghost end: nat) returns (r: DResult<()>)
    requires ctx.Reads(c, pos, end)
    modifies c, ctx
    ensures Ended(ctx.Now(), r) == TeredoOf(ctx.World(), pos, end, old(ctx.Now()))
    decreases end - pos, 2
  {
    ghost var n;
    r, n := Indicators(c, ctx, pos, end);
    if r.Success? {
      r := TeredoPayload(c, ctx, pos + n, end);
    }
  }

  /** The indicators, and where they end. */
  method Indicators(c: Cur, ctx: Ctx, ghost pos: nat, ghost end: nat) returns (r: DResult<()>, ghost n: nat)
    requires ctx.Reads(c, pos, end)
    modifies c
    ensures match TeredoEnd(ctx.frame[pos..end], 0)
            case Failure(x) => r == Failure(x)
            case Success(m) => r == Success(()) && n == m && ctx.Reads(c, pos + n, end)
  {
    r := ReadTeredoIndicators(c);
    n := 0;
    if r.Success? {
      n := TeredoEnd(ctx.frame[pos..end], 0).value;
      ctx.Took(c, pos, end, n);
    }
  }

  method TeredoPayload(c: Cur, ctx: Ctx, ghost pos: nat, ghost end: nat) returns (r: DResult<()>)
    requires ctx.Reads(c, pos, end)
    modifies c, ctx
    ensures Ended(ctx.Now(), r) == TeredoPayloadOf(ctx.World(), pos, end, old(ctx.Now()))
    decreases end - pos, 1
  {
    var b :- c.PeekU8();
    if b as int / 0x10 != 6 {
      return Failure(Malformed);
    }
    var entered :- ctx.Enter(Teredo);
    r := Ipv6(c, ctx, pos, end);
  }

  // ---------------------------------------------------------------------------
  // Whole frames
  // ---------------------------------------------------------------------------

  /** Before anything is read: the whole frame ahead, no columns yet. */
  ghost predicate Begins(c: Cur, ctx: Ctx)
    reads c, ctx
  {
    c.data == ctx.frame && c.pos == 0 && ctx.Now() == NOTHING
  }

  method DissectLink(c: Cur, linktype: U16, ctx: Ctx) returns (r: DResult<()>)
    requires Begins(c, ctx)
    modifies c, ctx
    ensures Ended(ctx.Now(), r) == LinkOf(ctx.World(), linktype)
  {
    ghost var end := |ctx.frame|;
    Whole(ctx.frame);
    match linktype
    case 1 => r := Ethernet(c, ctx, 0, end);
    case 101 => r := RawIp(c, ctx, 0, end);
    case 228 => r := RawIp(c, ctx, 0, end);
    case 229 => r := RawIp(c, ctx, 0, end);
    case 0 => r := Loopback(c, ctx, 0, end);
    case 108 => r := Loopback(c, ctx, 0, end);
    case 113 => r := LinuxSll(c, ctx, 0, end);
    case 276 => r := LinuxSll2(c, ctx, 0, end);
    case 9 => r := Ppp(c, ctx, 0, end);
    case 105 => r := Ieee80211(c, ctx, 0, end);
    case 127 => r := Radiotap(c, ctx, 0, end);
    case _ => r := Failure(Unsupported);
  }

  lemma Whole(s: seq<Byte>)
    ensures s[0..|s|] == s[0..] == s
  {
  }

  method Loopback(c: Cur, ctx: Ctx, ghost pos: nat, ghost end: nat) returns (r: DResult<()>)
    requires ctx.Reads(c, pos, end)
    modifies c, ctx
    ensures Ended(ctx.Now(), r) == LoopbackOf(ctx.World(), pos, end, old(ctx.Now()))
  {
    var af :- Le32(c, ctx.frame[pos..end], 0);
    ctx.Layer("null");
    ctx.Took(c, pos, end, 4);
    r := FamilyPayload(c, af, ctx, pos + 4, end);
  }

  method FamilyPayload(c: Cur, af: nat, ctx: Ctx, ghost pos: nat, ghost end: nat) returns (r: DResult<()>)
    requires ctx.Reads(c, pos, end)
    modifies c, ctx
    ensures Ended(ctx.Now(), r) == FamilyOf(ctx.World(), af, pos, end, old(ctx.Now()))
  {
    if af == 2 {
      r := Ipv4(c, ctx, pos, end);
    } else if af == 24 || af == 28 || af == 30 {
      r := Ipv6(c, ctx, pos, end);
    } else {
      r := Failure(Unsupported);
    }
  }

  method LinuxSll(c: Cur, ctx: Ctx, ghost pos: nat, ghost end: nat) returns (r: DResult<()>)
    requires ctx.Reads(c, pos, end)
    modifies c, ctx
    ensures Ended(ctx.Now(), r) == SllOf(ctx.World(), pos, end, old(ctx.Now()))
  {
    ctx.Layer("sll");
    var proto :- ReadSll(c);
    ctx.Took(c, pos, end, 16);
    r := EthertypePayload(c, proto, ctx, pos + 16, end);
  }

  method LinuxSll2(c: Cur, ctx: Ctx, ghost pos: nat, ghost end: nat) returns (r: DResult<()>)
    requires ctx.Reads(c, pos, end)
    modifies c, ctx
    ensures Ended(ctx.Now(), r) == Sll2Of(ctx.World(), pos, end, old(ctx.Now()))
  {
    ctx.Layer("sll2");
    var proto :- ReadSll2(c);
    ctx.Took(c, pos, end, 20);
    r := EthertypePayload(c, proto, ctx, pos + 20, end);
  }

  method Ppp(c: Cur, ctx: Ctx, ghost pos: nat, ghost end: nat) returns (r: DResult<()>)
    requires ctx.Reads(c, pos, end)
    modifies c, ctx
    ensures Ended(ctx.Now(), r) == PppLinkOf(ctx.World(), pos, end, old(ctx.Now()))
  {
    ctx.Layer("ppp");
    var proto :- Read16(c, ctx.frame[pos..end], 0);
    ctx.Took(c, pos, end, 2);
    r := PppPayload(c, proto, ctx, pos + 2, end);
  }

  method Radiotap(c: Cur, ctx: Ctx, ghost pos: nat, ghost end: nat) returns (r: DResult<()>)
    requires ctx.Reads(c, pos, end)
    modifies c, ctx
    ensures Ended(ctx.Now(), r) == RadiotapOf(ctx.World(), pos, end, old(ctx.Now()))
  {
    ctx.Layer("radiotap");
    var header :- ReadRadiotap(c);
    ghost var n := RadiotapLen(ctx.frame[pos..end]).value;
    ctx.Took(c, pos, end, n);
    r := Ieee80211(c, ctx, pos + n, end);
  }

  method Ieee80211(c: Cur, ctx: Ctx, ghost pos: nat, ghost end: nat) returns (r: DResult<()>)
    requires ctx.Reads(c, pos, end)
    modifies c, ctx
    ensures Ended(ctx.Now(), r) == WlanOf(ctx.World(), pos, end, old(ctx.Now()))
  {
    ctx.Layer("wlan");
    var carriesLlc :- ReadWlan(c);
    if carriesLlc {
      ghost var n := WlanAt(ctx.frame[pos..end]).value.1;
      ctx.Took(c, pos, end, n);
      r := Llc(c, ctx, pos + n, end);
    } else {
      r := Success(());
    }
  }

  /** A fresh context, and the whole frame ahead. */
  method DissectFrame(data: seq<Byte>, linktype: U16, deferTcpApp: bool,
                      app: (seq<Byte>, U16, U16, bool) -> seq<string>, leaf: (string, seq<Byte>) -> DResult<()>)
    returns (ctx: Ctx, r: DResult<()>)
    ensures fresh(ctx)
    ensures Ended(ctx.Now(), r) == LinkOf(Env(data, deferTcpApp, app, leaf), linktype)
  {
    ctx := new Ctx(data, deferTcpApp, app, leaf);
    var c := new Cur(data);
    r := DissectLink(c, linktype, ctx);
  }
}
