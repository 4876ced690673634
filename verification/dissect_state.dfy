/**
 The state threaded through one frame's dissection (`Ctx` of rust/src/dissect/mod.rs) as a value,
 and the updates the dissectors make to it. Only the columns that the flow table and the
 reassembly passes depend on are kept; four histories that the program does not keep are added.
 */
module DissectState {
  import opened Addresses
  import opened Errors
  import opened Fragments
  import opened Integers
  import opened Wrappers

  const MAX_DEPTH: nat := 8

  datatype TunnelKind = Erspan | Gre | IpIp | Vxlan | Geneve | Gtp | L2tp | Teredo

  datatype Layer = Ip(v6: bool) | Tunnel(kind: TunnelKind) | Named(name: string)

  function AllNamed(names: seq<string>): seq<Layer> {
    seq(|names|, i requires 0 <= i < |names| => Named(names[i]))
  }

  /**
   One IP header of the frame: where it starts, where its payload starts and ends, its addresses,
   the fragment flag and identification if it carries them, and how many length fields confine it.
   */
  datatype Header = Header(
    at: nat, body: nat, end: nat, v6: bool, src: IpAddr, dst: IpAddr, proto: Byte,
    offset: U16, flag: Option<bool>, id: Option<U32>, within: nat)

  /** A length field that can confine what follows: an IPv4 total length, a UDP length. */
  datatype Bound = ByIp(at: nat) | ByUdp(at: nat)

  /** The payload `l4::tcp` took, and where in the frame. */
  datatype Taken = Taken(start: nat, bytes: seq<Byte>)

  /** An IPv6 header whose extension chain could not be walked to its end, and where its window ends. */
  datatype Lost = Lost(at: nat, end: nat)

  datatype Outer = Outer(src: Option<IpAddr>, dst: Option<IpAddr>, srcPort: Option<U16>, dstPort: Option<U16>)

  const NO_OUTER := Outer(None, None, None, None)

  /** The frame, and the dissectors it is dissected with that are not modelled themselves. */
  datatype Env = Env(
    frame: seq<Byte>,
    deferTcpApp: bool,
    // The layers an application payload between two ports is given.
    app: (seq<Byte>, U16, U16, bool) -> seq<string>,
    // Whether the fields of a protocol that ends a frame without addressing of its own read well.
    leaf: (string, seq<Byte>) -> DResult<()>)

  /**
   The columns so far; and, kept here alone, the IP headers recorded, the length fields met, the
   payload `l4::tcp` took, and the header that was lost if that is what ended dissection.
   */
  datatype Past = Past(
    stack: seq<Layer>, depth: nat, tuple: Option<Tuple>, frag: Option<FragMeta>,
    ipSrc: Option<IpAddr>, ipDst: Option<IpAddr>, srcPort: Option<U16>, dstPort: Option<U16>,
    ipFlagMf: Option<bool>, ipId: Option<U32>, outer: Outer, tunnelType: Option<TunnelKind>,
    tcpSeq: Option<U32>, tcpPayloadLen: Option<U32>,
    headers: seq<Header>, bounds: seq<Bound>, payload: Option<Taken>, lost: Option<Lost>)
  {
    function On(name: string): Past {
      this.(stack := stack + [Named(name)])
    }

    /** A tunnel within the cap; the first one moves the addressing out. */
    function Entered(kind: TunnelKind): DResult<Past> {
      if depth >= MAX_DEPTH then Failure(DepthExceeded)
      else
        var deeper := this.(depth := depth + 1, stack := stack + [Tunnel(kind)], tunnelType := Some(kind));
        Success(if outer.src.Some? then deeper else deeper.MovedOut())
    }

    function MovedOut(): Past {
      this.(outer := Outer(ipSrc, ipDst, srcPort, dstPort),
            ipSrc := None, ipDst := None, srcPort := None, dstPort := None)
    }

    function Addressed(src: IpAddr, dst: IpAddr): Past {
      this.(ipSrc := Some(src), ipDst := Some(dst))
    }

    /** What a fragment header, or an IPv4 header, leaves in the columns; nothing if there is none. */
    function Flagged(flag: Option<bool>, id: Option<U32>): Past {
      this.(ipFlagMf := if flag.Some? then flag else ipFlagMf, ipId := if id.Some? then id else ipId)
    }

    /** Mark a fragment for reassembly, from the columns. */
    function Recorded(h: Header, rest: seq<Byte>): Past {
      var mf := ipFlagMf == Some(true);
      var mark :=
        if mf || h.offset != 0 then Some(FragMeta(FragKey(h.src, h.dst, OrZero(ipId), h.proto), h.offset, mf, rest))
        else frag;
      this.(frag := mark, headers := headers + [h])
    }

    function Met(b: Bound): Past {
      this.(bounds := bounds + [b])
    }

    function Missed(at: nat, end: nat): Past {
      this.(lost := Some(Lost(at, end)))
    }

    function Ported(t: Tuple): Past {
      this.(tuple := Some(t), srcPort := Some(t.srcPort), dstPort := Some(t.dstPort))
    }
  }

  const NOTHING := Past([], 0, None, None, None, None, None, None, None, None, NO_OUTER, None, None, None, [], [], None,
                          None)

  function OrZero(id: Option<U32>): U32 {
    if id.Some? then id.value else 0
  }
}
