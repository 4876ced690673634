/**
 Addresses, transport tuples and conversation identity: the canonical direction of
 rust/src/dissect/mod.rs and the Community ID preimage of rust/src/fingerprint.rs.
 The SHA-1 and base64 wrapping around the preimage is not modelled.
 */
module Addresses {
  import opened Integers

  const TWO_TO_THE_128: int := 0x1_0000_0000_0000_0000_0000_0000_0000_0000

  type Bits128 = x: int | 0 <= x < TWO_TO_THE_128

  datatype IpAddr = V4(v4: U32) | V6(v6: Bits128)

  /** The derived order: every IPv4 address is below every IPv6 address. */
  predicate Below(a: IpAddr, b: IpAddr) {
    match (a, b)
    case (V4(x), V4(y)) => x < y
    case (V6(x), V6(y)) => x < y
    case (V4(_), V6(_)) => true
    case (V6(_), V4(_)) => false
  }

  datatype Tuple = Tuple(srcIp: IpAddr, dstIp: IpAddr, srcPort: U16, dstPort: U16, proto: Byte) {

    function Reversed(): Tuple {
      Tuple(dstIp, srcIp, dstPort, srcPort, proto)
    }

    /** Lexicographic `(src_ip, src_port) <= (dst_ip, dst_port)`. */
    predicate Forward() {
      Below(srcIp, dstIp) || (srcIp == dstIp && srcPort <= dstPort)
    }

    function Normalized(): (Tuple, bool) {
      if Forward() then (this, true) else (Reversed(), false)
    }

    function Key(): Tuple {
      Normalized().0
    }

    /** Only port-bearing protocols are told apart by their ports. */
    function Unported(): Tuple {
      if HasPorts(proto) then this else this.(srcPort := 0, dstPort := 0)
    }
  }

  predicate HasPorts(proto: Byte) {
    proto == 6 || proto == 17 || proto == 132 || proto == 136
  }

  /** `is_ordered`: compare addresses first, ports only on a tie. */
  predicate IsOrdered(src: IpAddr, dst: IpAddr, srcPort: U16, dstPort: U16) {
    if Below(src, dst) then true
    else if Below(dst, src) then false
    else srcPort <= dstPort
  }

  /** Two tuples share a flow exactly when they are one conversation seen from either end. */
  lemma KeyIdentifiesConversation(s: Tuple, t: Tuple)
    ensures s.Key() == t.Key() <==> s == t || s == t.Reversed()
    ensures t.Key().Normalized() == (t.Key(), true)
    ensures t.Forward() == IsOrdered(t.srcIp, t.dstIp, t.srcPort, t.dstPort)
    ensures t.Forward() && t.Reversed().Forward() ==> t == t.Reversed()
  {
    assert !Below(t.srcIp, t.dstIp) && !Below(t.dstIp, t.srcIp) ==> t.srcIp == t.dstIp;
  }

  // ---------------------------------------------------------------------------
  // Big-endian octets
  // ---------------------------------------------------------------------------

  function Octets(x: nat, n: nat): (s: seq<Byte>)
    ensures |s| == n
  {
    if n == 0 then [] else Octets(x / 0x100, n - 1) + [x % 0x100]
  }

  function FromOctets(s: seq<Byte>): nat {
    if s == [] then 0 else FromOctets(s[..|s| - 1]) * 0x100 + s[|s| - 1]
  }

  function Pow256(n: nat): nat {
    if n == 0 then 1 else Pow256(n - 1) * 0x100
  }

  lemma {:induction false} OctetsRoundTrip(x: nat, n: nat)
    requires x < Pow256(n)
    ensures FromOctets(Octets(x, n)) == x
  {
    if n > 0 {
      OctetsRoundTrip(x / 0x100, n - 1);
      assert Octets(x, n)[..n - 1] == Octets(x / 0x100, n - 1);
    }
  }

  lemma OctetsInjective(x: nat, y: nat, n: nat)
    requires x < Pow256(n) && y < Pow256(n) && Octets(x, n) == Octets(y, n)
    ensures x == y
  {
    OctetsRoundTrip(x, n);
    OctetsRoundTrip(y, n);
  }

  lemma PowersOf256()
    ensures Pow256(2) == 0x1_0000
    ensures Pow256(4) == TWO_TO_THE_32
    ensures Pow256(16) == TWO_TO_THE_128
  {
    assert Pow256(2) == 0x1_0000;
    assert Pow256(4) == TWO_TO_THE_32;
    assert Pow256(6) == TWO_TO_THE_32 * 0x1_0000;
    assert Pow256(8) == TWO_TO_THE_64;
    assert Pow256(10) == TWO_TO_THE_64 * 0x1_0000;
    assert Pow256(12) == TWO_TO_THE_64 * TWO_TO_THE_32;
    assert Pow256(14) == TWO_TO_THE_64 * TWO_TO_THE_32 * 0x1_0000;
  }

  function IpOctets(a: IpAddr): seq<Byte> {
    match a
    case V4(x) => Octets(x, 4)
    case V6(x) => Octets(x, 16)
  }

  lemma IpOctetsInjective(a: IpAddr, b: IpAddr)
    ensures IpOctets(a) == IpOctets(b) <==> a == b
  {
    PowersOf256();
    if IpOctets(a) == IpOctets(b) {
      match a
      case V4(x) => assert b.V4?; OctetsInjective(x, b.v4, 4);
      case V6(x) => assert b.V6?; OctetsInjective(x, b.v6, 16);
    }
  }

  // ---------------------------------------------------------------------------
  // Community ID preimage
  // ---------------------------------------------------------------------------

  function PortOctets(t: Tuple): seq<Byte> {
    if HasPorts(t.proto) then Octets(t.srcPort, 2) + Octets(t.dstPort, 2) else []
  }

  /** The bytes hashed for a conversation whose canonical tuple is `t`. */
  function CanonicalPreimage(t: Tuple, seed: U16): seq<Byte> {
    Octets(seed, 2) + IpOctets(t.srcIp) + IpOctets(t.dstIp) + [t.proto, 0] + PortOctets(t)
  }

  function Preimage(t: Tuple, seed: U16): seq<Byte> {
    CanonicalPreimage(t.Key(), seed)
  }

  /** Feeds the hasher piece by piece, ordering the endpoints first. */
  method CommunityId(src: IpAddr, dst: IpAddr, srcPort: U16, dstPort: U16, proto: Byte, seed: U16)
    returns (h: seq<Byte>)
    ensures h == Preimage(Tuple(src, dst, srcPort, dstPort, proto), seed)
  {
    KeyIdentifiesConversation(Tuple(src, dst, srcPort, dstPort, proto), Tuple(src, dst, srcPort, dstPort, proto));
    var aIp, bIp, aPort, bPort := dst, src, dstPort, srcPort;
    if IsOrdered(src, dst, srcPort, dstPort) {
      aIp, bIp, aPort, bPort := src, dst, srcPort, dstPort;
    }
    h := Octets(seed, 2);
    h := h + IpOctets(aIp);
    h := h + IpOctets(bIp);
    h := h + [proto, 0];
    if HasPorts(proto) {
      h := h + Octets(aPort, 2);
      h := h + Octets(bPort, 2);
    }
  }

  /** One conversation, seen from either end, ports counting only where the protocol has them. */
  predicate SameConversation(s: Tuple, t: Tuple) {
    s.Unported() == t.Unported() || s.Unported() == t.Unported().Reversed()
  }

  lemma Parts(a: seq<Byte>, b: seq<Byte>, c: seq<Byte>, d: seq<Byte>, e: seq<Byte>)
    ensures var p := a + b + c + d + e;
            var m, n, k := |a| + |b|, |a| + |b| + |c|, |a| + |b| + |c| + |d|;
            p[..|a|] == a && p[|a|..m] == b && p[m..n] == c && p[n..k] == d && p[k..] == e
  {
  }

  /** Canonical preimages decode: every field is a slice at a place the length determines. */
  lemma CanonicalPreimageInjective(s: Tuple, t: Tuple, seed: U16, seed': U16)
    requires !Below(s.dstIp, s.srcIp) && !Below(t.dstIp, t.srcIp)
    requires CanonicalPreimage(s, seed) == CanonicalPreimage(t, seed')
    ensures seed == seed' && s.Unported() == t.Unported()
  {
    PowersOf256();
    Parts(Octets(seed, 2), IpOctets(s.srcIp), IpOctets(s.dstIp), [s.proto, 0], PortOctets(s));
    Parts(Octets(seed', 2), IpOctets(t.srcIp), IpOctets(t.dstIp), [t.proto, 0], PortOctets(t));
    assert |IpOctets(s.srcIp)| == |IpOctets(t.srcIp)| && |IpOctets(s.dstIp)| == |IpOctets(t.dstIp)| by {
      assert |CanonicalPreimage(s, seed)| == |CanonicalPreimage(t, seed')|;
    }
    OctetsInjective(seed, seed', 2);
    IpOctetsInjective(s.srcIp, t.srcIp);
    IpOctetsInjective(s.dstIp, t.dstIp);
    assert s.proto == [s.proto, 0][0] == [t.proto, 0][0] == t.proto;
    if HasPorts(s.proto) {
      Parts(Octets(s.srcPort, 2), Octets(s.dstPort, 2), [], [], []);
      Parts(Octets(t.srcPort, 2), Octets(t.dstPort, 2), [], [], []);
      OctetsInjective(s.srcPort, t.srcPort, 2);
      OctetsInjective(s.dstPort, t.dstPort, 2);
    }
  }

  /**
   The preimage is the same for both directions, and two preimages coincide only for one seed
   and one conversation.
   */
  lemma PreimageIdentifiesConversation(s: Tuple, t: Tuple, seed: U16, seed': U16)
    ensures Preimage(s, seed) == Preimage(t, seed') <==> seed == seed' && SameConversation(s, t)
  {
    if Preimage(s, seed) == Preimage(t, seed') {
      CanonicalPreimageInjective(s.Key(), t.Key(), seed, seed');
    }
    if seed == seed' && SameConversation(s, t) {
      assert s.Key().Unported() == t.Key().Unported() by {
        KeyIdentifiesConversation(s, t);
        assert !Below(s.srcIp, s.dstIp) && !Below(s.dstIp, s.srcIp) ==> s.srcIp == s.dstIp;
      }
    }
  }
}
