/**
 The fixed IP headers and the IPv6 extension chain of rust/src/dissect/l3.rs: what the octets of a
 header say, and the reads that take them off a cursor one field at a time.
 */
module IpHeaders {
  import opened Addresses
  import opened Cursor
  import opened Errors
  import opened Integers
  import opened Wrappers

  datatype V4Header = V4Header(
    headerLen: nat, totalLen: U16, id: U16, flagsFrag: U16, proto: Byte, src: U32, dst: U32)
  {

    /** The fragment offset in octets. */
    function Offset(): U16 {
      flagsFrag as int % 0x2000 * 8
    }

    predicate MoreFragments() {
      flagsFrag as int / 0x2000 % 2 == 1
    }
  }

  /** The header `s` starts with; its options, if any, are still to come. */
  function ParseV4(s: seq<Byte>): DResult<V4Header> {
    if s == [] then Failure(Truncated)
    else
      var ihl := s[0] as int % 0x10 * 4;
      if s[0] as int / 0x10 != 4 || ihl < 20 then Failure(Malformed)
      else if |s| < 20 then Failure(Truncated)
      else Success(FieldsV4(s, ihl))
  }

  function FieldsV4(s: seq<Byte>, ihl: nat): V4Header
    requires |s| >= 20
  {
    V4Header(ihl, Value16(s[2..4]), Value16(s[4..6]), Value16(s[6..8]), s[9], Value32(s[12..16]), Value32(s[16..20]))
  }

  lemma FourOctets(a: Byte, b: Byte, c: Byte, d: Byte)
    ensures Value32([a, b, c, d]) == a * 0x100_0000 + b * 0x1_0000 + c * 0x100 + d
  {
    assert [a, b, c, d][..2] == [a, b] && [a, b, c, d][2..] == [c, d];
  }

  datatype V6Header = V6Header(next: Byte, src: Bits128, dst: Bits128)

  function Value128(b: seq<Byte>): Bits128
    requires |b| == 16
  {
    FromOctetsBound(b);
    PowersOf256();
    FromOctets(b)
  }

  lemma {:induction false} FromOctetsBound(s: seq<Byte>)
    ensures FromOctets(s) < Pow256(|s|)
  {
    if s != [] {
      FromOctetsBound(s[..|s| - 1]);
    }
  }

  function ParseV6(s: seq<Byte>): DResult<V6Header> {
    if |s| < 4 then Failure(Truncated)
    else if s[0] as int / 0x10 != 6 then Failure(Malformed)
    else if |s| < 40 then Failure(Truncated)
    else Success(V6Header(s[6], Value128(s[8..24]), Value128(s[24..40])))
  }

  const MAX_EXTENSIONS: nat := 16

  /** How far the extension chain has been walked, and what fragment headers on it said. */
  datatype Chain = Chain(proto: Byte, pos: nat, offset: U16, flag: Option<bool>, id: Option<U32>)

  predicate IsOptions(proto: Byte) {
    proto == 0 || proto == 43 || proto == 60 || proto == 135
  }

  const IP_FRAGMENT: Byte := 44
  const IP_AH: Byte := 51

  /** The octets of the extension header at `pos`, from its own length field. */
  function ExtensionLen(proto: Byte, len: Byte): nat {
    if IsOptions(proto) then (len + 1) * 8 else (len + 2) * 4
  }

  predicate IsExtension(proto: Byte) {
    IsOptions(proto) || proto == IP_FRAGMENT || proto == IP_AH
  }

  function Extension(s: seq<Byte>, c: Chain): DResult<Chain>
    requires IsExtension(c.proto)
  {
    if c.proto == IP_FRAGMENT then
      if |s| < c.pos + 8 then Failure(Truncated)
      else
        var offFlags: int := Value16(s[c.pos + 2..c.pos + 4]);
        var id := Value32(s[c.pos + 4..c.pos + 8]);
        Success(Chain(s[c.pos], c.pos + 8, offFlags / 8 * 8, Some(offFlags % 2 == 1), Some(id)))
    else if |s| < c.pos + 2 || |s| < c.pos + ExtensionLen(c.proto, s[c.pos + 1]) then Failure(Truncated)
    else Success(c.(proto := s[c.pos], pos := c.pos + ExtensionLen(c.proto, s[c.pos + 1])))
  }

  /** How far a walk of the chain came, and whether that is its end. */
  datatype Walk = Walk(chain: Chain, r: DResult<()>)

  /** The chain from `c` to the first upper-layer protocol, `n` headers in. */
  function Walked(s: seq<Byte>, c: Chain, n: nat): Walk
    decreases MAX_EXTENSIONS - n, |s|
  {
    if n >= MAX_EXTENSIONS then Walk(c, Failure(Malformed))
    else if !IsExtension(c.proto) then Walk(c, Success(()))
    else
      match Extension(s, c)
      case Failure(e) => Walk(c, Failure(e))
      case Success(next) => Walked(s, next, n + 1)
  }

  lemma WalkedStep(s: seq<Byte>, c: Chain, n: nat)
    requires n < MAX_EXTENSIONS && IsExtension(c.proto)
    ensures Walked(s, c, n) ==
            match Extension(s, c)
            case Failure(e) => Walk(c, Failure(e))
            case Success(next) => Walked(s, next, n + 1)
  {
  }

  function Start(next: Byte): Chain {
    Chain(next, 0, 0, None, None)
  }

  // A header that reads well reads the same whatever follows it.

  lemma LongerV4(s: seq<Byte>, t: seq<Byte>)
    requires ParseV4(s).Success?
    ensures ParseV4(s + t) == ParseV4(s)
  {
    var u := s + t;
    assert u[..20] == s[..20];
    assert u[2..4] == s[2..4] && u[4..6] == s[4..6] && u[6..8] == s[6..8];
    assert u[12..16] == s[12..16] && u[16..20] == s[16..20];
  }

  lemma LongerV6(s: seq<Byte>, t: seq<Byte>)
    requires ParseV6(s).Success?
    ensures ParseV6(s + t) == ParseV6(s)
  {
    SliceOfLonger(s, t, 8, 24);
    SliceOfLonger(s, t, 24, 40);
  }

  lemma SliceOfLonger(s: seq<Byte>, t: seq<Byte>, i: nat, j: nat)
    requires i <= j <= |s|
    ensures (s + t)[i..j] == s[i..j]
  {
  }

  lemma LongerExtension(s: seq<Byte>, t: seq<Byte>, c: Chain)
    requires IsExtension(c.proto) && Extension(s, c).Success?
    ensures Extension(s + t, c) == Extension(s, c)
  {
    if c.proto == IP_FRAGMENT {
      SliceOfLonger(s, t, c.pos + 2, c.pos + 4);
      SliceOfLonger(s, t, c.pos + 4, c.pos + 8);
    }
  }

  lemma {:induction false} LongerChain(s: seq<Byte>, t: seq<Byte>, c: Chain, n: nat)
    requires Walked(s, c, n).r.Success?
    ensures Walked(s + t, c, n) == Walked(s, c, n)
    decreases MAX_EXTENSIONS - n
  {
    if IsExtension(c.proto) {
      LongerExtension(s, t, c);
      LongerChain(s, t, Extension(s, c).value, n + 1);
    }
  }

  lemma {:induction false} ChainAdvances(s: seq<Byte>, c: Chain, n: nat)
    requires c.pos <= |s|
    ensures c.pos <= Walked(s, c, n).chain.pos <= |s|
    decreases MAX_EXTENSIONS - n
  {
    if n < MAX_EXTENSIONS && IsExtension(c.proto) && Extension(s, c).Success? {
      ChainAdvances(s, Extension(s, c).value, n + 1);
    }
  }

  // ---------------------------------------------------------------------------
  // Reading them
  // ---------------------------------------------------------------------------

  /** What a cursor has left is what it had, less what was taken. */
  predicate Ahead(c: Cur, s: seq<Byte>, n: nat)
    reads c
  {
    c.Valid() && n <= |s| && c.Rest() == s[n..]
  }

  method ReadByte(c: Cur, ghost s: seq<Byte>, ghost n: nat) returns (r: DResult<Byte>)
    requires Ahead(c, s, n)
    modifies c
    ensures c.Valid()
    ensures if |s| < n + 1 then r == Failure(Truncated)
            else r == Success(s[n]) && Ahead(c, s, n + 1) && c.pos == old(c.pos) + 1
  {
    r := c.U8();
    if |s| > n {
      assert s[n..][1..] == s[n + 1..];
      assert c.Rest() == s[n + 1..];
    }
  }

  method ReadTake(c: Cur, len: nat, ghost s: seq<Byte>, ghost n: nat) returns (r: DResult<seq<Byte>>)
    requires Ahead(c, s, n)
    modifies c
    ensures c.Valid()
    ensures if |s| < n + len then r == Failure(Truncated)
            else r == Success(s[n..n + len]) && Ahead(c, s, n + len) && c.pos == old(c.pos) + len
  {
    r := c.Take(len);
    if |s| >= n + len {
      assert s[n..][..len] == s[n..n + len] && s[n..][len..] == s[n + len..];
      assert c.Rest() == s[n + len..];
    }
  }

  method Read16(c: Cur, ghost s: seq<Byte>, ghost n: nat) returns (r: DResult<U16>)
    requires Ahead(c, s, n)
    modifies c
    ensures c.Valid()
    ensures if |s| < n + 2 then r == Failure(Truncated)
            else r == Success(Value16(s[n..n + 2])) && Ahead(c, s, n + 2) && c.pos == old(c.pos) + 2
  {
    var b :- ReadTake(c, 2, s, n);
    return Success(Value16(b));
  }

  method Read32(c: Cur, ghost s: seq<Byte>, ghost n: nat) returns (r: DResult<U32>)
    requires Ahead(c, s, n)
    modifies c
    ensures c.Valid()
    ensures if |s| < n + 4 then r == Failure(Truncated)
            else r == Success(Value32(s[n..n + 4])) && Ahead(c, s, n + 4) && c.pos == old(c.pos) + 4
  {
    var b :- ReadTake(c, 4, s, n);
    return Success(Value32(b));
  }

  /** The fixed part of an IPv4 header, field by field. */
  method ReadV4(c: Cur) returns (r: DResult<V4Header>)
    requires c.Valid()
    modifies c
    ensures c.Valid()
    ensures r == ParseV4(old(c.Rest()))
    ensures r.Success? ==> Ahead(c, old(c.Rest()), 20) && c.pos == old(c.pos) + 20
  {
    ghost var s := c.Rest();
    var verIhl :- ReadByte(c, s, 0);
    if verIhl as int / 0x10 != 4 {
      return Failure(Malformed);
    }
    var ihl := verIhl as int % 0x10 * 4;
    if ihl < 20 {
      return Failure(Malformed);
    }
    r := ReadV4Fields(c, ihl, s);
  }

  method ReadV4Fields(c: Cur, ihl: nat, ghost s: seq<Byte>) returns (r: DResult<V4Header>)
    requires Ahead(c, s, 1)
    modifies c
    ensures c.Valid()
    ensures r == if |s| < 20 then Failure(Truncated) else Success(FieldsV4(s, ihl))
    ensures r.Success? ==> Ahead(c, s, 20) && c.pos == old(c.pos) + 19
  {
    var tos :- ReadByte(c, s, 1);
    var totalLen :- Read16(c, s, 2);
    var id :- Read16(c, s, 4);
    var flagsFrag :- Read16(c, s, 6);
    var ttl :- ReadByte(c, s, 8);
    var proto :- ReadByte(c, s, 9);
    var ends :- ReadV4Ends(c, s);
    return Success(V4Header(ihl, totalLen, id, flagsFrag, proto, ends.0, ends.1));
  }

  method ReadV4Ends(c: Cur, ghost s: seq<Byte>) returns (r: DResult<(U32, U32)>)
    requires Ahead(c, s, 10)
    modifies c
    ensures c.Valid()
    ensures r == if |s| < 20 then Failure(Truncated) else Success((Value32(s[12..16]), Value32(s[16..20])))
    ensures r.Success? ==> Ahead(c, s, 20) && c.pos == old(c.pos) + 10
  {
    var checksum :- Read16(c, s, 10);
    var src :- Read32(c, s, 12);
    var dst :- Read32(c, s, 16);
    return Success((src, dst));
  }

  method ReadV6(c: Cur) returns (r: DResult<V6Header>)
    requires c.Valid()
    modifies c
    ensures c.Valid()
    ensures r == ParseV6(old(c.Rest()))
    ensures r.Success? ==> Ahead(c, old(c.Rest()), 40) && c.pos == old(c.pos) + 40
  {
    ghost var s := c.Rest();
    var w :- Read32(c, s, 0);
    assert w as int / 0x1000_0000 == s[0] as int / 0x10;
    if w as int / 0x1000_0000 != 6 {
      return Failure(Malformed);
    }
    var payloadLen :- Read16(c, s, 4);
    var next :- ReadByte(c, s, 6);
    var hopLimit :- ReadByte(c, s, 7);
    var src :- ReadTake(c, 16, s, 8);
    var dst :- ReadTake(c, 16, s, 24);
    return Success(V6Header(next, Value128(src), Value128(dst)));
  }

  /** One extension header off the cursor. */
  method ReadExtension(c: Cur, chain: Chain, ghost s: seq<Byte>) returns (r: DResult<Chain>)
    requires IsExtension(chain.proto) && Ahead(c, s, chain.pos)
    modifies c
    ensures c.Valid()
    ensures r == Extension(s, chain)
    ensures r.Success? ==> Ahead(c, s, r.value.pos) && c.pos == old(c.pos) + r.value.pos - chain.pos
  {
    ghost var p := chain.pos;
    var nh :- ReadByte(c, s, p);
    if chain.proto == IP_FRAGMENT {
      var res :- ReadByte(c, s, p + 1);
      var offFlags :- Read16(c, s, p + 2);
      var ident :- Read32(c, s, p + 4);
      return Success(Chain(nh, chain.pos + 8, offFlags as int / 8 * 8, Some(offFlags as int % 2 == 1), Some(ident)));
    }
    var len :- ReadByte(c, s, p + 1);
    var skipped :- ReadTake(c, ExtensionLen(chain.proto, len) - 2, s, p + 2);
    return Success(chain.(proto := nh, pos := chain.pos + ExtensionLen(chain.proto, len)));
  }
}
