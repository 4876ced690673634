/**
 Primitive BER values (rust/src/dissect/app/ber.rs): integers and object identifiers, read back
 from the encodings of sections 8.3 and 8.19 of ITU-T X.690. An object identifier is its list of
 arcs; the dots between them are not modelled.
 */
module BerValues {
  import opened Addresses
  import opened Integers
  import opened Wrappers

  // ---------------------------------------------------------------------------
  // Integers
  // ---------------------------------------------------------------------------

  const TWO_TO_THE_57: int := 0x200_0000_0000_0000
  const TWO_TO_THE_63: int := 0x8000_0000_0000_0000

  /** What a shift leaves in an `i64`. */
  function WrapI64(v: int): int {
    (v + TWO_TO_THE_63) % TWO_TO_THE_64 - TWO_TO_THE_63
  }

  /** The value of a two's-complement octet string. */
  function Signed(val: seq<Byte>): int
    requires val != []
  {
    FromOctets(val) - if val[0] >= 0x80 then Pow256(|val|) else 0
  }

  predicate FitsIn(v: int, octets: nat)
    requires octets > 0
  {
    -0x80 * Pow256(octets - 1) <= v < 0x80 * Pow256(octets - 1)
  }

  function TwosComplement(v: int, octets: nat): seq<Byte>
    requires octets > 0 && FitsIn(v, octets)
  {
    Octets(if v < 0 then v + Pow256(octets) else v, octets)
  }

  lemma WidestFits(i: nat)
    requires i <= 7
    ensures 0x80 * Pow256(i) <= TWO_TO_THE_63
    decreases 7 - i
  {
    assert Pow256(7) == 0x100_0000_0000_0000;
    if i < 7 {
      WidestFits(i + 1);
    }
  }

  /** Up to eight octets, shifting in the next one stays within an `i64`. */
  lemma ShiftInFits(v: int, i: nat, b: Byte)
    requires i <= 7 && (if i > 0 then FitsIn(v, i) else v == if b >= 0x80 then -1 else 0)
    ensures WrapI64(v * 0x100) == v * 0x100
    ensures FitsIn(v * 0x100 + b, i + 1)
  {
    WidestFits(i);
    if i > 0 {
      assert Pow256(i) == Pow256(i - 1) * 0x100;
    } else {
      assert Pow256(0) == 1;
    }
  }

  /** A big-endian signed integer of one to eight octets; the shifts never lose a bit. */
  method AsI64(val: seq<Byte>) returns (r: Option<int>)
    ensures r == if val == [] || |val| > 8 then None else Some(Signed(val))
    ensures r.Some? ==> FitsIn(r.value, |val|)
  {
    if |val| == 0 || |val| > 8 {
      return None;
    }
    var neg := val[0] >= 0x80;
    var v := if neg then -1 else 0;
    for i := 0 to |val|
      invariant v == FromOctets(val[..i]) - if neg then Pow256(i) else 0
      invariant if i > 0 then FitsIn(v, i) else v == if val[0] >= 0x80 then -1 else 0
    {
      assert val[..i + 1][..i] == val[..i];
      ShiftInFits(v, i, val[i]);
      v := WrapI64(v * 0x100) + val[i] as int;
    }
    assert val[..|val|] == val;
    return Some(v);
  }

  lemma {:induction false} LeadingOctet(v: nat, octets: nat)
    requires octets > 0 && v < Pow256(octets)
    ensures |Octets(v, octets)| == octets
    ensures Octets(v, octets)[0] >= 0x80 <==> v >= 0x80 * Pow256(octets - 1)
  {
    if octets > 1 {
      LeadingOctet(v / 0x100, octets - 1);
    }
  }

  /** Round trip, for every 64-bit integer and every width that holds it. */
  lemma IntegerRoundTrip(v: int, octets: nat)
    requires octets > 0 && FitsIn(v, octets)
    ensures |TwosComplement(v, octets)| == octets && Signed(TwosComplement(v, octets)) == v
  {
    var u := if v < 0 then v + Pow256(octets) else v;
    assert Pow256(octets) == 0x100 * Pow256(octets - 1);
    LeadingOctet(u, octets);
    OctetsRoundTrip(u, octets);
  }

  // ---------------------------------------------------------------------------
  // Object identifiers
  // ---------------------------------------------------------------------------

  /** One more base-128 digit into the `u64` accumulator. */
  function Accumulate(acc: nat, b: Byte): nat {
    acc * 0x80 % TWO_TO_THE_64 + b as int % 0x80
  }

  function Prepend(n: nat, r: Option<seq<nat>>): Option<seq<nat>> {
    if r.Some? then Some([n] + r.value) else None
  }

  /** The arcs in `s`, given what the current one has accumulated. */
  function Tail(s: seq<Byte>, acc: nat, pending: bool): Option<seq<nat>> {
    if s == [] then (if pending then None else Some([]))
    else if s[0] < 0x80 then Prepend(Accumulate(acc, s[0]), Tail(s[1..], 0, false))
    else Tail(s[1..], Accumulate(acc, s[0]), true)
  }

  function OidAt(val: seq<Byte>): Option<seq<nat>> {
    if val == [] then None
    else
      var first: int := val[0];
      Prepend(first / 40, Prepend(first % 40, Tail(val[1..], 0, false)))
  }

  function Onto(parts: seq<nat>, r: Option<seq<nat>>): Option<seq<nat>> {
    if r.Some? then Some(parts + r.value) else None
  }

  method AsOid(val: seq<Byte>) returns (r: Option<seq<nat>>)
    ensures r == OidAt(val)
  {
    if |val| == 0 {
      return None;
    }
    var first: int := val[0];
    var parts: seq<nat> := [first / 40, first % 40];
    var acc: nat, pending := 0, false;
    ghost var rest := val[1..];
    ghost var all := Tail(rest, 0, false);
    assert all.Some? ==> parts + all.value == [first / 40] + ([first % 40] + all.value);
    for i := 1 to |val|
      invariant rest == val[i..]
      invariant Onto(parts, Tail(rest, acc, pending)) == OidAt(val)
    {
      rest := rest[1..];
      acc := Accumulate(acc, val[i]);
      pending := true;
      if val[i] < 0x80 {
        ghost var after := Tail(rest, 0, false);
        assert after.Some? ==> parts + ([acc] + after.value) == parts + [acc] + after.value;
        parts := parts + [acc];
        acc := 0;
        pending := false;
      }
    }
    assert rest == [] && parts + [] == parts;
    if pending {
      return None;
    }
    return Some(parts);
  }

  lemma {:induction false} TailIsRead(s: seq<Byte>, acc: nat, pending: bool)
    ensures Tail(s, acc, pending).Some? <==> if s == [] then !pending else s[|s| - 1] < 0x80
  {
    if s != [] {
      TailIsRead(s[1..], 0, false);
      TailIsRead(s[1..], Accumulate(acc, s[0]), true);
    }
  }

  /** An object identifier is read exactly when it is not empty and its last octet ends a sub-identifier. */
  lemma OidIsRead(val: seq<Byte>)
    ensures OidAt(val).Some? <==> |val| == 1 || (|val| > 1 && val[|val| - 1] < 0x80)
  {
    if val != [] {
      TailIsRead(val[1..], 0, false);
    }
  }

  /** The digits of `n` with every octet marked as continued. */
  function Continued(n: nat): seq<Byte> {
    (if n >= 0x80 then Continued(n / 0x80) else []) + [0x80 + n % 0x80]
  }

  function EncodeArc(n: nat): (s: seq<Byte>)
    ensures s != []
  {
    (if n >= 0x80 then Continued(n / 0x80) else []) + [n % 0x80]
  }

  function EncodeArcs(arcs: seq<nat>): seq<Byte> {
    if arcs == [] then [] else EncodeArc(arcs[0]) + EncodeArcs(arcs[1..])
  }

  /** The first two arcs share a sub-identifier. */
  function EncodeOid(x: nat, y: nat, arcs: seq<nat>): seq<Byte> {
    EncodeArc(40 * x + y) + EncodeArcs(arcs)
  }

  predicate ValidRoots(x: nat, y: nat) {
    x <= 2 && (x < 2 ==> y < 40)
  }

  lemma Residue(x: nat, k: nat, r: nat)
    requires r < TWO_TO_THE_64 && x == k * TWO_TO_THE_64 + r
    ensures x % TWO_TO_THE_64 == r
  {
  }

  /** Wrapping before the shift loses nothing that wrapping after it would keep. */
  lemma Shift(q: nat, d: nat)
    requires d < 0x80
    ensures q % TWO_TO_THE_64 * 0x80 % TWO_TO_THE_64 + d == (q * 0x80 + d) % TWO_TO_THE_64
  {
    var a, b := q / TWO_TO_THE_57, q % TWO_TO_THE_57;
    Residue(q, a / 0x80, a % 0x80 * TWO_TO_THE_57 + b);
    Residue((a % 0x80 * TWO_TO_THE_57 + b) * 0x80, a % 0x80, b * 0x80);
    Residue(q * 0x80 + d, a, b * 0x80 + d);
  }

  lemma Carry(n: nat)
    ensures Accumulate(n / 0x80 % TWO_TO_THE_64, n % 0x80) == n % TWO_TO_THE_64
    ensures Accumulate(n / 0x80 % TWO_TO_THE_64, 0x80 + n % 0x80) == n % TWO_TO_THE_64
  {
    Shift(n / 0x80, n % 0x80);
    LowDigit(n % 0x80);
  }

  lemma LowDigit(d: nat)
    requires d < 0x80
    ensures d % 0x80 == d && (0x80 + d) % 0x80 == d
  {
  }

  lemma {:induction false} ContinuedReads(n: nat, s: seq<Byte>)
    ensures Tail(Continued(n) + s, 0, false) == Tail(s, n % TWO_TO_THE_64, true)
  {
    Carry(n);
    var last: seq<Byte> := [0x80 + n % 0x80];
    assert (last + s)[1..] == s;
    if n >= 0x80 {
      ContinuedReads(n / 0x80, last + s);
      assert Continued(n) + s == Continued(n / 0x80) + (last + s);
    } else {
      assert Continued(n) + s == last + s;
    }
  }

  lemma ArcReads(n: nat, s: seq<Byte>)
    ensures Tail(EncodeArc(n) + s, 0, false) == Prepend(n % TWO_TO_THE_64, Tail(s, 0, false))
  {
    Carry(n);
    var last: seq<Byte> := [n % 0x80];
    assert (last + s)[1..] == s;
    if n >= 0x80 {
      ContinuedReads(n / 0x80, last + s);
      assert EncodeArc(n) + s == Continued(n / 0x80) + (last + s);
    } else {
      assert EncodeArc(n) + s == last + s;
    }
  }

  function Wrapped(arcs: seq<nat>): seq<nat> {
    seq(|arcs|, i requires 0 <= i < |arcs| => arcs[i] % TWO_TO_THE_64)
  }

  lemma {:induction false} ArcsRead(arcs: seq<nat>)
    ensures Tail(EncodeArcs(arcs), 0, false) == Some(Wrapped(arcs))
  {
    if arcs != [] {
      ArcReads(arcs[0], EncodeArcs(arcs[1..]));
      ArcsRead(arcs[1..]);
      assert Wrapped(arcs) == [arcs[0] % TWO_TO_THE_64] + Wrapped(arcs[1..]);
    } else {
      assert Wrapped(arcs) == [];
    }
  }

  lemma {:induction false} ContinuedStarts(n: nat)
    ensures Continued(n)[0] >= 0x80
  {
    if n >= 0x80 {
      ContinuedStarts(n / 0x80);
    }
  }

  /**
   Round trip: exactly the identifiers whose first sub-identifier is below 120 and whose other
   arcs fit in 64 bits come back as they were.
   */
  lemma OidRoundTripIff(x: nat, y: nat, arcs: seq<nat>)
    requires ValidRoots(x, y)
    ensures OidAt(EncodeOid(x, y, arcs)) == Some([x, y] + arcs)
       <==> 40 * x + y < 120 && forall n | n in arcs :: n < TWO_TO_THE_64
  {
    var root, val := 40 * x + y, EncodeOid(x, y, arcs);
    if root < 0x80 {
      assert EncodeArc(root) == [root];
      assert val[1..] == EncodeArcs(arcs);
      ArcsRead(arcs);
      var first: int := val[0];
      var read: seq<nat> := [first / 40, first % 40] + Wrapped(arcs);
      assert OidAt(val) == Some(read) by {
        assert read == [first / 40] + ([first % 40] + Wrapped(arcs));
      }
      assert read[2..] == Wrapped(arcs) && ([x, y] + arcs)[2..] == arcs;
      assert read[0] == first / 40 && read[1] == first % 40;
      assert ([x, y] + arcs)[0] == x;
      SmallAreUnchanged(arcs);
    } else {
      ContinuedStarts(root / 0x80);
      assert val[0] >= 0x80;
      if OidAt(val).Some? {
        assert OidAt(val).value[0] >= 3 && ([x, y] + arcs)[0] == x;
      }
    }
  }

  lemma SmallAreUnchanged(arcs: seq<nat>)
    ensures Wrapped(arcs) == arcs <==> forall n | n in arcs :: n < TWO_TO_THE_64
  {
    if Wrapped(arcs) == arcs {
      forall n | n in arcs ensures n < TWO_TO_THE_64 {
        var i :| 0 <= i < |arcs| && arcs[i] == n;
        assert Wrapped(arcs)[i] == arcs[i] % TWO_TO_THE_64;
      }
    } else {
      var i :| 0 <= i < |arcs| && Wrapped(arcs)[i] != arcs[i];
      assert arcs[i] in arcs;
    }
  }
}
