/**
 The minimal BER reader (rust/src/dissect/app/ber.rs), after sections 8.1, 8.3 and 8.19 of
 ITU-T X.690. Object identifiers are lists of arcs; their dotted rendering is not modelled.
 */
module Ber {
  import opened Addresses
  import opened Cursor
  import opened Errors
  import opened Integers
  import opened Wrappers

  datatype Tlv = Tlv(cls: nat, constructed: bool, tag: nat, val: seq<Byte>)

  const CLASS_UNIVERSAL: nat := 0
  const TAG_OID: nat := 0x06

  // ---------------------------------------------------------------------------
  // One TLV
  // ---------------------------------------------------------------------------

  /** The continuation octets of a high tag number, at most four of them. */
  function HighTag(s: seq<Byte>, pos: nat, t: nat, seen: nat): DResult<(nat, nat)>
    decreases |s| - pos
  {
    if seen >= 4 then Failure(Malformed)
    else if pos >= |s| then Failure(Truncated)
    else
      var b: int := s[pos];
      var t' := t * 0x80 + b % 0x80;
      if b < 0x80 then Success((t' % 0x100, pos + 1)) else HighTag(s, pos + 1, t', seen + 1)
  }

  function TagAt(s: seq<Byte>): DResult<(nat, nat)> {
    if s == [] then Failure(Truncated)
    else if s[0] as int % 0x20 == 0x1f then HighTag(s, 1, 0, 0)
    else Success((s[0] as int % 0x20, 1))
  }

  /** A definite length of at most four octets, and where it ends. */
  function LengthAt(s: seq<Byte>, pos: nat): DResult<(nat, nat)> {
    if pos >= |s| then Failure(Truncated)
    else
      var first: int := s[pos];
      if first < 0x80 then Success((first, pos + 1))
      else
        var n := first - 0x80;
        if n == 0 || n > 4 then Failure(Malformed)
        else if pos + 1 + n > |s| then Failure(Truncated)
        else Success((FromOctets(s[pos + 1..pos + 1 + n]), pos + 1 + n))
  }

  /** Class and form are the top three bits of the identifier octet. */
  function Headed(id: Byte, tag: nat, val: seq<Byte>): Tlv {
    Tlv(id as int / 0x40, id as int / 0x20 % 2 == 1, tag, val)
  }

  /** The TLV at the start of `s`, and how many octets it takes. */
  function TlvAt(s: seq<Byte>): (r: DResult<(Tlv, nat)>)
    ensures r.Success? ==> |r.value.0.val| + 2 <= r.value.1 <= |s|
  {
    var (tag, afterTag) :- TagAt(s);
    var (len, start) :- LengthAt(s, afterTag);
    assert afterTag >= 1 && start >= afterTag + 1 by {
      TagAdvances(s);
    }
    if start + len > |s| then Failure(Truncated)
    else
      Success((Headed(s[0], tag, s[start..start + len]), start + len))
  }

  lemma {:induction false} HighTagAdvances(s: seq<Byte>, pos: nat, t: nat, seen: nat)
    ensures var r := HighTag(s, pos, t, seen);
            r.Success? ==> pos < r.value.1 <= |s|
    decreases |s| - pos
  {
    if seen < 4 && pos < |s| {
      HighTagAdvances(s, pos + 1, t * 0x80 + s[pos] as int % 0x80, seen + 1);
    }
  }

  lemma TagAdvances(s: seq<Byte>)
    ensures var r := TagAt(s);
            r.Success? ==> 1 <= r.value.1 <= |s|
  {
    HighTagAdvances(s, 1, 0, 0);
  }

  lemma ValueEndsTlv(s: seq<Byte>)
    ensures var r := TlvAt(s);
            r.Success? ==> r.value.0.val == s[r.value.1 - |r.value.0.val|..r.value.1]
  {
  }

  method ReadTag(c: Cur) returns (r: DResult<(Byte, nat)>)
    requires c.Valid()
    modifies c
    ensures c.Valid()
    ensures var s := old(c.Rest());
            match TagAt(s)
            case Failure(e) => r == Failure(e)
            case Success((tag, n)) => r == Success((s[0], tag)) && c.pos == old(c.pos) + n
  {
    ghost var s := c.Rest();
    var id :- c.U8();
    var tag: nat := id as int % 0x20;
    if tag == 0x1f {
      var t: nat := 0;
      var guard := 0;
      while true
        invariant c.Valid() && c.pos >= old(c.pos) + 1 && guard <= 4
        invariant HighTag(s, c.pos - old(c.pos), t, guard) == HighTag(s, 1, 0, 0)
        decreases 5 - guard
      {
        guard := guard + 1;
        if guard > 4 {
          return Failure(Malformed);
        }
        var b :- c.U8();
        t := t * 0x80 + b as int % 0x80;
        if b < 0x80 {
          break;
        }
      }
      tag := t % 0x100;
    }
    return Success((id, tag));
  }

  method ReadLength(c: Cur, ghost s: seq<Byte>, ghost at: nat) returns (r: DResult<nat>)
    requires c.Valid() && at <= |s| && c.Rest() == s[at..]
    modifies c
    ensures c.Valid()
    ensures match LengthAt(s, at)
            case Failure(e) => r == Failure(e)
            case Success((len, end)) => r == Success(len) && c.pos == old(c.pos) + end - at
  {
    assert |s| - at == c.Remaining();
    var first :- c.U8();
    assert first == s[at];
    if first < 0x80 {
      return Success(first);
    }
    var n := first as int - 0x80;
    if n == 0 || n > 4 {
      return Failure(Malformed);
    }
    ghost var rest := c.Rest();
    assert rest == s[at..][1..] == s[at + 1..];
    var b :- c.Take(n);
    assert b == rest[..n] == s[at + 1..at + 1 + n];
    var v: nat := 0;
    for i := 0 to |b|
      invariant v == FromOctets(b[..i])
    {
      v := v * 0x100 + b[i] as int;
      assert b[..i + 1][..i] == b[..i];
    }
    assert b[..|b|] == b;
    return Success(v);
  }

  lemma TlvInParts(s: seq<Byte>)
    ensures match TagAt(s)
            case Failure(e) => TlvAt(s) == Failure(e)
            case Success((tag, at)) =>
              1 <= at <= |s| &&
              match LengthAt(s, at)
              case Failure(e) => TlvAt(s) == Failure(e)
              case Success((len, start)) =>
                at < start <= |s| &&
                TlvAt(s) == if start + len > |s| then Failure(Truncated)
                            else Success((Headed(s[0], tag, s[start..start + len]), start + len))
  {
    TagAdvances(s);
  }

  method ReadHeader(c: Cur) returns (r: DResult<(Byte, nat, nat)>)
    requires c.Valid()
    modifies c
    ensures c.Valid()
    ensures var s := old(c.Rest());
            match r
            case Failure(e) => TlvAt(s) == Failure(e)
            case Success((id, tag, len)) =>
              var start := c.pos - old(c.pos);
              0 <= start <= |s| &&
              TlvAt(s) == if start + len > |s| then Failure(Truncated)
                          else Success((Headed(id, tag, s[start..start + len]), start + len))
  {
    ghost var s, p := c.Rest(), c.pos;
    TlvInParts(s);
    var head :- ReadTag(c);
    var (id, tag) := head;
    assert c.Rest() == s[c.pos - p..];
    var len :- ReadLength(c, s, c.pos - p);
    return Success((id, tag, len));
  }

  /** Read one TLV, leaving the cursor right after it. */
  method ReadIn(c: Cur) returns (r: DResult<Tlv>)
    requires c.Valid()
    modifies c
    ensures c.Valid()
    ensures match TlvAt(old(c.Rest()))
            case Failure(e) => r == Failure(e)
            case Success((t, n)) => r == Success(t) && c.pos == old(c.pos) + n
  {
    ghost var s, p := c.Rest(), c.pos;
    var head :- ReadHeader(c);
    var (id, tag, len) := head;
    ghost var start, rest := c.pos - p, c.Rest();
    assert rest == s[start..];
    var val :- c.Take(len);
    assert val == s[start..start + len];
    return Success(Headed(id, tag, val));
  }

  // ---------------------------------------------------------------------------
  // Encoding and reading back one TLV
  // ---------------------------------------------------------------------------

  /** A definite length: in one octet below 128, or in so many octets as given. */
  predicate LegalLength(len: nat, octets: nat) {
    if octets == 0 then len < 0x80 else octets <= 4 && len < Pow256(octets)
  }

  function EncodeLength(len: nat, octets: nat): seq<Byte>
    requires LegalLength(len, octets)
  {
    if octets == 0 then [len] else [0x80 + octets] + Octets(len, octets)
  }

  predicate Encodable(t: Tlv, octets: nat) {
    t.cls < 4 && t.tag < 0x1f && LegalLength(|t.val|, octets)
  }

  function EncodeTlv(t: Tlv, octets: nat): seq<Byte>
    requires Encodable(t, octets)
  {
    [Identifier(t)] + EncodeLength(|t.val|, octets) + t.val
  }

  lemma LengthReads(pre: seq<Byte>, len: nat, octets: nat, post: seq<Byte>)
    requires LegalLength(len, octets)
    ensures LengthAt(pre + EncodeLength(len, octets) + post, |pre|)
         == Success((len, |pre| + |EncodeLength(len, octets)|))
  {
    var s := pre + EncodeLength(len, octets) + post;
    if octets > 0 {
      assert s[|pre|] == 0x80 + octets;
      assert s[|pre| + 1..|pre| + 1 + octets] == Octets(len, octets);
      OctetsRoundTrip(len, octets);
    }
  }

  function Identifier(t: Tlv): Byte
    requires t.cls < 4 && t.tag < 0x1f
  {
    t.cls * 0x40 + (if t.constructed then 0x20 else 0) + t.tag
  }

  lemma IdentifierReads(t: Tlv, rest: seq<Byte>)
    requires t.cls < 4 && t.tag < 0x1f
    ensures var id: int := Identifier(t);
            id / 0x40 == t.cls && (id / 0x20 % 2 == 1) == t.constructed && id % 0x20 == t.tag
    ensures TagAt([Identifier(t)] + rest) == Success((t.tag, 1))
  {
  }

  /** Round trip: low tag numbers, every class and form, every legal length of up to four octets. */
  lemma TlvRoundTrip(t: Tlv, octets: nat, post: seq<Byte>)
    requires Encodable(t, octets)
    ensures TlvAt(EncodeTlv(t, octets) + post) == Success((t, |EncodeTlv(t, octets)|))
  {
    var head, length := [Identifier(t)], EncodeLength(|t.val|, octets);
    var s := EncodeTlv(t, octets) + post;
    InFour(head, length, t.val, post);
    IdentifierReads(t, length + (t.val + post));
    LengthReads(head, |t.val|, octets, t.val + post);
    TlvFromParts(s, t.tag, 1 + |length|, |t.val|);
  }

  lemma InFour(a: seq<Byte>, b: seq<Byte>, c: seq<Byte>, d: seq<Byte>)
    ensures a + b + c + d == a + (b + (c + d)) == a + b + (c + d)
    ensures (a + b + c + d)[|a| + |b|..|a| + |b| + |c|] == c
  {
  }

  lemma TlvFromParts(s: seq<Byte>, tag: nat, start: nat, len: nat)
    requires TagAt(s) == Success((tag, 1)) && LengthAt(s, 1) == Success((len, start)) && start + len <= |s|
    ensures TlvAt(s) == Success((Headed(s[0], tag, s[start..start + len]), start + len))
  {
  }
}
