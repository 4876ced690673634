/**
 The fields that link, transport and tunnel headers start with (rust/src/dissect/l2.rs, l4.rs,
 tunnel.rs), taken off a cursor one by one: what each read gives and where it leaves the cursor.
 */
module DissectFields {
  import opened Cursor
  import opened Errors
  import opened Integers
  import opened IpHeaders
  import opened Wrappers

  /** Source and destination, then the EtherType. */
  method ReadEthernet(c: Cur) returns (r: DResult<U16>)
    requires c.Valid()
    modifies c
    ensures c.Valid()
    ensures var s := old(c.Rest());
            r == if |s| < 14 then Failure(Truncated) else Success(Value16(s[12..14]))
    ensures r.Success? ==> Ahead(c, old(c.Rest()), 14) && c.pos == old(c.pos) + 14
  {
    ghost var s := c.Rest();
    var dst :- ReadTake(c, 6, s, 0);
    var src :- ReadTake(c, 6, s, 6);
    r := Read16(c, s, 12);
  }

  method ReadTag(c: Cur) returns (r: DResult<U16>)
    requires c.Valid()
    modifies c
    ensures c.Valid()
    ensures var s := old(c.Rest());
            r == if |s| < 4 then Failure(Truncated) else Success(Value16(s[2..4]))
    ensures r.Success? ==> Ahead(c, old(c.Rest()), 4) && c.pos == old(c.pos) + 4
  {
    ghost var s := c.Rest();
    var tci :- Read16(c, s, 0);
    r := Read16(c, s, 2);
  }

  method ReadLlc(c: Cur) returns (r: DResult<(Byte, Byte)>)
    requires c.Valid()
    modifies c
    ensures c.Valid()
    ensures var s := old(c.Rest());
            r == if |s| < 3 then Failure(Truncated) else Success((s[0], s[1]))
    ensures r.Success? ==> Ahead(c, old(c.Rest()), 3) && c.pos == old(c.pos) + 3
  {
    ghost var s := c.Rest();
    var dsap :- ReadByte(c, s, 0);
    var ssap :- ReadByte(c, s, 1);
    var control :- ReadByte(c, s, 2);
    return Success((dsap, ssap));
  }

  method ReadSnap(c: Cur) returns (r: DResult<(seq<Byte>, U16)>)
    requires c.Valid()
    modifies c
    ensures c.Valid()
    ensures var s := old(c.Rest());
            r == if |s| < 5 then Failure(Truncated) else Success((s[0..3], Value16(s[3..5])))
    ensures r.Success? ==> Ahead(c, old(c.Rest()), 5) && c.pos == old(c.pos) + 5
  {
    ghost var s := c.Rest();
    var oui :- ReadTake(c, 3, s, 0);
    var pid :- Read16(c, s, 3);
    return Success((oui, pid));
  }

  /** Where a label stack ends: after the first label with its bottom-of-stack bit set. */
  function LabelsEnd(s: seq<Byte>, pos: nat): (r: Option<nat>)
    ensures r.Some? ==> pos + 4 <= r.value <= |s|
    decreases |s| - pos
  {
    if |s| < pos + 4 then None
    else if s[pos + 2] as int % 2 == 1 then Some(pos + 4)
    else LabelsEnd(s, pos + 4)
  }

  method ReadLabels(c: Cur) returns (r: DResult<()>)
    requires c.Valid()
    modifies c
    ensures c.Valid()
    ensures match LabelsEnd(old(c.Rest()), 0)
            case None => r == Failure(Truncated)
            case Some(n) => r == Success(()) && n >= 4 && Ahead(c, old(c.Rest()), n) && c.pos == old(c.pos) + n
  {
    ghost var s, n := c.Rest(), 0;
    while true
      invariant Ahead(c, s, n) && c.pos == old(c.pos) + n
      invariant LabelsEnd(s, n) == LabelsEnd(s, 0)
      decreases c.Remaining()
    {
      assert |s| - n == c.Remaining();
      var w :- Read32(c, s, n);
      BottomBit(s[n..n + 4]);
      n := n + 4;
      if w as int / 0x100 % 2 == 1 {
        break;
      }
    }
    return Success(());
  }

  lemma BottomBit(b: seq<Byte>)
    requires |b| == 4
    ensures Value32(b) as int / 0x100 % 2 == b[2] as int % 2
  {
    assert Value32(b) as int / 0x100 == b[0] as int * 0x1_0000 + b[1] as int * 0x100 + b[2] as int;
  }

  method ReadPppoe(c: Cur) returns (r: DResult<U16>)
    requires c.Valid()
    modifies c
    ensures c.Valid()
    ensures var s := old(c.Rest());
            r == if |s| < 8 then Failure(Truncated) else Success(Value16(s[6..8]))
    ensures r.Success? ==> Ahead(c, old(c.Rest()), 8) && c.pos == old(c.pos) + 8
  {
    ghost var s := c.Rest();
    var verType :- ReadByte(c, s, 0);
    var code :- ReadByte(c, s, 1);
    var session :- Read16(c, s, 2);
    var len :- Read16(c, s, 4);
    r := Read16(c, s, 6);
  }

  method ReadSll(c: Cur) returns (r: DResult<U16>)
    requires c.Valid()
    modifies c
    ensures c.Valid()
    ensures var s := old(c.Rest());
            r == if |s| < 16 then Failure(Truncated) else Success(Value16(s[14..16]))
    ensures r.Success? ==> Ahead(c, old(c.Rest()), 16) && c.pos == old(c.pos) + 16
  {
    ghost var s := c.Rest();
    var pktType :- Read16(c, s, 0);
    var addrType :- Read16(c, s, 2);
    var addrLen :- Read16(c, s, 4);
    var addr :- ReadTake(c, 8, s, 6);
    r := Read16(c, s, 14);
  }

  method ReadSll2(c: Cur) returns (r: DResult<U16>)
    requires c.Valid()
    modifies c
    ensures c.Valid()
    ensures var s := old(c.Rest());
            r == if |s| < 20 then Failure(Truncated) else Success(Value16(s[0..2]))
    ensures r.Success? ==> Ahead(c, old(c.Rest()), 20) && c.pos == old(c.pos) + 20
  {
    ghost var s := c.Rest();
    var proto :- Read16(c, s, 0);
    var reserved :- Read16(c, s, 2);
    var ifindex :- Read32(c, s, 4);
    var addrType :- Read16(c, s, 8);
    var pktType :- ReadByte(c, s, 10);
    var addrLen :- ReadByte(c, s, 11);
    var addr :- ReadTake(c, 8, s, 12);
    return Success(proto);
  }

  function LittleEndian(b: seq<Byte>): nat {
    if b == [] then 0 else b[0] as int + 0x100 * LittleEndian(b[1..])
  }

  lemma LittleEndian2(b: seq<Byte>)
    requires |b| == 2
    ensures LittleEndian(b) == b[0] as int + b[1] as int * 0x100
  {
    assert b[1..][1..] == [];
    assert LittleEndian(b[1..]) == b[1];
  }

  lemma LittleEndian4(b: seq<Byte>)
    requires |b| == 4
    ensures LittleEndian(b) == b[0] as int + b[1] as int * 0x100 + b[2] as int * 0x1_0000 + b[3] as int * 0x100_0000
  {
    assert b[1..][1..] == b[2..];
    LittleEndian2(b[2..]);
  }

  method Le16(c: Cur, ghost s: seq<Byte>, ghost n: nat) returns (r: DResult<nat>)
    requires Ahead(c, s, n)
    modifies c
    ensures c.Valid()
    ensures if |s| < n + 2 then r == Failure(Truncated)
            else r == Success(LittleEndian(s[n..n + 2])) && Ahead(c, s, n + 2) && c.pos == old(c.pos) + 2
  {
    var b :- ReadTake(c, 2, s, n);
    LittleEndian2(b);
    return Success(b[0] as int + b[1] as int * 0x100);
  }

  method Le32(c: Cur, ghost s: seq<Byte>, ghost n: nat) returns (r: DResult<nat>)
    requires Ahead(c, s, n)
    modifies c
    ensures c.Valid()
    ensures if |s| < n + 4 then r == Failure(Truncated)
            else r == Success(LittleEndian(s[n..n + 4])) && Ahead(c, s, n + 4) && c.pos == old(c.pos) + 4
  {
    var b :- ReadTake(c, 4, s, n);
    LittleEndian4(b);
    return Success(b[0] as int + b[1] as int * 0x100 + b[2] as int * 0x1_0000 + b[3] as int * 0x100_0000);
  }

  /** The length of the self-describing capture header in front of an 802.11 frame. */
  function RadiotapLen(s: seq<Byte>): DResult<nat> {
    if |s| < 4 then Failure(Truncated)
    else
      var len := LittleEndian(s[2..4]);
      if len < 4 then Failure(Malformed) else if |s| < len then Failure(Truncated) else Success(len)
  }

  method ReadRadiotap(c: Cur) returns (r: DResult<()>)
    requires c.Valid()
    modifies c
    ensures c.Valid()
    ensures match RadiotapLen(old(c.Rest()))
            case Failure(e) => r == Failure(e)
            case Success(n) => r == Success(()) && Ahead(c, old(c.Rest()), n) && c.pos == old(c.pos) + n
  {
    ghost var s := c.Rest();
    var rev :- ReadByte(c, s, 0);
    var pad :- ReadByte(c, s, 1);
    var len :- Le16(c, s, 2);
    if len < 4 {
      return Failure(Malformed);
    }
    var skipped :- ReadTake(c, len - 4, s, 4);
    return Success(());
  }

  /** A data frame whose subtype is not one of those without data. */
  predicate CarriesLlc(fc: nat) {
    fc / 4 % 4 == 2 && fc / 16 % 16 / 8 % 2 == 0
  }

  /** Whether LLC follows an 802.11 header, and its length, fourth address included. */
  function WlanAt(s: seq<Byte>): DResult<(bool, nat)> {
    if |s| < 24 then Failure(Truncated)
    else
      var fc := LittleEndian(s[0..2]);
      if !CarriesLlc(fc) then Success((false, 24))
      else if fc / 0x100 % 4 != 3 then Success((true, 24))
      else if |s| < 30 then Failure(Truncated)
      else Success((true, 30))
  }

  /** Frame control, duration, three addresses and the sequence number. */
  method ReadWlanFixed(c: Cur, ghost s: seq<Byte>) returns (r: DResult<nat>)
    requires Ahead(c, s, 0)
    modifies c
    ensures c.Valid()
    ensures if |s| < 24 then r == Failure(Truncated)
            else r == Success(LittleEndian(s[0..2])) && Ahead(c, s, 24) && c.pos == old(c.pos) + 24
  {
    var fc :- Le16(c, s, 0);
    var duration :- Le16(c, s, 2);
    var addresses :- ReadTake(c, 18, s, 4);
    var seqNo :- Le16(c, s, 22);
    return Success(fc);
  }

  method ReadWlan(c: Cur) returns (r: DResult<bool>)
    requires c.Valid()
    modifies c
    ensures c.Valid()
    ensures match WlanAt(old(c.Rest()))
            case Failure(e) => r == Failure(e)
            case Success((llc, n)) => r == Success(llc) && Ahead(c, old(c.Rest()), n) && c.pos == old(c.pos) + n
  {
    ghost var s := c.Rest();
    assert s[0..] == s;
    var fc :- ReadWlanFixed(c, s);
    var kind, subtype := fc / 4 % 4, fc / 16 % 16;
    if kind == 2 && subtype / 8 % 2 == 0 {
      if fc / 0x100 % 4 == 3 {
        var fourth :- ReadTake(c, 6, s, 24);
      }
      return Success(true);
    }
    return Success(false);
  }

  /** The source and destination port, and how long the datagram says it is. */
  method ReadUdp(c: Cur) returns (r: DResult<(U16, U16, U16)>)
    requires c.Valid()
    modifies c
    ensures c.Valid()
    ensures var s := old(c.Rest());
            r == if |s| < 8 then Failure(Truncated) else Success((Value16(s[0..2]), Value16(s[2..4]), Value16(s[4..6])))
    ensures r.Success? ==> Ahead(c, old(c.Rest()), 8) && c.pos == old(c.pos) + 8
  {
    ghost var s := c.Rest();
    var sport :- Read16(c, s, 0);
    var dport :- Read16(c, s, 2);
    var len :- Read16(c, s, 4);
    var checksum :- Read16(c, s, 6);
    return Success((sport, dport, len));
  }

  datatype TcpHeader = TcpHeader(sport: U16, dport: U16, seqNo: U32, dataOffset: nat)

  function TcpHeaderAt(s: seq<Byte>): DResult<TcpHeader> {
    if |s| < 20 then Failure(Truncated)
    else Success(TcpHeader(Value16(s[0..2]), Value16(s[2..4]), Value32(s[4..8]),
                           Value16(s[12..14]) as int / 0x1000 % 16 * 4))
  }

  /** Where the payload starts: after the options, if the capture holds them all. */
  function TcpPayloadAt(s: seq<Byte>): (n: nat)
    requires |s| >= 20
    ensures 20 <= n <= |s|
  {
    var offset := TcpHeaderAt(s).value.dataOffset;
    if 20 <= offset <= |s| then offset else 20
  }

  /** Options follow a data offset above the minimum, if the capture holds them all. */
  method SkipOptions(c: Cur, dataOffset: nat, ghost s: seq<Byte>)
    requires |s| >= 20 && Ahead(c, s, 20) && dataOffset == TcpHeaderAt(s).value.dataOffset
    modifies c
    ensures Ahead(c, s, TcpPayloadAt(s)) && c.pos == old(c.pos) + TcpPayloadAt(s) - 20
  {
    assert c.Remaining() == |s| - 20;
    if dataOffset >= 20 {
      var len := dataOffset - 20;
      if len > 0 && len <= c.Remaining() {
        var opts := ReadTake(c, len, s, 20);
      }
    }
  }

  method ReadTcp(c: Cur) returns (r: DResult<TcpHeader>)
    requires c.Valid()
    modifies c
    ensures c.Valid()
    ensures r == TcpHeaderAt(old(c.Rest()))
    ensures r.Success? ==> Ahead(c, old(c.Rest()), 20) && c.pos == old(c.pos) + 20
  {
    ghost var s := c.Rest();
    var sport :- Read16(c, s, 0);
    var dport :- Read16(c, s, 2);
    var seqNo :- Read32(c, s, 4);
    var ack :- Read32(c, s, 8);
    var offsetFlags :- Read16(c, s, 12);
    var window :- Read16(c, s, 14);
    var checksum :- Read16(c, s, 16);
    var urgent :- Read16(c, s, 18);
    return Success(TcpHeader(sport, dport, seqNo, offsetFlags as int / 0x1000 % 16 * 4));
  }

  method ReadSctp(c: Cur) returns (r: DResult<(U16, U16)>)
    requires c.Valid()
    modifies c
    ensures c.Valid()
    ensures var s := old(c.Rest());
            r == if |s| < 12 then Failure(Truncated) else Success((Value16(s[0..2]), Value16(s[2..4])))
    ensures r.Success? ==> Ahead(c, old(c.Rest()), 12) && c.pos == old(c.pos) + 12
  {
    ghost var s := c.Rest();
    var sport :- Read16(c, s, 0);
    var dport :- Read16(c, s, 2);
    var vtag :- Read32(c, s, 4);
    var checksum :- Read32(c, s, 8);
    return Success((sport, dport));
  }

  /** Four octets, and four more for each optional field the flags announce. */
  function GreLen(s: seq<Byte>): nat
    requires |s| >= 2
  {
    var flags: int := Value16(s[0..2]);
    4 + 4 * (flags / 0x8000 % 2) + 4 * (flags / 0x2000 % 2) + 4 * (flags / 0x1000 % 2)
  }

  /** The GRE header with the optional fields its flags call for. */
  method ReadGre(c: Cur) returns (r: DResult<U16>)
    requires c.Valid()
    modifies c
    ensures c.Valid()
    ensures var s := old(c.Rest());
            r == if |s| < 4 || |s| < GreLen(s) then Failure(Truncated) else Success(Value16(s[2..4]))
    ensures r.Success? ==>
              var n := GreLen(old(c.Rest())); n >= 4 && Ahead(c, old(c.Rest()), n) && c.pos == old(c.pos) + n
  {
    ghost var s := c.Rest();
    var flags :- Read16(c, s, 0);
    var proto :- Read16(c, s, 2);
    var checksum :- ReadOptional(c, flags as int / 0x8000 % 2, s, 4);
    ghost var n := 4 + 4 * (flags as int / 0x8000 % 2);
    var key :- ReadOptional(c, flags as int / 0x2000 % 2, s, n);
    var seqNo :- ReadOptional(c, flags as int / 0x1000 % 2, s, n + 4 * (flags as int / 0x2000 % 2));
    return Success(proto);
  }

  /** A word that is there only if its flag bit is set. */
  method ReadOptional(c: Cur, bit: nat, ghost s: seq<Byte>, ghost n: nat) returns (r: DResult<()>)
    requires Ahead(c, s, n) && bit <= 1
    modifies c
    ensures c.Valid()
    ensures if |s| < n + 4 * bit then r == Failure(Truncated)
            else r == Success(()) && Ahead(c, s, n + 4 * bit) && c.pos == old(c.pos) + 4 * bit
  {
    if bit == 1 {
      var word :- Read32(c, s, n);
    }
    return Success(());
  }

  function ErspanLen(proto: U16): nat {
    if proto == 0x88be then 4 else 12
  }

  method ReadErspan(c: Cur, proto: U16) returns (r: DResult<()>)
    requires c.Valid()
    modifies c
    ensures c.Valid()
    ensures var (s, n) := (old(c.Rest()), ErspanLen(proto));
            if |s| < n then r == Failure(Truncated) else r == Success(()) && Ahead(c, s, n) && c.pos == old(c.pos) + n
  {
    ghost var s := c.Rest();
    var w :- Read32(c, s, 0);
    if proto != 0x88be {
      var longer :- ReadTake(c, 8, s, 4);
    }
    return Success(());
  }

  /** Two octets, a halfword and a word: how Geneve and GTP-U headers both begin. */
  method ReadEight(c: Cur) returns (r: DResult<(Byte, Byte, U16)>)
    requires c.Valid()
    modifies c
    ensures c.Valid()
    ensures var s := old(c.Rest());
            r == if |s| < 8 then Failure(Truncated) else Success((s[0], s[1], Value16(s[2..4])))
    ensures r.Success? ==> Ahead(c, old(c.Rest()), 8) && c.pos == old(c.pos) + 8
  {
    ghost var s := c.Rest();
    var first :- ReadByte(c, s, 0);
    var second :- ReadByte(c, s, 1);
    var half :- Read16(c, s, 2);
    var word :- Read32(c, s, 4);
    return Success((first, second, half));
  }

  const MAX_GTP_EXTENSIONS: nat := 8

  /** Where the GTP-U extension header at `pos` ends: its length counts words, this octet included. */
  function GtpExtensionEnd(s: seq<Byte>, pos: nat): (r: DResult<nat>)
    ensures r.Success? ==> pos + 4 <= r.value <= |s|
  {
    if |s| <= pos then Failure(Truncated)
    else if s[pos] == 0 then Failure(Malformed)
    else if |s| < pos + s[pos] as int * 4 then Failure(Truncated)
    else Success(pos + s[pos] as int * 4)
  }

  /** Where a chain of extension headers ends; each closes with the type of the next, 0 for none. */
  function GtpChainEnd(s: seq<Byte>, pos: nat, next: Byte, n: nat): (r: DResult<nat>)
    requires pos <= |s|
    ensures r.Success? ==> pos <= r.value <= |s|
    decreases MAX_GTP_EXTENSIONS - n, |s|
  {
    if next == 0 then Success(pos)
    else if n >= MAX_GTP_EXTENSIONS then Failure(Malformed)
    else
      var end :- GtpExtensionEnd(s, pos);
      GtpChainEnd(s, end, s[end - 1], n + 1)
  }

  function GtpOptionsEnd(s: seq<Byte>): (r: DResult<nat>)
    ensures r.Success? ==> 4 <= r.value <= |s|
  {
    if |s| < 4 then Failure(Truncated) else GtpChainEnd(s, 4, s[3], 0)
  }

  method ReadGtpExtension(c: Cur, ghost s: seq<Byte>, ghost pos: nat) returns (r: DResult<Byte>)
    requires Ahead(c, s, pos)
    modifies c
    ensures c.Valid()
    ensures match GtpExtensionEnd(s, pos)
            case Failure(e) => r == Failure(e)
            case Success(end) => r == Success(s[end - 1]) && Ahead(c, s, end) && c.pos == old(c.pos) + end - pos
  {
    var len :- ReadByte(c, s, pos);
    if len == 0 {
      return Failure(Malformed);
    }
    var content :- ReadTake(c, len as int * 4 - 2, s, pos + 1);
    r := ReadByte(c, s, pos + len as int * 4 - 1);
  }

  method ReadGtpExtensions(c: Cur) returns (r: DResult<()>)
    requires c.Valid()
    modifies c
    ensures c.Valid()
    ensures match GtpOptionsEnd(old(c.Rest()))
            case Failure(e) => r == Failure(e)
            case Success(n) => r == Success(()) && Ahead(c, old(c.Rest()), n) && c.pos == old(c.pos) + n
  {
    ghost var s := c.Rest();
    ghost var n: nat := 4;
    var fixedPart :- ReadTake(c, 3, s, 0);
    var next :- ReadByte(c, s, 3);
    var guard := 0;
    while next != 0
      invariant guard <= MAX_GTP_EXTENSIONS && Ahead(c, s, n) && c.pos == old(c.pos) + n
      invariant GtpChainEnd(s, n, next, guard) == GtpOptionsEnd(s)
      decreases MAX_GTP_EXTENSIONS - guard
    {
      guard := guard + 1;
      if guard > MAX_GTP_EXTENSIONS {
        return Failure(Malformed);
      }
      ghost var end := GtpExtensionEnd(s, n);
      next :- ReadGtpExtension(c, s, n);
      n := end.value;
    }
    return Success(());
  }

  /** What follows the flags of an L2TP header: the PPP protocol of a data message, and where it ends. */
  function L2tpAt(s: seq<Byte>, flags: U16): DResult<(Option<U16>, nat)> {
    var ids := if flags as int / 0x4000 % 2 == 1 then 6 else 4;
    if |s| < ids then Failure(Truncated)
    else if flags as int / 0x8000 % 2 == 1 then Success((None, ids))
    else
      var n := ids + 4 * (flags as int / 0x0800 % 2) + 2 * (flags as int / 0x0200 % 2);
      if |s| < n then Failure(Truncated)
      else
        var m := if |s| >= n + 2 && s[n..n + 2] == [0xff, 0x03] then n + 2 else n;
        if |s| < m + 2 then Failure(Truncated) else Success((Some(Value16(s[m..m + 2])), m + 2))
  }

  method ReadL2tp(c: Cur, flags: U16) returns (r: DResult<Option<U16>>)
    requires c.Valid()
    modifies c
    ensures c.Valid()
    ensures match L2tpAt(old(c.Rest()), flags)
            case Failure(e) => r == Failure(e)
            case Success((proto, n)) => r == Success(proto) && Ahead(c, old(c.Rest()), n) && c.pos == old(c.pos) + n
  {
    ghost var s := c.Rest();
    if flags as int / 0x4000 % 2 == 1 {
      var len :- ReadTake(c, 2, s, 0);
    }
    ghost var n := if flags as int / 0x4000 % 2 == 1 then 2 else 0;
    var ids :- ReadTake(c, 4, s, n);
    if flags as int / 0x8000 % 2 == 1 {
      return Success(None);
    }
    var proto :- ReadL2tpData(c, flags, s, n + 4);
    return Success(Some(proto));
  }

  method PeekTwo(c: Cur, ghost s: seq<Byte>, ghost n: nat) returns (r: Option<seq<Byte>>)
    requires Ahead(c, s, n)
    ensures r == if |s| < n + 2 then None else Some(s[n..n + 2])
  {
    r := c.Peek(2);
    assert |s| - n == c.Remaining();
    assert |s| >= n + 2 ==> s[n..][..2] == s[n..n + 2];
  }

  /** The optional parts of a data message, the address and control octets of PPP included. */
  method ReadL2tpData(c: Cur, flags: U16, ghost s: seq<Byte>, ghost ids: nat) returns (r: DResult<U16>)
    requires Ahead(c, s, ids)
    modifies c
    ensures c.Valid()
    ensures var n := ids + 4 * (flags as int / 0x0800 % 2) + 2 * (flags as int / 0x0200 % 2);
            if |s| < n then r == Failure(Truncated)
            else
              var m := if |s| >= n + 2 && s[n..n + 2] == [0xff, 0x03] then n + 2 else n;
              if |s| < m + 2 then r == Failure(Truncated)
              else r == Success(Value16(s[m..m + 2])) && Ahead(c, s, m + 2) && c.pos == old(c.pos) + m + 2 - ids
  {
    var counters :- ReadOptional(c, flags as int / 0x0800 % 2, s, ids);
    ghost var n := ids + 4 * (flags as int / 0x0800 % 2);
    if flags as int / 0x0200 % 2 == 1 {
      var offset :- ReadTake(c, 2, s, n);
    }
    n := n + 2 * (flags as int / 0x0200 % 2);
    var b := PeekTwo(c, s, n);
    if b == Some([0xff, 0x03]) {
      var control := ReadTake(c, 2, s, n);
      n := n + 2;
    }
    r := Read16(c, s, n);
  }

  /** Where the indicator at `pos` ends, if there is one: authentication data, or an origin. */
  function IndicatorEnd(s: seq<Byte>, pos: nat): (r: DResult<Option<nat>>)
    ensures r.Success? && r.value.Some? ==> pos + 8 <= r.value.value <= |s|
  {
    if |s| < pos + 2 then Success(None)
    else if s[pos..pos + 2] == [0, 1] then
      if |s| < pos + 4 then Failure(Truncated)
      else
        var n := pos + 13 + s[pos + 2] as int + s[pos + 3] as int;
        if |s| < n then Failure(Truncated) else Success(Some(n))
    else if s[pos..pos + 2] == [0, 0] then
      if |s| < pos + 8 then Failure(Truncated) else Success(Some(pos + 8))
    else Success(None)
  }

  /** Where the indicators that Teredo may put before the IPv6 packet end. */
  function TeredoEnd(s: seq<Byte>, pos: nat): (r: DResult<nat>)
    requires pos <= |s|
    ensures r.Success? ==> pos <= r.value <= |s|
    decreases |s| - pos
  {
    var end :- IndicatorEnd(s, pos);
    if end.None? then Success(pos) else TeredoEnd(s, end.value)
  }

  /** Skip one indicator; false if there is none. */
  method ReadIndicator(c: Cur, ghost s: seq<Byte>, ghost pos: nat) returns (r: DResult<bool>)
    requires Ahead(c, s, pos)
    modifies c
    ensures c.Valid()
    ensures match IndicatorEnd(s, pos)
            case Failure(e) => r == Failure(e)
            case Success(None) => r == Success(false) && Ahead(c, s, pos) && c.pos == old(c.pos)
            case Success(Some(end)) => r == Success(true) && Ahead(c, s, end) && c.pos == old(c.pos) + end - pos
  {
    var b := PeekTwo(c, s, pos);
    if b == Some([0, 1]) {
      var kind := ReadTake(c, 2, s, pos);
      var idLen :- ReadByte(c, s, pos + 2);
      var auLen :- ReadByte(c, s, pos + 3);
      var rest :- ReadTake(c, idLen as int + auLen as int + 8 + 1, s, pos + 4);
      return Success(true);
    }
    if b == Some([0, 0]) {
      var origin :- ReadTake(c, 8, s, pos);
      return Success(true);
    }
    return Success(false);
  }

  method ReadTeredoIndicators(c: Cur) returns (r: DResult<()>)
    requires c.Valid()
    modifies c
    ensures c.Valid()
    ensures match TeredoEnd(old(c.Rest()), 0)
            case Failure(e) => r == Failure(e)
            case Success(n) => r == Success(()) && Ahead(c, old(c.Rest()), n) && c.pos == old(c.pos) + n
  {
    ghost var s := c.Rest();
    ghost var n: nat := 0;
    while true
      invariant Ahead(c, s, n) && c.pos == old(c.pos) + n
      invariant TeredoEnd(s, n) == TeredoEnd(s, 0)
      decreases c.Remaining()
    {
      ghost var end := IndicatorEnd(s, n);
      var more :- ReadIndicator(c, s, n);
      if !more {
        return Success(());
      }
      n := end.value.value;
    }
  }
}
