/**
 The engine with the dissectors of `DissectSpec`: what a capture's octets say about a datagram sent in
 parts is what the engine reassembles and dissects.
 */
module Extraction {
  import opened Addresses
  import opened DissectSlices
  import opened DissectSpec
  import opened DissectState
  import opened EngineRuns
  import opened Errors
  import opened Integers
  import opened Pipeline
  import opened Wrappers
  import FragmentRuns
  import Fragments

  /** What is left open: application layers, leaf protocols, and the columns not kept in `Past`. */
  datatype Open = Open(
    names: (seq<Byte>, U16, U16, bool) -> seq<string>,
    leaf: (string, seq<Byte>) -> DResult<()>,
    app: (seq<Byte>, U16, U16, bool, Packet) -> (Packet, seq<string>),
    columns: (seq<Byte>, Past, Packet) -> Packet)

  function TunnelName(kind: TunnelKind): string {
    match kind
    case Erspan => "erspan"
    case Gre => "gre"
    case IpIp => "ipip"
    case Vxlan => "vxlan"
    case Geneve => "geneve"
    case Gtp => "gtp"
    case L2tp => "l2tp"
    case Teredo => "teredo"
  }

  function NameOf(l: Layer): string {
    match l
    case Ip(v6) => if v6 then "ipv6" else "ipv4"
    case Tunnel(kind) => TunnelName(kind)
    case Named(name) => name
  }

  function Names(stack: seq<Layer>): seq<string> {
    seq(|stack|, i requires 0 <= i < |stack| => NameOf(stack[i]))
  }

  function EnvOf(o: Open, data: seq<Byte>, defer: bool): Env {
    Env(data, defer, o.names, o.leaf)
  }

  /** A frame's columns, its tuple, its mark, and whether dissection failed. */
  function SeenIn(o: Open, data: seq<Byte>, linktype: U16, defer: bool, p: Packet): Seen {
    var ended := LinkOf(EnvOf(o, data, defer), linktype);
    Seen(o.columns(data, ended.past, p), ended.past.tuple, ended.past.frag, ended.r.Failure?)
  }

  /** A reassembled datagram goes straight to its protocol. */
  function Reread(o: Open, k: Fragments.FragKey, data: seq<Byte>): Past {
    var bare := NOTHING.(tuple := Some(Tuple(k.src, k.dst, 0, 0, k.proto)));
    ProtoOf(EnvOf(o, data, false), k.proto, k.src, k.dst, 0, |data|, bare).past
  }

  function FromSpec(o: Open): Dissectors {
    Dissectors(
      (data: seq<Byte>, linktype: U16, defer: bool, p: Packet) => Some(SeenIn(o, data, linktype, defer, p)),
      o.app,
      (k: Fragments.FragKey, data: seq<Byte>, p: Packet) =>
        var q := Reread(o, k, data); (o.columns(data, q, p), Names(q.stack), q.tuple))
  }

  function PastOf(o: Open, raw: RawPacket): Past {
    LinkOf(EnvOf(o, raw.data, true), raw.linktype).past
  }

  /** The slice a frame carries, by its octets. */
  function Carried(o: Open, raw: RawPacket): Option<Fragments.FragMeta> {
    FrameMarkIsSliceIff(EnvOf(o, raw.data, true), raw.linktype);
    var slice := FrameSlice(raw.data, PastOf(o, raw));
    MetaOf(slice)
  }

  /** The frame is marked with the slice it carries, by the guards of `FrameMarkIsSliceIff`. */
  predicate MarkedRight(o: Open, raw: RawPacket) {
    FrameMarkIsSliceIff(EnvOf(o, raw.data, true), raw.linktype);
    var p := PastOf(o, raw);
    !LostSlice(raw.data, p) && MarksRight(raw.data, p.bounds, p.headers)
  }

  /** Every frame that carries a part of `k`'s datagram, or is marked as one, is marked right. */
  ghost predicate AllMarkedRight(o: Open, raws: seq<RawPacket>, k: Fragments.FragKey) {
    forall raw | raw in raws && (Of(Carried(o, raw), k) || Of(PastOf(o, raw).frag, k)) :: MarkedRight(o, raw)
  }

  /** The slices that the frames of a capture carry. */
  function AllCarried(o: Open, raws: seq<RawPacket>): seq<Option<Fragments.FragMeta>> {
    seq(|raws|, i requires 0 <= i < |raws| => Carried(o, raws[i]))
  }

  lemma MarkIsCarried(o: Open, raw: RawPacket)
    requires MarkedRight(o, raw)
    ensures PastOf(o, raw).frag == Carried(o, raw)
  {
    FrameMarkIsSliceIff(EnvOf(o, raw.data, true), raw.linktype);
  }

  function EntryOf(o: Open, raw: RawPacket): Entry {
    Entry(Copied(raw), DissectOne(FromSpec(o), Copied(raw), true))
  }

  lemma EntryIsMarked(o: Open, raw: RawPacket)
    ensures EntryOf(o, raw).d.frag == PastOf(o, raw).frag
  {
  }

  /** A frame that is marked right where it matters to `k` offers its own part of it, and nothing else. */
  lemma OffersItsPart(o: Open, raw: RawPacket, k: Fragments.FragKey)
    requires Of(Carried(o, raw), k) || Of(PastOf(o, raw).frag, k) ==> MarkedRight(o, raw)
    ensures Offers(EntryOf(o, raw), Carried(o, raw), k)
  {
    EntryIsMarked(o, raw);
    if Of(Carried(o, raw), k) || Of(PastOf(o, raw).frag, k) {
      MarkIsCarried(o, raw);
    }
  }

  function EntriesOf(o: Open, raws: seq<RawPacket>): seq<Entry> {
    Entries(FromSpec(o), true, Pipeline.Records(raws))
  }

  lemma EntryAt(o: Open, raws: seq<RawPacket>, i: nat)
    requires i < |raws|
    ensures |EntriesOf(o, raws)| == |raws| && EntriesOf(o, raws)[i] == EntryOf(o, raws[i])
  {
  }

  lemma AllOfferTheirParts(o: Open, raws: seq<RawPacket>, k: Fragments.FragKey)
    requires AllMarkedRight(o, raws, k)
    ensures AllOffer(EntriesOf(o, raws), AllCarried(o, raws), k)
  {
    forall i | 0 <= i < |raws| ensures Offers(EntriesOf(o, raws)[i], AllCarried(o, raws)[i], k) {
      EntryAt(o, raws, i);
      OffersItsPart(o, raws[i], k);
    }
  }

  /**
   End to end. Let the frames of a capture that carry parts of a datagram `d` be marked right, and let
   there be room for a set when the first of them comes. Then the frame that completes it is dissected
   anew with `d`, and every one before is left as its own octets made it.
   */
  lemma DatagramIsRead(o: Open, c: Config, raws: seq<RawPacket>, last: RawPacket, m: Fragments.FragMeta, d: seq<Byte>)
    requires c.reassemble && Carried(o, last) == Some(m)
    requires AllMarkedRight(o, raws, m.key) && MarkedRight(o, last)
    requires FragmentRuns.AllSlices(PartsOf(AllCarried(o, raws), m.key) + [FragmentOf(m)], d)
    requires !FragmentRuns.Complete(PartsOf(AllCarried(o, raws), m.key), d)
    requires Fragments.HeldBytes(PartsOf(AllCarried(o, raws), m.key) + [FragmentOf(m)]) <= c.frags.maxBytes
    requires FragmentRuns.RoomAtFirst(c.frags, Fragments.EMPTY_TABLE,
               FragmentsOffered(c, EntriesOf(o, raws) + [EntryOf(o, last)]), m.key)
    ensures DefragmentedAfter(FromSpec(o), c, EntriesOf(o, raws), EntryOf(o, last)) ==
            if FragmentRuns.Complete(PartsOf(AllCarried(o, raws), m.key) + [FragmentOf(m)], d)
            then Redissected(FromSpec(o), m.key, d, EntryOf(o, last).d.packet)
            else (EntryOf(o, last).d.packet, None)
  {
    AllOfferTheirParts(o, raws, m.key);
    EntryIsMarked(o, last);
    MarkIsCarried(o, last);
    EngineRuns.RedissectedOnCompletion(FromSpec(o), c, EntriesOf(o, raws), EntryOf(o, last), AllCarried(o, raws), m, d);
  }
}
