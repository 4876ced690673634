/**
 DNS name decompression and the record walk that advances by it (rust/src/dissect/app/dns.rs),
 after section 4.1.4 of RFC 1035.
 */
module DnsNames {
  import opened Errors
  import opened Integers
  import opened Wrappers

  const MAX_STEPS: nat := 128
  const MAX_JUMPS: nat := 16
  const MAX_NAME: nat := 512

  type Label = seq<Byte>

  // ---------------------------------------------------------------------------
  // What the bytes at one position say
  // ---------------------------------------------------------------------------

  datatype Step = Root | Pointer(target: nat) | Text(text: Label, next: nat) | Bad(error: DissectError)

  function StepAt(msg: seq<Byte>, pos: nat): (s: Step)
    ensures s.Pointer? ==> pos + 2 <= |msg| && s.target < |msg|
    ensures s.Text? ==> 1 <= |s.text| <= 63 && s.next == pos + 1 + |s.text| <= |msg|
    ensures s.Root? ==> pos < |msg|
  {
    if pos >= |msg| then Bad(Truncated)
    else
      var len: int := msg[pos];
      if len == 0 then Root
      else if len >= 0xc0 then
        if pos + 1 >= |msg| then Bad(Truncated)
        else
          var target := len % 0x40 * 0x100 + msg[pos + 1];
          if target >= |msg| then Bad(Malformed) else Pointer(target)
      else if len >= 0x40 then Bad(Malformed)
      else if pos + 1 + len > |msg| then Bad(Truncated)
      else Text(msg[pos + 1..pos + 1 + len], pos + 1 + len)
  }

  // ---------------------------------------------------------------------------
  // Rendering labels
  // ---------------------------------------------------------------------------

  predicate IsPrintable(b: Byte) {
    0x20 <= b < 0x7f
  }

  function Shown(text: Label): (s: string)
    ensures |s| == |text|
  {
    seq(|text|, i requires 0 <= i < |text| => if IsPrintable(text[i]) then text[i] as char else '?')
  }

  function Appended(out: string, text: Label): string {
    (if out == "" then "" else out + ".") + Shown(text)
  }

  function AppendedAll(out: string, labels: seq<Label>): string
    decreases |labels|
  {
    if labels == [] then out else AppendedAll(Appended(out, labels[0]), labels[1..])
  }

  /** Labels joined by dots. */
  function Render(labels: seq<Label>): string {
    if labels == [] then ""
    else if |labels| == 1 then Shown(labels[0])
    else Shown(labels[0]) + "." + Render(labels[1..])
  }

  lemma {:induction false} AppendedAllRenders(out: string, labels: seq<Label>)
    requires forall i | 0 <= i < |labels| :: labels[i] != []
    decreases |labels|
    ensures AppendedAll(out, labels) ==
            if labels == [] then out else if out == "" then Render(labels) else out + "." + Render(labels)
  {
    if labels != [] {
      AppendedAllRenders(Appended(out, labels[0]), labels[1..]);
    }
  }

  function GrownBy(used: nat, text: Label): nat {
    (if used == 0 then 0 else used + 1) + |text|
  }

  // ---------------------------------------------------------------------------
  // The decoder, as a function of its budgets
  // ---------------------------------------------------------------------------

  datatype Name = Name(labels: seq<Label>, end: nat)

  /** Decode from `pos` with so many steps and jumps left and `used` characters already out. */
  function Decode(msg: seq<Byte>, pos: nat, steps: nat, jumps: nat, used: nat): DResult<Name>
    decreases steps, |msg|
  {
    if steps == 0 then Failure(Malformed)
    else
      match StepAt(msg, pos)
      case Bad(e) => Failure(e)
      case Root => Success(Name([], pos + 1))
      case Pointer(target) =>
        if jumps == 0 then Failure(Malformed)
        else
          var rest :- Decode(msg, target, steps - 1, jumps - 1, used);
          Success(Name(rest.labels, pos + 2))
      case Text(text, next) =>
        if GrownBy(used, text) > MAX_NAME then Failure(Malformed)
        else
          var rest :- Decode(msg, next, steps - 1, jumps, GrownBy(used, text));
          Success(Name([text] + rest.labels, rest.end))
  }

  function NameAt(msg: seq<Byte>, pos: nat): DResult<Name> {
    Decode(msg, pos, MAX_STEPS, MAX_JUMPS, 0)
  }

  function Finish(out: string, endPos: Option<nat>, rest: DResult<Name>): DResult<(string, nat)> {
    var n :- rest;
    Success((AppendedAll(out, n.labels), if endPos.Some? then endPos.value else n.end))
  }

  // How one step of the decoder shows in what the whole comes to.

  lemma StepsRunOut(out: string, endPos: Option<nat>, msg: seq<Byte>, pos: nat, jumps: nat)
    ensures Finish(out, endPos, Decode(msg, pos, 0, jumps, |out|)) == Failure(Malformed)
  {
  }

  lemma NameEnds(out: string, endPos: Option<nat>, msg: seq<Byte>, pos: nat, steps: nat, jumps: nat)
    requires steps > 0 && (StepAt(msg, pos).Bad? || StepAt(msg, pos).Root?)
    ensures Finish(out, endPos, Decode(msg, pos, steps, jumps, |out|)) ==
            if StepAt(msg, pos).Bad? then Failure(StepAt(msg, pos).error)
            else Success((out, if endPos.Some? then endPos.value else pos + 1))
  {
  }

  lemma TextAdds(out: string, endPos: Option<nat>, msg: seq<Byte>, pos: nat, steps: nat, jumps: nat,
                 text: Label, next: nat)
    requires steps > 0 && StepAt(msg, pos) == Text(text, next)
    ensures Finish(out, endPos, Decode(msg, pos, steps, jumps, |out|)) ==
            var longer := Appended(out, text);
            if |longer| > MAX_NAME then Failure(Malformed)
            else Finish(longer, endPos, Decode(msg, next, steps - 1, jumps, |longer|))
  {
  }

  lemma PointerJumps(out: string, endPos: Option<nat>, msg: seq<Byte>, pos: nat, steps: nat, jumps: nat, target: nat)
    requires steps > 0 && StepAt(msg, pos) == Pointer(target)
    ensures Finish(out, endPos, Decode(msg, pos, steps, jumps, |out|)) ==
            if jumps == 0 then Failure(Malformed)
            else Finish(out, if endPos.Some? then endPos else Some(pos + 2),
                        Decode(msg, target, steps - 1, jumps - 1, |out|))
  {
  }

  method AppendLabel(out0: string, text: Label) returns (out: string)
    ensures out == Appended(out0, text)
  {
    out := out0;
    if out != "" {
      out := out + ".";
    }
    out := out + Shown(text);
  }

  /** Labels and pointers in one loop; the offset returned is past the first pointer, or past the root. */
  method ReadName(msg: seq<Byte>, pos0: nat) returns (r: DResult<(string, nat)>)
    ensures r == Finish("", None, NameAt(msg, pos0))
  {
    var out: string := "";
    var pos: nat := pos0;
    var endPos: Option<nat> := None;
    var jumps, guard := 0, 0;
    ghost var steps: nat, left: nat := MAX_STEPS, MAX_JUMPS;
    ghost var whole := Finish("", None, NameAt(msg, pos0));
    while true
      invariant guard <= MAX_STEPS && jumps <= MAX_JUMPS
      invariant steps == MAX_STEPS - guard && left == MAX_JUMPS - jumps
      invariant whole == Finish(out, endPos, Decode(msg, pos, steps, left, |out|))
      decreases MAX_STEPS - guard
    {
      guard := guard + 1;
      if guard > MAX_STEPS {
        StepsRunOut(out, endPos, msg, pos, left);
        return Failure(Malformed);
      }
      match StepAt(msg, pos) {
        case Bad(e) =>
          NameEnds(out, endPos, msg, pos, steps, left);
          return Failure(e);
        case Root =>
          NameEnds(out, endPos, msg, pos, steps, left);
          return Success((out, if endPos.Some? then endPos.value else pos + 1));
        case Pointer(target) =>
          PointerJumps(out, endPos, msg, pos, steps, left, target);
          if endPos.None? {
            endPos := Some(pos + 2);
          }
          jumps := jumps + 1;
          if jumps > MAX_JUMPS {
            return Failure(Malformed);
          }
          pos, steps, left := target, steps - 1, left - 1;
        case Text(text, next) =>
          TextAdds(out, endPos, msg, pos, steps, left, text, next);
          out := AppendLabel(out, text);
          pos, steps := next, steps - 1;
          if |out| > MAX_NAME {
            return Failure(Malformed);
          }
      }
    }
  }

  // ---------------------------------------------------------------------------
  // Termination and progress
  // ---------------------------------------------------------------------------

  /** Whatever the bytes, pointer cycles included, a decoded name ends strictly past its start. */
  lemma {:induction false} EndsPastItsStart(msg: seq<Byte>, pos: nat, steps: nat, jumps: nat, used: nat)
    ensures var r := Decode(msg, pos, steps, jumps, used);
            r.Success? ==> pos < r.value.end <= |msg|
    ensures var r := Decode(msg, pos, steps, jumps, used);
            r.Success? ==>
              && |r.value.labels| < steps
              && (forall i | 0 <= i < |r.value.labels| :: 1 <= |r.value.labels[i]| <= 63)
    decreases steps
  {
    if steps > 0 {
      match StepAt(msg, pos)
      case Pointer(target) =>
        if jumps > 0 {
          EndsPastItsStart(msg, target, steps - 1, jumps - 1, used);
        }
      case Text(text, next) =>
        EndsPastItsStart(msg, next, steps - 1, jumps, GrownBy(used, text));
      case _ =>
    }
  }

  // ---------------------------------------------------------------------------
  // The walk through a message, independently of the decoder
  // ---------------------------------------------------------------------------

  /** A path of positions, each leading to the next by a label or a pointer, that ends at a root. */
  ghost predicate Walk(msg: seq<Byte>, path: seq<nat>) {
    && path != []
    && (forall i | 0 <= i < |path| - 1 :: Leads(msg, path[i], path[i + 1]))
    && StepAt(msg, path[|path| - 1]).Root?
  }

  predicate Leads(msg: seq<Byte>, pos: nat, next: nat) {
    match StepAt(msg, pos)
    case Text(_, n) => n == next
    case Pointer(target) => target == next
    case _ => false
  }

  function LabelsOn(msg: seq<Byte>, path: seq<nat>): seq<Label> {
    if path == [] then []
    else
      var rest := LabelsOn(msg, path[1..]);
      if StepAt(msg, path[0]).Text? then [StepAt(msg, path[0]).text] + rest else rest
  }

  function JumpsOn(msg: seq<Byte>, path: seq<nat>): nat {
    if path == [] then 0
    else JumpsOn(msg, path[1..]) + if StepAt(msg, path[0]).Pointer? then 1 else 0
  }

  /** Just past the first pointer, or past the root if there is none. */
  function EndOn(msg: seq<Byte>, path: seq<nat>): nat {
    if path == [] then 0
    else if StepAt(msg, path[0]).Pointer? then path[0] + 2
    else if |path| == 1 then path[0] + 1
    else EndOn(msg, path[1..])
  }

  function GrownByAll(used: nat, labels: seq<Label>): nat
    decreases |labels|
  {
    if labels == [] then used else GrownByAll(GrownBy(used, labels[0]), labels[1..])
  }

  lemma {:induction false} GrowsOnly(used: nat, labels: seq<Label>)
    ensures used <= GrownByAll(used, labels)
    decreases |labels|
  {
    if labels != [] {
      GrowsOnly(GrownBy(used, labels[0]), labels[1..]);
    }
  }

  lemma GrownSplit(used: nat, labels: seq<Label>)
    requires labels != [] && GrownByAll(used, labels) <= MAX_NAME
    ensures var longer := GrownBy(used, labels[0]);
            longer <= MAX_NAME && GrownByAll(longer, labels[1..]) <= MAX_NAME
  {
    GrowsOnly(GrownBy(used, labels[0]), labels[1..]);
  }

  lemma {:induction false} RenderedLength(out: string, labels: seq<Label>)
    ensures |AppendedAll(out, labels)| == GrownByAll(|out|, labels)
    decreases |labels|
  {
    if labels != [] {
      RenderedLength(Appended(out, labels[0]), labels[1..]);
    }
  }

  lemma WalkTail(msg: seq<Byte>, path: seq<nat>)
    requires Walk(msg, path) && |path| > 1
    ensures Walk(msg, path[1..]) && Leads(msg, path[0], path[1..][0])
  {
    var tail := path[1..];
    forall i | 0 <= i < |tail| - 1 ensures Leads(msg, tail[i], tail[i + 1]) {
      assert Leads(msg, path[i + 1], path[i + 2]);
    }
    assert tail[|tail| - 1] == path[|path| - 1];
  }

  lemma UnfoldWalk(msg: seq<Byte>, path: seq<nat>)
    requires Walk(msg, path) && |path| > 1
    ensures match StepAt(msg, path[0])
            case Pointer(target) =>
              && target == path[1]
              && LabelsOn(msg, path) == LabelsOn(msg, path[1..])
              && JumpsOn(msg, path) == JumpsOn(msg, path[1..]) + 1
              && EndOn(msg, path) == path[0] + 2
            case Text(text, next) =>
              && next == path[1]
              && LabelsOn(msg, path) == [text] + LabelsOn(msg, path[1..])
              && JumpsOn(msg, path) == JumpsOn(msg, path[1..])
              && EndOn(msg, path) == EndOn(msg, path[1..])
            case _ => false
  {
    WalkTail(msg, path);
  }

  lemma TextThenRest(msg: seq<Byte>, pos: nat, text: Label, next: nat, steps: nat, jumps: nat, used: nat, rest: Name)
    requires steps > 0 && StepAt(msg, pos) == Text(text, next) && GrownBy(used, text) <= MAX_NAME
    requires Decode(msg, next, steps - 1, jumps, GrownBy(used, text)) == Success(rest)
    ensures Decode(msg, pos, steps, jumps, used) == Success(Name([text] + rest.labels, rest.end))
  {
  }

  lemma PointerThenRest(msg: seq<Byte>, pos: nat, target: nat, steps: nat, jumps: nat, used: nat, rest: Name)
    requires steps > 0 && jumps > 0 && StepAt(msg, pos) == Pointer(target)
    requires Decode(msg, target, steps - 1, jumps - 1, used) == Success(rest)
    ensures Decode(msg, pos, steps, jumps, used) == Success(Name(rest.labels, pos + 2))
  {
  }

  /** The labels of a walk fit the name they are appended to. */
  predicate Fits(used: nat, labels: seq<Label>) {
    labels != [] ==> GrownByAll(used, labels) <= MAX_NAME
  }

  function NameOn(msg: seq<Byte>, path: seq<nat>): Name {
    Name(LabelsOn(msg, path), EndOn(msg, path))
  }

  lemma PointerOnWalk(msg: seq<Byte>, path: seq<nat>, steps: nat, jumps: nat, used: nat)
    requires Walk(msg, path) && |path| > 1 && StepAt(msg, path[0]).Pointer?
    requires steps > 0 && JumpsOn(msg, path) <= jumps
    ensures jumps > 0 && JumpsOn(msg, path[1..]) <= jumps - 1 && LabelsOn(msg, path) == LabelsOn(msg, path[1..])
    ensures Decode(msg, path[1], steps - 1, jumps - 1, used) == Success(NameOn(msg, path[1..])) ==>
              Decode(msg, path[0], steps, jumps, used) == Success(NameOn(msg, path))
  {
    UnfoldWalk(msg, path);
    if Decode(msg, path[1], steps - 1, jumps - 1, used) == Success(NameOn(msg, path[1..])) {
      PointerThenRest(msg, path[0], path[1], steps, jumps, used, NameOn(msg, path[1..]));
    }
  }

  lemma TextOnWalk(msg: seq<Byte>, path: seq<nat>, steps: nat, jumps: nat, used: nat, text: Label)
    requires Walk(msg, path) && |path| > 1 && StepAt(msg, path[0]) == Text(text, path[1])
    requires steps > 0 && Fits(used, LabelsOn(msg, path))
    ensures JumpsOn(msg, path) == JumpsOn(msg, path[1..]) && Fits(GrownBy(used, text), LabelsOn(msg, path[1..]))
    ensures Decode(msg, path[1], steps - 1, jumps, GrownBy(used, text)) == Success(NameOn(msg, path[1..])) ==>
              Decode(msg, path[0], steps, jumps, used) == Success(NameOn(msg, path))
  {
    var labels := LabelsOn(msg, path);
    UnfoldWalk(msg, path);
    assert labels[0] == text && labels[1..] == LabelsOn(msg, path[1..]);
    GrownSplit(used, labels);
    if Decode(msg, path[1], steps - 1, jumps, GrownBy(used, text)) == Success(NameOn(msg, path[1..])) {
      TextThenRest(msg, path[0], text, path[1], steps, jumps, used, NameOn(msg, path[1..]));
    }
  }

  lemma RootOnWalk(msg: seq<Byte>, path: seq<nat>, steps: nat, jumps: nat, used: nat)
    requires Walk(msg, path) && |path| == 1 && steps > 0
    ensures Decode(msg, path[0], steps, jumps, used) == Success(NameOn(msg, path))
  {
    assert path[1..] == [] && LabelsOn(msg, []) == [];
    assert StepAt(msg, path[0]).Root? && EndOn(msg, path) == path[0] + 1;
  }

  /** A walk within the budgets is what the decoder finds. */
  lemma {:induction false} WalkDecodes(msg: seq<Byte>, path: seq<nat>, steps: nat, jumps: nat, used: nat)
    requires Walk(msg, path)
    requires |path| <= steps && JumpsOn(msg, path) <= jumps && Fits(used, LabelsOn(msg, path))
    ensures Decode(msg, path[0], steps, jumps, used) == Success(NameOn(msg, path))
    decreases steps
  {
    if |path| == 1 {
      RootOnWalk(msg, path, steps, jumps, used);
    } else {
      WalkTail(msg, path);
      match StepAt(msg, path[0])
      case Pointer(_) =>
        PointerOnWalk(msg, path, steps, jumps, used);
        WalkDecodes(msg, path[1..], steps - 1, jumps - 1, used);
      case Text(text, _) =>
        TextOnWalk(msg, path, steps, jumps, used, text);
        WalkDecodes(msg, path[1..], steps - 1, jumps, GrownBy(used, text));
    }
  }

  lemma WalkCons(msg: seq<Byte>, pos: nat, path: seq<nat>)
    requires Walk(msg, path) && Leads(msg, pos, path[0])
    ensures Walk(msg, [pos] + path)
    ensures ([pos] + path)[1..] == path
  {
  }

  /** What the decoder finds is a walk within the budgets. */
  lemma {:induction false} DecodeWalks(msg: seq<Byte>, pos: nat, steps: nat, jumps: nat, used: nat)
    returns (path: seq<nat>)
    requires Decode(msg, pos, steps, jumps, used).Success?
    ensures Walk(msg, path) && path[0] == pos
    ensures |path| <= steps && JumpsOn(msg, path) <= jumps
    ensures Fits(used, LabelsOn(msg, path))
    decreases steps
  {
    match StepAt(msg, pos)
    case Root =>
      path := [pos];
      assert path[1..] == [];
    case Pointer(target) =>
      var rest := DecodeWalks(msg, target, steps - 1, jumps - 1, used);
      WalkCons(msg, pos, rest);
      path := [pos] + rest;
    case Text(text, next) =>
      var rest := DecodeWalks(msg, next, steps - 1, jumps, GrownBy(used, text));
      WalkCons(msg, pos, rest);
      path := [pos] + rest;
      assert LabelsOn(msg, path) == [text] + LabelsOn(msg, rest);
      assert LabelsOn(msg, path)[1..] == LabelsOn(msg, rest);
  }

  ghost predicate InLimits(msg: seq<Byte>, path: seq<nat>) {
    && |path| <= MAX_STEPS
    && JumpsOn(msg, path) <= MAX_JUMPS
    && |Render(LabelsOn(msg, path))| <= MAX_NAME
  }

  lemma {:induction false} LabelsOnWalk(msg: seq<Byte>, path: seq<nat>)
    ensures forall i | 0 <= i < |LabelsOn(msg, path)| :: 1 <= |LabelsOn(msg, path)[i]| <= 63
  {
    if path != [] {
      LabelsOnWalk(msg, path[1..]);
    }
  }

  lemma LengthOnWalk(msg: seq<Byte>, path: seq<nat>)
    ensures AppendedAll("", LabelsOn(msg, path)) == Render(LabelsOn(msg, path))
    ensures GrownByAll(0, LabelsOn(msg, path)) == |Render(LabelsOn(msg, path))|
  {
    LabelsOnWalk(msg, path);
    AppendedAllRenders("", LabelsOn(msg, path));
    RenderedLength("", LabelsOn(msg, path));
  }

  /**
   A name decodes exactly when some walk of labels and pointers from its start reaches a root
   within 128 steps, 16 pointers and 512 characters; a pointer cycle has no such walk.
   */
  lemma DecodesIffWalk(msg: seq<Byte>, pos: nat)
    ensures NameAt(msg, pos).Success? <==> exists path :: Walk(msg, path) && path[0] == pos && InLimits(msg, path)
  {
    if NameAt(msg, pos).Success? {
      var path := DecodeWalks(msg, pos, MAX_STEPS, MAX_JUMPS, 0);
      LengthOnWalk(msg, path);
      assert Walk(msg, path) && path[0] == pos && InLimits(msg, path);
    }
    if path :| Walk(msg, path) && path[0] == pos && InLimits(msg, path) {
      WalkReads(msg, path);
    }
  }

  /** Along any such walk the name is the rendering of its labels, ending past its first pointer. */
  lemma WalkReads(msg: seq<Byte>, path: seq<nat>)
    requires Walk(msg, path) && InLimits(msg, path)
    ensures NameAt(msg, path[0]) == Success(Name(LabelsOn(msg, path), EndOn(msg, path)))
    ensures Finish("", None, NameAt(msg, path[0])) == Success((Render(LabelsOn(msg, path)), EndOn(msg, path)))
  {
    LengthOnWalk(msg, path);
    WalkDecodes(msg, path, MAX_STEPS, MAX_JUMPS, 0);
  }

  // ---------------------------------------------------------------------------
  // Compressed and expanded forms
  // ---------------------------------------------------------------------------

  predicate Sized(labels: seq<Label>) {
    forall i | 0 <= i < |labels| :: 1 <= |labels[i]| <= 63
  }

  /** The fully expanded encoding: length-prefixed labels and a root. */
  function Encode(labels: seq<Label>): seq<Byte>
    requires Sized(labels)
  {
    if labels == [] then [0] else [|labels[0]| as Byte] + labels[0] + Encode(labels[1..])
  }

  lemma TextStep(pre: seq<Byte>, text: Label, post: seq<Byte>)
    requires 1 <= |text| <= 63
    ensures StepAt(pre + ([|text| as Byte] + text + post), |pre|) == Text(text, |pre| + 1 + |text|)
  {
    var msg := pre + ([|text| as Byte] + text + post);
    assert msg[|pre|] == |text|;
    assert msg[|pre| + 1..|pre| + 1 + |text|] == text;
  }

  /** The labels stand at `pos` one after the other, and a root after them. */
  predicate StandsAt(msg: seq<Byte>, pos: nat, labels: seq<Label>)
    decreases |labels|
  {
    if labels == [] then StepAt(msg, pos).Root?
    else StepAt(msg, pos) == Text(labels[0], pos + 1 + |labels[0]|) && StandsAt(msg, pos + 1 + |labels[0]|, labels[1..])
  }

  lemma Regroup(pre: seq<Byte>, here: seq<Byte>, tail: seq<Byte>, post: seq<Byte>)
    ensures pre + ((here + tail) + post) == (pre + here) + (tail + post) == pre + (here + (tail + post))
  {
  }

  lemma EncodeSplits(pre: seq<Byte>, labels: seq<Label>, post: seq<Byte>)
    requires Sized(labels) && labels != []
    ensures var (here, tail) := ([|labels[0]| as Byte] + labels[0], Encode(labels[1..]) + post);
            pre + (Encode(labels) + post) == (pre + here) + tail == pre + (here + tail)
  {
    Regroup(pre, [|labels[0]| as Byte] + labels[0], Encode(labels[1..]), post);
  }

  lemma StandsStep(msg: seq<Byte>, pos: nat, labels: seq<Label>, next: nat)
    requires labels != [] && next == pos + 1 + |labels[0]|
    requires StepAt(msg, pos) == Text(labels[0], next) && StandsAt(msg, next, labels[1..])
    ensures StandsAt(msg, pos, labels)
  {
  }

  lemma {:induction false} EncodedStands(pre: seq<Byte>, labels: seq<Label>, post: seq<Byte>)
    requires Sized(labels)
    ensures StandsAt(pre + (Encode(labels) + post), |pre|, labels)
    decreases |labels|
  {
    var msg := pre + (Encode(labels) + post);
    if labels == [] {
      assert msg[|pre|] == 0;
    } else {
      var text, rest := labels[0], labels[1..];
      var here := [|text| as Byte] + text;
      EncodeSplits(pre, labels, post);
      TextStep(pre, text, Encode(rest) + post);
      EncodedStands(pre + here, rest, post);
      StandsStep(msg, |pre|, labels, |pre + here|);
    }
  }

  /** The octets of the labels and of the root. */
  function SpanOf(labels: seq<Label>): nat {
    if labels == [] then 1 else 1 + |labels[0]| + SpanOf(labels[1..])
  }

  lemma {:induction false} EncodedLength(labels: seq<Label>)
    requires Sized(labels)
    ensures |Encode(labels)| == SpanOf(labels)
  {
    if labels != [] {
      EncodedLength(labels[1..]);
    }
  }

  lemma StandsSplit(msg: seq<Byte>, pos: nat, labels: seq<Label>)
    requires labels != [] && StandsAt(msg, pos, labels)
    ensures var next := pos + 1 + |labels[0]|;
            StepAt(msg, pos) == Text(labels[0], next) && StandsAt(msg, next, labels[1..])
  {
  }

  lemma OneMoreDecodes(msg: seq<Byte>, pos: nat, labels: seq<Label>, steps: nat, jumps: nat, used: nat, next: nat)
    requires labels != [] && steps > 0 && next == pos + 1 + |labels[0]|
    requires StepAt(msg, pos) == Text(labels[0], next) && GrownBy(used, labels[0]) <= MAX_NAME
    requires Decode(msg, next, steps - 1, jumps, GrownBy(used, labels[0])) ==
             Success(Name(labels[1..], next + SpanOf(labels[1..])))
    ensures Decode(msg, pos, steps, jumps, used) == Success(Name(labels, pos + SpanOf(labels)))
  {
    var rest, end := labels[1..], next + SpanOf(labels[1..]);
    assert labels == [labels[0]] + rest;
    assert pos + SpanOf(labels) == end;
    TextThenRest(msg, pos, labels[0], next, steps, jumps, used, Name(rest, end));
  }

  lemma {:induction false} StandingDecodes(msg: seq<Byte>, pos: nat, labels: seq<Label>, steps: nat, jumps: nat,
                                           used: nat)
    requires StandsAt(msg, pos, labels)
    requires |labels| < steps && (labels != [] ==> GrownByAll(used, labels) <= MAX_NAME)
    ensures Decode(msg, pos, steps, jumps, used) == Success(Name(labels, pos + SpanOf(labels)))
    decreases |labels|
  {
    if labels != [] {
      var next := pos + 1 + |labels[0]|;
      StandsSplit(msg, pos, labels);
      GrownSplit(used, labels);
      StandingDecodes(msg, next, labels[1..], steps - 1, jumps, GrownBy(used, labels[0]));
      OneMoreDecodes(msg, pos, labels, steps, jumps, used, next);
    }
  }

  /** Expanded labels embedded anywhere decode to themselves within the budgets they need. */
  lemma ExpandedDecodes(pre: seq<Byte>, labels: seq<Label>, post: seq<Byte>, steps: nat, jumps: nat, used: nat)
    requires Sized(labels)
    requires |labels| < steps && (labels != [] ==> GrownByAll(used, labels) <= MAX_NAME)
    ensures Decode(pre + (Encode(labels) + post), |pre|, steps, jumps, used)
         == Success(Name(labels, |pre| + |Encode(labels)|))
  {
    EncodedStands(pre, labels, post);
    EncodedLength(labels);
    StandingDecodes(pre + (Encode(labels) + post), |pre|, labels, steps, jumps, used);
  }

  /** Whatever decodes at all is within the limits its expanded form needs. */
  lemma DecodedFits(msg: seq<Byte>, pos: nat)
    requires NameAt(msg, pos).Success?
    ensures var labels := NameAt(msg, pos).value.labels;
            Sized(labels) && |labels| < MAX_STEPS && (labels != [] ==> GrownByAll(0, labels) <= MAX_NAME)
  {
    EndsPastItsStart(msg, pos, MAX_STEPS, MAX_JUMPS, 0);
    var path := DecodeWalks(msg, pos, MAX_STEPS, MAX_JUMPS, 0);
    LengthOnWalk(msg, path);
    WalkReads(msg, path);
  }

  lemma AloneStands(labels: seq<Label>, msg: seq<Byte>)
    requires Sized(labels) && msg == Encode(labels)
    ensures StandsAt(msg, 0, labels) && |msg| == SpanOf(labels)
  {
    EncodedStands([], labels, []);
    EncodedLength(labels);
    assert [] + (msg + []) == msg;
  }

  lemma AloneDecodes(labels: seq<Label>, msg: seq<Byte>)
    requires StandsAt(msg, 0, labels) && |msg| == SpanOf(labels)
    requires |labels| < MAX_STEPS && (labels != [] ==> GrownByAll(0, labels) <= MAX_NAME)
    ensures NameAt(msg, 0) == Success(Name(labels, |msg|))
  {
    StandingDecodes(msg, 0, labels, MAX_STEPS, MAX_JUMPS, 0);
  }

  /** A compressed name and its fully expanded form decode to the same labels and the same string. */
  lemma CompressedIsExpanded(msg: seq<Byte>, pos: nat)
    requires NameAt(msg, pos).Success?
    ensures var labels := NameAt(msg, pos).value.labels;
            && Sized(labels)
            && NameAt(Encode(labels), 0) == Success(Name(labels, |Encode(labels)|))
  {
    DecodedFits(msg, pos);
    var labels := NameAt(msg, pos).value.labels;
    AloneStands(labels, Encode(labels));
    AloneDecodes(labels, Encode(labels));
  }

  // ---------------------------------------------------------------------------
  // Round trip through text
  // ---------------------------------------------------------------------------

  /** A label that the rendering neither alters nor confuses with its separators. */
  ghost predicate Plain(text: Label) {
    1 <= |text| <= 63 && forall i | 0 <= i < |text| :: IsPrintable(text[i]) && text[i] as char != '.'
  }

  ghost predicate AllPlain(labels: seq<Label>) {
    forall i | 0 <= i < |labels| :: Plain(labels[i])
  }

  lemma PlainIsSized(labels: seq<Label>)
    requires AllPlain(labels)
    ensures Sized(labels)
  {
    assert forall i | 0 <= i < |labels| :: Plain(labels[i]);
  }

  /** Where the first dot of a string is, or its length. */
  function FirstDot(s: string): (n: nat)
    ensures n <= |s| && (n < |s| ==> s[n] == '.')
    ensures forall i | 0 <= i < n :: s[i] != '.'
  {
    if s == "" || s[0] == '.' then 0 else 1 + FirstDot(s[1..])
  }

  function Split(s: string): seq<string>
    decreases |s|
  {
    var n := FirstDot(s);
    if n == |s| then (if s == "" then [] else [s]) else [s[..n]] + Split(s[n + 1..])
  }

  lemma FirstDotAfter(text: Label, tail: string)
    requires Plain(text)
    ensures FirstDot(Shown(text) + "." + tail) == |text|
    ensures FirstDot(Shown(text)) == |text|
  {
    var s := Shown(text) + "." + tail;
    assert s[|text|] == '.';
    assert forall i | 0 <= i < |text| :: s[i] == Shown(text)[i] == text[i] as char;
    assert FirstDot(s) >= |text|;
    assert FirstDot(s) <= |text|;
  }

  lemma SplitOne(text: Label, tail: string)
    requires Plain(text)
    ensures Split(Shown(text)) == [Shown(text)]
    ensures Split(Shown(text) + "." + tail) == [Shown(text)] + Split(tail)
  {
    FirstDotAfter(text, tail);
    var s := Shown(text) + "." + tail;
    assert s[..|text|] == Shown(text) && s[|text| + 1..] == tail;
  }

  /** Printable dot-free labels are recovered from the rendered name by splitting it at its dots. */
  lemma {:induction false} RenderSplits(labels: seq<Label>)
    requires AllPlain(labels)
    ensures |Split(Render(labels))| == |labels|
    ensures forall i | 0 <= i < |labels| :: Split(Render(labels))[i] == Shown(labels[i])
  {
    if labels != [] {
      var rest := labels[1..];
      assert Plain(labels[0]);
      SplitOne(labels[0], Render(rest));
      if rest != [] {
        RenderSplits(rest);
        assert forall i | 0 <= i < |rest| :: rest[i] == labels[i + 1];
        assert Split(Render(labels)) == [Shown(labels[0])] + Split(Render(rest));
      }
    }
  }

  lemma ShownInjective(text: Label, other: Label)
    requires Plain(text) && Plain(other) && Shown(text) == Shown(other)
    ensures text == other
  {
    forall i | 0 <= i < |text| ensures text[i] == other[i] {
      assert Shown(text)[i] == Shown(other)[i];
    }
  }

  /** Different printable dot-free label lists have different names. */
  lemma NamesTellLabelsApart(labels: seq<Label>, others: seq<Label>)
    requires AllPlain(labels) && AllPlain(others) && Render(labels) == Render(others)
    ensures labels == others
  {
    RenderSplits(labels);
    RenderSplits(others);
    forall i | 0 <= i < |labels| ensures labels[i] == others[i] {
      assert Plain(labels[i]) && Plain(others[i]);
      ShownInjective(labels[i], others[i]);
    }
  }

  /**
   Round trip: printable dot-free labels within the limits, encoded anywhere in a message, read
   back as their dotted name, which splits into those very labels, and the offset lands right
   after the encoding.
   */
  lemma PlainNamesRoundTrip(pre: seq<Byte>, labels: seq<Label>, post: seq<Byte>)
    requires AllPlain(labels)
    requires |labels| < MAX_STEPS && |Render(labels)| <= MAX_NAME
    ensures Sized(labels)
    ensures Finish("", None, NameAt(pre + (Encode(labels) + post), |pre|))
         == Success((Render(labels), |pre| + |Encode(labels)|))
  {
    PlainIsSized(labels);
    assert forall i | 0 <= i < |labels| :: labels[i] != [];
    AppendedAllRenders("", labels);
    RenderedLength("", labels);
    ExpandedDecodes(pre, labels, post, MAX_STEPS, MAX_JUMPS, 0);
  }
}
