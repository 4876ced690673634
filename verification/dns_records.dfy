/**
 The question and record loops of `parse` in rust/src/dissect/app/dns.rs, which advance through a
 message by what `read_name` returns. Rendering of individual record types is not modelled.
 */
module DnsRecords {
  import opened DnsNames
  import opened Errors
  import opened Integers
  import opened Wrappers

  const MAX_QUESTIONS: nat := 8
  const MAX_RECORDS: nat := 64

  datatype Question = Question(name: string, qtype: U16, qclass: U16, end: nat)

  datatype Record = Record(name: string, rtype: U16, ttl: U32, rdata: nat, end: nat)

  function Be16(msg: seq<Byte>, pos: nat): U16
    requires pos + 2 <= |msg|
  {
    msg[pos] as int * 0x100 + msg[pos + 1] as int
  }

  function Be32(msg: seq<Byte>, pos: nat): U32
    requires pos + 4 <= |msg|
  {
    Be16(msg, pos) as int * 0x1_0000 + Be16(msg, pos + 2) as int
  }

  function ReadNameAt(msg: seq<Byte>, pos: nat): DResult<(string, nat)> {
    Finish("", None, NameAt(msg, pos))
  }

  function QuestionAt(msg: seq<Byte>, pos: nat): DResult<Question> {
    var (name, next) :- ReadNameAt(msg, pos);
    if next + 4 > |msg| then Failure(Truncated)
    else Success(Question(name, Be16(msg, next), Be16(msg, next + 2), next + 4))
  }

  function RecordAt(msg: seq<Byte>, pos: nat): Option<Record> {
    match ReadNameAt(msg, pos)
    case Failure(_) => None
    case Success((name, next)) =>
      if next + 10 > |msg| then None
      else
        var rdata := next + 10;
        var end := rdata + Be16(msg, next + 8);
        if end > |msg| then None else Some(Record(name, Be16(msg, next), Be32(msg, next + 4), rdata, end))
  }

  function RecordReader(msg: seq<Byte>): nat -> Option<Record> {
    (pos: nat) => RecordAt(msg, pos)
  }

  function QuestionReader(msg: seq<Byte>): nat -> Option<Question> {
    (pos: nat) => match QuestionAt(msg, pos)
      case Success(q) => Some(q)
      case Failure(_) => None
  }

  /** Where item `i` starts: at `pos`, or where the item before it ended. */
  function StartOf<T>(end: T -> nat, pos: nat, items: seq<T>, i: nat): nat
    requires i <= |items|
  {
    if i == 0 then pos else end(items[i - 1])
  }

  /** Each item is read where the one before it ended. */
  ghost predicate Chained<T>(read: nat -> Option<T>, end: T -> nat, pos: nat, items: seq<T>) {
    forall i | 0 <= i < |items| :: read(StartOf(end, pos, items, i)) == Some(items[i])
  }

  lemma ChainGrows<T>(read: nat -> Option<T>, end: T -> nat, pos: nat, items: seq<T>, x: T)
    requires Chained(read, end, pos, items) && read(StartOf(end, pos, items, |items|)) == Some(x)
    ensures Chained(read, end, pos, items + [x]) && StartOf(end, pos, items + [x], |items| + 1) == end(x)
  {
    var all := items + [x];
    forall i | 0 <= i < |all| ensures read(StartOf(end, pos, all, i)) == Some(all[i]) {
      assert StartOf(end, pos, all, i) == StartOf(end, pos, items, i);
    }
  }

  lemma RecordAdvances(msg: seq<Byte>, pos: nat)
    ensures var r := RecordAt(msg, pos);
            r.Some? ==> pos + 10 < r.value.rdata <= r.value.end <= |msg|
  {
    EndsPastItsStart(msg, pos, MAX_STEPS, MAX_JUMPS, 0);
  }

  lemma QuestionAdvances(msg: seq<Byte>, pos: nat)
    ensures var q := QuestionAt(msg, pos);
            q.Success? ==> pos + 4 < q.value.end <= |msg|
  {
    EndsPastItsStart(msg, pos, MAX_STEPS, MAX_JUMPS, 0);
  }

  function RecordEnd(r: Record): nat {
    r.end
  }

  function QuestionEnd(q: Question): nat {
    q.end
  }

  /** In a chain, records follow one another without overlap, all inside the message. */
  lemma ChainAdvances(msg: seq<Byte>, pos: nat, rs: seq<Record>, i: nat)
    requires Chained(RecordReader(msg), RecordEnd, pos, rs) && i < |rs|
    ensures StartOf(RecordEnd, pos, rs, i) + 10 < rs[i].rdata <= rs[i].end <= |msg|
  {
    RecordAdvances(msg, StartOf(RecordEnd, pos, rs, i));
    assert RecordReader(msg)(StartOf(RecordEnd, pos, rs, i)) == Some(rs[i]);
  }

  /** So do questions. */
  lemma QuestionsAdvance(msg: seq<Byte>, pos: nat, qs: seq<Question>, i: nat)
    requires Chained(QuestionReader(msg), QuestionEnd, pos, qs) && i < |qs|
    ensures StartOf(QuestionEnd, pos, qs, i) + 4 < qs[i].end <= |msg|
  {
    QuestionAdvances(msg, StartOf(QuestionEnd, pos, qs, i));
    assert QuestionReader(msg)(StartOf(QuestionEnd, pos, qs, i)) == Some(qs[i]);
  }

  /** The longest chain of well-formed records, at most 64 and at most the announced number. */
  method ParseRecords(msg: seq<Byte>, start: nat, total: nat) returns (rs: seq<Record>)
    ensures Chained(RecordReader(msg), RecordEnd, start, rs)
    ensures |rs| == Min(total, MAX_RECORDS) ||
            (|rs| < Min(total, MAX_RECORDS) && RecordAt(msg, StartOf(RecordEnd, start, rs, |rs|)) == None)
  {
    rs := [];
    var pos := start;
    var read := RecordReader(msg);
    for n := 0 to Min(total, MAX_RECORDS)
      invariant |rs| == n && pos == StartOf(RecordEnd, start, rs, n)
      invariant Chained(read, RecordEnd, start, rs)
    {
      var r := read(pos);
      if r.None? {
        return;
      }
      ChainGrows(read, RecordEnd, start, rs, r.value);
      rs := rs + [r.value];
      pos := r.value.end;
    }
  }

  /** Up to eight questions from offset 12; the first malformed one fails the message. */
  method ParseQuestions(msg: seq<Byte>, count: nat) returns (qs: seq<Question>, failed: Option<DissectError>)
    ensures Chained(QuestionReader(msg), QuestionEnd, 12, qs)
    ensures failed.None? ==> |qs| == Min(count, MAX_QUESTIONS)
    ensures failed.Some? ==>
              && |qs| < Min(count, MAX_QUESTIONS)
              && QuestionAt(msg, StartOf(QuestionEnd, 12, qs, |qs|)) == Failure(failed.value)
  {
    qs := [];
    failed := None;
    var pos := 12;
    for n := 0 to Min(count, MAX_QUESTIONS)
      invariant |qs| == n && pos == StartOf(QuestionEnd, 12, qs, n)
      invariant Chained(QuestionReader(msg), QuestionEnd, 12, qs)
    {
      var q := QuestionAt(msg, pos);
      if q.Failure? {
        failed := Some(q.error);
        return;
      }
      ChainGrows(QuestionReader(msg), QuestionEnd, 12, qs, q.value);
      qs := qs + [q.value];
      pos := q.value.end;
    }
  }

  // ---------------------------------------------------------------------------
  // A message of plain records reads back as it was written
  // ---------------------------------------------------------------------------

  datatype Written = Written(owner: seq<Label>, rtype: U16, rclass: U16, ttl: U32, rdata: seq<Byte>)

  ghost predicate Writable(w: Written) {
    && AllPlain(w.owner)
    && |w.owner| < MAX_STEPS && |Render(w.owner)| <= MAX_NAME
    && |w.rdata| < 0x1_0000
  }

  function Octets2(x: U16): seq<Byte> {
    [x as int / 0x100, x as int % 0x100]
  }

  function Octets4(x: U32): seq<Byte> {
    Octets2(x as int / 0x1_0000) + Octets2(x as int % 0x1_0000)
  }

  function Fixed(w: Written): seq<Byte>
    requires |w.rdata| < 0x1_0000
  {
    Octets2(w.rtype) + Octets2(w.rclass) + Octets4(w.ttl) + Octets2(|w.rdata|)
  }

  function Write(w: Written): seq<Byte>
    requires Sized(w.owner) && |w.rdata| < 0x1_0000
  {
    Encode(w.owner) + (Fixed(w) + w.rdata)
  }

  lemma FixedReads(pre: seq<Byte>, w: Written, post: seq<Byte>)
    requires |w.rdata| < 0x1_0000
    ensures var msg := pre + (Fixed(w) + post);
            && Be16(msg, |pre|) == w.rtype
            && Be32(msg, |pre| + 4) == w.ttl
            && Be16(msg, |pre| + 8) == |w.rdata|
  {
    var f := Fixed(w);
    assert |f| == 10;
    var msg := pre + (f + post);
    assert forall i | 0 <= i < 10 :: msg[|pre| + i] == f[i];
    assert f[0] == Octets2(w.rtype)[0] && f[1] == Octets2(w.rtype)[1];
    assert forall i | 0 <= i < 4 :: f[4 + i] == Octets4(w.ttl)[i];
    assert f[8] == Octets2(|w.rdata|)[0] && f[9] == Octets2(|w.rdata|)[1];
  }

  lemma WrittenLayout(pre: seq<Byte>, w: Written, post: seq<Byte>)
    requires Sized(w.owner) && |w.rdata| < 0x1_0000
    ensures var name, fixed := Encode(w.owner), Fixed(w);
            var msg := pre + (Write(w) + post);
            && msg == pre + (name + (fixed + w.rdata + post))
            && msg == (pre + name) + (fixed + (w.rdata + post))
            && msg == (pre + name + fixed) + w.rdata + post
  {
  }

  /** A written record, anywhere in a message, reads back with its name, type, ttl and data. */
  lemma WrittenReads(pre: seq<Byte>, w: Written, post: seq<Byte>)
    requires Writable(w)
    ensures Sized(w.owner)
    ensures var end := |pre| + |Write(w)|;
            RecordAt(pre + (Write(w) + post), |pre|)
              == Some(Record(Render(w.owner), w.rtype, w.ttl, end - |w.rdata|, end))
    ensures (pre + (Write(w) + post))[|pre| + |Write(w)| - |w.rdata|..|pre| + |Write(w)|] == w.rdata
  {
    PlainIsSized(w.owner);
    WrittenLayout(pre, w, post);
    PlainNamesRoundTrip(pre, w.owner, Fixed(w) + w.rdata + post);
    FixedReads(pre + Encode(w.owner), w, w.rdata + post);
  }
}
