/** The bounds-checked read cursor every dissector uses (`Cur` of rust/src/bytes.rs). */
module Cursor {
  import opened Errors
  import opened Integers
  import opened Wrappers

  function Value16(b: seq<Byte>): U16
    requires |b| == 2
  {
    b[0] as int * 0x100 + b[1] as int
  }

  function Value32(b: seq<Byte>): U32
    requires |b| == 4
  {
    Value16(b[..2]) as int * 0x1_0000 + Value16(b[2..]) as int
  }

  class Cur {
    const data: seq<Byte>
    var pos: nat

    predicate Valid()
      reads this
    {
      pos <= |data|
    }

    function Remaining(): nat
      reads this
      requires Valid()
    {
      |data| - pos
    }

    /** Everything not yet consumed. */
    function Rest(): seq<Byte>
      reads this
      requires Valid()
    {
      data[pos..]
    }

    constructor (data: seq<Byte>)
      ensures this.data == data && pos == 0 && Valid()
    {
      this.data := data;
      pos := 0;
    }

    method Take(n: nat) returns (r: DResult<seq<Byte>>)
      requires Valid()
      modifies this
      ensures Valid()
      ensures r == if old(Remaining()) < n then Failure(Truncated) else Success(old(Rest())[..n])
      ensures pos == if r.Success? then old(pos) + n else old(pos)
    {
      if Remaining() < n {
        return Failure(Truncated);
      }
      r := Success(data[pos..pos + n]);
      assert data[pos..pos + n] == data[pos..][..n];
      pos := pos + n;
    }

    method TakeRest() returns (r: seq<Byte>)
      requires Valid()
      modifies this
      ensures Valid() && pos == |data| && r == old(Rest())
    {
      r := data[pos..];
      pos := |data|;
    }

    method Skip(n: nat) returns (r: DResult<()>)
      requires Valid()
      modifies this
      ensures Valid()
      ensures r.Success? <==> n <= old(Remaining())
      ensures pos == if r.Success? then old(pos) + n else old(pos)
      ensures r.Failure? ==> r.error == Truncated
    {
      if Remaining() < n {
        return Failure(Truncated);
      }
      pos := pos + n;
      return Success(());
    }

    method U8() returns (r: DResult<Byte>)
      requires Valid()
      modifies this
      ensures Valid()
      ensures r == if old(Remaining()) < 1 then Failure(Truncated) else Success(old(Rest())[0])
      ensures pos == if r.Success? then old(pos) + 1 else old(pos)
    {
      if Remaining() < 1 {
        return Failure(Truncated);
      }
      r := Success(data[pos]);
      pos := pos + 1;
    }

    method PeekU8() returns (r: DResult<Byte>)
      requires Valid()
      ensures r == if Remaining() < 1 then Failure(Truncated) else Success(Rest()[0])
    {
      return if Remaining() < 1 then Failure(Truncated) else Success(data[pos]);
    }

    method Peek(n: nat) returns (r: Option<seq<Byte>>)
      requires Valid()
      ensures r == if Remaining() < n then None else Some(Rest()[..n])
    {
      if Remaining() < n {
        return None;
      }
      assert data[pos..pos + n] == data[pos..][..n];
      return Some(data[pos..pos + n]);
    }

    method Be16() returns (r: DResult<U16>)
      requires Valid()
      modifies this
      ensures Valid()
      ensures r == if old(Remaining()) < 2 then Failure(Truncated) else Success(Value16(old(Rest())[..2]))
      ensures pos == if r.Success? then old(pos) + 2 else old(pos)
    {
      var b :- Take(2);
      return Success(Value16(b));
    }

    method Be32() returns (r: DResult<U32>)
      requires Valid()
      modifies this
      ensures Valid()
      ensures r == if old(Remaining()) < 4 then Failure(Truncated) else Success(Value32(old(Rest())[..4]))
      ensures pos == if r.Success? then old(pos) + 4 else old(pos)
    {
      var b :- Take(4);
      return Success(Value32(b));
    }
  }
}
