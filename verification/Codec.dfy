/** The mutable cursor and the growing buffer that the decoders and encoders drive. */
module Codec {
  import opened Bytes

  /** What a read returns and where it leaves the cursor: behind the value, or where it was. */
  function Value<T>(r: Parsed<T>): Result<T, DecodeError> {
    if r.Success? then Success(r.value.0) else Failure(r.error)
  }

  function Left<T>(r: Parsed<T>, before: Bytes): Bytes {
    if r.Success? then r.value.1 else before
  }

  class Reader {
    const data: Bytes
    var pos: nat

    ghost predicate Valid()
      reads this
    {
      pos <= |data|
    }

    ghost function Rest(): Bytes
      requires Valid()
      reads this
    {
      data[pos..]
    }

    constructor (data: Bytes)
      ensures Valid() && Rest() == data && this.data == data
    {
      this.data := data;
      pos := 0;
    }

    method U8() returns (r: Result<byte, DecodeError>)
      requires Valid()
      modifies this
      ensures Valid() && r == Value(ReadU8(old(Rest()))) && Rest() == Left(ReadU8(old(Rest())), old(Rest()))
    {
      if pos >= |data| {
        return Failure(InvalidSerialization);
      }
      r := Success(data[pos]);
      pos := pos + 1;
    }

    method Fixed(n: nat) returns (r: Result<Bytes, DecodeError>)
      requires Valid()
      modifies this
      ensures Valid() && r == Value(ReadFixed(old(Rest()), n)) && Rest() == Left(ReadFixed(old(Rest()), n), old(Rest()))
    {
      if pos + n > |data| {
        return Failure(InvalidSerialization);
      }
      r := Success(data[pos..pos + n]);
      assert data[pos..][..n] == data[pos..pos + n] && data[pos..][n..] == data[pos + n..];
      pos := pos + n;
    }

    method U16() returns (r: Result<u16, DecodeError>)
      requires Valid()
      modifies this
      ensures Valid() && r == Value(ReadU16(old(Rest()))) && Rest() == Left(ReadU16(old(Rest())), old(Rest()))
    {
      var b :- Fixed(2);
      BeOfFromBe(b);
      Widths();
      r := Success(FromBe(b));
    }

    method U32() returns (r: Result<u32, DecodeError>)
      requires Valid()
      modifies this
      ensures Valid() && r == Value(ReadU32(old(Rest()))) && Rest() == Left(ReadU32(old(Rest())), old(Rest()))
    {
      var b :- Fixed(4);
      BeOfFromBe(b);
      Widths();
      r := Success(FromBe(b));
    }

    method U64() returns (r: Result<u64, DecodeError>)
      requires Valid()
      modifies this
      ensures Valid() && r == Value(ReadU64(old(Rest()))) && Rest() == Left(ReadU64(old(Rest())), old(Rest()))
    {
      var b :- Fixed(8);
      r := Success(FromU64(b));
    }

    method Bool() returns (r: Result<bool, DecodeError>)
      requires Valid()
      modifies this
      ensures Valid() && r == Value(ReadBool(old(Rest()))) && Rest() == Left(ReadBool(old(Rest())), old(Rest()))
    {
      var b :- U8();
      r := Success(b != 0);
    }

    method AtEnd() returns (b: bool)
      requires Valid()
      ensures b <==> Rest() == []
    {
      b := pos == |data|;
    }
  }

  /** A buffer that only grows. */
  class Writer {
    var buf: Bytes

    constructor ()
      ensures buf == []
    {
      buf := [];
    }

    method Put(bs: Bytes)
      modifies this
      ensures buf == old(buf) + bs
    {
      buf := buf + bs;
    }
  }

  /** A decoding method's result is the parser's, and on success the cursor stands behind the value. */
  ghost predicate Took<T(!new)>(v: Result<T, DecodeError>, r: Parsed<T>, rest: Bytes) {
    v == Value(r) && (v.Success? ==> rest == r.value.1)
  }
}
