/** Reading and writing of fixed-width big-endian integers and flags, as `commonware_codec` does it. */
module Bytes {
  import opened Prelude

  type byte = x: nat | x < 256 witness 0

  type Buf = seq<byte>

  datatype Error =
    | EndOfBuffer
    | InvalidBool
    | InvalidKey
    | TooLong
    | InvalidUtf8
    | ExtraData(remaining: nat)

  /** A value and what is left of the buffer. */
  datatype Read<T> = Read(value: T, rest: Buf)

  const U32_LIMIT: nat := 0x1_0000_0000

  function Pow256(w: nat): (r: nat)
    ensures r > 0
  {
    if w == 0 then 1 else 256 * Pow256(w - 1)
  }

  lemma Widths()
    ensures Pow256(1) == 256 && Pow256(4) == U32_LIMIT && Pow256(8) == U64_MAX + 1
  {
    assert Pow256(2) == 256 * 256;
    assert Pow256(4) == 256 * 256 * Pow256(2);
    assert Pow256(6) == 256 * 256 * Pow256(4);
    assert Pow256(8) == 256 * 256 * Pow256(6);
  }

  /** The low `w` bytes of `n`, most significant first. */
  function Be(n: nat, w: nat): (r: Buf)
    ensures |r| == w
  {
    if w == 0 then [] else Be(n / 256, w - 1) + [n % 256]
  }

  function FromBe(bs: Buf): (r: nat)
    ensures r < Pow256(|bs|)
  {
    if bs == [] then 0 else FromBe(bs[..|bs| - 1]) * 256 + bs[|bs| - 1]
  }

  lemma {:induction false} IntRoundTrips(n: nat, w: nat)
    requires n < Pow256(w)
    ensures FromBe(Be(n, w)) == n
  {
    if w > 0 {
      IntRoundTrips(n / 256, w - 1);
      assert Be(n, w)[..w - 1] == Be(n / 256, w - 1);
    }
  }

  lemma {:induction false} BytesRoundTrip(bs: Buf)
    ensures Be(FromBe(bs), |bs|) == bs
  {
    if bs != [] {
      BytesRoundTrip(bs[..|bs| - 1]);
    }
  }

  function ReadInt(bs: Buf, w: nat): (r: Result<Read<nat>, Error>)
    ensures r.Ok? ==> r.value.value < Pow256(w)
  {
    if |bs| < w then Err(EndOfBuffer) else Ok(Read(FromBe(bs[..w]), bs[w..]))
  }

  function ReadBool(bs: Buf): Result<Read<bool>, Error> {
    if bs == [] then Err(EndOfBuffer)
    else if bs[0] > 1 then Err(InvalidBool)
    else Ok(Read(bs[0] == 1, bs[1..]))
  }

  function BoolByte(b: bool): Buf {
    if b then [1] else [0]
  }

  /** What is written is what is read back, with the rest of the buffer untouched. */
  lemma ReadsInt(n: nat, w: nat, rest: Buf)
    requires n < Pow256(w)
    ensures ReadInt(Be(n, w) + rest, w) == Ok(Read(n, rest))
  {
    IntRoundTrips(n, w);
    assert (Be(n, w) + rest)[..w] == Be(n, w) && (Be(n, w) + rest)[w..] == rest;
  }

  /** What is read is what would be written. */
  lemma CameFromInt(bs: Buf, w: nat)
    requires ReadInt(bs, w).Ok?
    ensures bs == Be(ReadInt(bs, w).value.value, w) + ReadInt(bs, w).value.rest
  {
    BytesRoundTrip(bs[..w]);
  }

  lemma ReadsBool(b: bool, rest: Buf)
    ensures ReadBool(BoolByte(b) + rest) == Ok(Read(b, rest))
  {
    assert (BoolByte(b) + rest)[1..] == rest;
  }

  lemma CameFromBool(bs: Buf)
    requires ReadBool(bs).Ok?
    ensures bs == BoolByte(ReadBool(bs).value.value) + ReadBool(bs).value.rest
  {
  }

  /** A decoder accepts a value only when nothing is left over. */
  function Whole<T>(r: Result<Read<T>, Error>): Result<T, Error> {
    if r.Err? then Err(r.error)
    else if r.value.rest != [] then Err(ExtraData(|r.value.rest|))
    else Ok(r.value.value)
  }

  /** A buffer being read front to back. */
  class Reader {
    var rest: Buf

    constructor (bs: Buf)
      ensures rest == bs
    {
      rest := bs;
    }

    method Int(w: nat) returns (r: Result<nat, Error>)
      modifies this
      ensures
        match ReadInt(old(rest), w)
        case Ok(read) => r == Ok(read.value) && rest == read.rest
        case Err(e) => r == Err(e)
    {
      if |rest| < w {
        return Err(EndOfBuffer);
      }
      r := Ok(FromBe(rest[..w]));
      rest := rest[w..];
    }

    method Bool() returns (r: Result<bool, Error>)
      modifies this
      ensures
        match ReadBool(old(rest))
        case Ok(read) => r == Ok(read.value) && rest == read.rest
        case Err(e) => r == Err(e)
    {
      if rest == [] {
        return Err(EndOfBuffer);
      }
      if rest[0] > 1 {
        return Err(InvalidBool);
      }
      r := Ok(rest[0] == 1);
      rest := rest[1..];
    }
  }
}
