/** Bytes, results, little-endian numbers and the read cursor that all wire formats share. */
module Bytes {
  type Byte = x: int | 0 <= x < 256

  datatype ProtocolError = Io | InvalidAddressType(code: Byte) | InvalidMessageType(code: Byte) | InvalidData

  datatype Result<+T> = Ok(value: T) | Err(error: ProtocolError) {
    predicate IsFailure() {
      Err?
    }

    function PropagateFailure<U>(): Result<U>
      requires Err?
    {
      Err(error)
    }

    function Extract(): T
      requires Ok?
    {
      value
    }
  }

  const U32_LIMIT: int := 0x1_0000_0000
  const U64_LIMIT: int := 0x1_0000_0000_0000_0000

  type U16 = x: int | 0 <= x < 0x1_0000
  type U64 = x: int | 0 <= x < U64_LIMIT

  /** What a cast to an unsigned 32-bit integer keeps. */
  function AsU32(n: nat): nat {
    n % U32_LIMIT
  }

  function LittleEndian(n: nat, width: nat): (b: seq<Byte>)
    ensures |b| == width
  {
    if width == 0 then [] else [n % 256] + LittleEndian(n / 256, width - 1)
  }

  function FromLittleEndian(b: seq<Byte>): nat {
    if b == [] then 0 else b[0] + 256 * FromLittleEndian(b[1..])
  }

  function Values(width: nat): nat {
    if width == 0 then 1 else 256 * Values(width - 1)
  }

  lemma {:induction false} NumberRoundTrip(n: nat, width: nat)
    requires n < Values(width)
    ensures FromLittleEndian(LittleEndian(n, width)) == n
  {
    if width > 0 {
      NumberRoundTrip(n / 256, width - 1);
      assert LittleEndian(n, width)[1..] == LittleEndian(n / 256, width - 1);
    }
  }

  lemma {:induction false} BytesRoundTrip(b: seq<Byte>)
    ensures FromLittleEndian(b) < Values(|b|)
    ensures LittleEndian(FromLittleEndian(b), |b|) == b
  {
    if b != [] {
      BytesRoundTrip(b[1..]);
      LowDigit(b[0], FromLittleEndian(b[1..]));
      assert b == [b[0]] + b[1..];
    }
  }

  lemma LowDigit(d: Byte, q: nat)
    ensures (d + 256 * q) % 256 == d && (d + 256 * q) / 256 == q
  {}

  lemma Widths()
    ensures Values(2) == 0x1_0000 && Values(4) == U32_LIMIT && Values(8) == U64_LIMIT
  {
    assert Values(1) == 256;
    assert Values(3) == 256 * Values(2);
    assert Values(5) == 256 * Values(4);
    assert Values(6) == 256 * Values(5);
    assert Values(7) == 256 * Values(6);
  }

  /** The first n bytes and what follows them, or an error when there are fewer. */
  function Take(b: seq<Byte>, n: nat): Result<(seq<Byte>, seq<Byte>)> {
    if n <= |b| then Ok((b[..n], b[n..])) else Err(Io)
  }

  /** A fixed-width number and what follows it. */
  function TakeNumber(b: seq<Byte>, width: nat): Result<(nat, seq<Byte>)> {
    var (digits, rest) :- Take(b, width);
    Ok((FromLittleEndian(digits), rest))
  }

  lemma Reassociate<T>(a: seq<T>, b: seq<T>, c: seq<T>)
    ensures (a + b) + c == a + (b + c)
  {}

  /** Appending one by one. */
  lemma Appended<T>(s: seq<T>, a: seq<T>, b: seq<T>, c: seq<T>)
    ensures ((s + a) + b) + c == s + (a + (b + c))
  {}

  lemma TakeFrom(a: seq<Byte>, rest: seq<Byte>)
    ensures Take(a + rest, |a|) == Ok((a, rest))
  {}

  lemma TakeNumberFrom(n: nat, width: nat, rest: seq<Byte>)
    requires n < Values(width)
    ensures TakeNumber(LittleEndian(n, width) + rest, width) == Ok((n, rest))
  {
    TakeFrom(LittleEndian(n, width), rest);
    NumberRoundTrip(n, width);
  }

  /** A number read and written again gives the same bytes. */
  lemma NumberJoins(b: seq<Byte>, width: nat)
    requires TakeNumber(b, width).Ok?
    ensures LittleEndian(TakeNumber(b, width).value.0, width) + TakeNumber(b, width).value.1 == b
  {
    BytesRoundTrip(b[..width]);
  }

  lemma NumberInRange(b: seq<Byte>, width: nat)
    requires TakeNumber(b, width).Ok?
    ensures TakeNumber(b, width).value.0 < Values(width)
  {
    BytesRoundTrip(b[..width]);
  }

  /** Reads a byte string front to back. */
  class Cursor {
    const data: seq<Byte>
    var position: nat

    ghost predicate Valid()
      reads this
    {
      position <= |data|
    }

    /** What has not been read yet. */
    ghost function Rest(): seq<Byte>
      requires Valid()
      reads this
    {
      data[position..]
    }

    constructor (data: seq<Byte>)
      ensures Valid() && this.data == data && Rest() == data
    {
      this.data := data;
      position := 0;
    }

    method ReadExact(n: nat) returns (r: Result<seq<Byte>>)
      requires Valid()
      modifies this
      ensures Valid()
      ensures match Take(old(Rest()), n)
              case Ok((bytes, rest)) => r == Ok(bytes) && Rest() == rest
              case Err(e) => r == Err(e)
    {
      if |data| - position < n {
        return Err(Io);
      }
      assert data[position..position + n] == Rest()[..n];
      r := Ok(data[position..position + n]);
      position := position + n;
    }

    method ReadNumber(width: nat) returns (r: Result<nat>)
      requires Valid()
      modifies this
      ensures Valid()
      ensures match TakeNumber(old(Rest()), width)
              case Ok((n, rest)) => r == Ok(n) && Rest() == rest && n < Values(width)
              case Err(e) => r == Err(e)
    {
      var digits :- ReadExact(width);
      BytesRoundTrip(digits);
      r := Ok(FromLittleEndian(digits));
    }
  }
}
