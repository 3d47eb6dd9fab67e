/** The data section both message formats share: a compression flag, two lengths and the bytes on the wire. */
module Payloads {
  import opened Bytes
  import opened Options

  const COMPRESSION_THRESHOLD: nat := 128

  /** The compression library: either direction may fail. */
  datatype Zstd = Zstd(encode: seq<Byte> -> Option<seq<Byte>>, decode: seq<Byte> -> Option<seq<Byte>>) {
    /** All that is asked of it: what it compresses it can restore. */
    ghost predicate Lawful() {
      forall x :: encode(x).Some? ==> decode(encode(x).value) == Some(x)
    }
  }

  /** Compression is used when asked for, for more than 128 bytes, and only if it saves something. */
  predicate Compresses(z: Zstd, data: seq<Byte>, requested: bool) {
    requested && |data| > COMPRESSION_THRESHOLD && z.encode(data).Some? && |z.encode(data).value| < |data|
  }

  function OnWire(z: Zstd, data: seq<Byte>, requested: bool): seq<Byte> {
    if Compresses(z, data, requested) then z.encode(data).value else data
  }

  function Pack(z: Zstd, data: seq<Byte>, requested: bool): seq<Byte> {
    [if Compresses(z, data, requested) then 0x01 else 0x00]
    + (LittleEndian(AsU32(|data|), 4)
       + (LittleEndian(AsU32(|OnWire(z, data, requested)|), 4)
          + OnWire(z, data, requested)))
  }

  function Unpack(z: Zstd, b: seq<Byte>): Result<((seq<Byte>, bool), seq<Byte>)> {
    var (flag, b1) :- Take(b, 1);
    var (originalLength, b2) :- TakeNumber(b1, 4);
    var (actualLength, b3) :- TakeNumber(b2, 4);
    var (wire, rest) :- Take(b3, actualLength);
    if flag[0] == 0x01 then
      (match z.decode(wire)
       case None => Err(InvalidData)
       case Some(data) => if |data| != originalLength then Err(InvalidData) else Ok(((data, true), rest)))
    else if |wire| != originalLength then Err(InvalidData)
    else Ok(((wire, false), rest))
  }

  method PackInto(z: Zstd, data: seq<Byte>, requested: bool, buf: seq<Byte>) returns (out: seq<Byte>)
    ensures out == buf + Pack(z, data, requested)
  {
    var finalData, isCompressed := data, false;
    if requested && |data| > COMPRESSION_THRESHOLD {
      match z.encode(data) {
        case Some(compressed) =>
          if |compressed| < |data| {
            finalData, isCompressed := compressed, true;
          }
        case None =>
      }
    }
    out := buf + [if isCompressed then 0x01 else 0x00];
    out := out + LittleEndian(AsU32(|data|), 4);
    out := out + LittleEndian(AsU32(|finalData|), 4);
    out := out + finalData;
  }

  method UnpackFrom(z: Zstd, cursor: Cursor) returns (r: Result<(seq<Byte>, bool)>)
    requires cursor.Valid()
    modifies cursor
    ensures cursor.Valid()
    ensures match Unpack(z, old(cursor.Rest()))
            case Ok((p, rest)) => r == Ok(p) && cursor.Rest() == rest
            case Err(e) => r == Err(e)
  {
    var flag :- cursor.ReadExact(1);
    var isCompressed := flag[0] == 0x01;
    var originalLength :- cursor.ReadNumber(4);
    var actualLength :- cursor.ReadNumber(4);
    var wire :- cursor.ReadExact(actualLength);
    var data := wire;
    if isCompressed {
      match z.decode(wire) {
        case None => return Err(InvalidData);
        case Some(d) => data := d;
      }
    }
    if |data| != originalLength {
      return Err(InvalidData);
    }
    return Ok((data, isCompressed));
  }

  lemma Regroup(a: seq<Byte>, b: seq<Byte>, c: seq<Byte>, d: seq<Byte>, e: seq<Byte>)
    ensures (a + (b + (c + d))) + e == a + (b + (c + (d + e)))
  {}

  /** How a well-formed section is read. */
  lemma UnpackSection(z: Zstd, flag: Byte, length: nat, wire: seq<Byte>, rest: seq<Byte>)
    requires length < Values(4) && |wire| < Values(4)
    ensures Unpack(z, [flag] + (LittleEndian(length, 4) + (LittleEndian(|wire|, 4) + (wire + rest)))) ==
            if flag == 0x01 then
              (match z.decode(wire)
               case None => Err(InvalidData)
               case Some(data) => if |data| != length then Err(InvalidData) else Ok(((data, true), rest)))
            else if |wire| != length then Err(InvalidData)
            else Ok(((wire, false), rest))
  {
    var b3 := wire + rest;
    var b2 := LittleEndian(|wire|, 4) + b3;
    TakeFrom([flag], LittleEndian(length, 4) + b2);
    TakeNumberFrom(length, 4, b2);
    TakeNumberFrom(|wire|, 4, b3);
    TakeFrom(wire, rest);
  }

  lemma PackShape(z: Zstd, data: seq<Byte>, requested: bool, rest: seq<Byte>)
    requires |data| < U32_LIMIT
    ensures var wire := OnWire(z, data, requested);
            Pack(z, data, requested) + rest ==
            [if Compresses(z, data, requested) then 0x01 else 0x00]
            + (LittleEndian(|data|, 4) + (LittleEndian(|wire|, 4) + (wire + rest)))
  {
    var wire := OnWire(z, data, requested);
    assert AsU32(|data|) == |data| && AsU32(|wire|) == |wire|;
    Regroup([if Compresses(z, data, requested) then 0x01 else 0x00],
            LittleEndian(|data|, 4), LittleEndian(|wire|, 4), wire, rest);
  }

  /** Data shorter than 2^32 bytes comes back, with the flag saying what was done to it. */
  lemma PackRoundTrip(z: Zstd, data: seq<Byte>, requested: bool, rest: seq<Byte>)
    requires z.Lawful() && |data| < U32_LIMIT
    ensures Unpack(z, Pack(z, data, requested) + rest) == Ok(((data, Compresses(z, data, requested)), rest))
  {
    var wire := OnWire(z, data, requested);
    PackShape(z, data, requested, rest);
    assert |wire| <= |data| < Values(4) by {
      Widths();
    }
    UnpackSection(z, if Compresses(z, data, requested) then 0x01 else 0x00, |data|, wire, rest);
  }

  /** Longer data is refused even if it is compressed to less. */
  lemma LongIsRefused(z: Zstd, data: seq<Byte>, requested: bool, rest: seq<Byte>)
    requires z.Lawful() && |data| >= U32_LIMIT && |Pack(z, data, requested)| < U32_LIMIT
    ensures Unpack(z, Pack(z, data, requested) + rest).Err?
  {
    var wire := OnWire(z, data, requested);
    assert |wire| < U32_LIMIT && Compresses(z, data, requested) && AsU32(|wire|) == |wire|;
    Widths();
    Regroup([0x01], LittleEndian(AsU32(|data|), 4), LittleEndian(|wire|, 4), wire, rest);
    UnpackSection(z, 0x01, AsU32(|data|), wire, rest);
  }

  /** Nothing of 2^32 bytes or more is ever read. */
  lemma UnpackedIsShort(z: Zstd, b: seq<Byte>)
    requires Unpack(z, b).Ok?
    ensures |Unpack(z, b).value.0.0| < U32_LIMIT
    ensures |Unpack(z, b).value.1| < |b|
  {
    Widths();
    var (flag, b1) := Take(b, 1).value;
    NumberInRange(b1, 4);
  }

  /** What is read does not depend on what follows it. */
  lemma UnpackExtends(z: Zstd, b: seq<Byte>, more: seq<Byte>)
    requires Unpack(z, b).Ok?
    ensures Unpack(z, b + more) == Ok((Unpack(z, b).value.0, Unpack(z, b).value.1 + more))
  {
    var b1 := b[1..];
    TakeExtends(b, 1, more);
    TakeExtends(b1, 4, more);
    TakeExtends(b1[4..], 4, more);
    TakeExtends(b1[4..][4..], FromLittleEndian(b1[4..][..4]), more);
  }

  lemma TakeExtends(b: seq<Byte>, n: nat, more: seq<Byte>)
    requires n <= |b|
    ensures (b + more)[..n] == b[..n] && (b + more)[n..] == b[n..] + more
  {}

  // When re-encoding gives the bytes that were read.

  /** A section's flag, announced data length, bytes on the wire and what follows it. */
  function Section(b: seq<Byte>): Result<(Byte, nat, seq<Byte>, seq<Byte>)> {
    var (flag, b1) :- Take(b, 1);
    var (originalLength, b2) :- TakeNumber(b1, 4);
    var (actualLength, b3) :- TakeNumber(b2, 4);
    var (wire, rest) :- Take(b3, actualLength);
    Ok((flag[0], originalLength, wire, rest))
  }

  /** Raw and flagged 0x00, or compressed just as the encoder would compress it. */
  predicate CanonicalSection(z: Zstd, b: seq<Byte>) {
    match Section(b)
    case Err(_) => false
    case Ok((flag, length, wire, _)) =>
      flag == 0x00
      || (flag == 0x01 && length > COMPRESSION_THRESHOLD && |wire| < length
          && z.decode(wire).Some? && z.encode(z.decode(wire).value) == Some(wire))
  }

  lemma SectionJoins(b: seq<Byte>)
    requires Section(b).Ok?
    ensures var (flag, length, wire, rest) := Section(b).value;
            && length < U32_LIMIT
            && b == [flag] + (LittleEndian(length, 4) + (LittleEndian(|wire|, 4) + (wire + rest)))
  {
    var flag, b1 := TakeApart(b, 1);
    var length, b2 := NumberApart(b1, 4);
    var actual, b3 := NumberApart(b2, 4);
    var wire, rest := TakeApart(b3, actual);
    Widths();
    assert flag == [flag[0]];
  }

  lemma TakeApart(b: seq<Byte>, n: nat) returns (a: seq<Byte>, rest: seq<Byte>)
    requires Take(b, n).Ok?
    ensures Take(b, n) == Ok((a, rest)) && b == a + rest && |a| == n
  {
    a, rest := b[..n], b[n..];
  }

  lemma NumberApart(b: seq<Byte>, width: nat) returns (n: nat, rest: seq<Byte>)
    requires TakeNumber(b, width).Ok?
    ensures TakeNumber(b, width) == Ok((n, rest)) && b == LittleEndian(n, width) + rest && n < Values(width)
  {
    n, rest := TakeNumber(b, width).value.0, TakeNumber(b, width).value.1;
    NumberInRange(b, width);
    NumberJoins(b, width);
  }

  lemma UnpackedSection(z: Zstd, b: seq<Byte>)
    requires Unpack(z, b).Ok?
    ensures Section(b).Ok?
    ensures var ((data, compressed), rest) := Unpack(z, b).value; var (flag, length, wire, rest') := Section(b).value;
            && rest' == rest && |data| == length && compressed == (flag == 0x01)
            && (if compressed then z.decode(wire) == Some(data) else wire == data)
  {}

  /** Packing what was unpacked gives the same section if and only if the section was canonical. */
  lemma PackCanonical(z: Zstd, b: seq<Byte>)
    requires Unpack(z, b).Ok?
    ensures var ((data, compressed), rest) := Unpack(z, b).value;
            Pack(z, data, compressed) + rest == b <==> CanonicalSection(z, b)
  {
    var ((data, compressed), rest) := Unpack(z, b).value;
    var (flag, length, wire, _) := Section(b).value;
    UnpackedSection(z, b);
    SectionJoins(b);
    PackShape(z, data, compressed, rest);
    var packed := OnWire(z, data, compressed);
    if Pack(z, data, compressed) + rest == b {
      SameWire([if Compresses(z, data, compressed) then 0x01 else 0x00], [flag], length, packed, wire, rest);
    }
  }

  lemma SameWire(f: seq<Byte>, f': seq<Byte>, length: nat, wire: seq<Byte>, wire': seq<Byte>, rest: seq<Byte>)
    requires |f| == |f'| == 1
    requires f + (LittleEndian(length, 4) + (LittleEndian(|wire|, 4) + (wire + rest)))
          == f' + (LittleEndian(length, 4) + (LittleEndian(|wire'|, 4) + (wire' + rest)))
    ensures f == f' && wire == wire'
  {
    var two, two' := LittleEndian(|wire|, 4) + (wire + rest), LittleEndian(|wire'|, 4) + (wire' + rest);
    SameParts(f, f', LittleEndian(length, 4) + two, LittleEndian(length, 4) + two');
    SameParts(LittleEndian(length, 4), LittleEndian(length, 4), two, two');
    SameParts(LittleEndian(|wire|, 4), LittleEndian(|wire'|, 4), wire + rest, wire' + rest);
    assert |wire| == |wire + rest| - |rest| == |wire'|;
    SameParts(wire, wire', rest, rest);
  }

  lemma SameParts(a: seq<Byte>, a': seq<Byte>, x: seq<Byte>, x': seq<Byte>)
    requires |a| == |a'| && a + x == a' + x'
    ensures a == a' && x == x'
  {
    assert a == (a + x)[..|a|] && a' == (a' + x')[..|a|];
    assert x == (a + x)[|a|..] && x' == (a' + x')[|a|..];
  }
}
