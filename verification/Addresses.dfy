/** Target addresses: the ATYP and address layout of section 5 of RFC 1928. */
module Addresses {
  import opened Bytes

  type Octets4 = b: seq<Byte> | |b| == 4 witness [0, 0, 0, 0]
  type Octets16 = b: seq<Byte> | |b| == 16 witness seq(16, i => 0)

  /** A text, as the bytes of its UTF-8 form (section 4 of RFC 3629). */
  type Utf8 = b: seq<Byte> | ValidUtf8(b) witness []

  predicate Continuation(b: seq<Byte>, i: nat) {
    i < |b| && 0x80 <= b[i] <= 0xBF
  }

  predicate Between(b: seq<Byte>, i: nat, lo: int, hi: int) {
    i < |b| && lo <= b[i] <= hi
  }

  /** The length of the character at the front, or 0 when there is none that is well formed. */
  function FirstCharacter(b: seq<Byte>): (n: nat)
    ensures n <= |b|
  {
    if b == [] then 0
    else if b[0] <= 0x7F then 1
    else if 0xC2 <= b[0] <= 0xDF then (if Continuation(b, 1) then 2 else 0)
    else if 0xE0 <= b[0] <= 0xEF then
      var lo := if b[0] == 0xE0 then 0xA0 else 0x80;
      var hi := if b[0] == 0xED then 0x9F else 0xBF;
      if Between(b, 1, lo, hi) && Continuation(b, 2) then 3 else 0
    else if 0xF0 <= b[0] <= 0xF4 then
      var lo := if b[0] == 0xF0 then 0x90 else 0x80;
      var hi := if b[0] == 0xF4 then 0x8F else 0xBF;
      if Between(b, 1, lo, hi) && Continuation(b, 2) && Continuation(b, 3) then 4 else 0
    else 0
  }

  predicate ValidUtf8(b: seq<Byte>) {
    b == [] || (FirstCharacter(b) > 0 && ValidUtf8(b[FirstCharacter(b)..]))
  }

  datatype SocksAddress = IPv4(octets4: Octets4) | Domain(name: Utf8) | IPv6(octets16: Octets16)

  predicate Encodable(a: SocksAddress) {
    a.Domain? ==> |a.name| <= 255
  }

  function Encode(a: SocksAddress): Result<seq<Byte>> {
    match a
    case IPv4(octets) => Ok([0x01] + octets)
    case Domain(name) => if |name| > 255 then Err(InvalidData) else Ok([0x03, |name|] + name)
    case IPv6(octets) => Ok([0x04] + octets)
  }

  function EncodedSize(a: SocksAddress): nat {
    match a
    case IPv4(_) => 1 + 4
    case Domain(name) => 1 + 1 + |name|
    case IPv6(_) => 1 + 16
  }

  function DecodeText(b: seq<Byte>, n: nat): Result<(Utf8, seq<Byte>)> {
    var (text, rest) :- Take(b, n);
    if ValidUtf8(text) then Ok((text, rest)) else Err(InvalidData)
  }

  function Decode(b: seq<Byte>): Result<(SocksAddress, seq<Byte>)> {
    var (kind, b1) :- Take(b, 1);
    if kind[0] == 0x01 then
      var (octets, b2) :- Take(b1, 4);
      Ok((IPv4(octets), b2))
    else if kind[0] == 0x03 then
      var (length, b2) :- Take(b1, 1);
      var (name, b3) :- DecodeText(b2, length[0]);
      Ok((Domain(name), b3))
    else if kind[0] == 0x04 then
      var (octets, b2) :- Take(b1, 16);
      Ok((IPv6(octets), b2))
    else Err(InvalidAddressType(kind[0]))
  }

  method EncodeInto(a: SocksAddress, buf: seq<Byte>) returns (r: Result<seq<Byte>>)
    ensures match Encode(a)
            case Ok(e) => r == Ok(buf + e)
            case Err(e) => r == Err(e)
  {
    var out := buf;
    match a {
      case IPv4(octets) =>
        out := out + [0x01];
        out := out + octets;
        assert out == buf + ([0x01] + octets);
      case Domain(name) =>
        if |name| > 255 {
          return Err(InvalidData);
        }
        out := out + [0x03];
        out := out + [|name|];
        out := out + name;
        assert out == buf + ([0x03, |name|] + name);
      case IPv6(octets) =>
        out := out + [0x04];
        out := out + octets;
        assert out == buf + ([0x04] + octets);
    }
    return Ok(out);
  }

  method DecodeFrom(cursor: Cursor) returns (r: Result<SocksAddress>)
    requires cursor.Valid()
    modifies cursor
    ensures cursor.Valid()
    ensures match Decode(old(cursor.Rest()))
            case Ok((a, rest)) => r == Ok(a) && cursor.Rest() == rest
            case Err(e) => r == Err(e)
  {
    var kind :- cursor.ReadExact(1);
    if kind[0] == 0x01 {
      var octets :- cursor.ReadExact(4);
      return Ok(IPv4(octets));
    } else if kind[0] == 0x03 {
      var length :- cursor.ReadExact(1);
      var name :- cursor.ReadExact(length[0]);
      if !ValidUtf8(name) {
        return Err(InvalidData);
      }
      return Ok(Domain(name));
    } else if kind[0] == 0x04 {
      var octets :- cursor.ReadExact(16);
      return Ok(IPv6(octets));
    } else {
      return Err(InvalidAddressType(kind[0]));
    }
  }

  lemma EncodeSucceeds(a: SocksAddress)
    ensures Encode(a).Ok? <==> Encodable(a)
    ensures Encode(a).Ok? ==> |Encode(a).value| == EncodedSize(a)
  {}

  /** What was encoded decodes to the same address, whatever follows it. */
  lemma AddressRoundTrip(a: SocksAddress, rest: seq<Byte>)
    requires Encodable(a)
    ensures Decode(Encode(a).value + rest) == Ok((a, rest))
  {
    var e := Encode(a).value;
    match a {
      case IPv4(octets) =>
        assert e + rest == [0x01] + (octets + rest);
        TakeFrom([0x01], octets + rest);
        TakeFrom(octets, rest);
      case Domain(name) =>
        assert e + rest == [0x03] + ([|name|] + (name + rest));
        TakeFrom([0x03], [|name|] + (name + rest));
        TakeFrom([|name|], name + rest);
        TakeFrom(name, rest);
      case IPv6(octets) =>
        assert e + rest == [0x04] + (octets + rest);
        TakeFrom([0x04], octets + rest);
        TakeFrom(octets, rest);
    }
  }

  /** An address has one encoding: what decodes encodes back to the bytes it was read from. */
  lemma AddressCanonical(b: seq<Byte>)
    requires Decode(b).Ok?
    ensures var (a, rest) := Decode(b).value; Encodable(a) && Encode(a).value + rest == b
  {
    var (a, rest) := Decode(b).value;
    match a {
      case IPv4(octets) => assert b == ([0x01] + octets) + rest;
      case Domain(name) => assert b == ([0x03, |name|] + name) + rest;
      case IPv6(octets) => assert b == ([0x04] + octets) + rest;
    }
  }
}
