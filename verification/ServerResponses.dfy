/** Server responses on the wire. */
module ServerResponses {
  import opened Bytes
  import Addresses
  import opened Payloads

  datatype ErrorCode = Timeout | ConnectionRefused | HostUnreachable | TooManyConnections | InvalidNonce | Unknown

  function ToU8(e: ErrorCode): Byte {
    match e
    case Timeout => 0x01
    case ConnectionRefused => 0x02
    case HostUnreachable => 0x03
    case TooManyConnections => 0x04
    case InvalidNonce => 0x05
    case Unknown => 0xFF
  }

  function FromU8(value: Byte): ErrorCode {
    match value
    case 0x01 => Timeout
    case 0x02 => ConnectionRefused
    case 0x03 => HostUnreachable
    case 0x04 => TooManyConnections
    case 0x05 => InvalidNonce
    case _ => Unknown
  }

  datatype ServerResponseType =
    | Challenge(connectionId: U64)
    | Data(connectionId: U64, data: seq<Byte>, compressed: bool)
    | Close(connectionId: U64, message: Addresses.Utf8)
    | Error(connectionId: U64, errorCode: ErrorCode, message: Addresses.Utf8)

  predicate Short(r: ServerResponseType) {
    match r
    case Challenge(_) => true
    case Data(_, data, _) => |data| < U32_LIMIT
    case Close(_, message) => |message| < U32_LIMIT
    case Error(_, _, message) => |message| < U32_LIMIT
  }

  /** The response as the receiver sees it. */
  function Received(z: Zstd, r: ServerResponseType): ServerResponseType {
    if r.Data? then r.(compressed := Compresses(z, r.data, r.compressed)) else r
  }

  function ReceivedAll(z: Zstd, rs: seq<ServerResponseType>): seq<ServerResponseType> {
    seq(|rs|, i requires 0 <= i < |rs| => Received(z, rs[i]))
  }

  /** Equal up to the compression flag. */
  predicate Same(r: ServerResponseType, r': ServerResponseType) {
    r == r' || (r.Data? && r'.Data? && r == r'.(compressed := r.compressed))
  }

  predicate SameAll(rs: seq<ServerResponseType>, rs': seq<ServerResponseType>) {
    |rs| == |rs'| && forall i :: 0 <= i < |rs| ==> Same(rs[i], rs'[i])
  }

  function EncodeText(text: seq<Byte>): seq<Byte> {
    LittleEndian(AsU32(|text|), 4) + text
  }

  function DecodeText(b: seq<Byte>): Result<(Addresses.Utf8, seq<Byte>)> {
    var (length, rest) :- TakeNumber(b, 4);
    Addresses.DecodeText(rest, length)
  }

  function EncodeOne(z: Zstd, r: ServerResponseType): seq<Byte> {
    match r
    case Challenge(id) => [0x00] + LittleEndian(id, 8)
    case Data(id, data, compressed) => [0x01] + (LittleEndian(id, 8) + Pack(z, data, compressed))
    case Close(id, message) => [0x02] + (LittleEndian(id, 8) + EncodeText(message))
    case Error(id, code, message) => [0x03] + (LittleEndian(id, 8) + ([ToU8(code)] + EncodeText(message)))
  }

  function Serialize(z: Zstd, rs: seq<ServerResponseType>): seq<Byte> {
    if rs == [] then [] else EncodeOne(z, rs[0]) + Serialize(z, rs[1..])
  }

  function DecodeId(b: seq<Byte>): Result<(U64, seq<Byte>)> {
    var (id, rest) :- TakeNumber(b, 8);
    NumberInRange(b, 8);
    Widths();
    Ok((id, rest))
  }

  function DecodeOne(z: Zstd, b: seq<Byte>): (r: Result<(ServerResponseType, seq<Byte>)>)
    ensures r.Ok? ==> |r.value.1| < |b|
  {
    var (kind, b1) :- Take(b, 1);
    if kind[0] > 0x03 then Err(InvalidMessageType(kind[0])) else
    var (id, b2) :- DecodeId(b1);
    if kind[0] == 0x00 then Ok((Challenge(id), b2))
    else if kind[0] == 0x01 then
      var ((data, compressed), rest) :- Unpack(z, b2);
      Ok((Data(id, data, compressed), rest))
    else if kind[0] == 0x02 then
      var (message, rest) :- DecodeText(b2);
      Ok((Close(id, message), rest))
    else
      var (code, b3) :- Take(b2, 1);
      var (message, rest) :- DecodeText(b3);
      Ok((Error(id, FromU8(code[0]), message), rest))
  }

  function Deserialize(z: Zstd, b: seq<Byte>): Result<seq<ServerResponseType>>
    decreases |b|
  {
    if b == [] then Ok([]) else
      var (head, rest) :- DecodeOne(z, b);
      var tail :- Deserialize(z, rest);
      Ok([head] + tail)
  }

  // The code, which appends to a buffer and advances a cursor.

  /** The body of the serializer's loop. */
  method EncodeOneInto(z: Zstd, r: ServerResponseType, start: seq<Byte>) returns (buf: seq<Byte>)
    ensures buf == start + EncodeOne(z, r)
  {
    buf := start;
    match r {
      case Challenge(id) =>
        buf := buf + [0x00];
        buf := buf + LittleEndian(id, 8);
        Reassociate(start, [0x00], LittleEndian(id, 8));
      case Data(id, data, compressed) =>
        buf := buf + [0x01];
        buf := buf + LittleEndian(id, 8);
        buf := PackInto(z, data, compressed, buf);
        Appended(start, [0x01], LittleEndian(id, 8), Pack(z, data, compressed));
      case Close(id, message) =>
        buf := buf + [0x02];
        buf := buf + LittleEndian(id, 8);
        buf := EncodeTextInto(message, buf);
        Appended(start, [0x02], LittleEndian(id, 8), EncodeText(message));
      case Error(id, code, message) =>
        buf := buf + [0x03];
        buf := buf + LittleEndian(id, 8);
        buf := buf + [ToU8(code)];
        buf := EncodeTextInto(message, buf);
        Appended(start + [0x03], LittleEndian(id, 8), [ToU8(code)], EncodeText(message));
        Reassociate(start, [0x03], LittleEndian(id, 8) + ([ToU8(code)] + EncodeText(message)));
    }
  }

  method EncodeTextInto(text: seq<Byte>, start: seq<Byte>) returns (buf: seq<Byte>)
    ensures buf == start + EncodeText(text)
  {
    buf := start + LittleEndian(AsU32(|text|), 4);
    buf := buf + text;
    Reassociate(start, LittleEndian(AsU32(|text|), 4), text);
  }

  method SerializeResponse(z: Zstd, rs: seq<ServerResponseType>) returns (buf: seq<Byte>)
    ensures buf == Serialize(z, rs)
  {
    buf := [];
    assert rs[0..] == rs;
    for i := 0 to |rs|
      invariant Serialize(z, rs) == buf + Serialize(z, rs[i..])
    {
      SerializeStep(z, rs, i, buf);
      buf := EncodeOneInto(z, rs[i], buf);
    }
    assert rs[|rs|..] == [];
  }

  lemma SerializeStep(z: Zstd, rs: seq<ServerResponseType>, i: nat, buf: seq<Byte>)
    requires i < |rs|
    ensures buf + Serialize(z, rs[i..]) == (buf + EncodeOne(z, rs[i])) + Serialize(z, rs[i + 1..])
  {
    assert rs[i..][1..] == rs[i + 1..];
    Reassociate(buf, EncodeOne(z, rs[i]), Serialize(z, rs[i + 1..]));
  }

  method DecodeIdFrom(cursor: Cursor) returns (r: Result<U64>)
    requires cursor.Valid()
    modifies cursor
    ensures cursor.Valid()
    ensures match DecodeId(old(cursor.Rest()))
            case Ok((id, rest)) => r == Ok(id) && cursor.Rest() == rest
            case Err(e) => r == Err(e)
  {
    var id :- cursor.ReadNumber(8);
    Widths();
    return Ok(id);
  }

  method DecodeTextFrom(cursor: Cursor) returns (r: Result<Addresses.Utf8>)
    requires cursor.Valid()
    modifies cursor
    ensures cursor.Valid()
    ensures match DecodeText(old(cursor.Rest()))
            case Ok((text, rest)) => r == Ok(text) && cursor.Rest() == rest
            case Err(e) => r == Err(e)
  {
    var length :- cursor.ReadNumber(4);
    var text :- cursor.ReadExact(length);
    if !Addresses.ValidUtf8(text) {
      return Err(InvalidData);
    }
    return Ok(text);
  }

  /** The body of the deserializer's loop. */
  method DecodeOneFrom(z: Zstd, cursor: Cursor) returns (r: Result<ServerResponseType>)
    requires cursor.Valid()
    modifies cursor
    ensures cursor.Valid()
    ensures match DecodeOne(z, old(cursor.Rest()))
            case Ok((m, rest)) => r == Ok(m) && cursor.Rest() == rest
            case Err(e) => r == Err(e)
  {
    var kind :- cursor.ReadExact(1);
    if kind[0] == 0x00 {
      var id :- DecodeIdFrom(cursor);
      return Ok(Challenge(id));
    } else if kind[0] == 0x01 {
      var id :- DecodeIdFrom(cursor);
      var payload :- UnpackFrom(z, cursor);
      return Ok(Data(id, payload.0, payload.1));
    } else if kind[0] == 0x02 {
      var id :- DecodeIdFrom(cursor);
      var message :- DecodeTextFrom(cursor);
      return Ok(Close(id, message));
    } else if kind[0] == 0x03 {
      var id :- DecodeIdFrom(cursor);
      var code :- cursor.ReadExact(1);
      var message :- DecodeTextFrom(cursor);
      return Ok(Error(id, FromU8(code[0]), message));
    } else {
      return Err(InvalidMessageType(kind[0]));
    }
  }

  /** The deserializer's loop. */
  method DecodeAllFrom(z: Zstd, cursor: Cursor) returns (r: Result<seq<ServerResponseType>>)
    requires cursor.Valid()
    modifies cursor
    ensures r == Deserialize(z, old(cursor.Rest()))
  {
    var responses: seq<ServerResponseType> := [];
    ghost var all := Deserialize(z, cursor.Rest());
    PrependNone(all);
    while cursor.position < |cursor.data|
      invariant cursor.Valid()
      invariant all == Prepend(responses, Deserialize(z, cursor.Rest()))
      decreases |cursor.Rest()|
    {
      DecodeStep(z, cursor.Rest(), responses);
      var m :- DecodeOneFrom(z, cursor);
      responses := responses + [m];
    }
    assert cursor.Rest() == [] && responses + [] == responses;
    return Ok(responses);
  }

  method DeserializeResponse(z: Zstd, data: seq<Byte>) returns (r: Result<seq<ServerResponseType>>)
    ensures r == Deserialize(z, data)
  {
    var cursor := new Cursor(data);
    r := DecodeAllFrom(z, cursor);
  }

  function Prepend(rs: seq<ServerResponseType>, r: Result<seq<ServerResponseType>>): Result<seq<ServerResponseType>> {
    match r
    case Ok(v) => Ok(rs + v)
    case Err(e) => Err(e)
  }

  lemma PrependNone(r: Result<seq<ServerResponseType>>)
    ensures Prepend([], r) == r
  {
    assert r.Ok? ==> [] + r.value == r.value;
  }

  lemma PrependOne(a: seq<ServerResponseType>, m: ServerResponseType, r: Result<seq<ServerResponseType>>)
    ensures Prepend(a, Prepend([m], r)) == Prepend(a + [m], r)
  {
    if r.Ok? {
      assert a + ([m] + r.value) == (a + [m]) + r.value;
    }
  }

  lemma DecodeStep(z: Zstd, b: seq<Byte>, responses: seq<ServerResponseType>)
    requires b != []
    ensures Prepend(responses, Deserialize(z, b)) ==
            match DecodeOne(z, b)
            case Ok((m, rest)) => Prepend(responses + [m], Deserialize(z, rest))
            case Err(e) => Err(e)
  {
    if DecodeOne(z, b).Ok? {
      var (m, rest) := DecodeOne(z, b).value;
      PrependOne(responses, m, Deserialize(z, rest));
    }
  }

  // Round trips.

  /** The byte of an error code names it; every other byte reads as Unknown, which is written 0xFF. */
  lemma ErrorCodes(e: ErrorCode, b: Byte)
    ensures FromU8(ToU8(e)) == e
    ensures ToU8(FromU8(b)) == b <==> 1 <= b <= 5 || b == 0xFF
  {}

  lemma TextRoundTrip(text: Addresses.Utf8, rest: seq<Byte>)
    requires |text| < U32_LIMIT
    ensures DecodeText(EncodeText(text) + rest) == Ok((text, rest))
  {
    assert AsU32(|text|) == |text|;
    assert EncodeText(text) + rest == LittleEndian(|text|, 4) + (text + rest);
    assert |text| < Values(4) by {
      Widths();
    }
    TakeNumberFrom(|text|, 4, text + rest);
    TakeFrom(text, rest);
  }

  lemma IdRoundTrip(kind: Byte, id: U64, tail: seq<Byte>, rest: seq<Byte>)
    ensures var b := [kind] + (LittleEndian(id, 8) + tail) + rest;
            b[0] == kind && Take(b, 1) == Ok(([kind], b[1..])) && DecodeId(b[1..]) == Ok((id, tail + rest))
  {
    var b := [kind] + (LittleEndian(id, 8) + tail) + rest;
    assert b[..1] == [kind] && b[1..] == LittleEndian(id, 8) + (tail + rest);
    assert id < Values(8) by {
      Widths();
    }
    TakeNumberFrom(id, 8, tail + rest);
  }

  /** An error is read with the code its byte stands for. */
  lemma ErrorDecodes(z: Zstd, id: U64, code: Byte, message: Addresses.Utf8, rest: seq<Byte>)
    requires |message| < U32_LIMIT
    ensures DecodeOne(z, [0x03] + (LittleEndian(id, 8) + ([code] + EncodeText(message))) + rest)
            == Ok((Error(id, FromU8(code), message), rest))
  {
    IdRoundTrip(0x03, id, [code] + EncodeText(message), rest);
    Reassociate([code], EncodeText(message), rest);
    TakeFrom([code], EncodeText(message) + rest);
    TextRoundTrip(message, rest);
  }

  lemma OneRoundTrip(z: Zstd, r: ServerResponseType, rest: seq<Byte>)
    requires z.Lawful() && Short(r)
    ensures DecodeOne(z, EncodeOne(z, r) + rest) == Ok((Received(z, r), rest))
  {
    match r {
      case Challenge(id) =>
        IdRoundTrip(0x00, id, [], rest);
        assert LittleEndian(id, 8) + [] == LittleEndian(id, 8) && [] + rest == rest;
      case Data(id, data, compressed) =>
        IdRoundTrip(0x01, id, Pack(z, data, compressed), rest);
        PackRoundTrip(z, data, compressed, rest);
      case Close(id, message) =>
        IdRoundTrip(0x02, id, EncodeText(message), rest);
        TextRoundTrip(message, rest);
      case Error(id, code, message) =>
        ErrorDecodes(z, id, ToU8(code), message, rest);
        ErrorCodes(code, 0);
    }
  }

  lemma ReceivedCons(z: Zstd, rs: seq<ServerResponseType>)
    requires rs != []
    ensures ReceivedAll(z, rs) == [Received(z, rs[0])] + ReceivedAll(z, rs[1..])
  {}

  lemma {:induction false} ResponseRoundTrip(z: Zstd, rs: seq<ServerResponseType>)
    requires z.Lawful() && forall r :: r in rs ==> Short(r)
    ensures Deserialize(z, Serialize(z, rs)) == Ok(ReceivedAll(z, rs))
    ensures SameAll(rs, ReceivedAll(z, rs))
  {
    if rs == [] {
      assert ReceivedAll(z, rs) == [];
    } else {
      ResponseRoundTrip(z, rs[1..]);
      OneRoundTrip(z, rs[0], Serialize(z, rs[1..]));
      ReceivedCons(z, rs);
    }
  }

  lemma DecodedTextIsShort(b: seq<Byte>)
    requires DecodeText(b).Ok?
    ensures |DecodeText(b).value.0| < U32_LIMIT
  {
    NumberInRange(b, 4);
    Widths();
  }

  lemma DecodedOneIsShort(z: Zstd, b: seq<Byte>)
    requires DecodeOne(z, b).Ok?
    ensures Short(DecodeOne(z, b).value.0)
  {
    var b2 := DecodeId(b[1..]).value.1;
    match DecodeOne(z, b).value.0 {
      case Challenge(_) =>
      case Data(_, _, _) => UnpackedIsShort(z, b2);
      case Close(_, _) => DecodedTextIsShort(b2);
      case Error(_, _, _) => DecodedTextIsShort(b2[1..]);
    }
  }

  lemma {:induction false} DecodedIsShort(z: Zstd, b: seq<Byte>)
    requires Deserialize(z, b).Ok?
    ensures forall r :: r in Deserialize(z, b).value ==> Short(r)
    decreases |b|
  {
    if b != [] {
      DecodedOneIsShort(z, b);
      DecodedIsShort(z, DecodeOne(z, b).value.1);
    }
  }

  lemma SameIsShort(rs: seq<ServerResponseType>, rs': seq<ServerResponseType>)
    requires SameAll(rs, rs') && forall r :: r in rs' ==> Short(r)
    ensures forall r :: r in rs ==> Short(r)
  {
    forall i | 0 <= i < |rs| ensures Short(rs[i]) {
      assert rs'[i] in rs' && Same(rs[i], rs'[i]);
    }
  }

  /** Responses come back, up to the compression flags, if and only if every payload and text is shorter than 2^32. */
  lemma ResponseRoundTripExactly(z: Zstd, rs: seq<ServerResponseType>)
    requires z.Lawful()
    ensures (var r := Deserialize(z, Serialize(z, rs)); r.Ok? && SameAll(rs, r.value))
       <==> forall r :: r in rs ==> Short(r)
  {
    var back := Deserialize(z, Serialize(z, rs));
    if forall r :: r in rs ==> Short(r) {
      ResponseRoundTrip(z, rs);
    }
    if back.Ok? && SameAll(rs, back.value) {
      DecodedIsShort(z, Serialize(z, rs));
      SameIsShort(rs, back.value);
    }
  }

  /** Whatever decodes, encodes again and decodes to the same responses up to the flags. */
  lemma {:induction false} ResponseNormalForm(z: Zstd, b: seq<Byte>)
    requires z.Lawful() && Deserialize(z, b).Ok?
    ensures var rs := Deserialize(z, b).value;
            && Deserialize(z, Serialize(z, rs)) == Ok(ReceivedAll(z, rs))
            && SameAll(rs, ReceivedAll(z, rs))
  {
    DecodedIsShort(z, b);
    ResponseRoundTrip(z, Deserialize(z, b).value);
  }

  lemma DecodeTextExtends(b: seq<Byte>, more: seq<Byte>)
    requires DecodeText(b).Ok?
    ensures DecodeText(b + more) == Ok((DecodeText(b).value.0, DecodeText(b).value.1 + more))
  {
    TakeExtends(b, 4, more);
    TakeExtends(b[4..], FromLittleEndian(b[..4]), more);
  }

  lemma DecodeOneExtends(z: Zstd, b: seq<Byte>, more: seq<Byte>)
    requires DecodeOne(z, b).Ok?
    ensures DecodeOne(z, b + more) == Ok((DecodeOne(z, b).value.0, DecodeOne(z, b).value.1 + more))
  {
    var b1 := b[1..];
    var b2 := b1[8..];
    TakeExtends(b, 1, more);
    TakeExtends(b1, 8, more);
    match DecodeOne(z, b).value.0 {
      case Challenge(_) =>
      case Data(_, _, _) => UnpackExtends(z, b2, more);
      case Close(_, _) => DecodeTextExtends(b2, more);
      case Error(_, _, _) =>
        TakeExtends(b2, 1, more);
        DecodeTextExtends(b2[1..], more);
    }
  }

  /** A successful decoder has consumed its whole input: what follows is decoded on its own. */
  lemma {:induction false} DecodingConsumesAll(z: Zstd, b: seq<Byte>, more: seq<Byte>)
    requires Deserialize(z, b).Ok?
    ensures Deserialize(z, b + more) == Prepend(Deserialize(z, b).value, Deserialize(z, more))
    decreases |b|
  {
    if b == [] {
      assert b + more == more;
      PrependNone(Deserialize(z, more));
    } else {
      var (m, rest) := DecodeOne(z, b).value;
      DecodeOneExtends(z, b, more);
      DecodingConsumesAll(z, rest, more);
      var r := Deserialize(z, more);
      assert r.Ok? ==> [m] + (Deserialize(z, rest).value + r.value) == ([m] + Deserialize(z, rest).value) + r.value;
    }
  }

  // When re-encoding gives the bytes that were read.

  /** The first response's payload section, if it has one, is canonical, and its error code is one of the six. */
  predicate CanonicalOne(z: Zstd, b: seq<Byte>)
    requires DecodeOne(z, b).Ok?
  {
    && (b[0] == 0x01 ==> CanonicalSection(z, DecodeId(b[1..]).value.1))
    && (b[0] == 0x03 ==> var code := DecodeId(b[1..]).value.1[0]; 1 <= code <= 5 || code == 0xFF)
  }

  predicate Canonical(z: Zstd, b: seq<Byte>)
    requires Deserialize(z, b).Ok?
    decreases |b|
  {
    b != [] ==> CanonicalOne(z, b) && Canonical(z, DecodeOne(z, b).value.1)
  }

  lemma IdCanonical(b: seq<Byte>)
    requires DecodeId(b).Ok?
    ensures LittleEndian(DecodeId(b).value.0, 8) + DecodeId(b).value.1 == b
  {
    NumberJoins(b, 8);
  }

  lemma TextCanonical(b: seq<Byte>)
    requires DecodeText(b).Ok?
    ensures EncodeText(DecodeText(b).value.0) + DecodeText(b).value.1 == b
  {
    var (text, rest) := DecodeText(b).value;
    NumberJoins(b, 4);
    DecodedTextIsShort(b);
    assert AsU32(|text|) == |text|;
    Reassociate(LittleEndian(|text|, 4), text, rest);
    assert text + rest == b[4..];
  }

  lemma Peel(kind: seq<Byte>, id: seq<Byte>, tail: seq<Byte>, rest: seq<Byte>, b2: seq<Byte>)
    ensures (kind + (id + tail)) + rest == kind + (id + b2) <==> tail + rest == b2
  {
    var one, two := (kind + (id + tail)) + rest, kind + (id + b2);
    assert one == (kind + id) + (tail + rest) && two == (kind + id) + b2;
    if one == two {
      assert one[|kind + id|..] == tail + rest && two[|kind + id|..] == b2;
    }
  }

  lemma ErrorCanonical(code: Byte, message: Addresses.Utf8, rest: seq<Byte>, b: seq<Byte>)
    requires b != [] && EncodeText(message) + rest == b[1..]
    ensures ([code] + EncodeText(message)) + rest == b <==> code == b[0]
  {
    Reassociate([code], EncodeText(message), rest);
    assert b == [b[0]] + b[1..];
    if code != b[0] {
      assert ([code] + b[1..])[0] != b[0];
    }
  }

  /** What follows the id, written again. */
  function Tail(z: Zstd, r: ServerResponseType): seq<Byte> {
    match r
    case Challenge(_) => []
    case Data(_, data, compressed) => Pack(z, data, compressed)
    case Close(_, message) => EncodeText(message)
    case Error(_, code, message) => [ToU8(code)] + EncodeText(message)
  }

  lemma EncodeParts(z: Zstd, r: ServerResponseType, kind: Byte)
    requires kind == if r.Challenge? then 0x00 else if r.Data? then 0x01 else if r.Close? then 0x02 else 0x03
    ensures EncodeOne(z, r) == [kind] + (LittleEndian(r.connectionId, 8) + Tail(z, r))
  {
    assert LittleEndian(r.connectionId, 8) + [] == LittleEndian(r.connectionId, 8);
  }

  lemma TailCanonical(z: Zstd, b: seq<Byte>)
    requires DecodeOne(z, b).Ok?
    ensures var (r, rest) := DecodeOne(z, b).value;
            Tail(z, r) + rest == DecodeId(b[1..]).value.1 <==> CanonicalOne(z, b)
  {
    var (r, rest) := DecodeOne(z, b).value;
    var b2 := DecodeId(b[1..]).value.1;
    match r {
      case Challenge(_) => assert [] + rest == rest;
      case Data(_, _, _) => PackCanonical(z, b2);
      case Close(_, _) => TextCanonical(b2);
      case Error(_, code, message) =>
        TextCanonical(b2[1..]);
        ErrorCodes(code, b2[0]);
        ErrorCanonical(ToU8(code), message, rest, b2);
    }
  }

  lemma FirstParts(b: seq<Byte>)
    requires b != [] && DecodeId(b[1..]).Ok?
    ensures var (id, b2) := DecodeId(b[1..]).value; b == [b[0]] + (LittleEndian(id, 8) + b2)
  {
    IdCanonical(b[1..]);
    assert b == [b[0]] + b[1..];
  }

  lemma OneCanonical(z: Zstd, b: seq<Byte>)
    requires DecodeOne(z, b).Ok?
    ensures var (r, rest) := DecodeOne(z, b).value; EncodeOne(z, r) + rest == b <==> CanonicalOne(z, b)
  {
    var (r, rest) := DecodeOne(z, b).value;
    var (id, b2) := DecodeId(b[1..]).value;
    FirstParts(b);
    EncodeParts(z, r, b[0]);
    Peel([b[0]], LittleEndian(id, 8), Tail(z, r), rest, b2);
    TailCanonical(z, b);
  }

  /** Encoding what was decoded gives the same bytes if and only if every payload and every error code was canonical. */
  lemma {:induction false} ReencodesExactly(z: Zstd, b: seq<Byte>)
    requires z.Lawful() && Deserialize(z, b).Ok?
    ensures Serialize(z, Deserialize(z, b).value) == b <==> Canonical(z, b)
    decreases |b|
  {
    if b != [] {
      var (r, rest) := DecodeOne(z, b).value;
      var tail := Deserialize(z, rest).value;
      OneCanonical(z, b);
      ReencodesExactly(z, rest);
      assert ([r] + tail)[1..] == tail;
      if Serialize(z, [r] + tail) == b {
        DecodedOneIsShort(z, b);
        OneRoundTrip(z, r, Serialize(z, tail));
      }
    }
  }

  /** An unknown code is one that changes: 0x06 comes back as 0xFF. */
  lemma UnknownCodeIsRewritten(z: Zstd)
    ensures var b := [0x03] + (LittleEndian(0, 8) + ([0x06] + EncodeText([])));
            DecodeOne(z, b) == Ok((Error(0, Unknown, []), [])) && EncodeOne(z, Error(0, Unknown, [])) != b
  {
    var b := [0x03] + (LittleEndian(0, 8) + ([0x06] + EncodeText([])));
    assert b + [] == b;
    ErrorDecodes(z, 0, 0x06, [], []);
    OtherCode(0x06);
  }

  lemma OtherCode(code: Byte)
    requires code != 0xFF
    ensures [0x03] + (LittleEndian(0, 8) + ([0xFF] + EncodeText([])))
            != [0x03] + (LittleEndian(0, 8) + ([code] + EncodeText([])))
  {
    CodeAt(0xFF, EncodeText([]));
    CodeAt(code, EncodeText([]));
  }

  lemma CodeAt(code: Byte, text: seq<Byte>)
    ensures ([0x03] + (LittleEndian(0, 8) + ([code] + text)))[|LittleEndian(0, 8)| + 1] == code
  {}

  /** 2^32 bytes are too many. */
  lemma LongDataIsLost(z: Zstd)
    requires z.Lawful()
    ensures var rs := [Data(1, seq(U32_LIMIT, i => 0), false)];
            !(Deserialize(z, Serialize(z, rs)).Ok? && SameAll(rs, Deserialize(z, Serialize(z, rs)).value))
  {
    var rs := [Data(1, seq(U32_LIMIT, i => 0), false)];
    ResponseRoundTripExactly(z, rs);
    assert rs[0] in rs && !Short(rs[0]);
  }
}
