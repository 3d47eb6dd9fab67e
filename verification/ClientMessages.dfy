/** Batches of client messages on the wire. */
module ClientMessages {
  import opened Bytes
  import Addresses
  import opened Payloads

  type Key = b: seq<Byte> | |b| == 32 witness seq(32, i => 0)

  datatype ClientMessageType =
    | StartConnection(host: Addresses.SocksAddress, port: U16)
    | Data(connectionIdSigned: seq<Byte>, data: seq<Byte>, compressed: bool)
    | Close(connectionIdSigned: seq<Byte>)
    | Poll

  datatype ClientMessage = ClientMessage(clientPublicKey: Key, nonce: U64, messages: seq<ClientMessageType>)

  /** What serialization can represent: names and signed ids of at most 255 bytes. */
  predicate Encodable(m: ClientMessageType) {
    match m
    case StartConnection(host, _) => Addresses.Encodable(host)
    case Data(signed, _, _) => |signed| <= 255
    case Close(signed) => |signed| <= 255
    case Poll => true
  }

  predicate Short(m: ClientMessageType) {
    m.Data? ==> |m.data| < U32_LIMIT
  }

  /** The message as the receiver sees it: the flag says whether the payload was in fact compressed. */
  function Received(z: Zstd, m: ClientMessageType): ClientMessageType {
    if m.Data? then m.(compressed := Compresses(z, m.data, m.compressed)) else m
  }

  function ReceivedAll(z: Zstd, ms: seq<ClientMessageType>): seq<ClientMessageType> {
    seq(|ms|, i requires 0 <= i < |ms| => Received(z, ms[i]))
  }

  /** Equal up to the compression flag. */
  predicate Same(m: ClientMessageType, m': ClientMessageType) {
    m == m' || (m.Data? && m'.Data? && m == m'.(compressed := m.compressed))
  }

  function EncodeSigned(kind: Byte, signed: seq<Byte>): Result<seq<Byte>> {
    if |signed| > 255 then Err(InvalidData) else Ok([kind, |signed|] + signed)
  }

  function EncodeOne(z: Zstd, m: ClientMessageType): Result<seq<Byte>> {
    match m
    case StartConnection(host, port) =>
      var address :- Addresses.Encode(host);
      Ok([0x00] + (address + LittleEndian(port, 2)))
    case Data(signed, data, compressed) =>
      var head :- EncodeSigned(0x01, signed);
      Ok(head + Pack(z, data, compressed))
    case Close(signed) => EncodeSigned(0x02, signed)
    case Poll => Ok([0x03])
  }

  function EncodeAll(z: Zstd, ms: seq<ClientMessageType>): Result<seq<Byte>> {
    if ms == [] then Ok([]) else
      var head :- EncodeOne(z, ms[0]);
      var tail :- EncodeAll(z, ms[1..]);
      Ok(head + tail)
  }

  function Serialize(z: Zstd, m: ClientMessage): Result<seq<Byte>> {
    var body :- EncodeAll(z, m.messages);
    Ok(m.clientPublicKey + (LittleEndian(m.nonce, 8) + body))
  }

  function DecodeSigned(b: seq<Byte>): Result<(seq<Byte>, seq<Byte>)> {
    var (length, b1) :- Take(b, 1);
    Take(b1, length[0])
  }

  function DecodeOne(z: Zstd, b: seq<Byte>): (r: Result<(ClientMessageType, seq<Byte>)>)
    ensures r.Ok? ==> |r.value.1| < |b|
  {
    var (kind, b1) :- Take(b, 1);
    if kind[0] == 0x00 then
      var (host, b2) :- Addresses.Decode(b1);
      var (port, rest) :- TakeNumber(b2, 2);
      NumberInRange(b2, 2);
      Widths();
      Ok((StartConnection(host, port), rest))
    else if kind[0] == 0x01 then
      var (signed, b2) :- DecodeSigned(b1);
      var ((data, compressed), rest) :- Unpack(z, b2);
      Ok((Data(signed, data, compressed), rest))
    else if kind[0] == 0x02 then
      var (signed, rest) :- DecodeSigned(b1);
      Ok((Close(signed), rest))
    else if kind[0] == 0x03 then Ok((Poll, b1))
    else Err(InvalidMessageType(kind[0]))
  }

  function DecodeAll(z: Zstd, b: seq<Byte>): Result<seq<ClientMessageType>>
    decreases |b|
  {
    if b == [] then Ok([]) else
      var (head, rest) :- DecodeOne(z, b);
      var tail :- DecodeAll(z, rest);
      Ok([head] + tail)
  }

  function Deserialize(z: Zstd, b: seq<Byte>): Result<ClientMessage> {
    var (key, b1) :- Take(b, 32);
    var (nonce, b2) :- TakeNumber(b1, 8);
    var messages :- DecodeAll(z, b2);
    NumberInRange(b1, 8);
    Widths();
    Ok(ClientMessage(key, nonce, messages))
  }

  // The code, which appends to a buffer and advances a cursor.

  /** The body of the serializer's loop. */
  method EncodeOneInto(z: Zstd, m: ClientMessageType, start: seq<Byte>) returns (r: Result<seq<Byte>>)
    ensures r == Prepend(start, EncodeOne(z, m))
  {
    var buf := start;
    match m {
      case StartConnection(host, port) =>
        buf := buf + [0x00];
        buf :- Addresses.EncodeInto(host, buf);
        buf := buf + LittleEndian(port, 2);
        Appended(start, [0x00], Addresses.Encode(host).value, LittleEndian(port, 2));
      case Data(signed, data, compressed) =>
        buf :- EncodeSignedInto(0x01, signed, buf);
        buf := PackInto(z, data, compressed, buf);
        Reassociate(start, EncodeSigned(0x01, signed).value, Pack(z, data, compressed));
      case Close(signed) =>
        buf :- EncodeSignedInto(0x02, signed, buf);
      case Poll =>
        buf := buf + [0x03];
    }
    return Ok(buf);
  }

  /** The type and the signed id, as a Data and a Close begin. */
  method EncodeSignedInto(kind: Byte, signed: seq<Byte>, start: seq<Byte>) returns (r: Result<seq<Byte>>)
    ensures r == Prepend(start, EncodeSigned(kind, signed))
  {
    var buf := start + [kind];
    if |signed| > 255 {
      return Err(InvalidData);
    }
    buf := buf + [|signed|];
    buf := buf + signed;
    assert buf == start + ([kind, |signed|] + signed);
    return Ok(buf);
  }

  method SerializeMessage(z: Zstd, m: ClientMessage) returns (r: Result<seq<Byte>>)
    ensures r == Serialize(z, m)
  {
    var buf: seq<Byte> := [];
    buf := buf + m.clientPublicKey;
    buf := buf + LittleEndian(m.nonce, 8);
    ghost var header := m.clientPublicKey + LittleEndian(m.nonce, 8);
    assert buf == header && m.messages[0..] == m.messages;
    for i := 0 to |m.messages|
      invariant Prepend(header, EncodeAll(z, m.messages)) == Prepend(buf, EncodeAll(z, m.messages[i..]))
    {
      EncodeStep(z, m.messages, i, buf);
      buf :- EncodeOneInto(z, m.messages[i], buf);
    }
    assert m.messages[|m.messages|..] == [] && buf + [] == buf;
    EncodeEnd(z, m, buf);
    return Ok(buf);
  }

  lemma EncodeStep(z: Zstd, ms: seq<ClientMessageType>, i: nat, buf: seq<Byte>)
    requires i < |ms|
    ensures Prepend(buf, EncodeAll(z, ms[i..])) ==
            match Prepend(buf, EncodeOne(z, ms[i]))
            case Ok(buf') => Prepend(buf', EncodeAll(z, ms[i + 1..]))
            case Err(e) => Err(e)
  {
    assert ms[i..][1..] == ms[i + 1..];
    if EncodeOne(z, ms[i]).Ok? {
      PrependMore(buf, EncodeOne(z, ms[i]).value, EncodeAll(z, ms[i + 1..]));
    }
  }

  lemma EncodeEnd(z: Zstd, m: ClientMessage, buf: seq<Byte>)
    requires Prepend(m.clientPublicKey + LittleEndian(m.nonce, 8), EncodeAll(z, m.messages)) == Ok(buf)
    ensures Serialize(z, m) == Ok(buf)
  {
    Reassociate(m.clientPublicKey, LittleEndian(m.nonce, 8), EncodeAll(z, m.messages).value);
  }

  /** The body of the deserializer's loop. */
  method DecodeOneFrom(z: Zstd, cursor: Cursor) returns (r: Result<ClientMessageType>)
    requires cursor.Valid()
    modifies cursor
    ensures cursor.Valid()
    ensures match DecodeOne(z, old(cursor.Rest()))
            case Ok((m, rest)) => r == Ok(m) && cursor.Rest() == rest
            case Err(e) => r == Err(e)
  {
    var kind :- cursor.ReadExact(1);
    Widths();
    if kind[0] == 0x00 {
      var host :- Addresses.DecodeFrom(cursor);
      var port :- cursor.ReadNumber(2);
      return Ok(StartConnection(host, port));
    } else if kind[0] == 0x01 {
      var length :- cursor.ReadExact(1);
      var signed :- cursor.ReadExact(length[0]);
      var payload :- UnpackFrom(z, cursor);
      return Ok(Data(signed, payload.0, payload.1));
    } else if kind[0] == 0x02 {
      var length :- cursor.ReadExact(1);
      var signed :- cursor.ReadExact(length[0]);
      return Ok(Close(signed));
    } else if kind[0] == 0x03 {
      return Ok(Poll);
    } else {
      return Err(InvalidMessageType(kind[0]));
    }
  }

  /** The deserializer's loop. */
  method DecodeAllFrom(z: Zstd, cursor: Cursor) returns (r: Result<seq<ClientMessageType>>)
    requires cursor.Valid()
    modifies cursor
    ensures r == DecodeAll(z, old(cursor.Rest()))
  {
    var messages: seq<ClientMessageType> := [];
    ghost var all := DecodeAll(z, cursor.Rest());
    PrependNoMessages(all);
    while cursor.position < |cursor.data|
      invariant cursor.Valid()
      invariant all == PrependMessages(messages, DecodeAll(z, cursor.Rest()))
      decreases |cursor.Rest()|
    {
      DecodeStep(z, cursor.Rest(), messages);
      var m :- DecodeOneFrom(z, cursor);
      messages := messages + [m];
    }
    assert cursor.Rest() == [] && messages + [] == messages;
    return Ok(messages);
  }

  method DeserializeMessage(z: Zstd, data: seq<Byte>) returns (r: Result<ClientMessage>)
    ensures r == Deserialize(z, data)
  {
    var cursor := new Cursor(data);
    var key :- cursor.ReadExact(32);
    var nonce :- cursor.ReadNumber(8);
    Widths();
    var messages :- DecodeAllFrom(z, cursor);
    return Ok(ClientMessage(key, nonce, messages));
  }

  lemma DecodeStep(z: Zstd, b: seq<Byte>, messages: seq<ClientMessageType>)
    requires b != []
    ensures PrependMessages(messages, DecodeAll(z, b)) ==
            match DecodeOne(z, b)
            case Ok((m, rest)) => PrependMessages(messages + [m], DecodeAll(z, rest))
            case Err(e) => Err(e)
  {
    if DecodeOne(z, b).Ok? {
      var (m, rest) := DecodeOne(z, b).value;
      PrependMessage(messages, m, DecodeAll(z, rest));
    }
  }

  function Prepend(b: seq<Byte>, r: Result<seq<Byte>>): Result<seq<Byte>> {
    match r
    case Ok(v) => Ok(b + v)
    case Err(e) => Err(e)
  }

  function PrependMessages(ms: seq<ClientMessageType>,
                           r: Result<seq<ClientMessageType>>): Result<seq<ClientMessageType>> {
    match r
    case Ok(v) => Ok(ms + v)
    case Err(e) => Err(e)
  }

  lemma PrependNoMessages(r: Result<seq<ClientMessageType>>)
    ensures PrependMessages([], r) == r
  {
    assert r.Ok? ==> [] + r.value == r.value;
  }

  lemma PrependMore(a: seq<Byte>, b: seq<Byte>, r: Result<seq<Byte>>)
    ensures Prepend(a, Prepend(b, r)) == Prepend(a + b, r)
  {
    if r.Ok? {
      assert a + (b + r.value) == (a + b) + r.value;
    }
  }

  lemma PrependMessage(a: seq<ClientMessageType>, m: ClientMessageType, r: Result<seq<ClientMessageType>>)
    ensures PrependMessages(a, PrependMessages([m], r)) == PrependMessages(a + [m], r)
  {
    if r.Ok? {
      assert a + ([m] + r.value) == (a + [m]) + r.value;
    }
  }

  // Round trips.

  lemma SignedRoundTrip(kind: Byte, signed: seq<Byte>, rest: seq<Byte>)
    requires |signed| <= 255
    ensures var e := EncodeSigned(kind, signed).value + rest;
            e[0] == kind && DecodeSigned(e[1..]) == Ok((signed, rest))
  {
    var e := EncodeSigned(kind, signed).value + rest;
    assert e[1..] == [|signed|] + (signed + rest);
    TakeFrom([|signed|], signed + rest);
    TakeFrom(signed, rest);
  }

  /** One message comes back, whatever follows it. */
  lemma OneRoundTrip(z: Zstd, m: ClientMessageType, rest: seq<Byte>)
    requires z.Lawful() && Encodable(m) && Short(m)
    ensures EncodeOne(z, m).Ok?
    ensures DecodeOne(z, EncodeOne(z, m).value + rest) == Ok((Received(z, m), rest))
  {
    match m {
      case StartConnection(host, port) =>
        Addresses.EncodeSucceeds(host);
        var e := EncodeOne(z, m).value + rest;
        assert e[1..] == Addresses.Encode(host).value + (LittleEndian(port, 2) + rest);
        Addresses.AddressRoundTrip(host, LittleEndian(port, 2) + rest);
        Widths();
        TakeNumberFrom(port, 2, rest);
      case Data(signed, data, compressed) =>
        var packed := Pack(z, data, compressed);
        assert EncodeOne(z, m).value + rest == EncodeSigned(0x01, signed).value + (packed + rest);
        SignedRoundTrip(0x01, signed, packed + rest);
        PackRoundTrip(z, data, compressed, rest);
      case Close(signed) =>
        SignedRoundTrip(0x02, signed, rest);
      case Poll =>
        assert ([0x03] + rest)[1..] == rest;
    }
  }

  lemma {:induction false} AllRoundTrip(z: Zstd, ms: seq<ClientMessageType>)
    requires z.Lawful() && forall m :: m in ms ==> Encodable(m) && Short(m)
    ensures EncodeAll(z, ms).Ok?
    ensures DecodeAll(z, EncodeAll(z, ms).value) == Ok(ReceivedAll(z, ms))
  {
    if ms == [] {
      assert ReceivedAll(z, ms) == [];
    } else {
      AllRoundTrip(z, ms[1..]);
      var tail := EncodeAll(z, ms[1..]).value;
      OneRoundTrip(z, ms[0], tail);
      ReceivedCons(z, ms);
      assert DecodeOne(z, EncodeAll(z, ms).value) == Ok((Received(z, ms[0]), tail));
    }
  }

  lemma ReceivedCons(z: Zstd, ms: seq<ClientMessageType>)
    requires ms != []
    ensures ReceivedAll(z, ms) == [Received(z, ms[0])] + ReceivedAll(z, ms[1..])
  {}

  /** Serialization fails for exactly the batches with an over-long name or signed id. */
  lemma {:induction false} EncodesExactly(z: Zstd, ms: seq<ClientMessageType>)
    ensures EncodeAll(z, ms).Ok? <==> forall m :: m in ms ==> Encodable(m)
  {
    if ms != [] {
      EncodesExactly(z, ms[1..]);
      if ms[0].StartConnection? {
        Addresses.EncodeSucceeds(ms[0].host);
      }
      assert EncodeOne(z, ms[0]).Ok? <==> Encodable(ms[0]);
      assert ms[0] in ms && forall m :: m in ms <==> m == ms[0] || m in ms[1..];
    }
  }

  function ReceivedBatch(z: Zstd, m: ClientMessage): ClientMessage {
    m.(messages := ReceivedAll(z, m.messages))
  }

  predicate SameBatch(m: ClientMessage, m': ClientMessage) {
    && m.clientPublicKey == m'.clientPublicKey && m.nonce == m'.nonce
    && |m.messages| == |m'.messages|
    && forall i :: 0 <= i < |m.messages| ==> Same(m.messages[i], m'.messages[i])
  }

  lemma BatchRoundTrip(z: Zstd, m: ClientMessage)
    requires z.Lawful() && Serialize(z, m).Ok?
    requires forall msg :: msg in m.messages ==> Short(msg)
    ensures Deserialize(z, Serialize(z, m).value) == Ok(ReceivedBatch(z, m))
    ensures SameBatch(m, ReceivedBatch(z, m))
  {
    EncodesExactly(z, m.messages);
    AllRoundTrip(z, m.messages);
    var body := EncodeAll(z, m.messages).value;
    Widths();
    TakeFrom(m.clientPublicKey, LittleEndian(m.nonce, 8) + body);
    TakeNumberFrom(m.nonce, 8, body);
  }

  lemma LongOneRefused(z: Zstd, m: ClientMessageType, rest: seq<Byte>)
    requires z.Lawful() && !Short(m) && EncodeOne(z, m).Ok? && |EncodeOne(z, m).value| < U32_LIMIT
    ensures DecodeOne(z, EncodeOne(z, m).value + rest).Err?
  {
    var packed, head := Pack(z, m.data, m.compressed), EncodeSigned(0x01, m.connectionIdSigned).value;
    Reassociate(head, packed, rest);
    SignedRoundTrip(0x01, m.connectionIdSigned, packed + rest);
    LongIsRefused(z, m.data, m.compressed, rest);
  }

  lemma {:induction false} LongRefusesAll(z: Zstd, ms: seq<ClientMessageType>, k: nat)
    requires z.Lawful() && EncodeAll(z, ms).Ok? && |EncodeAll(z, ms).value| < U32_LIMIT
    requires k < |ms| && !Short(ms[k]) && forall i :: 0 <= i < k ==> Short(ms[i])
    ensures DecodeAll(z, EncodeAll(z, ms).value).Err?
  {
    var head, tail := EncodeOne(z, ms[0]).value, EncodeAll(z, ms[1..]).value;
    if k == 0 {
      LongOneRefused(z, ms[0], tail);
    } else {
      OneFits(z, ms[0]);
      OneRoundTrip(z, ms[0], tail);
      LongRefusesAll(z, ms[1..], k - 1);
    }
  }

  lemma OneFits(z: Zstd, m: ClientMessageType)
    requires EncodeOne(z, m).Ok?
    ensures Encodable(m)
  {
    EncodesExactly(z, [m]);
    assert m in [m];
  }

  function FirstLong(ms: seq<ClientMessageType>): (k: nat)
    requires exists m :: m in ms && !Short(m)
    ensures k < |ms| && !Short(ms[k]) && forall i :: 0 <= i < k ==> Short(ms[i])
  {
    if !Short(ms[0]) then 0 else 1 + FirstLong(ms[1..])
  }

  /** A batch with data of 2^32 bytes or more is refused whole, even if it is compressed to less. */
  lemma LongBatchIsRefused(z: Zstd, m: ClientMessage)
    requires z.Lawful() && Serialize(z, m).Ok? && |Serialize(z, m).value| < U32_LIMIT
    requires exists msg :: msg in m.messages && !Short(msg)
    ensures Deserialize(z, Serialize(z, m).value).Err?
  {
    var body := EncodeAll(z, m.messages).value;
    LongRefusesAll(z, m.messages, FirstLong(m.messages));
    Widths();
    TakeFrom(m.clientPublicKey, LittleEndian(m.nonce, 8) + body);
    TakeNumberFrom(m.nonce, 8, body);
  }

  /** Everything that decodes can be encoded again. */
  lemma DecodedOneIsEncodable(z: Zstd, b: seq<Byte>)
    requires DecodeOne(z, b).Ok?
    ensures Encodable(DecodeOne(z, b).value.0) && Short(DecodeOne(z, b).value.0)
  {
    var m := DecodeOne(z, b).value.0;
    match m {
      case StartConnection(_, _) => Addresses.AddressCanonical(b[1..]);
      case Data(_, _, _) => UnpackedIsShort(z, DecodeSigned(b[1..]).value.1);
      case _ =>
    }
  }

  lemma {:induction false} DecodedIsEncodable(z: Zstd, b: seq<Byte>)
    requires DecodeAll(z, b).Ok?
    ensures forall m :: m in DecodeAll(z, b).value ==> Encodable(m) && Short(m)
    decreases |b|
  {
    if b != [] {
      DecodedOneIsEncodable(z, b);
      DecodedIsEncodable(z, DecodeOne(z, b).value.1);
    }
  }

  /** A batch that serializes comes back, up to the compression flags, if and only if every payload is under 2^32. */
  lemma BatchRoundTripExactly(z: Zstd, m: ClientMessage)
    requires z.Lawful() && Serialize(z, m).Ok?
    ensures (var r := Deserialize(z, Serialize(z, m).value); r.Ok? && SameBatch(m, r.value))
       <==> forall msg :: msg in m.messages ==> Short(msg)
  {
    var r := Deserialize(z, Serialize(z, m).value);
    if forall msg :: msg in m.messages ==> Short(msg) {
      BatchRoundTrip(z, m);
    }
    if r.Ok? && SameBatch(m, r.value) {
      DecodedIsShort(z, Serialize(z, m).value);
      SameIsShort(m, r.value);
    }
  }

  /** 2^32 bytes are too many. */
  lemma LongDataIsLost(z: Zstd, key: Key, nonce: U64)
    requires z.Lawful()
    ensures var m := ClientMessage(key, nonce, [Data([], seq(U32_LIMIT, i => 0), false)]);
            && Serialize(z, m).Ok?
            && !(Deserialize(z, Serialize(z, m).value).Ok? && SameBatch(m, Deserialize(z, Serialize(z, m).value).value))
  {
    var msg := Data([], seq(U32_LIMIT, i => 0), false);
    var m := ClientMessage(key, nonce, [msg]);
    EncodesExactly(z, m.messages);
    BatchRoundTripExactly(z, m);
    assert msg in m.messages && !Short(msg);
  }

  lemma DecodedIsShort(z: Zstd, b: seq<Byte>)
    requires Deserialize(z, b).Ok?
    ensures forall msg :: msg in Deserialize(z, b).value.messages ==> Encodable(msg) && Short(msg)
  {
    DecodedIsEncodable(z, b[32..][8..]);
  }

  lemma SameIsShort(m: ClientMessage, m': ClientMessage)
    requires SameBatch(m, m') && forall msg :: msg in m'.messages ==> Short(msg)
    ensures forall msg :: msg in m.messages ==> Short(msg)
  {
    forall i | 0 <= i < |m.messages| ensures Short(m.messages[i]) {
      assert m'.messages[i] in m'.messages && Same(m.messages[i], m'.messages[i]);
    }
  }

  /** Whatever decodes, encodes again and decodes to the same batch up to the flags. */
  lemma BatchNormalForm(z: Zstd, b: seq<Byte>)
    requires z.Lawful() && Deserialize(z, b).Ok?
    ensures var m := Deserialize(z, b).value;
            && Serialize(z, m).Ok?
            && Deserialize(z, Serialize(z, m).value) == Ok(ReceivedBatch(z, m))
            && SameBatch(m, ReceivedBatch(z, m))
  {
    DecodedIsShort(z, b);
    EncodesExactly(z, Deserialize(z, b).value.messages);
    BatchRoundTrip(z, Deserialize(z, b).value);
  }

  /** Encoding is not undone byte by byte: any flag but 0x01 reads as raw, and raw is written back as 0x00. */
  lemma EncodingIsNotUnique(z: Zstd)
    requires z.Lawful()
    ensures var b := [0x01, 0x00, 0x02] + (LittleEndian(0, 4) + LittleEndian(0, 4));
            DecodeOne(z, b) == Ok((Data([], [], false), [])) && EncodeOne(z, Data([], [], false)) != Ok(b)
  {
    var lengths := LittleEndian(0, 4) + LittleEndian(0, 4);
    UnknownFlagIsRaw(z, 0x02);
    EmptySigned([0x02] + lengths);
    TakeFrom([0x01], [0x00] + ([0x02] + lengths));
    assert [0x01, 0x00, 0x02] + lengths == [0x01] + ([0x00] + ([0x02] + lengths));
    EmptyDataFlag(z);
  }

  lemma EmptySigned(rest: seq<Byte>)
    ensures DecodeSigned([0x00] + rest) == Ok(([], rest))
  {
    TakeFrom([0x00], rest);
    assert rest[..0] == [] && rest[0..] == rest;
  }

  lemma EmptyDataFlag(z: Zstd)
    ensures EncodeOne(z, Data([], [], false)).Ok?
    ensures |EncodeOne(z, Data([], [], false)).value| > 2 && EncodeOne(z, Data([], [], false)).value[2] == 0x00
  {
    var payload := Pack(z, [], false);
    assert payload[0] == 0x00;
    assert ([0x01, 0x00] + payload)[2] == payload[0];
    assert EncodeSigned(0x01, []).value == [0x01, 0x00];
  }

  lemma UnknownFlagIsRaw(z: Zstd, flag: Byte)
    requires flag != 0x01
    ensures Unpack(z, [flag] + (LittleEndian(0, 4) + LittleEndian(0, 4))) == Ok((([], false), []))
  {
    Widths();
    TakeFrom([flag], LittleEndian(0, 4) + LittleEndian(0, 4));
    TakeNumberFrom(0, 4, LittleEndian(0, 4));
    TakeNumberFrom(0, 4, []);
    assert LittleEndian(0, 4) + [] == LittleEndian(0, 4);
  }

  /** What one message decodes to does not depend on what follows it. */
  lemma DecodeOneExtends(z: Zstd, b: seq<Byte>, more: seq<Byte>)
    requires DecodeOne(z, b).Ok?
    ensures DecodeOne(z, b + more) == Ok((DecodeOne(z, b).value.0, DecodeOne(z, b).value.1 + more))
  {
    TakeExtends(b, 1, more);
    var b1 := b[1..];
    match DecodeOne(z, b).value.0 {
      case StartConnection(host, _) =>
        Addresses.AddressCanonical(b1);
        var (_, b2) := Addresses.Decode(b1).value;
        assert b1 + more == Addresses.Encode(host).value + (b2 + more);
        Addresses.AddressRoundTrip(host, b2 + more);
        TakeExtends(b2, 2, more);
      case Data(_, _, _) =>
        TakeExtends(b1, 1, more);
        TakeExtends(b1[1..], b1[0], more);
        UnpackExtends(z, DecodeSigned(b1).value.1, more);
      case Close(_) =>
        TakeExtends(b1, 1, more);
        TakeExtends(b1[1..], b1[0], more);
      case Poll =>
    }
  }

  /** A successful decoder has consumed its whole input: what follows is decoded on its own. */
  lemma {:induction false} DecodingConsumesAll(z: Zstd, b: seq<Byte>, more: seq<Byte>)
    requires DecodeAll(z, b).Ok?
    ensures DecodeAll(z, b + more) == PrependMessages(DecodeAll(z, b).value, DecodeAll(z, more))
    decreases |b|
  {
    if b == [] {
      assert b + more == more;
      PrependNoMessages(DecodeAll(z, more));
    } else {
      var (m, rest) := DecodeOne(z, b).value;
      DecodeOneExtends(z, b, more);
      DecodingConsumesAll(z, rest, more);
      var r := DecodeAll(z, more);
      assert r.Ok? ==> [m] + (DecodeAll(z, rest).value + r.value) == ([m] + DecodeAll(z, rest).value) + r.value;
    }
  }

  // When re-encoding gives the bytes that were read.

  /** The first message is not Data, or its payload section is canonical. */
  predicate CanonicalOne(z: Zstd, b: seq<Byte>)
    requires DecodeOne(z, b).Ok?
  {
    b[0] == 0x01 ==> CanonicalSection(z, DecodeSigned(b[1..]).value.1)
  }

  /** Every Data payload met while decoding is canonical. */
  predicate CanonicalAll(z: Zstd, b: seq<Byte>)
    requires DecodeAll(z, b).Ok?
    decreases |b|
  {
    b != [] ==> CanonicalOne(z, b) && CanonicalAll(z, DecodeOne(z, b).value.1)
  }

  /** The same of a whole batch, whose first 40 bytes are key and nonce. */
  predicate CanonicalBatch(z: Zstd, b: seq<Byte>)
    requires Deserialize(z, b).Ok?
  {
    CanonicalAll(z, b[32..][8..])
  }

  lemma SignedCanonical(kind: Byte, b: seq<Byte>)
    requires DecodeSigned(b).Ok?
    ensures var (signed, rest) := DecodeSigned(b).value;
            |signed| <= 255 && EncodeSigned(kind, signed).value + rest == [kind] + b
  {
    assert b == [b[0]] + b[1..];
  }

  lemma StartCanonical(b: seq<Byte>)
    requires Addresses.Decode(b).Ok? && TakeNumber(Addresses.Decode(b).value.1, 2).Ok?
    ensures var (host, b2) := Addresses.Decode(b).value; var (port, rest) := TakeNumber(b2, 2).value;
            && Addresses.Encodable(host)
            && [0x00] + (Addresses.Encode(host).value + LittleEndian(port, 2)) + rest == [0x00] + b
  {
    var (host, b2) := Addresses.Decode(b).value;
    Addresses.AddressCanonical(b);
    BytesRoundTrip(b2[..2]);
    assert b2 == b2[..2] + b2[2..];
  }

  lemma OneCanonical(z: Zstd, b: seq<Byte>)
    requires DecodeOne(z, b).Ok?
    ensures var (m, rest) := DecodeOne(z, b).value;
            EncodeOne(z, m).Ok? && (EncodeOne(z, m).value + rest == b <==> CanonicalOne(z, b))
  {
    var (m, rest) := DecodeOne(z, b).value;
    assert b == [b[0]] + b[1..];
    match m {
      case StartConnection(_, _) => StartCanonical(b[1..]);
      case Data(signed, data, compressed) =>
        var section := DecodeSigned(b[1..]).value.1;
        var head := EncodeSigned(0x01, signed).value;
        SignedCanonical(0x01, b[1..]);
        PackCanonical(z, section);
        Reassociate(head, Pack(z, data, compressed), rest);
        SameTail(head, Pack(z, data, compressed) + rest, section);
      case Close(_) => SignedCanonical(0x02, b[1..]);
      case Poll =>
    }
  }

  lemma SameTail(head: seq<Byte>, one: seq<Byte>, two: seq<Byte>)
    ensures head + one == head + two <==> one == two
  {
    if head + one == head + two {
      SameParts(head, head, one, two);
    }
  }

  lemma {:induction false} AllCanonical(z: Zstd, b: seq<Byte>)
    requires z.Lawful() && DecodeAll(z, b).Ok?
    ensures EncodeAll(z, DecodeAll(z, b).value) == Ok(b) <==> CanonicalAll(z, b)
    decreases |b|
  {
    if b != [] {
      var (m, rest) := DecodeOne(z, b).value;
      var tail := DecodeAll(z, rest).value;
      OneCanonical(z, b);
      AllCanonical(z, rest);
      assert ([m] + tail)[1..] == tail;
      if EncodeAll(z, [m] + tail) == Ok(b) {
        DecodedOneIsEncodable(z, b);
        OneRoundTrip(z, m, EncodeAll(z, tail).value);
      }
    }
  }

  /** Encoding what was decoded gives the same bytes if and only if every Data payload was canonical. */
  lemma ReencodesExactly(z: Zstd, b: seq<Byte>)
    requires z.Lawful() && Deserialize(z, b).Ok?
    ensures Serialize(z, Deserialize(z, b).value) == Ok(b) <==> CanonicalBatch(z, b)
  {
    var m := Deserialize(z, b).value;
    var body := b[32..][8..];
    AllCanonical(z, body);
    BytesRoundTrip(b[32..][..8]);
    assert b[32..] == b[32..][..8] + body && b == b[..32] + b[32..];
    if EncodeAll(z, m.messages).Ok? {
      SameTail(LittleEndian(m.nonce, 8), EncodeAll(z, m.messages).value, body);
      SameTail(m.clientPublicKey, LittleEndian(m.nonce, 8) + EncodeAll(z, m.messages).value, b[32..]);
    }
  }
}
