/** The two framings around the messages: signed connection ids and the envelope the lambda forwards. */
module Framing {
  import opened Bytes
  import opened Options
  import Addresses
  import ClientMessages

  const SIGNATURE_LENGTH: nat := 64

  /** A signature scheme as both ends see it; the key pair is the client's. */
  datatype Signer = Signer(sign: seq<Byte> -> seq<Byte>, verify: (seq<Byte>, seq<Byte>) -> bool) {
    ghost predicate Lawful() {
      forall x :: |sign(x)| == SIGNATURE_LENGTH && verify(x, sign(x))
    }
  }

  /** The bytes a connection id's signature covers. */
  function BytesToSign(address: seq<Byte>, port: U16, id: U64): seq<Byte> {
    address + (LittleEndian(port, 2) + LittleEndian(id, 8))
  }

  function Joined(address: seq<Byte>, port: U16, id: U64, signature: seq<Byte>): seq<Byte> {
    BytesToSign(address, port, id) + signature
  }

  datatype SignedParts = SignedParts(address: seq<Byte>, port: U16, id: U64, signature: seq<Byte>)

  /** The server's reading, from the back: 64 bytes of signature, 8 of id, 2 of port, and the address. */
  function Split(b: seq<Byte>): Option<SignedParts> {
    if |b| < SIGNATURE_LENGTH + 8 + 2 then None else
    var signed, signature := b[..|b| - SIGNATURE_LENGTH], b[|b| - SIGNATURE_LENGTH..];
    var addressAndPort, id := signed[..|signed| - 8], signed[|signed| - 8..];
    var address, port := addressAndPort[..|addressAndPort| - 2], addressAndPort[|addressAndPort| - 2..];
    BytesRoundTrip(id);
    BytesRoundTrip(port);
    Widths();
    Some(SignedParts(address, FromLittleEndian(port), FromLittleEndian(id), signature))
  }

  /** The connection a signed id speaks for, if its signature holds. */
  function VerifiedId(s: Signer, b: seq<Byte>): Option<U64> {
    match Split(b)
    case None => None
    case Some(p) => if s.verify(BytesToSign(p.address, p.port, p.id), p.signature) then Some(p.id) else None
  }

  /** The last 64 bytes verify over all bytes before them, of which there are at least 10. */
  predicate Genuine(s: Signer, b: seq<Byte>) {
    |b| >= 74 && s.verify(b[..|b| - 64], b[|b| - 64..])
  }

  /** A signed id speaks for a connection if and only if it is genuine and the connection's id is in the 8 bytes before
      the signature. */
  lemma VerifiedExactly(s: Signer, b: seq<Byte>, id: U64)
    ensures VerifiedId(s, b) == Some(id)
       <==> |b| >= 74 && s.verify(b[..|b| - 64], b[|b| - 64..]) && id == FromLittleEndian(b[|b| - 72..|b| - 64])
  {
    JoinInvertsSplit(b);
    if |b| >= 74 {
      assert b[..|b| - 64][|b| - 72..] == b[|b| - 72..|b| - 64];
    }
  }

  /** So nothing else gets past the checks. */
  lemma ForgedIsRefused(s: Signer, b: seq<Byte>)
    ensures VerifiedId(s, b).None? <==> !Genuine(s, b)
  {
    if VerifiedId(s, b).Some? {
      VerifiedExactly(s, b, VerifiedId(s, b).value);
    } else if Genuine(s, b) {
      BytesRoundTrip(b[|b| - 72..|b| - 64]);
      Widths();
      VerifiedExactly(s, b, FromLittleEndian(b[|b| - 72..|b| - 64]));
    }
  }

  // The code, step by step.

  method SignConnectionId(s: Signer, address: seq<Byte>, port: U16, id: U64) returns (signature: seq<Byte>)
    ensures signature == s.sign(BytesToSign(address, port, id))
  {
    var dataToSign: seq<Byte> := [];
    dataToSign := dataToSign + address;
    dataToSign := dataToSign + LittleEndian(port, 2);
    dataToSign := dataToSign + LittleEndian(id, 8);
    assert dataToSign == BytesToSign(address, port, id);
    signature := s.sign(dataToSign);
  }

  method JoinSigned(s: Signer, address: seq<Byte>, port: U16, id: U64) returns (signed: seq<Byte>)
    ensures signed == Joined(address, port, id, s.sign(BytesToSign(address, port, id)))
  {
    var signature := SignConnectionId(s, address, port, id);
    signed := [];
    signed := signed + address;
    signed := signed + LittleEndian(port, 2);
    signed := signed + LittleEndian(id, 8);
    signed := signed + signature;
    assert signed == Joined(address, port, id, signature);
  }

  method VerifyConnectionId(s: Signer, address: seq<Byte>, port: U16, id: U64, signature: seq<Byte>) returns (ok: bool)
    ensures ok == (|signature| == SIGNATURE_LENGTH && s.verify(BytesToSign(address, port, id), signature))
  {
    if |signature| != SIGNATURE_LENGTH {
      return false;
    }
    var dataToVerify: seq<Byte> := [];
    dataToVerify := dataToVerify + address;
    dataToVerify := dataToVerify + LittleEndian(port, 2);
    dataToVerify := dataToVerify + LittleEndian(id, 8);
    assert dataToVerify == BytesToSign(address, port, id);
    return s.verify(dataToVerify, signature);
  }

  /** The checks both message handlers make before they touch a connection. */
  method CheckSigned(s: Signer, b: seq<Byte>) returns (id: Option<U64>)
    ensures id == VerifiedId(s, b)
    ensures id.Some? <==> |b| >= 74 && s.verify(b[..|b| - 64], b[|b| - 64..])
    ensures id.Some? ==> id.value == FromLittleEndian(b[|b| - 72..|b| - 64])
  {
    ForgedIsRefused(s, b);
    forall i: U64 {
      VerifiedExactly(s, b, i);
    }
    if |b| < 8 {
      return None;
    }
    if |b| < SIGNATURE_LENGTH {
      return None;
    }
    var signed, signature := b[..|b| - SIGNATURE_LENGTH], b[|b| - SIGNATURE_LENGTH..];
    if |signed| < 8 {
      return None;
    }
    var addressAndPort := signed[..|signed| - 8];
    var idBytes := signed[|signed| - 8..];
    if |addressAndPort| < 2 {
      return None;
    }
    var address := addressAndPort[..|addressAndPort| - 2];
    var portBytes := addressAndPort[|addressAndPort| - 2..];
    BytesRoundTrip(idBytes);
    BytesRoundTrip(portBytes);
    Widths();
    var ok := VerifyConnectionId(s, address, FromLittleEndian(portBytes), FromLittleEndian(idBytes), signature);
    return if ok then Some(FromLittleEndian(idBytes)) else None;
  }

  // Both directions.

  /** The server recovers exactly the parts the client joined. */
  lemma SplitInvertsJoin(address: seq<Byte>, port: U16, id: U64, signature: seq<Byte>)
    requires |signature| == SIGNATURE_LENGTH
    ensures Split(Joined(address, port, id, signature)) == Some(SignedParts(address, port, id, signature))
  {
    var b := Joined(address, port, id, signature);
    var signed := b[..|b| - SIGNATURE_LENGTH];
    assert signed == BytesToSign(address, port, id) && b[|b| - SIGNATURE_LENGTH..] == signature;
    assert signed[|signed| - 8..] == LittleEndian(id, 8);
    var addressAndPort := signed[..|signed| - 8];
    assert addressAndPort == address + LittleEndian(port, 2);
    assert addressAndPort[..|addressAndPort| - 2] == address;
    assert addressAndPort[|addressAndPort| - 2..] == LittleEndian(port, 2);
    Widths();
    NumberRoundTrip(id, 8);
    NumberRoundTrip(port, 2);
  }

  /** Every byte string of at least 74 bytes is some join, and the bytes checked are the ones before the signature. */
  lemma JoinInvertsSplit(b: seq<Byte>)
    ensures Split(b).Some? <==> |b| >= SIGNATURE_LENGTH + 10
    ensures Split(b).Some? ==>
              var p := Split(b).value;
              && Joined(p.address, p.port, p.id, p.signature) == b
              && BytesToSign(p.address, p.port, p.id) == b[..|b| - SIGNATURE_LENGTH]
              && |p.signature| == SIGNATURE_LENGTH
  {
    if Split(b).Some? {
      var signed := b[..|b| - SIGNATURE_LENGTH];
      var addressAndPort, id := signed[..|signed| - 8], signed[|signed| - 8..];
      var address, port := addressAndPort[..|addressAndPort| - 2], addressAndPort[|addressAndPort| - 2..];
      BytesRoundTrip(id);
      BytesRoundTrip(port);
      SlicesRejoin(signed);
      assert signed + b[|b| - SIGNATURE_LENGTH..] == b;
    }
  }

  lemma SlicesRejoin(signed: seq<Byte>)
    requires |signed| >= 10
    ensures var a := signed[..|signed| - 8];
            a[..|a| - 2] + (a[|a| - 2..] + signed[|signed| - 8..]) == signed
  {}

  /** What the client signs for a connection, the server accepts for that connection and no other. */
  lemma OwnIdVerifies(s: Signer, address: seq<Byte>, port: U16, id: U64)
    requires s.Lawful()
    ensures VerifiedId(s, Joined(address, port, id, s.sign(BytesToSign(address, port, id)))) == Some(id)
  {
    SplitInvertsJoin(address, port, id, s.sign(BytesToSign(address, port, id)));
  }

  /** A queued Data or Close can be serialized if and only if the server's host name has at most 179 bytes. */
  lemma SignedFitsExactly(s: Signer, host: Addresses.Utf8, port: U16, id: U64, data: seq<Byte>)
    requires s.Lawful() && |host| <= 255
    ensures var address := Addresses.Encode(Addresses.Domain(host)).value;
            var signed := Joined(address, port, id, s.sign(BytesToSign(address, port, id)));
            && (ClientMessages.Encodable(ClientMessages.Data(signed, data, true)) <==> |host| <= 179)
            && (ClientMessages.Encodable(ClientMessages.Close(signed)) <==> |host| <= 179)
  {
    assert |Addresses.Encode(Addresses.Domain(host)).value| == |host| + 2;
  }

  // The envelope.

  datatype Envelope = Envelope(server: Addresses.SocksAddress, port: U16, payload: seq<Byte>)

  function Wrap(host: Addresses.Utf8, port: U16, payload: seq<Byte>): Result<seq<Byte>> {
    var address :- Addresses.Encode(Addresses.Domain(host));
    Ok(address + (LittleEndian(port, 2) + (LittleEndian(AsU32(|payload|), 4) + payload)))
  }

  /** The lambda's reading; what follows the announced payload is ignored. */
  function Unwrap(b: seq<Byte>): Result<Envelope> {
    var (server, b1) :- Addresses.Decode(b);
    var (port, b2) :- TakeNumber(b1, 2);
    var (length, b3) :- TakeNumber(b2, 4);
    var (payload, _) :- Take(b3, length);
    NumberInRange(b1, 2);
    Widths();
    Ok(Envelope(server, port, payload))
  }

  method BuildRequest(host: Addresses.Utf8, port: U16, encrypted: seq<Byte>) returns (r: Result<seq<Byte>>)
    ensures r == Wrap(host, port, encrypted)
  {
    var body: seq<Byte> := [];
    body :- Addresses.EncodeInto(Addresses.Domain(host), body);
    body := body + LittleEndian(port, 2);
    body := body + LittleEndian(AsU32(|encrypted|), 4);
    body := body + encrypted;
    assert body == Wrap(host, port, encrypted).value;
    return Ok(body);
  }

  method ParseRequest(body: seq<Byte>) returns (r: Result<Envelope>)
    ensures r == Unwrap(body)
  {
    var cursor := new Cursor(body);
    var server :- Addresses.DecodeFrom(cursor);
    var port :- cursor.ReadNumber(2);
    var length :- cursor.ReadNumber(4);
    var payload :- cursor.ReadExact(length);
    Widths();
    return Ok(Envelope(server, port, payload));
  }

  /** What the lambda reads of an envelope: the announced length is the payload's, cut to 32 bits. */
  lemma UnwrapOfWrap(host: Addresses.Utf8, port: U16, payload: seq<Byte>, more: seq<Byte>)
    requires |host| <= 255
    ensures Unwrap(Wrap(host, port, payload).value + more)
            == Ok(Envelope(Addresses.Domain(host), port, payload[..AsU32(|payload|)]))
  {
    var address := Addresses.Encode(Addresses.Domain(host)).value;
    var length := AsU32(|payload|);
    var b3 := payload + more;
    var b2 := LittleEndian(length, 4) + b3;
    var b1 := LittleEndian(port, 2) + b2;
    assert Wrap(host, port, payload).value + more == address + b1;
    Addresses.AddressRoundTrip(Addresses.Domain(host), b1);
    Widths();
    TakeNumberFrom(port, 2, b2);
    TakeNumberFrom(length, 4, b3);
    assert b3[..length] == payload[..length];
  }

  /** The lambda forwards exactly the payload the client wrapped if and only if it is shorter than 2^32. */
  lemma EnvelopeExactly(host: Addresses.Utf8, port: U16, payload: seq<Byte>)
    ensures Wrap(host, port, payload).Ok? <==> |host| <= 255
    ensures Wrap(host, port, payload).Ok? ==>
              (Unwrap(Wrap(host, port, payload).value) == Ok(Envelope(Addresses.Domain(host), port, payload))
               <==> |payload| < U32_LIMIT)
  {
    if |host| <= 255 {
      var w := Wrap(host, port, payload).value;
      assert w + [] == w;
      UnwrapOfWrap(host, port, payload, []);
      CutExactly(payload);
    }
  }

  lemma CutExactly(payload: seq<Byte>)
    ensures payload[..AsU32(|payload|)] == payload <==> |payload| < U32_LIMIT
  {
    if |payload| < U32_LIMIT {
      assert AsU32(|payload|) == |payload|;
    } else {
      assert |payload[..AsU32(|payload|)]| < |payload|;
    }
  }

  /** Of a payload of 2^32 bytes the lambda forwards none. */
  lemma LongPayloadIsCut(host: Addresses.Utf8, port: U16)
    requires |host| <= 255
    ensures var payload := seq(U32_LIMIT, i => 0);
            Unwrap(Wrap(host, port, payload).value) == Ok(Envelope(Addresses.Domain(host), port, []))
  {
    var payload := seq(U32_LIMIT, i => 0);
    var w := Wrap(host, port, payload).value;
    assert w + [] == w && payload[..0] == [];
    UnwrapOfWrap(host, port, payload, []);
  }
}
