/** The formats byte by byte, with the numbers that are on the wire. */
module Layouts {
  import opened Bytes
  import opened Options
  import Addresses
  import CM = ClientMessages
  import Framing
  import opened Payloads
  import SR = ServerResponses

  /** Numbers go out lowest byte first. */
  lemma NumberLayout(n: nat)
    ensures LittleEndian(n, 2) == [n % 256, n / 256 % 256]
    ensures LittleEndian(n, 4) == [n % 256, n / 256 % 256, n / 256 / 256 % 256, n / 256 / 256 / 256 % 256]
    ensures LittleEndian(n, 8) == LittleEndian(n, 4) + LittleEndian(n / 256 / 256 / 256 / 256, 4)
  {
    TwoBytes(n);
    TwoBytes(n / 256 / 256);
    var high := n / 256 / 256 / 256 / 256;
    assert LittleEndian(n, 8) == [n % 256] + LittleEndian(n / 256, 7);
    assert LittleEndian(n / 256, 7) == [n / 256 % 256] + LittleEndian(n / 256 / 256, 6);
    assert LittleEndian(n / 256 / 256, 6) == [n / 256 / 256 % 256] + LittleEndian(n / 256 / 256 / 256, 5);
    assert LittleEndian(n / 256 / 256 / 256, 5) == [n / 256 / 256 / 256 % 256] + LittleEndian(high, 4);
    assert LittleEndian(n, 4) == [n % 256] + LittleEndian(n / 256, 3);
    assert LittleEndian(n / 256, 3) == [n / 256 % 256] + LittleEndian(n / 256 / 256, 2);
  }

  lemma TwoBytes(n: nat)
    ensures LittleEndian(n, 2) == [n % 256, n / 256 % 256]
  {
    assert LittleEndian(n / 256, 1) == [n / 256 % 256] + LittleEndian(n / 256 / 256, 0);
  }

  /** An address: its kind, for a name its length, and its bytes. */
  lemma AddressLayout(a: Addresses.SocksAddress)
    requires Addresses.Encodable(a)
    ensures Addresses.Encode(a).Ok?
    ensures var e := Addresses.Encode(a).value;
            match a
            case IPv4(octets) => |e| == 5 && e[0] == 0x01 && e[1..] == octets
            case Domain(name) => |e| == 2 + |name| && e[0] == 0x03 && e[1] == |name| && e[2..] == name
            case IPv6(octets) => |e| == 17 && e[0] == 0x04 && e[1..] == octets
  {}

  /** A payload: a flag that says whether it is compressed, its length, its length on the wire, and its bytes. */
  lemma PayloadLayout(z: Zstd, data: seq<Byte>, requested: bool)
    ensures var e := Pack(z, data, requested);
            var shorter := requested && |data| > 128 && z.encode(data).Some? && |z.encode(data).value| < |data|;
            var wire := if shorter then z.encode(data).value else data;
            && |e| == 9 + |wire| && e[0] == (if shorter then 0x01 else 0x00)
            && e[1..5] == LittleEndian(|data| % 0x1_0000_0000, 4)
            && e[5..9] == LittleEndian(|wire| % 0x1_0000_0000, 4)
            && e[9..] == wire
  {
    var wire := OnWire(z, data, requested);
    var lengths := LittleEndian(AsU32(|data|), 4) + (LittleEndian(AsU32(|wire|), 4) + wire);
    assert Pack(z, data, requested)[1..] == lengths;
    assert lengths[..4] == LittleEndian(AsU32(|data|), 4) && lengths[4..8] == LittleEndian(AsU32(|wire|), 4);
    assert lengths[8..] == wire;
  }

  /** A client message: its kind, and for Data and Close the signed id with its length. */
  lemma MessageLayout(z: Zstd, m: CM.ClientMessageType)
    requires CM.EncodeOne(z, m).Ok?
    ensures var e := CM.EncodeOne(z, m).value;
            match m
            case StartConnection(host, port) =>
              Addresses.Encode(host).Ok? && e == [0x00] + (Addresses.Encode(host).value + [port % 256, port / 256])
            case Data(signed, data, compressed) =>
              |signed| <= 255 && e == [0x01, |signed|] + (signed + Pack(z, data, compressed))
            case Close(signed) => |signed| <= 255 && e == [0x02, |signed|] + signed
            case Poll => e == [0x03]
  {
    match m {
      case StartConnection(host, port) => NumberLayout(port);
      case Data(signed, data, compressed) =>
        Reassociate([0x01, |signed|], signed, Pack(z, data, compressed));
      case _ =>
    }
  }

  /** A batch: the client's key, the nonce, and the messages. */
  lemma BatchLayout(z: Zstd, m: CM.ClientMessage)
    requires CM.Serialize(z, m).Ok?
    ensures CM.EncodeAll(z, m.messages).Ok?
    ensures var e := CM.Serialize(z, m).value;
            && |e| >= 40 && e[..32] == m.clientPublicKey && e[32..40] == LittleEndian(m.nonce, 8)
            && e[40..] == CM.EncodeAll(z, m.messages).value
  {
    var rest := LittleEndian(m.nonce, 8) + CM.EncodeAll(z, m.messages).value;
    var e := m.clientPublicKey + rest;
    assert e[32..] == rest && rest[..8] == LittleEndian(m.nonce, 8);
    assert rest[8..] == CM.EncodeAll(z, m.messages).value;
    assert e[32..40] == rest[..8] && e[40..] == rest[8..];
  }

  /** A response: its kind, the connection's id, and what its kind says. */
  lemma ResponseLayout(z: Zstd, r: SR.ServerResponseType)
    ensures var e := SR.EncodeOne(z, r);
            && |e| >= 9 && e[1..9] == LittleEndian(r.connectionId, 8)
            && match r
               case Challenge(_) => e[0] == 0x00 && |e| == 9
               case Data(_, data, compressed) => e[0] == 0x01 && e[9..] == Pack(z, data, compressed)
               case Close(_, text) => e[0] == 0x02 && e[9..] == LittleEndian(|text| % 0x1_0000_0000, 4) + text
               case Error(_, code, text) =>
                 && e[0] == 0x03 && |e| >= 10 && e[9] == ErrorByte(code)
                 && e[10..] == LittleEndian(|text| % 0x1_0000_0000, 4) + text
  {
    ResponseParts(z, r);
    if r.Error? {
      assert SR.Tail(z, r)[1..] == SR.EncodeText(r.message);
    }
  }

  lemma ResponseParts(z: Zstd, r: SR.ServerResponseType)
    ensures var (e, tail) := (SR.EncodeOne(z, r), SR.Tail(z, r));
            && |e| == 9 + |tail| && e[1..9] == LittleEndian(r.connectionId, 8) && e[9..] == tail
            && e[0] == (if r.Challenge? then 0x00 else if r.Data? then 0x01 else if r.Close? then 0x02 else 0x03)
            && (tail != [] ==> e[9] == tail[0] && e[10..] == tail[1..])
  {
    var kind: Byte := if r.Challenge? then 0x00 else if r.Data? then 0x01 else if r.Close? then 0x02 else 0x03;
    SR.EncodeParts(z, r, kind);
    Parts([kind], LittleEndian(r.connectionId, 8), SR.Tail(z, r));
  }

  lemma Parts(kind: seq<Byte>, id: seq<Byte>, tail: seq<Byte>)
    requires |kind| == 1 && |id| == 8
    ensures var e := kind + (id + tail);
            && |e| == 9 + |tail| && e[0] == kind[0] && e[1..9] == id && e[9..] == tail
            && (tail != [] ==> e[9] == tail[0] && e[10..] == tail[1..])
  {}

  function ErrorByte(code: SR.ErrorCode): Byte {
    match code
    case Timeout => 1
    case ConnectionRefused => 2
    case HostUnreachable => 3
    case TooManyConnections => 4
    case InvalidNonce => 5
    case Unknown => 255
  }

  /** The envelope: the server's name as an address, its port, the payload's length and the payload. */
  lemma EnvelopeLayout(host: Addresses.Utf8, port: U16, payload: seq<Byte>)
    requires |host| <= 255
    ensures Framing.Wrap(host, port, payload).Ok?
    ensures var e, n := Framing.Wrap(host, port, payload).value, |host|;
            && |e| == n + 8 + |payload| && e[0] == 0x03 && e[1] == n && e[2..n + 2] == host
            && e[n + 2] == port % 256 && e[n + 3] == port / 256
            && e[n + 4..n + 8] == LittleEndian(|payload| % 0x1_0000_0000, 4) && e[n + 8..] == payload
  {
    NumberLayout(port);
    Fields([0x03, |host|], host, [port % 256, port / 256], LittleEndian(AsU32(|payload|), 4), payload);
  }

  lemma Fields(head: seq<Byte>, name: seq<Byte>, ports: seq<Byte>, length: seq<Byte>, payload: seq<Byte>)
    requires |head| == |ports| == 2 && |length| == 4
    ensures var e, n := (head + name) + (ports + (length + payload)), |name|;
            && |e| == n + 8 + |payload| && e[0] == head[0] && e[1] == head[1] && e[2..n + 2] == name
            && e[n + 2] == ports[0] && e[n + 3] == ports[1] && e[n + 4..n + 8] == length && e[n + 8..] == payload
  {
    Middle(head, name, ports + (length + payload));
    Middle(head + name, ports, length + payload);
    Middle(head + name + ports, length, payload);
    Reassociate(head + name, ports, length + payload);
    Reassociate(head, name, ports + (length + payload));
  }

  lemma Middle(a: seq<Byte>, b: seq<Byte>, c: seq<Byte>)
    ensures var e := a + (b + c); e[..|a|] == a && e[|a|..|a| + |b|] == b && e[|a| + |b|..] == c
    ensures forall i :: 0 <= i < |b| ==> (a + (b + c))[|a| + i] == b[i]
  {}

  /** A signed id: address, port and id, which are what is signed, and the signature. */
  lemma SignedLayout(address: seq<Byte>, port: U16, id: U64, signature: seq<Byte>)
    requires |signature| == 64
    ensures var b := Framing.Joined(address, port, id, signature);
            var n := |address|;
            && |b| == n + 74 && b[..n] == address && b[n] == port % 256 && b[n + 1] == port / 256
            && b[n + 2..n + 10] == LittleEndian(id, 8) && b[n + 10..] == signature
            && Framing.BytesToSign(address, port, id) == b[..n + 10]
  {
    NumberLayout(port);
    var ports, number := [port % 256, port / 256], LittleEndian(id, 8);
    Middle(address, ports, number + signature);
    Middle(address + ports, number, signature);
    Middle(address + ports + number, signature, []);
    Reassociate(address, ports, number);
    Reassociate(address, ports, number + signature);
    Reassociate(address + ports, number, signature);
  }
}
