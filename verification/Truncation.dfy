/** What the deserializers make of bytes that were cut off. */
module Truncation {
  import opened Bytes
  import opened Options
  import Addresses
  import CM = ClientMessages
  import opened Payloads
  import SR = ServerResponses

  /** Of `size` bytes, which read as `whole`, the first n read as `cut`: the same, if all bytes that were used are still
      there, and otherwise an I/O error. */
  ghost predicate Cut<T>(whole: Result<(T, seq<Byte>)>, cut: Result<(T, seq<Byte>)>, size: nat, n: nat)
    requires n <= size
  {
    whole.Ok? ==>
      var (value, rest) := whole.value;
      && |rest| <= size
      && cut == if n < size - |rest| then Err(Io) else Ok((value, rest[..n - (size - |rest|)]))
  }

  lemma TakeCut(b: seq<Byte>, k: nat, n: nat)
    requires n <= |b|
    ensures Cut(Take(b, k), Take(b[..n], k), |b|, n)
  {
    if k <= n {
      assert b[..n][..k] == b[..k] && b[..n][k..] == b[k..][..n - k];
    }
  }

  lemma TakeNumberCut(b: seq<Byte>, width: nat, n: nat)
    requires n <= |b|
    ensures Cut(TakeNumber(b, width), TakeNumber(b[..n], width), |b|, n)
  {
    TakeCut(b, width, n);
  }

  lemma TextCut(b: seq<Byte>, k: nat, n: nat)
    requires n <= |b|
    ensures Cut(Addresses.DecodeText(b, k), Addresses.DecodeText(b[..n], k), |b|, n)
  {
    TakeCut(b, k, n);
  }

  lemma AddressCut(b: seq<Byte>, n: nat)
    requires n <= |b|
    ensures Cut(Addresses.Decode(b), Addresses.Decode(b[..n]), |b|, n)
  {
    TakeCut(b, 1, n);
    if n >= 1 {
      var b1, n1 := b[1..], n - 1;
      if b[0] == 0x01 {
        TakeCut(b1, 4, n1);
      } else if b[0] == 0x03 {
        TakeCut(b1, 1, n1);
        if n1 >= 1 {
          TextCut(b1[1..], b1[0], n1 - 1);
        }
      } else if b[0] == 0x04 {
        TakeCut(b1, 16, n1);
      }
    }
  }

  lemma UnpackCut(z: Zstd, b: seq<Byte>, n: nat)
    requires n <= |b|
    ensures Cut(Unpack(z, b), Unpack(z, b[..n]), |b|, n)
  {
    TakeCut(b, 1, n);
    if n >= 1 {
      TakeNumberCut(b[1..], 4, n - 1);
      if n >= 5 {
        var b2 := b[1..][4..];
        TakeNumberCut(b2, 4, n - 5);
        if n >= 9 {
          TakeCut(b2[4..], TakeNumber(b2, 4).value.0, n - 9);
        }
      }
    }
  }

  lemma SignedCut(b: seq<Byte>, n: nat)
    requires n <= |b|
    ensures Cut(CM.DecodeSigned(b), CM.DecodeSigned(b[..n]), |b|, n)
  {
    TakeCut(b, 1, n);
    if n >= 1 {
      TakeCut(b[1..], b[0], n - 1);
    }
  }

  // One message of the client, kind by kind.

  lemma StartCut(z: Zstd, b: seq<Byte>, n: nat)
    requires 0 < n <= |b| && b[0] == 0x00
    ensures Cut(CM.DecodeOne(z, b), CM.DecodeOne(z, b[..n]), |b|, n)
  {
    TakeCut(b, 1, n);
    AddressCut(b[1..], n - 1);
    if Addresses.Decode(b[1..]).Ok? {
      var rest := Addresses.Decode(b[1..]).value.1;
      if n >= |b| - |rest| {
        TakeNumberCut(rest, 2, n - (|b| - |rest|));
      }
    }
  }

  lemma DataCut(z: Zstd, b: seq<Byte>, n: nat)
    requires 0 < n <= |b| && b[0] == 0x01
    ensures Cut(CM.DecodeOne(z, b), CM.DecodeOne(z, b[..n]), |b|, n)
  {
    TakeCut(b, 1, n);
    SignedCut(b[1..], n - 1);
    if CM.DecodeSigned(b[1..]).Ok? {
      var rest := CM.DecodeSigned(b[1..]).value.1;
      if n >= |b| - |rest| {
        UnpackCut(z, rest, n - (|b| - |rest|));
      }
    }
  }

  lemma CloseCut(z: Zstd, b: seq<Byte>, n: nat)
    requires 0 < n <= |b| && b[0] == 0x02
    ensures Cut(CM.DecodeOne(z, b), CM.DecodeOne(z, b[..n]), |b|, n)
  {
    TakeCut(b, 1, n);
    SignedCut(b[1..], n - 1);
  }

  lemma PollCut(z: Zstd, b: seq<Byte>, n: nat)
    requires 0 < n <= |b| && b[0] == 0x03
    ensures Cut(CM.DecodeOne(z, b), CM.DecodeOne(z, b[..n]), |b|, n)
  {
    TakeCut(b, 1, n);
  }

  lemma MessageCut(z: Zstd, b: seq<Byte>, n: nat)
    requires n <= |b|
    ensures Cut(CM.DecodeOne(z, b), CM.DecodeOne(z, b[..n]), |b|, n)
  {
    if n > 0 {
      match b[0]
      case 0x00 => StartCut(z, b, n);
      case 0x01 => DataCut(z, b, n);
      case 0x02 => CloseCut(z, b, n);
      case 0x03 => PollCut(z, b, n);
      case _ =>
    }
  }

  /** Cutting off the end of a list of messages leaves the first ones of them, or an I/O error, and never another
      message. */
  lemma {:induction false} MessagesCut(z: Zstd, b: seq<Byte>, n: nat)
    requires CM.DecodeAll(z, b).Ok? && n <= |b|
    ensures match CM.DecodeAll(z, b[..n])
            case Ok(messages) => messages <= CM.DecodeAll(z, b).value
            case Err(e) => e == Io
    decreases |b|
  {
    if b != [] && n > 0 {
      MessageCut(z, b, n);
      var rest := CM.DecodeOne(z, b).value.1;
      if n >= |b| - |rest| {
        MessagesCut(z, rest, n - (|b| - |rest|));
      }
    }
  }

  /** A batch that lost its end is refused, or is the same batch with fewer messages. */
  lemma BatchCut(z: Zstd, b: seq<Byte>, n: nat)
    requires CM.Deserialize(z, b).Ok? && n <= |b|
    ensures n < 40 ==> CM.Deserialize(z, b[..n]) == Err(Io)
    ensures match CM.Deserialize(z, b[..n])
            case Ok(m) =>
              var whole := CM.Deserialize(z, b).value;
              && m.clientPublicKey == whole.clientPublicKey && m.nonce == whole.nonce && m.messages <= whole.messages
            case Err(e) => e == Io
  {
    TakeCut(b, 32, n);
    if n >= 32 {
      TakeNumberCut(b[32..], 8, n - 32);
      if n >= 40 {
        MessagesCut(z, b[32..][8..], n - 40);
      }
    }
  }

  lemma ResponseTextCut(b: seq<Byte>, n: nat)
    requires n <= |b|
    ensures Cut(SR.DecodeText(b), SR.DecodeText(b[..n]), |b|, n)
  {
    TakeNumberCut(b, 4, n);
    if n >= 4 {
      TextCut(b[4..], TakeNumber(b, 4).value.0, n - 4);
    }
  }

  // One response of the server, kind by kind.

  lemma IdCut(z: Zstd, b: seq<Byte>, n: nat)
    requires n <= |b| && SR.DecodeOne(z, b).Ok? && n < 9
    ensures SR.DecodeOne(z, b[..n]) == Err(Io) && |SR.DecodeOne(z, b).value.1| <= |b| - 9
  {
    if n > 0 {
      TakeCut(b, 1, n);
      TakeNumberCut(b[1..], 8, n - 1);
    }
  }

  lemma HeadCut(b: seq<Byte>, n: nat)
    requires 9 <= n <= |b|
    ensures b[..n][1..] == b[1..][..n - 1] && b[..n][1..][8..] == b[1..][8..][..n - 9]
    ensures SR.DecodeId(b[1..]).Ok? && SR.DecodeId(b[..n][1..]).Ok?
    ensures SR.DecodeId(b[..n][1..]).value.0 == SR.DecodeId(b[1..]).value.0
  {
    TakeCut(b, 1, n);
    TakeNumberCut(b[1..], 8, n - 1);
  }

  lemma ResponseDataCut(z: Zstd, b: seq<Byte>, n: nat)
    requires 9 <= n <= |b| && b[0] == 0x01
    ensures Cut(SR.DecodeOne(z, b), SR.DecodeOne(z, b[..n]), |b|, n)
  {
    HeadCut(b, n);
    UnpackCut(z, b[1..][8..], n - 9);
  }

  lemma ResponseCloseCut(z: Zstd, b: seq<Byte>, n: nat)
    requires 9 <= n <= |b| && b[0] == 0x02
    ensures Cut(SR.DecodeOne(z, b), SR.DecodeOne(z, b[..n]), |b|, n)
  {
    HeadCut(b, n);
    ResponseTextCut(b[1..][8..], n - 9);
  }

  lemma ErrorCut(z: Zstd, b: seq<Byte>, n: nat)
    requires 9 <= n <= |b| && b[0] == 0x03
    ensures Cut(SR.DecodeOne(z, b), SR.DecodeOne(z, b[..n]), |b|, n)
  {
    HeadCut(b, n);
    TakeCut(b[1..][8..], 1, n - 9);
    if n > 9 {
      ResponseTextCut(b[1..][8..][1..], n - 10);
    }
  }

  lemma ResponseCut(z: Zstd, b: seq<Byte>, n: nat)
    requires n <= |b|
    ensures Cut(SR.DecodeOne(z, b), SR.DecodeOne(z, b[..n]), |b|, n)
  {
    if SR.DecodeOne(z, b).Ok? {
      if n < 9 {
        IdCut(z, b, n);
      } else {
        match b[0]
        case 0x00 => HeadCut(b, n);
        case 0x01 => ResponseDataCut(z, b, n);
        case 0x02 => ResponseCloseCut(z, b, n);
        case _ => ErrorCut(z, b, n);
      }
    }
  }

  /** Responses that lost their end are refused, or fewer. */
  lemma {:induction false} ResponsesCut(z: Zstd, b: seq<Byte>, n: nat)
    requires SR.Deserialize(z, b).Ok? && n <= |b|
    ensures match SR.Deserialize(z, b[..n])
            case Ok(responses) => responses <= SR.Deserialize(z, b).value
            case Err(e) => e == Io
    decreases |b|
  {
    if b != [] && n > 0 {
      ResponseCut(z, b, n);
      var rest := SR.DecodeOne(z, b).value.1;
      if n >= |b| - |rest| {
        ResponsesCut(z, rest, n - (|b| - |rest|));
      }
    }
  }
  // A byte that tells no kind is named in the error.

  lemma AddressKinds(b: seq<Byte>)
    requires b != []
    ensures Addresses.Decode(b) == Err(InvalidAddressType(b[0])) <==> b[0] !in {0x01, 0x03, 0x04}
  {}

  lemma MessageKinds(z: Zstd, b: seq<Byte>)
    requires b != []
    ensures CM.DecodeOne(z, b) == Err(InvalidMessageType(b[0])) <==> b[0] > 0x03
  {}

  lemma ResponseKinds(z: Zstd, b: seq<Byte>)
    requires b != []
    ensures SR.DecodeOne(z, b) == Err(InvalidMessageType(b[0])) <==> b[0] > 0x03
  {}
}
