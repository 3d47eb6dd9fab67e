/** What the client's sender, the wire format and the server's checks guarantee together. */
module Delivery {
  import opened Bytes
  import opened Options
  import Addresses
  import CM = ClientMessages
  import Framing
  import opened LambdaSender
  import Nonces
  import Payloads
  import opened Accounts

  /** The nonces of a server's batches, in the order they are delivered. */
  function DeliveredNonces(batches: seq<Batch>, order: seq<nat>): seq<nat>
    requires forall k :: 0 <= k < |order| ==> order[k] < |batches|
  {
    seq(|order|, k requires 0 <= k < |order| => batches[order[k]].nonce)
  }

  /** Batches delivered at most once each, none more than 64 behind one delivered before it, all pass
      the replay guard. */
  lemma ReorderedBatchesAccepted(c: Config, events: seq<Event>, s: nat, order: seq<nat>, i: nat)
    requires c.HostsFit() && (forall e :: e in events ==> c.Knows(e)) && s < |c.servers|
    requires 0 < c.initialNonce && c.initialNonce + |Outcome(c, events)[s]| <= U64_LIMIT
    requires forall k :: 0 <= k < |order| ==> order[k] < |Outcome(c, events)[s]|
    requires forall j, k :: 0 <= j < k < |order| ==> order[j] != order[k] && order[j] - order[k] <= Nonces.WINDOW
    requires i < |order|
    ensures Nonces.AcceptedAt(DeliveredNonces(Outcome(c, events)[s], order), i)
  {
    var batches := Outcome(c, events)[s];
    var ns := DeliveredNonces(batches, order);
    BatchesProper(c, events, s);
    forall k | 0 <= k < |ns| ensures ns[k] == c.initialNonce + order[k] {
      assert batches[order[k]].nonce == NonceAt(c, order[k]);
    }
    Nonces.ReorderingTolerated(ns, i);
  }

  /** What a received message must satisfy to be representable on the wire. */
  predicate Sendable(e: Event) {
    (e.Arrives? && e.msg.Data? ==> |e.msg.data| < U32_LIMIT) && (IsStart(e) ==> Addresses.Encodable(e.msg.host))
  }

  ghost predicate FromSome(c: Config, events: seq<Event>, s: nat, m: CM.ClientMessageType)
    requires c.HostsFit() && forall e :: e in events ==> c.Knows(e)
  {
    exists e :: e in events && e.Arrives? && c.Knows(e) && e.msg.serverIdx == s && m == Wire(c, e.msg)
  }

  lemma {:induction false} KeptIsReceived(c: Config, events: seq<Event>, s: nat, m: CM.ClientMessageType)
    requires c.HostsFit() && forall e :: e in events ==> c.Knows(e)
    requires m in Kept(c, events, s)
    ensures FromSome(c, events, s, m)
  {
    var n := |events| - 1;
    if m in Kept(c, events[..n], s) {
      KeptIsReceived(c, events[..n], s, m);
    } else {
      assert events[n] in events;
    }
  }

  lemma {:induction false} FlattenContains(batches: seq<Batch>, k: nat, m: CM.ClientMessageType)
    requires k < |batches| && m in batches[k].messages
    ensures m in Flatten(batches)
  {
    if k < |batches| - 1 {
      FlattenContains(batches[..|batches| - 1], k, m);
    }
  }

  lemma WireFits(c: Config, e: Event, s: nat)
    requires c.HostsFit() && c.Knows(e) && e.Arrives? && e.msg.serverIdx == s
    requires c.signer.Lawful() && |c.servers[s].host| <= 179
    ensures (e.msg.StartConnection? ==> Addresses.Encodable(e.msg.host)) ==> CM.Encodable(Wire(c, e.msg))
  {
    match e.msg {
      case Data(_, id, data) => Framing.SignedFitsExactly(c.signer, c.servers[s].host, c.servers[s].port, id, data);
      case Close(_, id) => Framing.SignedFitsExactly(c.signer, c.servers[s].host, c.servers[s].port, id, []);
      case _ =>
    }
  }

  /** Every message of a batch is one that was received for its server. */
  lemma BatchSource(c: Config, events: seq<Event>, s: nat, k: nat, m: CM.ClientMessageType)
    requires c.HostsFit() && (forall e :: e in events ==> c.Knows(e)) && s < |c.servers|
    requires k < |Outcome(c, events)[s]| && m in Outcome(c, events)[s][k].messages
    ensures FromSome(c, events, s, m)
  {
    Fifo(c, events, s);
    FlattenContains(Outcome(c, events)[s], k, m);
    KeptIsReceived(c, events, s, m);
  }

  lemma BatchFits(c: Config, events: seq<Event>, s: nat, k: nat, m: CM.ClientMessageType)
    requires c.HostsFit() && (forall e :: e in events ==> c.Knows(e)) && s < |c.servers|
    requires c.signer.Lawful() && |c.servers[s].host| <= 179
    requires k < |Outcome(c, events)[s]| && m in Outcome(c, events)[s][k].messages
    requires m.StartConnection? ==> Addresses.Encodable(m.host)
    ensures CM.Encodable(m)
  {
    BatchSource(c, events, s, k, m);
    var e :| e in events && e.Arrives? && c.Knows(e) && e.msg.serverIdx == s && m == Wire(c, e.msg);
    WireFits(c, e, s);
  }

  lemma BatchIsSendable(c: Config, events: seq<Event>, s: nat, k: nat, m: CM.ClientMessageType)
    requires c.HostsFit() && (forall e :: e in events ==> c.Knows(e) && Sendable(e)) && s < |c.servers|
    requires k < |Outcome(c, events)[s]| && m in Outcome(c, events)[s][k].messages
    ensures CM.Short(m) && (m.StartConnection? ==> Addresses.Encodable(m.host))
  {
    BatchSource(c, events, s, k, m);
    var e :| e in events && e.Arrives? && c.Knows(e) && e.msg.serverIdx == s && m == Wire(c, e.msg);
  }

  /** Every batch for a server whose host name has at most 179 bytes can be serialized, and the server reads from it
      exactly the messages that were batched. */
  lemma BatchesArrive(c: Config, z: Payloads.Zstd, key: CM.Key, events: seq<Event>, s: nat, k: nat)
    requires c.HostsFit() && (forall e :: e in events ==> c.Knows(e) && Sendable(e)) && s < |c.servers|
    requires c.signer.Lawful() && z.Lawful() && |c.servers[s].host| <= 179
    requires k < |Outcome(c, events)[s]|
    ensures var b := Outcome(c, events)[s][k];
            var m := CM.ClientMessage(key, b.nonce, b.messages);
            && CM.Serialize(z, m).Ok?
            && CM.Deserialize(z, CM.Serialize(z, m).value) == Ok(CM.ReceivedBatch(z, m))
            && CM.SameBatch(m, CM.ReceivedBatch(z, m))
  {
    var b := Outcome(c, events)[s][k];
    forall m | m in b.messages ensures CM.Encodable(m) && CM.Short(m) {
      BatchIsSendable(c, events, s, k, m);
      BatchFits(c, events, s, k, m);
    }
    CM.EncodesExactly(z, b.messages);
    CM.BatchRoundTrip(z, CM.ClientMessage(key, b.nonce, b.messages));
  }

  /** The id a Data or Close was queued for is the id the server takes it to be for. */
  lemma QueuedIdVerifies(c: Config, m: OutgoingMessage)
    requires c.HostsFit() && m.serverIdx < |c.servers| && c.signer.Lawful() && (m.Data? || m.Close?)
    ensures Framing.VerifiedId(c.signer, Wire(c, m).connectionIdSigned) == Some(m.connectionId)
  {
    var server := c.servers[m.serverIdx];
    Framing.OwnIdVerifies(c.signer, Addresses.Encode(Addresses.Domain(server.host)).value, server.port, m.connectionId);
  }

  /** One over-long host name stops every batch that carries data: it cannot be serialized. */
  lemma LongHostStopsBatch(c: Config, z: Payloads.Zstd, key: CM.Key, m: OutgoingMessage, batch: Batch)
    requires c.HostsFit() && m.serverIdx < |c.servers| && c.signer.Lawful() && (m.Data? || m.Close?)
    requires |c.servers[m.serverIdx].host| > 179 && Wire(c, m) in batch.messages
    ensures CM.Serialize(z, CM.ClientMessage(key, batch.nonce, batch.messages)).Err?
  {
    var server := c.servers[m.serverIdx];
    Framing.SignedFitsExactly(c.signer, server.host, server.port, m.connectionId, if m.Data? then m.data else []);
    CM.EncodesExactly(z, batch.messages);
  }

  // From the client's queue to the target.

  /** What was queued for a connection, in order. */
  function QueuedFor(events: seq<Event>, s: nat, id: U64): seq<Byte> {
    if events == [] then [] else QueuedFor(events[..|events| - 1], s, id) + QueuedBy(events[|events| - 1], s, id)
  }

  function QueuedBy(e: Event, s: nat, id: U64): seq<Byte> {
    match e
    case Arrives(Data(server, connection, data)) => if server == s && connection == id then data else []
    case _ => []
  }

  /** Encryption for the server, as both ends see it; sealing may fail. */
  datatype Sealer = Sealer(seal: seq<Byte> -> Option<seq<Byte>>, open: seq<Byte> -> Option<seq<Byte>>) {
    /** What is sealed is no shorter and opens, and nothing opens that was cut short. */
    ghost predicate Lawful() {
      && (forall x :: seal(x).Some? ==> |seal(x).value| >= |x| && open(seal(x).value) == Some(x))
      && (forall x, n: nat :: seal(x).Some? && n < |seal(x).value| ==> open(seal(x).value[..n]).None?)
    }
  }

  /** One client, one of its servers, and all that lies between them. */
  datatype Link = Link(c: Config, s: nat, key: CM.Key, z: Payloads.Zstd, sealer: Sealer) {
    predicate Valid() {
      c.HostsFit() && s < |c.servers|
    }

    ghost predicate Lawful() {
      c.signer.Lawful() && z.Lawful() && sealer.Lawful()
    }

    function Host(): Addresses.Utf8
      requires Valid()
    {
      c.servers[s].host
    }
  }

  function Packed(l: Link, b: Batch): CM.ClientMessage {
    CM.ClientMessage(l.key, b.nonce, b.messages)
  }

  function Serialized(l: Link, b: Batch): Result<seq<Byte>> {
    CM.Serialize(l.z, Packed(l, b))
  }

  /** What the server makes of the payload the lambda forwards. */
  function Opened(l: Link, payload: seq<Byte>): Option<CM.ClientMessage> {
    match l.sealer.open(payload)
    case None => None
    case Some(bytes) =>
      match CM.Deserialize(l.z, bytes)
      case Err(_) => None
      case Ok(m) => Some(m)
  }

  /** A batch is serialized, sealed, wrapped in an envelope, read by the lambda, opened by the server and read there. */
  function Arriving(l: Link, b: Batch): Option<CM.ClientMessage>
    requires l.Valid()
  {
    match Serialized(l, b)
    case Err(_) => None
    case Ok(bytes) =>
      match l.sealer.seal(bytes)
      case None => None
      case Some(sealed) =>
        match Framing.Wrap(l.Host(), l.c.servers[l.s].port, sealed)
        case Err(_) => None
        case Ok(envelope) =>
          match Framing.Unwrap(envelope)
          case Err(_) => None
          case Ok(e) => Opened(l, e.payload)
  }

  function ArrivingMessages(l: Link, b: Batch): seq<CM.ClientMessageType>
    requires l.Valid()
  {
    match Arriving(l, b)
    case None => []
    case Some(m) => m.messages
  }

  /** A batch gets through if it can be serialized and sealed, its sealed form is shorter than 2^32 bytes, and so are
      all its payloads, which compression may hide. */
  predicate Carriable(l: Link, b: Batch) {
    && Serialized(l, b).Ok?
    && l.sealer.seal(Serialized(l, b).value).Some?
    && |l.sealer.seal(Serialized(l, b).value).value| < U32_LIMIT
    && forall m :: m in b.messages ==> CM.Short(m)
  }

  /** The bytes the server is brought for a connection by the batches that get through, one after the other. */
  function Forwarded(l: Link, batches: seq<Batch>, id: U64): seq<Byte>
    requires l.Valid()
  {
    if batches == [] then [] else
      Forwarded(l, batches[..|batches| - 1], id)
      + AllDataFor(l.c.signer, ArrivingMessages(l, batches[|batches| - 1]), id)
  }

  lemma {:induction false} DataAppends(signer: Framing.Signer, a: seq<CM.ClientMessageType>,
                                       b: seq<CM.ClientMessageType>, id: U64)
    ensures AllDataFor(signer, a + b, id) == AllDataFor(signer, a, id) + AllDataFor(signer, b, id)
  {
    if b == [] {
      assert a + b == a;
    } else {
      assert (a + b)[..|a + b| - 1] == a + b[..|b| - 1];
      DataAppends(signer, a, b[..|b| - 1], id);
      Reassociate(AllDataFor(signer, a, id), AllDataFor(signer, b[..|b| - 1], id),
                  DataFor(signer, b[|b| - 1], id));
    }
  }

  /** Reading a batch changes no more than flags, so no data. */
  lemma {:induction false} DataSurvives(signer: Framing.Signer, z: Payloads.Zstd, ms: seq<CM.ClientMessageType>,
                                        id: U64)
    ensures AllDataFor(signer, CM.ReceivedAll(z, ms), id) == AllDataFor(signer, ms, id)
  {
    if ms != [] {
      var n := |ms| - 1;
      DataSurvives(signer, z, ms[..n], id);
      var received := CM.ReceivedAll(z, ms);
      assert received[..n] == CM.ReceivedAll(z, ms[..n]) && received[n] == CM.Received(z, ms[n]);
      assert DataFor(signer, CM.Received(z, ms[n]), id) == DataFor(signer, ms[n], id);
    }
  }

  /** Exactly the carriable batches arrive, and they arrive whole. */
  lemma ArrivesExactly(l: Link, b: Batch)
    requires l.Valid() && l.Lawful()
    ensures Arriving(l, b) == if Carriable(l, b) then Some(CM.ReceivedBatch(l.z, Packed(l, b))) else None
  {
    if Serialized(l, b).Ok? && l.sealer.seal(Serialized(l, b).value).Some? {
      var bytes := Serialized(l, b).value;
      var sealed := l.sealer.seal(bytes).value;
      SealedArrives(l, bytes, sealed);
      if |sealed| < U32_LIMIT {
        ReadExactly(l, b);
      }
    }
  }

  /** What the server opens it reads in full, or not at all. */
  lemma ReadExactly(l: Link, b: Batch)
    requires l.z.Lawful() && Serialized(l, b).Ok? && |Serialized(l, b).value| < U32_LIMIT
    ensures var r := CM.Deserialize(l.z, Serialized(l, b).value);
            if forall m :: m in b.messages ==> CM.Short(m) then r == Ok(CM.ReceivedBatch(l.z, Packed(l, b))) else r.Err?
  {
    if forall m :: m in b.messages ==> CM.Short(m) {
      CM.BatchRoundTrip(l.z, Packed(l, b));
    } else {
      CM.LongBatchIsRefused(l.z, Packed(l, b));
    }
  }

  /** The lambda forwards what was sealed, cut to the announced length, and a cut one does not open. */
  lemma SealedArrives(l: Link, bytes: seq<Byte>, sealed: seq<Byte>)
    requires l.Valid() && l.sealer.Lawful() && l.sealer.seal(bytes) == Some(sealed)
    ensures Framing.Wrap(l.Host(), l.c.servers[l.s].port, sealed).Ok?
    ensures var r := Framing.Unwrap(Framing.Wrap(l.Host(), l.c.servers[l.s].port, sealed).value);
            r.Ok? && l.sealer.open(r.value.payload) == if |sealed| < U32_LIMIT then Some(bytes) else None
  {
    var host, port := l.Host(), l.c.servers[l.s].port;
    var envelope := Framing.Wrap(host, port, sealed).value;
    assert envelope + [] == envelope;
    Framing.UnwrapOfWrap(host, port, sealed, []);
    Framing.CutExactly(sealed);
    var cut := AsU32(|sealed|);
    if |sealed| >= U32_LIMIT {
      assert cut < |sealed| && l.sealer.open(l.sealer.seal(bytes).value[..cut]).None?;
    }
  }

  /** A batch brings all its Data if it is carriable, and nothing otherwise. */
  lemma BatchBrings(l: Link, b: Batch, id: U64)
    requires l.Valid() && l.Lawful()
    ensures AllDataFor(l.c.signer, ArrivingMessages(l, b), id)
            == if Carriable(l, b) then AllDataFor(l.c.signer, b.messages, id) else []
  {
    ArrivesExactly(l, b);
    DataSurvives(l.c.signer, l.z, b.messages, id);
  }

  /** A batch with a Data or Close can be serialized if and only if the host name has at most 179 bytes. */
  lemma DataFitsExactly(l: Link, events: seq<Event>, k: nat, d: CM.ClientMessageType)
    requires l.Valid() && l.Lawful() && forall e :: e in events ==> l.c.Knows(e)
    requires k < |Outcome(l.c, events)[l.s]| && d in Outcome(l.c, events)[l.s][k].messages && (d.Data? || d.Close?)
    ensures Serialized(l, Outcome(l.c, events)[l.s][k]).Ok? <==> |l.Host()| <= 179
  {
    var b := Outcome(l.c, events)[l.s][k];
    if |l.Host()| <= 179 {
      BatchesProper(l.c, events, l.s);
      forall m | m in b.messages ensures CM.Encodable(m) {
        BatchFits(l.c, events, l.s, k, m);
      }
      CM.EncodesExactly(l.z, b.messages);
    } else {
      BatchSource(l.c, events, l.s, k, d);
      var e :| e in events && e.Arrives? && l.c.Knows(e) && e.msg.serverIdx == l.s && d == Wire(l.c, e.msg);
      LongHostStopsBatch(l.c, l.z, l.key, e.msg, b);
    }
  }

  /** Nothing for the connection is lost with this batch. */
  predicate Spares(l: Link, b: Batch, id: U64) {
    Carriable(l, b) || |AllDataFor(l.c.signer, b.messages, id)| == 0
  }

  predicate AllSpare(l: Link, batches: seq<Batch>, id: U64) {
    forall k :: 0 <= k < |batches| ==> Spares(l, batches[k], id)
  }

  /** What is batched for the connection grows with each batch. */
  lemma BatchedMore(l: Link, batches: seq<Batch>, id: U64)
    requires batches != []
    ensures var n := |batches| - 1;
            AllDataFor(l.c.signer, Flatten(batches), id)
            == AllDataFor(l.c.signer, Flatten(batches[..n]), id) + AllDataFor(l.c.signer, batches[n].messages, id)
  {
    DataAppends(l.c.signer, Flatten(batches[..|batches| - 1]), batches[|batches| - 1].messages, id);
  }

  lemma {:induction false} SparedIsForwarded(l: Link, batches: seq<Batch>, id: U64)
    requires l.Valid() && l.Lawful() && AllSpare(l, batches, id)
    ensures Forwarded(l, batches, id) == AllDataFor(l.c.signer, Flatten(batches), id)
  {
    if batches != [] {
      var n := |batches| - 1;
      SparedIsForwarded(l, batches[..n], id);
      BatchedMore(l, batches, id);
      BatchBrings(l, batches[n], id);
      assert Spares(l, batches[n], id);
    }
  }

  /** The number of bytes for the connection in batches that are not carried. */
  function Lost(l: Link, batches: seq<Batch>, id: U64): nat {
    if batches == [] then 0 else
      Lost(l, batches[..|batches| - 1], id) + LostWith(l, batches[|batches| - 1], id)
  }

  function LostWith(l: Link, b: Batch, id: U64): nat {
    if Carriable(l, b) then 0 else |AllDataFor(l.c.signer, b.messages, id)|
  }

  lemma LostOne(l: Link, batches: seq<Batch>, n: nat, id: U64)
    requires l.Valid() && l.Lawful() && |batches| == n + 1
    ensures |Forwarded(l, batches, id)| + LostWith(l, batches[n], id)
            == |Forwarded(l, batches[..n], id)| + |AllDataFor(l.c.signer, batches[n].messages, id)|
  {
    BatchBrings(l, batches[n], id);
  }

  lemma BatchedLength(l: Link, batches: seq<Batch>, n: nat, id: U64)
    requires |batches| == n + 1
    ensures |AllDataFor(l.c.signer, Flatten(batches), id)|
            == |AllDataFor(l.c.signer, Flatten(batches[..n]), id)| + |AllDataFor(l.c.signer, batches[n].messages, id)|
  {
    BatchedMore(l, batches, id);
  }

  /** What is missing is what these batches held. */
  lemma {:induction false} LostIsMissing(l: Link, batches: seq<Batch>, id: U64)
    requires l.Valid() && l.Lawful()
    ensures |Forwarded(l, batches, id)| + Lost(l, batches, id) == |AllDataFor(l.c.signer, Flatten(batches), id)|
  {
    if batches != [] {
      var n := |batches| - 1;
      LostIsMissing(l, batches[..n], id);
      LostOne(l, batches, n, id);
      BatchedLength(l, batches, n, id);
    }
  }

  lemma SpareMore(l: Link, batches: seq<Batch>, n: nat, id: U64)
    requires |batches| == n + 1
    ensures AllSpare(l, batches, id) <==> AllSpare(l, batches[..n], id) && LostWith(l, batches[n], id) == 0
  {
    if AllSpare(l, batches, id) {
      assert Spares(l, batches[n], id);
      forall k | 0 <= k < n ensures Spares(l, batches[..n][k], id) {
        assert Spares(l, batches[k], id);
      }
    }
    if AllSpare(l, batches[..n], id) && Spares(l, batches[n], id) {
      forall k | 0 <= k < |batches| ensures Spares(l, batches[k], id) {
        assert k < n ==> Spares(l, batches[..n][k], id);
      }
    }
  }

  lemma {:induction false} LostExactly(l: Link, batches: seq<Batch>, id: U64)
    ensures Lost(l, batches, id) == 0 <==> AllSpare(l, batches, id)
  {
    if batches != [] {
      var n := |batches| - 1;
      LostExactly(l, batches[..n], id);
      SpareMore(l, batches, n, id);
    }
  }

  lemma OneQueued(c: Config, e: Event, s: nat, id: U64)
    requires c.HostsFit() && c.Knows(e) && c.signer.Lawful()
    ensures AllDataFor(c.signer, For(c, e, s), id) == QueuedBy(e, s, id)
  {
    if e.Arrives? && e.msg.serverIdx == s {
      var m := Wire(c, e.msg);
      assert [m][..0] == [];
      if e.msg.Data? {
        QueuedIdVerifies(c, e.msg);
      }
    }
  }

  lemma {:induction false} KeptData(c: Config, events: seq<Event>, s: nat, id: U64)
    requires c.HostsFit() && (forall e :: e in events ==> c.Knows(e)) && c.signer.Lawful()
    ensures AllDataFor(c.signer, Kept(c, events, s), id) == QueuedFor(events, s, id)
  {
    if events != [] {
      var n := |events| - 1;
      KeptData(c, events[..n], s, id);
      OneQueued(c, events[n], s, id);
      DataAppends(c.signer, Kept(c, events[..n], s), if DroppedAt(c, events, n) then [] else For(c, events[n], s), id);
    }
  }

  /** Through serialization, sealing, envelope and lambda, a server is brought for a connection exactly the bytes the
      client queued for it, in order, if and only if every batch that holds some of them can be carried. */
  lemma UploadExactly(l: Link, events: seq<Event>, id: U64)
    requires l.Valid() && l.Lawful() && forall e :: e in events ==> l.c.Knows(e)
    ensures var batches := Outcome(l.c, events)[l.s];
            Forwarded(l, batches, id) == QueuedFor(events, l.s, id)
            <==> AllSpare(l, batches, id)
  {
    var batches := Outcome(l.c, events)[l.s];
    LostIsMissing(l, batches, id);
    LostExactly(l, batches, id);
    if AllSpare(l, batches, id) {
      SparedIsForwarded(l, batches, id);
    }
    Fifo(l.c, events, l.s);
    KeptData(l.c, events, l.s, id);
  }

  /** So nothing is lost for a host name of at most 179 bytes while every batch that can be serialized can be carried.
      */
  lemma UploadComplete(l: Link, events: seq<Event>, id: U64)
    requires l.Valid() && l.Lawful() && forall e :: e in events ==> l.c.Knows(e)
    requires |l.Host()| <= 179
    requires forall k :: 0 <= k < |Outcome(l.c, events)[l.s]| ==>
               (Serialized(l, Outcome(l.c, events)[l.s][k]).Ok? ==> Carriable(l, Outcome(l.c, events)[l.s][k]))
    ensures Forwarded(l, Outcome(l.c, events)[l.s], id) == QueuedFor(events, l.s, id)
  {
    var batches := Outcome(l.c, events)[l.s];
    UploadExactly(l, events, id);
    forall k | 0 <= k < |batches| ensures Spares(l, batches[k], id) {
      NoDataNoBytes(l.c.signer, batches[k].messages, id);
      if d :| d in batches[k].messages && d.Data? {
        DataFitsExactly(l, events, k, d);
      }
    }
  }

  lemma {:induction false} NoDataNoBytes(signer: Framing.Signer, ms: seq<CM.ClientMessageType>, id: U64)
    ensures (forall m :: m in ms ==> !m.Data?) ==> AllDataFor(signer, ms, id) == []
  {
    if ms != [] {
      NoDataNoBytes(signer, ms[..|ms| - 1], id);
    }
  }

  /** And a server with a longer host name is brought nothing at all. */
  lemma {:induction false} LongHostGetsNothing(l: Link, events: seq<Event>, n: nat, id: U64)
    requires l.Valid() && l.Lawful() && forall e :: e in events ==> l.c.Knows(e)
    requires |l.Host()| > 179 && n <= |Outcome(l.c, events)[l.s]|
    ensures Forwarded(l, Outcome(l.c, events)[l.s][..n], id) == []
  {
    if n > 0 {
      var all := Outcome(l.c, events)[l.s];
      assert all[..n][..n - 1] == all[..n - 1];
      LongHostGetsNothing(l, events, n - 1, id);
      BatchBrings(l, all[n - 1], id);
      NoDataNoBytes(l.c.signer, all[n - 1].messages, id);
      if d :| d in all[n - 1].messages && d.Data? {
        DataFitsExactly(l, events, n - 1, d);
      }
    }
  }
}
