/** From the client's queue to the target: sender, wire, envelope, replay guard and handler in one line. */
module EndToEnd {
  import opened Bytes
  import opened Options
  import opened Sessions
  import opened Worlds
  import opened Accounts
  import opened Delivery
  import Addresses
  import CM = ClientMessages
  import Framing
  import LambdaSender
  import Nonces
  import Server

  type Batch = LambdaSender.Batch

  /** One batch on its way: what the client, the lambda and the server do with it. */
  method Carry(l: Link, b: Batch) returns (m: Option<CM.ClientMessage>)
    requires l.Valid()
    ensures m == Arriving(l, b)
  {
    var bytes := CM.SerializeMessage(l.z, Packed(l, b));
    if bytes.Err? {
      return None;
    }
    var sealed := l.sealer.seal(bytes.value);
    if sealed.None? {
      return None;
    }
    var envelope := Framing.BuildRequest(l.Host(), l.c.servers[l.s].port, sealed.value);
    if envelope.Err? {
      return None;
    }
    var e := Framing.ParseRequest(envelope.value);
    if e.Err? {
      return None;
    }
    var plain := l.sealer.open(e.value.payload);
    if plain.None? {
      return None;
    }
    var r := CM.DeserializeMessage(l.z, plain.value);
    return if r.Ok? then Some(r.value) else None;
  }

  /** The messages of all batches that arrive. */
  function AllArriving(l: Link, batches: seq<Batch>): seq<CM.ClientMessageType>
    requires l.Valid()
  {
    if batches == [] then [] else
      AllArriving(l, batches[..|batches| - 1]) + ArrivingMessages(l, batches[|batches| - 1])
  }

  /** The batches carry the nonces from `first` on. */
  predicate Numbered(batches: seq<Batch>, first: nat) {
    forall k :: 0 <= k < |batches| ==> batches[k].nonce == first + k
  }

  lemma ArrivingNonce(l: Link, b: Batch)
    requires l.Valid() && l.Lawful() && Arriving(l, b).Some?
    ensures Arriving(l, b).value.nonce == b.nonce
  {
    ArrivesExactly(l, b);
  }

  lemma {:induction false} DeedsTellNothing(issued: nat, now: nat, steps: seq<Step>)
    ensures Messages(Deeds(issued, now, steps)) == []
  {
    if steps != [] {
      var most, last := steps[..|steps| - 1], steps[|steps| - 1];
      DeedsTellNothing(issued, now, most);
      MessagesAppend(Deeds(issued, now, most), DeedsOf(issued, now, last));
      if DeedsOf(issued, now, last) != [] {
        assert DeedsOf(issued, now, last)[..0] == [];
      }
    }
  }

  lemma {:induction false} MessagesAppend(a: seq<Deed>, b: seq<Deed>)
    ensures Messages(a + b) == Messages(a) + Messages(b)
  {
    if b == [] {
      NothingAppended(a);
      NothingAppended(Messages(a));
    } else {
      assert (a + b)[..|a + b| - 1] == a + b[..|b| - 1];
      MessagesAppend(a, b[..|b| - 1]);
    }
  }

  lemma MessageTold(history: seq<Deed>, deed: Deed, after: seq<Deed>)
    requires deed.Told? && Messages(after) == []
    ensures Messages(history + [deed] + after) == Messages(history) + [deed.msg]
  {
    MessagesAppend(history + [deed], after);
    assert (history + [deed])[..|history|] == history;
    NothingAppended(Messages(history) + [deed.msg]);
  }

  /** The last message's part of a batch's history. */
  lemma ChronicleLast(history: seq<Deed>, v: View, key: Key, now: nat, msgs: seq<Message>, worlds: seq<World>,
                      drawn: seq<nat>, parts: seq<seq<Step>>, n: nat) returns (issued: nat)
    requires |msgs| == |worlds| == |drawn| == |parts| == n + 1
    ensures Server.Chronicle(history, v, key, now, msgs, worlds, drawn, parts)
            == Server.Chronicle(history, v, key, now, msgs[..n], worlds[..n], drawn[..n], parts[..n])
               + [Told(msgs[n], worlds[n], now)] + Deeds(issued, now, parts[n])
  {
    issued := Moved(Woven(v, key, drawn[..n], parts[..n]), drawn[n]).issued;
  }

  /** A handled batch adds exactly its messages to the history. */
  lemma {:induction false} ChronicleTells(history: seq<Deed>, v: View, key: Key, now: nat, msgs: seq<Message>,
                                          worlds: seq<World>, drawn: seq<nat>, parts: seq<seq<Step>>)
    requires |msgs| == |worlds| == |drawn| == |parts|
    ensures Messages(Server.Chronicle(history, v, key, now, msgs, worlds, drawn, parts)) == Messages(history) + msgs
    decreases |msgs|
  {
    if msgs == [] {
      NothingAppended(Messages(history));
    } else {
      var n := |msgs| - 1;
      ChronicleTells(history, v, key, now, msgs[..n], worlds[..n], drawn[..n], parts[..n]);
      var issued := ChronicleLast(history, v, key, now, msgs, worlds, drawn, parts, n);
      DeedsTellNothing(issued, now, parts[n]);
      MessageTold(Server.Chronicle(history, v, key, now, msgs[..n], worlds[..n], drawn[..n], parts[..n]),
                  Told(msgs[n], worlds[n], now), Deeds(issued, now, parts[n]));
      assert msgs == msgs[..n] + [msgs[n]];
      Reassociate(Messages(history), msgs[..n], [msgs[n]]);
    }
  }

  lemma LaterIsFresh(w: Nonces.Window, n: nat)
    requires w.last < n
    ensures Nonces.Accepts(w, n) && Nonces.Present(w, n).last == n
  {}

  /** A request with a later nonce than any before is told in full. */
  method HandleFresh(server: Server.ClientState, counter: Server.Counter, limit: nat, allowPrivate: bool,
                     request: CM.ClientMessage, worlds: seq<World>, drawn: seq<nat>, rejection: Addresses.Utf8,
                     now: nat)
    requires server.Valid() && counter.Valid() && |worlds| == |drawn| == |request.messages|
    requires server.nonce.Abstract().last < request.nonce
    modifies server, server.nonce, counter
    ensures server.Valid() && counter.Valid() && server.nonce.Abstract().last == request.nonce
    ensures Messages(server.history) == Messages(old(server.history)) + request.messages
  {
    ghost var told, v := server.history, server.Now(counter);
    LaterIsFresh(server.nonce.Abstract(), request.nonce);
    var responses;
    ghost var parts;
    responses, parts :=
      server.HandleRequest(counter, limit, allowPrivate, true, request, worlds, drawn, rejection, now);
    ChronicleTells(told, v, server.key, now, request.messages, worlds, drawn, parts);
  }

  function Firsts<T>(f: nat -> T, n: nat): (s: seq<T>)
    ensures |s| == n
  {
    seq(n, i requires 0 <= i < n => f(i))
  }

  /** One batch: carried, and if it arrives, handled. */
  method DeliverOne(l: Link, b: Batch, server: Server.ClientState, counter: Server.Counter, limit: nat,
                    allowPrivate: bool, world: nat -> World, drawn: nat -> nat, rejection: Addresses.Utf8, now: nat)
    requires l.Valid() && l.Lawful() && server.Valid() && counter.Valid()
    requires server.nonce.Abstract().last < b.nonce
    modifies server, server.nonce, counter
    ensures server.Valid() && counter.Valid() && server.nonce.Abstract().last <= b.nonce
    ensures Messages(server.history) == Messages(old(server.history)) + ArrivingMessages(l, b)
  {
    NothingAppended(Messages(server.history));
    var m := Carry(l, b);
    if m.Some? {
      ArrivingNonce(l, b);
      var n := |m.value.messages|;
      HandleFresh(server, counter, limit, allowPrivate, m.value, Firsts(world, n), Firsts(drawn, n), rejection, now);
    }
  }

  lemma OneMoreArrives(l: Link, batches: seq<Batch>, k: nat)
    requires l.Valid() && k < |batches|
    ensures AllArriving(l, batches[..k + 1]) == AllArriving(l, batches[..k]) + ArrivingMessages(l, batches[k])
  {
    assert batches[..k + 1][..k] == batches[..k];
  }

  /** Batches delivered in order: those that arrive are all accepted, and the server is told exactly their messages.
      `world(k, i)` answers the i-th message of the k-th batch. */
  method DeliverInOrder(l: Link, batches: seq<Batch>, first: nat, server: Server.ClientState, counter: Server.Counter,
                        limit: nat, allowPrivate: bool, world: (nat, nat) -> World, drawn: (nat, nat) -> nat,
                        rejection: Addresses.Utf8, now: nat -> nat)
    requires l.Valid() && l.Lawful() && server.Valid() && counter.Valid()
    requires Numbered(batches, first) && server.nonce.Abstract().last < first
    modifies server, server.nonce, counter
    ensures server.Valid() && counter.Valid()
    ensures Messages(server.history) == Messages(old(server.history)) + AllArriving(l, batches)
  {
    ghost var told := Messages(server.history);
    NothingAppended(told);
    for k := 0 to |batches|
      invariant server.Valid() && counter.Valid() && server.nonce.Abstract().last < first + k
      invariant Messages(server.history) == told + AllArriving(l, batches[..k])
    {
      DeliverOne(l, batches[k], server, counter, limit, allowPrivate, (i: nat) => world(k, i),
                 (i: nat) => drawn(k, i), rejection, now(k));
      OneMoreArrives(l, batches, k);
      Reassociate(told, AllArriving(l, batches[..k]), ArrivingMessages(l, batches[k]));
    }
    assert batches[..|batches|] == batches;
  }

  lemma RunIsNumbered(l: Link, events: seq<LambdaSender.Event>)
    requires l.Valid() && forall e :: e in events ==> l.c.Knows(e)
    requires 0 < l.c.initialNonce && l.c.initialNonce + |LambdaSender.Outcome(l.c, events)[l.s]| <= U64_LIMIT
    ensures Numbered(LambdaSender.Outcome(l.c, events)[l.s], l.c.initialNonce)
  {
    var batches := LambdaSender.Outcome(l.c, events)[l.s];
    LambdaSender.BatchesProper(l.c, events, l.s);
    forall k | 0 <= k < |batches| ensures batches[k].nonce == l.c.initialNonce + k {
      assert batches[k].nonce == LambdaSender.NonceAt(l.c, k);
    }
  }

  /** All batches of a client's run, delivered in order to a server that has not heard of the client. */
  method DeliverRun(l: Link, ghost events: seq<LambdaSender.Event>, batches: seq<Batch>, server: Server.ClientState,
                    counter: Server.Counter, limit: nat, allowPrivate: bool, world: (nat, nat) -> World,
                    drawn: (nat, nat) -> nat, rejection: Addresses.Utf8, now: nat -> nat)
    requires l.Valid() && l.Lawful() && forall e :: e in events ==> l.c.Knows(e)
    requires batches == LambdaSender.Outcome(l.c, events)[l.s]
    requires 0 < l.c.initialNonce && l.c.initialNonce + |batches| <= U64_LIMIT
    requires server.Valid() && counter.Valid() && server.signer == l.c.signer
    requires server.history == [] && server.nonce.Abstract() == Nonces.START
    modifies server, server.nonce, counter
    ensures Accounted(l.c.signer, server.State(), server.log, server.history)
    ensures Messages(server.history) == AllArriving(l, batches)
  {
    RunIsNumbered(l, events);
    DeliverInOrder(l, batches, l.c.initialNonce, server, counter, limit, allowPrivate, world, drawn, rejection, now);
    assert [] + AllArriving(l, batches) == AllArriving(l, batches);
  }

  lemma {:induction false} ForwardedIsArriving(l: Link, batches: seq<Batch>, id: U64)
    requires l.Valid()
    ensures Forwarded(l, batches, id) == AllDataFor(l.c.signer, AllArriving(l, batches), id)
  {
    if batches != [] {
      var most, last := batches[..|batches| - 1], batches[|batches| - 1];
      ForwardedIsArriving(l, most, id);
      DataAppends(l.c.signer, AllArriving(l, most), ArrivingMessages(l, last), id);
    }
  }

  /** When the server has been told the batches of a client's run, the target of a connection that stayed open since its
      Challenge has been sent exactly the bytes the client queued for it, in order. */
  lemma TargetGetsQueue(l: Link, events: seq<LambdaSender.Event>, id: U64, sockets: Sockets, log: seq<Entry>,
                        a: seq<Deed>, at: nat, t: seq<Deed>)
    requires l.Valid() && l.Lawful() && forall e :: e in events ==> l.c.Knows(e)
    requires AllSpare(l, LambdaSender.Outcome(l.c, events)[l.s], id)
    requires Accounted(l.c.signer, sockets, log, a + [Opened(id, at)] + t)
    requires Messages(a + [Opened(id, at)] + t) == AllArriving(l, LambdaSender.Outcome(l.c, events)[l.s])
    requires AllDataFor(l.c.signer, Messages(a), id) == [] && Undisturbed(l.c.signer, t, id)
    ensures id in sockets.connections && At(sockets.outbox, id) == QueuedFor(events, l.s, id)
  {
    var history := a + [Opened(id, at)] + t;
    assert AccountedFor(l.c.signer, sockets, log, history, id);
    SinceChallenge(l.c.signer, a, at, t, id);
    MessagesAppend(a + [Opened(id, at)], t);
    assert (a + [Opened(id, at)])[..|a|] == a;
    NothingAppended(Messages(a));
    DataAppends(l.c.signer, Messages(a), Messages(t), id);
    ForwardedIsArriving(l, LambdaSender.Outcome(l.c, events)[l.s], id);
    UploadExactly(l, events, id);
  }
}
