/** The client's one sender, which batches messages per server. */
module LambdaSender {
  import opened Bytes
  import opened Options
  import Addresses
  import CM = ClientMessages
  import Framing

  datatype OutgoingMessage =
    | StartConnection(serverIdx: nat, host: Addresses.SocksAddress, port: U16)
    | Data(serverIdx: nat, connectionId: U64, data: seq<Byte>)
    | Close(serverIdx: nat, connectionId: U64)
    | Poll(serverIdx: nat)

  /** What the sender observes each time it looks at its channel: a message, or nothing (or a timeout). */
  datatype Event = Arrives(msg: OutgoingMessage) | Quiet

  datatype ServerConfig = ServerConfig(host: Addresses.Utf8, port: U16)

  datatype Config = Config(servers: seq<ServerConfig>, signer: Framing.Signer, initialNonce: U64) {
    /** A host name over 255 bytes makes the sender panic. */
    predicate HostsFit() {
      forall i :: 0 <= i < |servers| ==> |servers[i].host| <= 255
    }

    predicate Knows(e: Event) {
      e.Arrives? ==> e.msg.serverIdx < |servers|
    }
  }

  datatype Batch = Batch(nonce: U64, messages: seq<CM.ClientMessageType>)

  function SignedId(c: Config, s: nat, id: U64): seq<Byte>
    requires c.HostsFit() && s < |c.servers|
  {
    var address := Addresses.Encode(Addresses.Domain(c.servers[s].host)).value;
    Framing.Joined(address, c.servers[s].port, id, c.signer.sign(Framing.BytesToSign(address, c.servers[s].port, id)))
  }

  /** The message as it is put in a batch. */
  function Wire(c: Config, m: OutgoingMessage): CM.ClientMessageType
    requires c.HostsFit() && m.serverIdx < |c.servers|
  {
    match m
    case StartConnection(_, host, port) => CM.StartConnection(host, port)
    case Data(s, id, data) => CM.Data(SignedId(c, s, id), data, true)
    case Close(s, id) => CM.Close(SignedId(c, s, id))
    case Poll(_) => CM.Poll
  }

  /** It is of the same kind and says the same, its id in a signed form. */
  lemma WireSays(c: Config, m: OutgoingMessage)
    requires c.HostsFit() && m.serverIdx < |c.servers| && c.signer.Lawful()
    ensures match m
            case StartConnection(_, host, port) => Wire(c, m) == CM.StartConnection(host, port)
            case Data(_, id, data) =>
              && Wire(c, m).Data? && Wire(c, m).data == data && Wire(c, m).compressed
              && Framing.VerifiedId(c.signer, Wire(c, m).connectionIdSigned) == Some(id)
            case Close(_, id) =>
              Wire(c, m).Close? && Framing.VerifiedId(c.signer, Wire(c, m).connectionIdSigned) == Some(id)
            case Poll(_) => Wire(c, m) == CM.Poll
  {
    if m.Data? || m.Close? {
      var server := c.servers[m.serverIdx];
      var address := Addresses.Encode(Addresses.Domain(server.host)).value;
      Framing.OwnIdVerifies(c.signer, address, server.port, m.connectionId);
    }
  }

  function NonceAt(c: Config, k: nat): U64 {
    (c.initialNonce + k) % U64_LIMIT
  }

  // The reference machine: where in its loop the task is, and what it has done.

  /** Waiting for a first message; draining what is there; waiting once more; draining a last time. */
  datatype Mode = Idle | Draining | Waiting | Final

  type Pending = map<nat, seq<CM.ClientMessageType>>

  datatype State = State(mode: Mode, pending: Pending, sent: seq<seq<Batch>>)

  function Entry(pending: Pending, s: nat): seq<CM.ClientMessageType> {
    if s in pending then pending[s] else []
  }

  function Queued(c: Config, pending: Pending, m: OutgoingMessage): Pending
    requires c.HostsFit() && m.serverIdx < |c.servers|
  {
    pending[m.serverIdx := Entry(pending, m.serverIdx) + [Wire(c, m)]]
  }

  function Handed(c: Config, batches: seq<Batch>, messages: seq<CM.ClientMessageType>): seq<Batch> {
    if messages == [] then batches else batches + [Batch(NonceAt(c, |batches|), messages)]
  }

  function Flushed(c: Config, sent: seq<seq<Batch>>, pending: Pending): seq<seq<Batch>> {
    seq(|sent|, s requires 0 <= s < |sent| => Handed(c, sent[s], Entry(pending, s)))
  }

  function SentNow(c: Config, sent: seq<seq<Batch>>, m: OutgoingMessage): seq<seq<Batch>>
    requires c.HostsFit() && m.serverIdx < |c.servers| == |sent|
  {
    sent[m.serverIdx := Handed(c, sent[m.serverIdx], [Wire(c, m)])]
  }

  function Step(c: Config, st: State, e: Event): State
    requires c.HostsFit() && |st.sent| == |c.servers| && c.Knows(e)
  {
    if e.Quiet? then
      match st.mode
      case Idle => st
      case Draining => st.(mode := if st.pending == map[] then Idle else Waiting)
      case Waiting => st.(mode := Final)
      case Final => State(Idle, map[], Flushed(c, st.sent, st.pending))
    else if e.msg.StartConnection? then
      match st.mode
      case Idle => State(Idle, st.pending, SentNow(c, st.sent, e.msg))
      case Draining => State(Draining, map[], SentNow(c, Flushed(c, st.sent, st.pending), e.msg))
      case Waiting => State(Final, map[], SentNow(c, Flushed(c, st.sent, st.pending), e.msg))
      case Final => State(Idle, map[], Flushed(c, st.sent, st.pending))
    else
      State(match st.mode case Idle => Draining case Draining => Draining case Waiting => Final case Final => Final,
            Queued(c, st.pending, e.msg), st.sent)
  }

  function Initial(c: Config): State {
    State(Idle, map[], seq(|c.servers|, i => []))
  }

  function After(c: Config, events: seq<Event>): (st: State)
    requires c.HostsFit() && forall e :: e in events ==> c.Knows(e)
    ensures |st.sent| == |c.servers|
  {
    if events == [] then Initial(c)
    else Step(c, After(c, events[..|events| - 1]), events[|events| - 1])
  }

  /** What was handed to the network once the channel is closed. */
  function Outcome(c: Config, events: seq<Event>): seq<seq<Batch>>
    requires c.HostsFit() && forall e :: e in events ==> c.Knows(e)
  {
    var st := After(c, events);
    Flushed(c, st.sent, st.pending)
  }

  // The sender.

  class Sender {
    const config: Config
    var pending: Pending
    var nonceCounters: seq<U64>
    var sent: seq<seq<Batch>>

    ghost predicate Valid()
      reads this
    {
      && config.HostsFit()
      && |sent| == |nonceCounters| == |config.servers|
      && (forall s :: 0 <= s < |sent| ==> nonceCounters[s] == NonceAt(config, |sent[s]|))
      && (forall s :: s in pending ==> s < |sent| && pending[s] != [])
    }

    constructor (config: Config)
      requires config.HostsFit()
      ensures Valid() && this.config == config && State(Idle, pending, sent) == Initial(config)
    {
      this.config := config;
      pending := map[];
      nonceCounters := seq(|config.servers|, i => config.initialNonce);
      sent := seq(|config.servers|, i => []);
    }

    /** Stamps a batch with the server's next nonce and hands it over. */
    method Send(s: nat, messages: seq<CM.ClientMessageType>)
      requires Valid() && s < |config.servers| && messages != []
      modifies this
      ensures Valid() && pending == old(pending)
      ensures sent == old(sent)[s := Handed(config, old(sent)[s], messages)]
    {
      var nonce := nonceCounters[s];
      NonceMore(config, |sent[s]|);
      nonceCounters := nonceCounters[s := (nonce + 1) % U64_LIMIT];
      sent := sent[s := sent[s] + [Batch(nonce, messages)]];
    }

    method QueueMessage(m: OutgoingMessage)
      requires Valid() && m.serverIdx < |config.servers| && !m.StartConnection?
      modifies this
      ensures Valid() && pending == Queued(config, old(pending), m) && sent == old(sent)
    {
      var s := m.serverIdx;
      var entry := Entry(pending, s);
      match m {
        case Data(_, id, data) =>
          var signed := SignFor(s, id);
          entry := entry + [CM.Data(signed, data, true)];
        case Close(_, id) =>
          var signed := SignFor(s, id);
          entry := entry + [CM.Close(signed)];
        case Poll(_) =>
          entry := entry + [CM.Poll];
      }
      pending := pending[s := entry];
    }

    method SignFor(s: nat, id: U64) returns (signed: seq<Byte>)
      requires Valid() && s < |config.servers|
      ensures signed == SignedId(config, s, id)
    {
      var address := Addresses.EncodeInto(Addresses.Domain(config.servers[s].host), []);
      assert [] + Addresses.Encode(Addresses.Domain(config.servers[s].host)).value
          == Addresses.Encode(Addresses.Domain(config.servers[s].host)).value;
      signed := Framing.JoinSigned(config.signer, address.value, config.servers[s].port, id);
    }

    /** Hands over every pending batch, in whatever order the map yields them. */
    method FlushPending()
      requires Valid()
      modifies this
      ensures Valid() && pending == map[]
      ensures sent == Flushed(config, old(sent), old(pending))
    {
      var todo := pending;
      pending := map[];
      AllToFlush(config, sent, todo);
      while todo != map[]
        invariant Valid() && pending == map[]
        invariant forall s :: s in todo ==> s in old(pending) && todo[s] == old(pending)[s]
        invariant sent == FlushedExcept(config, old(sent), old(pending), todo.Keys)
        decreases |todo|
      {
        var s :| s in todo;
        var messages := todo[s];
        FlushMore(config, old(sent), old(pending), todo, s);
        todo := todo - {s};
        if messages == [] {
          continue;
        }
        Send(s, messages);
      }
    }

    /** A StartConnection travels alone. */
    method SendStart(m: OutgoingMessage)
      requires Valid() && m.StartConnection? && m.serverIdx < |config.servers|
      modifies this
      ensures Valid() && pending == old(pending) && sent == SentNow(config, old(sent), m)
    {
      Send(m.serverIdx, [CM.StartConnection(m.host, m.port)]);
    }

    /** This object is where the reference machine is after the first n events. */
    ghost predicate Follows(events: seq<Event>, n: nat)
      requires config.HostsFit() && forall e :: e in events ==> config.Knows(e)
      reads this
    {
      n <= |events| && var st := After(config, events[..n]); st.pending == pending && st.sent == sent
    }

    ghost predicate FollowsIn(mode: Mode, events: seq<Event>, n: nat)
      requires config.HostsFit() && forall e :: e in events ==> config.Knows(e)
      reads this
    {
      Follows(events, n) && (n < |events| ==> After(config, events[..n]).mode == mode)
    }

    /** The same, up to the last flush, which the machine makes only when the channel closes. */
    ghost predicate FollowsFlushed(events: seq<Event>, n: nat)
      requires config.HostsFit() && forall e :: e in events ==> config.Knows(e)
      reads this
    {
      && n <= |events| && pending == map[]
      && (n < |events| ==> FollowsIn(Idle, events, n))
      && sent == Outcome(config, events[..n])
    }

    /** Drains everything that is there; StartConnections overtake nothing and go out at once. */
    method Drain(events: seq<Event>, start: nat) returns (next: nat)
      requires Valid() && forall e :: e in events ==> config.Knows(e)
      requires FollowsIn(Draining, events, start)
      modifies this
      ensures Valid() && start <= next
      ensures FollowsIn(if pending == map[] then Idle else Mode.Waiting, events, next)
    {
      next := start;
      while next < |events| && events[next].Arrives?
        invariant Valid() && start <= next && FollowsIn(Draining, events, next)
      {
        DrainNext(events, next);
        next := next + 1;
      }
      if next < |events| {
        TakeOne(config, events, next);
        next := next + 1;
      }
    }

    method DrainNext(events: seq<Event>, n: nat)
      requires Valid() && forall e :: e in events ==> config.Knows(e)
      requires FollowsIn(Draining, events, n) && n < |events| && events[n].Arrives?
      modifies this
      ensures Valid() && FollowsIn(Draining, events, n + 1)
    {
      TakeOne(config, events, n);
      var m := events[n].msg;
      if m.StartConnection? {
        FlushPending();
        SendStart(m);
      } else {
        QueueMessage(m);
      }
    }

    /** Waits once for company. */
    method WaitOnce(events: seq<Event>, start: nat) returns (next: nat)
      requires Valid() && forall e :: e in events ==> config.Knows(e)
      requires FollowsIn(Mode.Waiting, events, start)
      modifies this
      ensures Valid() && start <= next && FollowsIn(Final, events, next)
    {
      next := start;
      if next < |events| {
        TakeOne(config, events, next);
        var e := events[next];
        next := next + 1;
        if e.Arrives? {
          if e.msg.StartConnection? {
            FlushPending();
            SendStart(e.msg);
          } else {
            QueueMessage(e.msg);
          }
        }
      }
    }

    /** Drains a last time, up to a quiet moment or a StartConnection. */
    method DrainAgain(events: seq<Event>, start: nat) returns (next: nat)
      requires Valid() && forall e :: e in events ==> config.Knows(e)
      requires FollowsIn(Final, events, start)
      modifies this
      ensures Valid() && start <= next && FollowsIn(Final, events, next)
      ensures next < |events| ==> events[next].Quiet? || events[next].msg.StartConnection?
    {
      next := start;
      while next < |events| && events[next].Arrives? && !events[next].msg.StartConnection?
        invariant Valid() && start <= next && FollowsIn(Final, events, next)
      {
        DrainOne(events, next);
        next := next + 1;
      }
    }

    method DrainOne(events: seq<Event>, n: nat)
      requires Valid() && forall e :: e in events ==> config.Knows(e)
      requires FollowsIn(Final, events, n) && n < |events| && events[n].Arrives? && !events[n].msg.StartConnection?
      modifies this
      ensures Valid() && FollowsIn(Final, events, n + 1)
    {
      TakeOne(config, events, n);
      QueueMessage(events[n].msg);
    }

    /** Drains a last time and flushes. A StartConnection that ends this drain has been received, and goes nowhere. */
    method DrainAndFlush(events: seq<Event>, start: nat) returns (next: nat)
      requires Valid() && forall e :: e in events ==> config.Knows(e)
      requires FollowsIn(Final, events, start)
      modifies this
      ensures Valid() && start <= next && FollowsFlushed(events, next)
    {
      next := DrainAgain(events, start);
      ghost var at := next;
      if next < |events| {
        TakeOne(config, events, next);
        next := next + 1;
      }
      FlushPending();
      NothingToFlush(config, sent);
      assert at < |events| ==> After(config, events[..next]) == State(Idle, pending, sent);
    }

    /** Waits, with nothing pending, for a message. */
    method AwaitFirst(events: seq<Event>, start: nat) returns (next: nat)
      requires Valid() && forall e :: e in events ==> config.Knows(e)
      requires FollowsFlushed(events, start)
      ensures start <= next && FollowsFlushed(events, next)
      ensures next < |events| ==> events[next].Arrives?
    {
      next := start;
      while next < |events| && events[next].Quiet?
        invariant start <= next && FollowsFlushed(events, next)
      {
        TakeOne(config, events, next);
        NothingToFlush(config, sent);
        next := next + 1;
      }
    }

    /** What follows a first queued message, until the queues are flushed. */
    method SendBurst(events: seq<Event>, start: nat) returns (next: nat)
      requires Valid() && forall e :: e in events ==> config.Knows(e)
      requires FollowsIn(Draining, events, start)
      modifies this
      ensures Valid() && start <= next && FollowsFlushed(events, next)
    {
      next := Drain(events, start);
      if pending != map[] {
        next := WaitOnce(events, next);
        next := DrainAndFlush(events, next);
      } else {
        NothingToFlush(config, sent);
      }
    }

    /** From a first message to the queues' being empty again. */
    method Turn(events: seq<Event>, start: nat) returns (next: nat)
      requires Valid() && forall e :: e in events ==> config.Knows(e)
      requires FollowsFlushed(events, start) && start < |events| && events[start].Arrives?
      modifies this
      ensures Valid() && start < next && FollowsFlushed(events, next)
    {
      TakeOne(config, events, start);
      var m := events[start].msg;
      next := start + 1;
      if m.StartConnection? {
        SendStart(m);
        NothingToFlush(config, sent);
      } else {
        QueueMessage(m);
        next := SendBurst(events, next);
      }
    }

    method Run(events: seq<Event>)
      requires Valid() && (forall e :: e in events ==> config.Knows(e))
      requires State(Idle, pending, sent) == Initial(config)
      modifies this
      ensures Valid() && pending == map[] && sent == Outcome(config, events)
    {
      var next := 0;
      NothingToFlush(config, sent);
      while true
        invariant Valid() && FollowsFlushed(events, next)
        decreases |events| - next
      {
        next := AwaitFirst(events, next);
        if next == |events| {
          break;
        }
        next := Turn(events, next);
      }
      assert events[..|events|] == events;
    }
  }

  lemma NonceMore(c: Config, k: nat)
    ensures (NonceAt(c, k) + 1) % U64_LIMIT == NonceAt(c, k + 1)
  {}

  /** The batches once all but the queues in `todo` have been handed over. */
  function FlushedExcept(c: Config, sent: seq<seq<Batch>>, pending: Pending, todo: set<nat>): seq<seq<Batch>> {
    seq(|sent|, s requires 0 <= s < |sent| => if s in todo then sent[s] else Handed(c, sent[s], Entry(pending, s)))
  }

  lemma AllToFlush(c: Config, sent: seq<seq<Batch>>, pending: Pending)
    ensures FlushedExcept(c, sent, pending, pending.Keys) == sent
    ensures FlushedExcept(c, sent, pending, {}) == Flushed(c, sent, pending)
  {
    assert forall s :: 0 <= s < |sent| ==> FlushedExcept(c, sent, pending, pending.Keys)[s] == sent[s];
    assert forall s :: 0 <= s < |sent| ==>
        FlushedExcept(c, sent, pending, {})[s] == Handed(c, sent[s], Entry(pending, s)) == Flushed(c, sent, pending)[s];
  }

  lemma FlushMore(c: Config, sent: seq<seq<Batch>>, pending: Pending, todo: Pending, s: nat)
    requires s in todo && s < |sent| && Entry(pending, s) == todo[s]
    ensures |todo - {s}| < |todo|
    ensures FlushedExcept(c, sent, pending, todo.Keys)[s] == sent[s]
    ensures FlushedExcept(c, sent, pending, (todo - {s}).Keys)
            == FlushedExcept(c, sent, pending, todo.Keys)[s := Handed(c, sent[s], todo[s])]
  {
    var before, after := FlushedExcept(c, sent, pending, todo.Keys), FlushedExcept(c, sent, pending, (todo - {s}).Keys);
    assert todo.Keys == (todo - {s}).Keys + {s} && |todo| == |todo.Keys| && |todo - {s}| == |(todo - {s}).Keys|;
    assert forall k :: 0 <= k < |sent| ==> after[k] == if k == s then Handed(c, sent[s], todo[s]) else before[k];
  }

  lemma TakeOne(c: Config, events: seq<Event>, n: nat)
    requires c.HostsFit() && (forall e :: e in events ==> c.Knows(e)) && n < |events|
    ensures c.Knows(events[n]) && After(c, events[..n + 1]) == Step(c, After(c, events[..n]), events[n])
  {
    assert events[..n + 1][..n] == events[..n];
  }

  lemma NothingToFlush(c: Config, sent: seq<seq<Batch>>)
    ensures Flushed(c, sent, map[]) == sent
  {}

  // What the machine guarantees.

  predicate IsStart(e: Event) {
    e.Arrives? && e.msg.StartConnection?
  }

  /** The one way a message is lost: a StartConnection met by the last drain. */
  predicate DroppedAt(c: Config, events: seq<Event>, i: nat)
    requires c.HostsFit() && forall e :: e in events ==> c.Knows(e)
  {
    i < |events| && IsStart(events[i]) && After(c, events[..i]).mode == Final
  }

  function For(c: Config, e: Event, s: nat): seq<CM.ClientMessageType>
    requires c.HostsFit() && c.Knows(e)
  {
    if e.Arrives? && e.msg.serverIdx == s then [Wire(c, e.msg)] else []
  }

  /** Everything received for server s, in order. */
  function Received(c: Config, events: seq<Event>, s: nat): seq<CM.ClientMessageType>
    requires c.HostsFit() && forall e :: e in events ==> c.Knows(e)
  {
    if events == [] then [] else Received(c, events[..|events| - 1], s) + For(c, events[|events| - 1], s)
  }

  /** The same, without what was dropped. */
  function Kept(c: Config, events: seq<Event>, s: nat): seq<CM.ClientMessageType>
    requires c.HostsFit() && forall e :: e in events ==> c.Knows(e)
  {
    if events == [] then [] else
      var n := |events| - 1;
      Kept(c, events[..n], s) + (if DroppedAt(c, events, n) then [] else For(c, events[n], s))
  }

  function Flatten(batches: seq<Batch>): seq<CM.ClientMessageType> {
    if batches == [] then [] else Flatten(batches[..|batches| - 1]) + batches[|batches| - 1].messages
  }

  lemma HandedFlattens(c: Config, batches: seq<Batch>, messages: seq<CM.ClientMessageType>)
    ensures Flatten(Handed(c, batches, messages)) == Flatten(batches) + messages
  {
    if messages == [] {
      assert Flatten(batches) + [] == Flatten(batches);
    } else {
      var b := Batch(NonceAt(c, |batches|), messages);
      assert (batches + [b])[..|batches + [b]| - 1] == batches;
    }
  }

  /** What server s has been sent, followed by what waits for it. */
  function Total(st: State, s: nat): seq<CM.ClientMessageType>
    requires s < |st.sent|
  {
    Flatten(st.sent[s]) + Entry(st.pending, s)
  }

  lemma FlushKeepsOrder(c: Config, st: State, s: nat)
    requires s < |st.sent|
    ensures Flatten(Flushed(c, st.sent, st.pending)[s]) == Total(st, s)
  {
    HandedFlattens(c, st.sent[s], Entry(st.pending, s));
  }

  lemma SendAppends(c: Config, sent: seq<seq<Batch>>, e: Event, s: nat)
    requires c.HostsFit() && c.Knows(e) && s < |sent| == |c.servers| && IsStart(e)
    ensures Flatten(SentNow(c, sent, e.msg)[s]) == Flatten(sent[s]) + For(c, e, s)
  {
    HandedFlattens(c, sent[s], [Wire(c, e.msg)]);
  }

  lemma QueueAppends(c: Config, st: State, e: Event, s: nat)
    requires c.HostsFit() && c.Knows(e) && s < |st.sent| == |c.servers| && e.Arrives?
    ensures Flatten(st.sent[s]) + Entry(Queued(c, st.pending, e.msg), s) == Total(st, s) + For(c, e, s)
  {
    if e.msg.serverIdx == s {
      assert Flatten(st.sent[s]) + (Entry(st.pending, s) + [Wire(c, e.msg)]) == Total(st, s) + [Wire(c, e.msg)];
    }
  }

  lemma StepKeepsOrder(c: Config, st: State, e: Event, s: nat)
    requires c.HostsFit() && c.Knows(e) && s < |st.sent| == |c.servers|
    requires st.mode == Idle ==> st.pending == map[]
    ensures Total(Step(c, st, e), s)
            == Total(st, s) + (if IsStart(e) && st.mode == Final then [] else For(c, e, s))
    ensures Step(c, st, e).mode == Idle ==> Step(c, st, e).pending == map[]
  {
    FlushKeepsOrder(c, st, s);
    if IsStart(e) {
      if st.mode == Idle {
        SendAppends(c, st.sent, e, s);
      } else {
        SendAppends(c, Flushed(c, st.sent, st.pending), e, s);
      }
    } else if e.Arrives? {
      QueueAppends(c, st, e, s);
    }
  }

  lemma {:induction false} OrderKept(c: Config, events: seq<Event>, s: nat)
    requires c.HostsFit() && (forall e :: e in events ==> c.Knows(e)) && s < |c.servers|
    ensures Total(After(c, events), s) == Kept(c, events, s)
    ensures After(c, events).mode == Idle ==> After(c, events).pending == map[]
  {
    if events != [] {
      OrderKept(c, events[..|events| - 1], s);
      StepKeepsOrder(c, After(c, events[..|events| - 1]), events[|events| - 1], s);
    }
  }

  /** The batches of a server, laid end to end, are what was received for it, in order, less what was dropped. */
  lemma {:induction false} Fifo(c: Config, events: seq<Event>, s: nat)
    requires c.HostsFit() && (forall e :: e in events ==> c.Knows(e)) && s < |c.servers|
    ensures Flatten(Outcome(c, events)[s]) == Kept(c, events, s)
  {
    OrderKept(c, events, s);
    var st := After(c, events);
    HandedFlattens(c, st.sent[s], Entry(st.pending, s));
  }

  lemma {:induction false} KeptExactly(c: Config, events: seq<Event>, s: nat)
    requires c.HostsFit() && forall e :: e in events ==> c.Knows(e)
    ensures |Kept(c, events, s)| <= |Received(c, events, s)|
    ensures |Kept(c, events, s)| == |Received(c, events, s)| ==> Kept(c, events, s) == Received(c, events, s)
    ensures Kept(c, events, s) == Received(c, events, s)
       <==> forall i :: 0 <= i < |events| && DroppedAt(c, events, i) ==> events[i].msg.serverIdx != s
  {
    if events != [] {
      var n := |events| - 1;
      var most := events[..n];
      KeptExactly(c, most, s);
      forall i | 0 <= i < n ensures DroppedAt(c, events, i) == DroppedAt(c, most, i) {
        assert most[..i] == events[..i];
      }
      assert || |Kept(c, events, s)| < |Received(c, events, s)|
             || (Kept(c, most, s) == Received(c, most, s) && Kept(c, events, s) == Received(c, events, s));
    }
  }

  /** A server's batches, laid end to end, are all that was received for it if and only if no StartConnection for it met
      the last drain. */
  lemma LossExactly(c: Config, events: seq<Event>, s: nat)
    requires c.HostsFit() && (forall e :: e in events ==> c.Knows(e)) && s < |c.servers|
    ensures Flatten(Outcome(c, events)[s]) == Received(c, events, s)
       <==> forall i :: 0 <= i < |events| && DroppedAt(c, events, i) ==> events[i].msg.serverIdx != s
  {
    Fifo(c, events, s);
    KeptExactly(c, events, s);
  }

  /** A loss that happens: data, two quiet moments, and a StartConnection that arrives during the last drain. */
  lemma StartCanBeLost(c: Config, data: OutgoingMessage, start: OutgoingMessage)
    requires c.HostsFit() && data.serverIdx < |c.servers| && start.serverIdx < |c.servers|
    requires !data.StartConnection? && start.StartConnection?
    ensures DroppedAt(c, [Arrives(data), Quiet, Quiet, Arrives(start)], 3)
  {
    var events := [Arrives(data), Quiet, Quiet, Arrives(start)];
    assert events[..0] == [];
    TakeOne(c, events, 0);
    TakeOne(c, events, 1);
    TakeOne(c, events, 2);
  }

  /** A batch as it should be: not empty, stamped in sequence, and a StartConnection has it to itself. */
  predicate Proper(c: Config, batches: seq<Batch>) {
    forall k :: 0 <= k < |batches| ==>
      && batches[k].nonce == NonceAt(c, k)
      && batches[k].messages != []
      && (|batches[k].messages| > 1 ==> NoStart(batches[k].messages))
  }

  predicate NoStart(messages: seq<CM.ClientMessageType>) {
    forall i :: 0 <= i < |messages| ==> !messages[i].StartConnection?
  }

  predicate Orderly(c: Config, st: State) {
    && (forall s :: 0 <= s < |st.sent| ==> Proper(c, st.sent[s]))
    && (forall s :: s in st.pending ==> NoStart(st.pending[s]))
  }

  lemma HandedProper(c: Config, batches: seq<Batch>, messages: seq<CM.ClientMessageType>)
    requires Proper(c, batches) && (NoStart(messages) || |messages| == 1)
    ensures Proper(c, Handed(c, batches, messages))
  {}

  lemma FlushProper(c: Config, st: State)
    requires Orderly(c, st)
    ensures forall s :: 0 <= s < |st.sent| ==> Proper(c, Flushed(c, st.sent, st.pending)[s])
  {
    forall s | 0 <= s < |st.sent| ensures Proper(c, Flushed(c, st.sent, st.pending)[s]) {
      HandedProper(c, st.sent[s], Entry(st.pending, s));
    }
  }

  lemma {:induction false} StepOrderly(c: Config, st: State, e: Event)
    requires c.HostsFit() && c.Knows(e) && |st.sent| == |c.servers| && Orderly(c, st)
    ensures Orderly(c, Step(c, st, e))
  {
    FlushProper(c, st);
    if IsStart(e) {
      var s := e.msg.serverIdx;
      HandedProper(c, st.sent[s], [Wire(c, e.msg)]);
      HandedProper(c, Flushed(c, st.sent, st.pending)[s], [Wire(c, e.msg)]);
    }
  }

  lemma {:induction false} AlwaysOrderly(c: Config, events: seq<Event>)
    requires c.HostsFit() && forall e :: e in events ==> c.Knows(e)
    ensures Orderly(c, After(c, events))
  {
    if events != [] {
      AlwaysOrderly(c, events[..|events| - 1]);
      StepOrderly(c, After(c, events[..|events| - 1]), events[|events| - 1]);
    }
  }

  /** Every batch of every server is proper; in particular its nonces are consecutive. */
  lemma BatchesProper(c: Config, events: seq<Event>, s: nat)
    requires c.HostsFit() && (forall e :: e in events ==> c.Knows(e)) && s < |c.servers|
    ensures Proper(c, Outcome(c, events)[s])
  {
    AlwaysOrderly(c, events);
    FlushProper(c, After(c, events));
  }
}
