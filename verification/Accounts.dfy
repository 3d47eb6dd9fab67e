/** What passed through a client's connections, told from the history of its messages: the bytes its targets were
    sent, the attempts made to read from them, and when each connection was last active. */
module Accounts {
  import opened Bytes
  import opened Options
  import opened Sessions
  import opened ServerResponses
  import opened Worlds
  import ClientMessages
  import Framing

  type Message = ClientMessages.ClientMessageType

  /** What happened for one client: a message was handled, a connection was opened, a connection was closed. */
  datatype Deed = Told(msg: Message, w: World, now: nat) | Opened(id: U64, now: nat) | Shut(id: U64)

  // One connection's share of a message.

  /** The bytes a message brings for a connection. */
  function DataFor(signer: Framing.Signer, msg: Message, id: U64): seq<Byte> {
    if msg.Data? && Framing.VerifiedId(signer, msg.connectionIdSigned) == Some(id) then msg.data else []
  }

  function AllDataFor(signer: Framing.Signer, msgs: seq<Message>, id: U64): seq<Byte> {
    if msgs == [] then []
    else AllDataFor(signer, msgs[..|msgs| - 1], id) + DataFor(signer, msgs[|msgs| - 1], id)
  }

  predicate IsFor(signer: Framing.Signer, msg: Message, id: U64) {
    msg.Data? && Framing.VerifiedId(signer, msg.connectionIdSigned) == Some(id)
  }

  /** What an open connection's target is sent. */
  function SentBy(signer: Framing.Signer, msg: Message, w: World, id: U64): seq<Byte> {
    if w.writeFails then [] else DataFor(signer, msg, id)
  }

  /** The attempts to read from an open connection's target: after a write, or on a poll. */
  function MadeBy(signer: Framing.Signer, msg: Message, w: World, id: U64): seq<Reading> {
    if msg.Poll? then Made(false, ReadsOf(w, id))
    else if IsFor(signer, msg, id) && !w.writeFails then Made(true, ReadsOf(w, id))
    else []
  }

  /** An open connection is active when data comes for it, or when a poll brings bytes. */
  predicate Activates(signer: Framing.Signer, msg: Message, w: World, id: U64) {
    IsFor(signer, msg, id) || (msg.Poll? && GotBytes(MadeBy(signer, msg, w, id)) != [])
  }

  // One connection's history.

  /** Whether a connection is open, what its target has been sent since it was last opened, all attempts to read from
      it, and when it was last active. */
  datatype Channel = Channel(open: bool, sent: seq<Byte>, made: seq<Reading>, lastActive: nat)

  function Next(signer: Framing.Signer, c: Channel, deed: Deed, id: U64): Channel {
    match deed
    case Opened(i, now) => if i == id then Channel(true, [], c.made, now) else c
    case Shut(i) => if i == id then c.(open := false) else c
    case Told(msg, w, now) =>
      if !c.open then c else
        Channel(true, c.sent + SentBy(signer, msg, w, id), c.made + MadeBy(signer, msg, w, id),
                if Activates(signer, msg, w, id) then now else c.lastActive)
  }

  function ChannelOf(signer: Framing.Signer, history: seq<Deed>, id: U64): Channel {
    if history == [] then Channel(false, [], [], 0)
    else Next(signer, ChannelOf(signer, history[..|history| - 1], id), history[|history| - 1], id)
  }

  // The state it accounts for.

  datatype ConnectionInfo = ConnectionInfo(lastActivity: nat)

  /** A client's connections, and what has passed each one's target in either direction. */
  datatype Sockets = Sockets(
    connections: map<U64, ConnectionInfo>, outbox: map<U64, seq<Byte>>, inbox: map<U64, seq<Reading>>)

  function At<T>(m: map<U64, seq<T>>, id: U64): seq<T> {
    if id in m then m[id] else []
  }

  ghost predicate AccountedFor(signer: Framing.Signer, s: Sockets, log: seq<Entry>, history: seq<Deed>, id: U64) {
    var c := ChannelOf(signer, history, id);
    && (id in s.connections <==> c.open)
    && (id in s.connections ==> s.connections[id].lastActivity == c.lastActive)
    && At(s.outbox, id) == c.sent
    && At(s.inbox, id) == c.made
    && Relayed(log, id) == GotBytes(c.made)
  }

  /** Every connection, closed ones included, is as its history says, and the client was sent exactly the bytes that the
      attempts to read from its target brought. */
  ghost predicate Accounted(signer: Framing.Signer, s: Sockets, log: seq<Entry>, history: seq<Deed>) {
    forall id: U64 :: AccountedFor(signer, s, log, history, id)
  }

  function DeedsOf(issued: nat, now: nat, step: Step): seq<Deed> {
    if step.Open? then [Opened(IdOf(issued), now)] else if Ends(step) then [Shut(step.id)] else []
  }

  /** What the steps of one message do to connections. */
  function Deeds(issued: nat, now: nat, steps: seq<Step>): seq<Deed> {
    if steps == [] then [] else
      Deeds(issued, now, steps[..|steps| - 1]) + DeedsOf(issued, now, steps[|steps| - 1])
  }

  predicate EndsIn(steps: seq<Step>, id: U64) {
    exists i :: 0 <= i < |steps| && Ends(steps[i]) && steps[i].id == id
  }

  predicate OpensNothing(steps: seq<Step>) {
    forall i :: 0 <= i < |steps| ==> !steps[i].Open?
  }

  lemma OneMore(signer: Framing.Signer, history: seq<Deed>, last: Deed, id: U64)
    ensures ChannelOf(signer, history + [last], id) == Next(signer, ChannelOf(signer, history, id), last, id)
  {
    assert (history + [last])[..|history|] == history;
  }

  lemma EndsInMore(steps: seq<Step>, id: U64)
    requires steps != []
    ensures var n := |steps| - 1;
            EndsIn(steps, id) <==> EndsIn(steps[..n], id) || (Ends(steps[n]) && steps[n].id == id)
  {
    var n := |steps| - 1;
    if EndsIn(steps[..n], id) {
      var i :| 0 <= i < n && Ends(steps[..n][i]) && steps[..n][i].id == id;
      assert steps[i] == steps[..n][i];
    }
    if i :| 0 <= i < |steps| && Ends(steps[i]) && steps[i].id == id && i < n {
      assert steps[..n][i] == steps[i];
    }
  }

  lemma StepCloses(signer: Framing.Signer, v: View, key: Key, step: Step, issued: nat, now: nat,
                   history: seq<Deed>, id: U64)
    requires !step.Open?
    ensures id in Apply(v, key, step).table <==> id in v.table && !(Ends(step) && step.id == id)
    ensures var c := ChannelOf(signer, history, id);
            ChannelOf(signer, history + DeedsOf(issued, now, step), id)
            == c.(open := c.open && !(Ends(step) && step.id == id))
  {
    if Ends(step) {
      OneMore(signer, history, Shut(step.id), id);
    } else {
      NothingAppended(history);
    }
  }

  lemma DeedsMore(history: seq<Deed>, issued: nat, now: nat, steps: seq<Step>)
    requires steps != []
    ensures var n := |steps| - 1;
            history + Deeds(issued, now, steps)
            == (history + Deeds(issued, now, steps[..n])) + DeedsOf(issued, now, steps[n])
  {}

  /** Steps that open nothing close the connections they end, in the table and in the history alike. */
  lemma {:induction false} StepsClose(signer: Framing.Signer, v: View, key: Key, steps: seq<Step>, issued: nat,
                                      now: nat, history: seq<Deed>, id: U64)
    requires OpensNothing(steps)
    ensures id in ApplyAll(v, key, steps).table <==> id in v.table && !EndsIn(steps, id)
    ensures var c := ChannelOf(signer, history, id);
            ChannelOf(signer, history + Deeds(issued, now, steps), id) == c.(open := c.open && !EndsIn(steps, id))
  {
    if steps == [] {
      NothingAppended(history);
    } else {
      var most, last := steps[..|steps| - 1], steps[|steps| - 1];
      StepsClose(signer, v, key, most, issued, now, history, id);
      EndsInMore(steps, id);
      DeedsMore(history, issued, now, steps);
      StepCloses(signer, ApplyAll(v, key, most), key, last, issued, now, history + Deeds(issued, now, most), id);
    }
  }

  // One message.

  /** What handling a message does to one connection. */
  ghost predicate EffectOn(signer: Framing.Signer, issued: nat, msg: Message, w: World, now: nat, steps: seq<Step>,
                           before: Sockets, after: Sockets, id: U64)
  {
    if steps == [Open] && id == IdOf(issued) then
      && id in after.connections && after.connections[id].lastActivity == now
      && At(after.outbox, id) == [] && At(after.inbox, id) == At(before.inbox, id)
    else if id in before.connections then
      && At(after.outbox, id) == At(before.outbox, id) + SentBy(signer, msg, w, id)
      && At(after.inbox, id) == At(before.inbox, id) + MadeBy(signer, msg, w, id)
      && (id in after.connections ==>
            after.connections[id].lastActivity
            == if Activates(signer, msg, w, id) then now else before.connections[id].lastActivity)
    else
      && id !in after.connections
      && At(after.outbox, id) == At(before.outbox, id) && At(after.inbox, id) == At(before.inbox, id)
  }

  /** What the message's steps put on record for one connection: the bytes the attempts brought. */
  ghost predicate RelaysOn(signer: Framing.Signer, v: View, key: Key, msg: Message, w: World, steps: seq<Step>,
                           id: U64) {
    Relayed(ApplyAll(v, key, steps).log, id)
    == Relayed(v.log, id) + (if id in v.table then GotBytes(MadeBy(signer, msg, w, id)) else [])
  }

  ghost predicate Effect(signer: Framing.Signer, v: View, key: Key, msg: Message, w: World, now: nat, steps: seq<Step>,
                         before: Sockets, after: Sockets)
  {
    && (if steps == [Open] then msg.StartConnection? else OpensNothing(steps))
    && (forall id: U64 :: EffectOn(signer, v.issued, msg, w, now, steps, before, after, id))
    && (forall id: U64 :: RelaysOn(signer, v, key, msg, w, steps, id))
  }

  lemma {:induction false} GotAppend(a: seq<Reading>, b: seq<Reading>)
    ensures GotBytes(a + b) == GotBytes(a) + GotBytes(b)
  {
    if b == [] {
      assert a + b == a;
    } else {
      var most, last := b[..|b| - 1], b[|b| - 1];
      assert a + b == (a + most) + [last];
      GotAppend(a, most);
      OneMoreAttempt(a + most, last);
      Reassociate(GotBytes(a), GotBytes(most), if last.Got? then last.chunk else []);
    }
  }

  lemma NothingAppended<T>(s: seq<T>)
    ensures s + [] == s
  {}

  lemma AccountsAfterOpen(signer: Framing.Signer, v: View, key: Key, msg: Message, w: World, now: nat,
                          before: Sockets, after: Sockets, history: seq<Deed>, id: U64)
    requires AccountedFor(signer, before, v.log, history, id) && v.table == before.connections.Keys
    requires after.connections.Keys == ApplyAll(v, key, [Open]).table && msg.StartConnection?
    requires EffectOn(signer, v.issued, msg, w, now, [Open], before, after, id)
    requires RelaysOn(signer, v, key, msg, w, [Open], id)
    ensures AccountedFor(signer, after, ApplyAll(v, key, [Open]).log,
                         history + [Told(msg, w, now)] + Deeds(v.issued, now, [Open]), id)
  {
    var told := history + [Told(msg, w, now)];
    var c := ChannelOf(signer, history, id);
    assert [Open][..0] == [] && Deeds(v.issued, now, [Open]) == [Opened(IdOf(v.issued), now)];
    OneMore(signer, history, Told(msg, w, now), id);
    OneMore(signer, told, Opened(IdOf(v.issued), now), id);
    NothingAppended(c.sent);
    NothingAppended(c.made);
    NothingAppended(Relayed(v.log, id));
    assert ApplyAll(v, key, [Open]) == Apply(v, key, Open);
  }

  lemma AccountsAfterSteps(signer: Framing.Signer, v: View, key: Key, msg: Message, w: World, now: nat,
                           steps: seq<Step>, before: Sockets, after: Sockets, history: seq<Deed>, id: U64)
    requires AccountedFor(signer, before, v.log, history, id) && v.table == before.connections.Keys
    requires after.connections.Keys == ApplyAll(v, key, steps).table && OpensNothing(steps)
    requires EffectOn(signer, v.issued, msg, w, now, steps, before, after, id)
    requires RelaysOn(signer, v, key, msg, w, steps, id)
    ensures AccountedFor(signer, after, ApplyAll(v, key, steps).log,
                         history + [Told(msg, w, now)] + Deeds(v.issued, now, steps), id)
  {
    var told := history + [Told(msg, w, now)];
    var c := ChannelOf(signer, history, id);
    OneMore(signer, history, Told(msg, w, now), id);
    StepsClose(signer, v, key, steps, v.issued, now, told, id);
    GotAppend(c.made, MadeBy(signer, msg, w, id));
    NothingAppended(Relayed(v.log, id));
  }

  /** A message with this effect keeps the account. */
  lemma MessageAccounts(signer: Framing.Signer, v: View, key: Key, msg: Message, w: World, now: nat, steps: seq<Step>,
                        before: Sockets, after: Sockets, history: seq<Deed>)
    requires Accounted(signer, before, v.log, history) && v.table == before.connections.Keys
    requires after.connections.Keys == ApplyAll(v, key, steps).table
    requires Effect(signer, v, key, msg, w, now, steps, before, after)
    ensures Accounted(signer, after, ApplyAll(v, key, steps).log,
                      history + [Told(msg, w, now)] + Deeds(v.issued, now, steps))
  {
    forall id: U64
      ensures AccountedFor(signer, after, ApplyAll(v, key, steps).log,
                           history + [Told(msg, w, now)] + Deeds(v.issued, now, steps), id)
    {
      assert AccountedFor(signer, before, v.log, history, id);
      assert EffectOn(signer, v.issued, msg, w, now, steps, before, after, id);
      assert RelaysOn(signer, v, key, msg, w, steps, id);
      if steps == [Open] {
        AccountsAfterOpen(signer, v, key, msg, w, now, before, after, history, id);
      } else {
        AccountsAfterSteps(signer, v, key, msg, w, now, steps, before, after, history, id);
      }
    }
  }

  // What steps put on record.

  lemma ClosingRelaysNothing(key: Key, i: U64, ending: Ending, id: U64)
    ensures Relayed(Closing(key, i, ending), id) == []
  {
    if !ending.StillOpen? {
      FlowOne(Closing(key, i, ending)[0], id);
    }
  }

  lemma RelayRelays(key: Key, i: U64, chunks: seq<Chunk>, id: U64)
    ensures Relayed(Relay(key, i, chunks), id) == if i == id then Flatten(chunks) else []
  {
    FlowOfRelay(key, i, chunks, id);
    FlowOfReads(key, i, chunks, id);
    if chunks == [] {
      NothingAppended(Reads(key, i, chunks));
    } else {
      FlowAppend(Reads(key, i, chunks), [Sent(key, Data(i, Flatten(chunks), true))], id);
      FlowOne(Sent(key, Data(i, Flatten(chunks), true)), id);
      NothingAppended(Fetched(Reads(key, i, chunks), id));
    }
  }

  lemma ExchangeRelays(issued: nat, key: Key, i: U64, chunks: seq<Chunk>, ending: Ending, id: U64)
    ensures Relayed(Added(issued, key, Exchange(i, chunks, ending)), id) == if i == id then Flatten(chunks) else []
  {
    RelayRelays(key, i, chunks, id);
    ClosingRelaysNothing(key, i, ending, id);
    FlowAppend(Relay(key, i, chunks), Closing(key, i, ending), id);
    NothingAppended(Relayed(Relay(key, i, chunks), id));
  }

  /** Reading from a target puts on record just the bytes that were got. */
  lemma LoopRelays(v: View, key: Key, reply: bool, i: U64, w: World, id: U64)
    ensures Relayed(Apply(v, key, ExchangeOf(reply, i, w)).log, id)
            == Relayed(v.log, id) + (if i == id then GotBytes(Made(reply, ReadsOf(w, i))) else [])
  {
    var made := Made(reply, ReadsOf(w, i));
    ChunksFlatten(made);
    ExchangeRelays(v.issued, key, i, Chunks(made), EndingOf(made), id);
    FlowAppend(v.log, Added(v.issued, key, ExchangeOf(reply, i, w)), id);
  }

  /** So does a silent step. */
  lemma OthersRelayNothing(v: View, key: Key, step: Step, id: U64)
    requires !step.Exchange?
    ensures Relayed(Apply(v, key, step).log, id) == Relayed(v.log, id)
  {
    var added := Added(v.issued, key, step);
    FlowOne(added[0], id);
    FlowAppend(v.log, added, id);
    NothingAppended(Relayed(v.log, id));
  }

  lemma {:induction false} ExpiriesRelayNothing(v: View, key: Key, steps: seq<Step>, id: U64)
    requires forall s :: s in steps ==> s.Expire?
    ensures Relayed(ApplyAll(v, key, steps).log, id) == Relayed(v.log, id)
  {
    if steps != [] {
      var most, last := steps[..|steps| - 1], steps[|steps| - 1];
      assert last in steps;
      ExpiriesRelayNothing(v, key, most, id);
      OthersRelayNothing(ApplyAll(v, key, most), key, last, id);
    }
  }

  /** Closing idle connections keeps the account. */
  lemma CleanupAccounts(signer: Framing.Signer, v: View, key: Key, steps: seq<Step>, issued: nat, now: nat,
                        before: Sockets, after: Sockets, history: seq<Deed>)
    requires Accounted(signer, before, v.log, history) && v.table == before.connections.Keys
    requires forall s :: s in steps ==> s.Expire?
    requires after.connections.Keys == ApplyAll(v, key, steps).table
    requires after.outbox == before.outbox && after.inbox == before.inbox
    requires forall id :: id in after.connections ==>
               id in before.connections && after.connections[id] == before.connections[id]
    ensures Accounted(signer, after, ApplyAll(v, key, steps).log, history + Deeds(issued, now, steps))
  {
    assert OpensNothing(steps) by {
      assert forall i :: 0 <= i < |steps| ==> steps[i] in steps;
    }
    forall id: U64
      ensures AccountedFor(signer, after, ApplyAll(v, key, steps).log, history + Deeds(issued, now, steps), id)
    {
      assert AccountedFor(signer, before, v.log, history, id);
      StepsClose(signer, v, key, steps, issued, now, history, id);
      ExpiriesRelayNothing(v, key, steps, id);
    }
  }

  // What the history comes to.

  /** The messages of a history, in order. */
  function Messages(history: seq<Deed>): seq<Message> {
    if history == [] then [] else
      Messages(history[..|history| - 1])
      + (if history[|history| - 1].Told? then [history[|history| - 1].msg] else [])
  }

  /** A stretch of history in which a connection is neither opened nor closed, and no write to it fails. */
  predicate Undisturbed(signer: Framing.Signer, t: seq<Deed>, id: U64) {
    forall i :: 0 <= i < |t| ==>
      match t[i]
      case Opened(j, _) => j != id
      case Shut(j) => j != id
      case Told(msg, w, _) => w.writeFails ==> DataFor(signer, msg, id) == []
  }

  /** One deed more of such a stretch. */
  lemma UndisturbedNext(signer: Framing.Signer, c: Channel, t: seq<Deed>, id: U64)
    requires t != [] && Undisturbed(signer, t, id) && c.open
    ensures Undisturbed(signer, t[..|t| - 1], id)
    ensures var last := t[|t| - 1]; var c' := Next(signer, c, last, id);
            c'.open && c'.sent == if last.Told? then c.sent + DataFor(signer, last.msg, id) else c.sent
  {
    assert forall i :: 0 <= i < |t| - 1 ==> t[..|t| - 1][i] == t[i];
  }

  lemma MessagesMore(signer: Framing.Signer, t: seq<Deed>, id: U64)
    requires t != []
    ensures var most, last := t[..|t| - 1], t[|t| - 1];
            AllDataFor(signer, Messages(t), id)
            == if last.Told? then AllDataFor(signer, Messages(most), id) + DataFor(signer, last.msg, id)
               else AllDataFor(signer, Messages(most), id)
  {
    var most, last := t[..|t| - 1], t[|t| - 1];
    if last.Told? {
      assert Messages(t)[..|Messages(t)| - 1] == Messages(most);
    } else {
      assert Messages(t) == Messages(most);
    }
  }

  /** The target of this open connection has been sent just the payloads for it of these messages. */
  predicate SentAll(signer: Framing.Signer, c: Channel, t: seq<Deed>, id: U64) {
    c.open && c.sent == AllDataFor(signer, Messages(t), id)
  }

  lemma JustOpened(signer: Framing.Signer, a: seq<Deed>, now: nat, id: U64)
    ensures SentAll(signer, ChannelOf(signer, a + [Opened(id, now)] + [], id), [], id)
  {
    OneMore(signer, a, Opened(id, now), id);
    NothingAppended(a + [Opened(id, now)]);
  }

  lemma SentAllMore(signer: Framing.Signer, start: seq<Deed>, t: seq<Deed>, id: U64)
    requires t != [] && Undisturbed(signer, t, id)
    requires SentAll(signer, ChannelOf(signer, start + t[..|t| - 1], id), t[..|t| - 1], id)
    ensures SentAll(signer, ChannelOf(signer, start + t, id), t, id)
  {
    var most, last := t[..|t| - 1], t[|t| - 1];
    UndisturbedNext(signer, ChannelOf(signer, start + most, id), t, id);
    assert start + t == (start + most) + [last];
    OneMore(signer, start + most, last, id);
    MessagesMore(signer, t, id);
  }

  /** An open connection's target has been sent exactly the payloads for it of all messages since its Challenge, in
      order. */
  lemma {:induction false} SinceChallenge(signer: Framing.Signer, a: seq<Deed>, now: nat, t: seq<Deed>, id: U64)
    requires Undisturbed(signer, t, id)
    ensures SentAll(signer, ChannelOf(signer, a + [Opened(id, now)] + t, id), t, id)
  {
    if t == [] {
      JustOpened(signer, a, now, id);
    } else {
      UndisturbedNext(signer, Channel(true, [], [], 0), t, id);
      SinceChallenge(signer, a, now, t[..|t| - 1], id);
      SentAllMore(signer, a + [Opened(id, now)], t, id);
    }
  }
}
