/** The server's request handler, refining the steps of Sessions. */
module Server {
  import opened Bytes
  import opened Options
  import Addresses
  import ClientMessages
  import opened ServerResponses
  import opened Sessions
  import Framing
  import Nonces
  import opened Worlds
  import opened Accounts
  import opened Replies

  function StartStep(limit: nat, open: nat, allowPrivate: bool, w: World): Step {
    if open >= limit then Refuse(TooManyConnections, w.text)
    else if !allowPrivate && w.isPrivate then Refuse(HostUnreachable, w.text)
    else match w.connect
         case Connected => Open
         case ConnectionRefusedError => Refuse(ConnectionRefused, w.text)
         case TimedOutError => Refuse(Timeout, w.text)
         case OtherError => Refuse(HostUnreachable, w.text)
         case DeadlinePassed => Refuse(Timeout, w.text)
  }

  /** What data for an open connection does: write it, then read a reply. */
  function DataStep(id: U64, w: World): Step {
    if w.writeFails then Drop(id, w.text)
    else ExchangeOf(true, id, w)
  }

  /** A data message does nothing without a valid signature for an open connection. */
  function DataSteps(table: set<U64>, id: Option<U64>, w: World): seq<Step> {
    if id.None? || id.value !in table then [] else [DataStep(id.value, w)]
  }

  function CloseSteps(table: set<U64>, id: Option<U64>): seq<Step> {
    if id.None? || id.value !in table then [] else [Drop(id.value, [])]
  }

  function PollStep(id: U64, w: World): Step {
    ExchangeOf(false, id, w)
  }

  /** Every open connection is polled once, in whatever order the table yields them. */
  function PollSteps(order: seq<U64>, w: World): seq<Step> {
    seq(|order|, i requires 0 <= i < |order| => PollStep(order[i], w))
  }

  /** The steps one message takes, in a view whose table is `table`. */
  ghost predicate Answers(limit: nat, allowPrivate: bool, signer: Framing.Signer, table: set<U64>,
                          msg: Message, w: World, steps: seq<Step>)
  {
    match msg
    case StartConnection(_, _) => steps == [StartStep(limit, |table|, allowPrivate, w)]
    case Data(signed, _, _) => steps == DataSteps(table, Framing.VerifiedId(signer, signed), w)
    case Close(signed) => steps == CloseSteps(table, Framing.VerifiedId(signer, signed))
    case Poll =>
      exists order :: NoRepeats(order) && (forall id :: id in order <==> id in table) && steps == PollSteps(order, w)
  }

  /** The steps of a batch, message by message: each is answered in the table its predecessors left. */
  ghost predicate AnswersAll(limit: nat, allowPrivate: bool, signer: Framing.Signer, key: Key, v: View,
                             msgs: seq<Message>, worlds: seq<World>, drawn: seq<nat>, parts: seq<seq<Step>>)
    requires |msgs| == |worlds| == |drawn| == |parts|
  {
    msgs == [] ||
    var n := |msgs| - 1;
    && AnswersAll(limit, allowPrivate, signer, key, v, msgs[..n], worlds[..n], drawn[..n], parts[..n])
    && Answers(limit, allowPrivate, signer, Woven(v, key, drawn[..n], parts[..n]).table, msgs[n], worlds[n], parts[n])
  }

  /** The client's history after a batch. */
  function Chronicle(history: seq<Deed>, v: View, key: Key, now: nat,
                     msgs: seq<Message>, worlds: seq<World>, drawn: seq<nat>, parts: seq<seq<Step>>): seq<Deed>
    requires |msgs| == |worlds| == |drawn| == |parts|
  {
    if msgs == [] then history else
      var n := |msgs| - 1;
      Chronicle(history, v, key, now, msgs[..n], worlds[..n], drawn[..n], parts[..n])
      + [Told(msgs[n], worlds[n], now)]
      + Deeds(Moved(Woven(v, key, drawn[..n], parts[..n]), drawn[n]).issued, now, parts[n])
  }

  /** The global id counter. */
  class Counter {
    var next: U64
    ghost var issued: nat

    ghost predicate Valid()
      reads this
    {
      next == IdOf(issued)
    }

    constructor ()
      ensures Valid() && issued == 0
    {
      next := 1;
      issued := 0;
    }

    method FetchAdd() returns (id: U64)
      requires Valid()
      modifies this
      ensures Valid() && id == IdOf(old(issued)) && issued == old(issued) + 1
    {
      id := next;
      next := if next == U64_LIMIT - 1 then 0 else next + 1;
      issued := issued + 1;
    }

    /** Other clients' requests are handed ids in the meantime. */
    method DrawnByOthers(n: nat)
      requires Valid()
      modifies this
      ensures Valid() && issued == old(issued) + n
    {
      for i := 0 to n
        invariant Valid() && issued == old(issued) + i
      {
        var id := FetchAdd();
      }
    }
  }

  /** What the server keeps for one client key, behind that client's lock, and what passed through its connections,
      closed ones included: `outbox` is what each target has been sent, `inbox` the attempts made to read from it. */
  class ClientState {
    const key: Key
    const signer: Framing.Signer
    const nonce: Nonces.NonceValidator
    var connections: map<U64, ConnectionInfo>
    var outbox: map<U64, seq<Byte>>
    var inbox: map<U64, seq<Reading>>
    ghost var log: seq<Entry>
    ghost var history: seq<Deed>

    ghost function State(): Sockets
      reads this
    {
      Sockets(connections, outbox, inbox)
    }

    /** At all times every connection is as its history says, and what was read from its target is what the client
        got. */
    ghost predicate Valid()
      reads this
    {
      Accounted(signer, State(), log, history)
    }

    ghost function Now(counter: Counter): View
      reads this, counter
    {
      View(counter.issued, connections.Keys, log)
    }

    constructor (key: Key, signer: Framing.Signer)
      ensures Valid() && this.key == key && this.signer == signer
      ensures State() == Sockets(map[], map[], map[]) && log == [] && history == []
      ensures fresh(nonce) && nonce.Abstract() == Nonces.START
    {
      this.key, this.signer := key, signer;
      nonce := new Nonces.NonceValidator();
      connections, outbox, inbox := map[], map[], map[];
      log, history := [], [];
    }

    /** Connects, and if that succeeds keeps the connection under the next id. */
    method Connect(counter: Counter, w: World, now: nat) returns (response: ServerResponseType)
      requires counter.Valid()
      modifies this`connections, this`outbox, counter
      ensures counter.Valid() && counter.issued == old(counter.issued) + if w.connect.Connected? then 1 else 0
      ensures w.connect.Connected? <==> response.Challenge?
      ensures response == match w.connect
                          case Connected => Challenge(IdOf(old(counter.issued)))
                          case ConnectionRefusedError => Error(0, ConnectionRefused, w.text)
                          case TimedOutError => Error(0, Timeout, w.text)
                          case OtherError => Error(0, HostUnreachable, w.text)
                          case DeadlinePassed => Error(0, Timeout, w.text)
      ensures connections == if response.Challenge? then old(connections)[response.connectionId := ConnectionInfo(now)]
                             else old(connections)
      ensures outbox == if response.Challenge? then old(outbox)[response.connectionId := []] else old(outbox)
    {
      match w.connect {
        case Connected =>
          var id := counter.FetchAdd();
          connections := connections[id := ConnectionInfo(now)];
          outbox := outbox[id := []];
          return Challenge(id);
        case ConnectionRefusedError => return Error(0, ConnectionRefused, w.text);
        case TimedOutError => return Error(0, Timeout, w.text);
        case OtherError => return Error(0, HostUnreachable, w.text);
        case DeadlinePassed => return Error(0, Timeout, w.text);
      }
    }

    /** What a StartConnection is told is decided by the limit, the address and the outcome of connecting. */
    method StartConnection(counter: Counter, limit: nat, allowPrivate: bool, w: World, now: nat)
      returns (response: ServerResponseType)
      requires counter.Valid()
      modifies this`connections, this`outbox, counter
      ensures counter.Valid()
      ensures StartReply(limit, |old(connections)|, allowPrivate, w, old(counter.issued), response)
      ensures connections == if response.Challenge? then old(connections)[response.connectionId := ConnectionInfo(now)]
                             else old(connections)
      ensures outbox == if response.Challenge? then old(outbox)[response.connectionId := []] else old(outbox)
      ensures counter.issued == old(counter.issued) + if response.Challenge? then 1 else 0
    {
      if |connections| >= limit {
        return Error(0, TooManyConnections, w.text);
      }
      if !allowPrivate && w.isPrivate {
        return Error(0, HostUnreachable, w.text);
      }
      response := Connect(counter, w, now);
    }

    /** Reads a reply into a buffer, an attempt at a time. */
    method CollectReply(incoming: seq<Reading>) returns (accumulated: seq<Byte>, ending: Ending, attempts: nat)
      ensures StopsAt(true, incoming, attempts)
      ensures accumulated == GotBytes(incoming[..attempts]) && ending == EndingOf(incoming[..attempts])
    {
      accumulated, ending, attempts := [], StillOpen, 0;
      while true
        invariant Reaches(true, incoming, attempts)
        invariant accumulated == GotBytes(incoming[..attempts]) && ending == EndingOf(incoming[..attempts]) == StillOpen
        invariant |accumulated| < MAX_RESPONSE_DATA <==> GoesOn(true, incoming[..attempts])
        decreases |incoming| - attempts
      {
        if attempts == |incoming| || |accumulated| >= MAX_RESPONSE_DATA {
          return;
        }
        ReachesMore(true, incoming, attempts);
        var reading := incoming[attempts];
        attempts := attempts + 1;
        match reading {
          case Got(chunk) =>
            accumulated := accumulated + chunk;
            if |chunk| < READ_BUFFER {
              return;
            }
          case Eof => return accumulated, Ended, attempts;
          case Failed(text) => return accumulated, Broken(text), attempts;
          case Nothing => return;
        }
      }
    }

    /** Takes what is already there, without waiting. */
    method CollectPending(incoming: seq<Reading>) returns (accumulated: seq<Byte>, ending: Ending, attempts: nat)
      ensures StopsAt(false, incoming, attempts)
      ensures accumulated == GotBytes(incoming[..attempts]) && ending == EndingOf(incoming[..attempts])
    {
      accumulated, ending, attempts := [], StillOpen, 0;
      while attempts < |incoming|
        invariant Reaches(false, incoming, attempts) && GoesOn(false, incoming[..attempts])
        invariant accumulated == GotBytes(incoming[..attempts]) && ending == EndingOf(incoming[..attempts]) == StillOpen
      {
        ReachesMore(false, incoming, attempts);
        var reading := incoming[attempts];
        attempts := attempts + 1;
        match reading {
          case Got(chunk) =>
            accumulated := accumulated + chunk;
            if |accumulated| >= MAX_RESPONSE_DATA {
              return;
            }
          case Eof => return accumulated, Ended, attempts;
          case Failed(text) => return accumulated, Broken(text), attempts;
          case Nothing => return;
        }
      }
    }

    method ReadBack(id: U64, w: World) returns (accumulated: seq<Byte>, ending: Ending)
      modifies this`inbox
      ensures var made := Made(true, ReadsOf(w, id));
              && accumulated == GotBytes(made) && ending == EndingOf(made)
              && inbox == old(inbox)[id := At(old(inbox), id) + made]
    {
      var incoming := ReadsOf(w, id);
      var attempts;
      accumulated, ending, attempts := CollectReply(incoming);
      StopsOnce(true, incoming, attempts);
      inbox := inbox[id := At(inbox, id) + incoming[..attempts]];
    }

    /** Writes to the target of an open connection and collects its reply. */
    method WriteAndRead(counter: Counter, id: U64, data: seq<Byte>, w: World, now: nat)
      returns (responses: seq<ServerResponseType>, closed: bool)
      requires id in connections
      modifies this`connections, this`outbox, this`inbox, this`log
      ensures connections == old(connections)[id := ConnectionInfo(now)] && connections.Keys == old(connections.Keys)
      ensures outbox == if w.writeFails then old(outbox) else old(outbox)[id := At(old(outbox), id) + data]
      ensures inbox == if w.writeFails then old(inbox)
                       else old(inbox)[id := At(old(inbox), id) + Made(true, ReadsOf(w, id))]
      ensures log == old(log) + Added(counter.issued, key, DataStep(id, w))
      ensures responses == if w.writeFails then [Close(id, w.text)] else ReadReply(id, Made(true, ReadsOf(w, id)))
      ensures closed <==> w.writeFails || EndedBy(Made(true, ReadsOf(w, id)))
    {
      connections := connections[id := ConnectionInfo(now)];
      log := log + Added(counter.issued, key, DataStep(id, w));
      if w.writeFails {
        return [Close(id, w.text)], true;
      }
      outbox := outbox[id := At(outbox, id) + data];
      ghost var made := Made(true, ReadsOf(w, id));
      var accumulated, ending := ReadBack(id, w);
      responses := Answer(id, accumulated, ending, made);
      closed := !ending.StillOpen?;
    }

    /** The same for an open connection, as a step. */
    method RelayTo(counter: Counter, limit: nat, id: U64, data: seq<Byte>, w: World, now: nat)
      returns (responses: seq<ServerResponseType>)
      requires id in connections
      modifies this`connections, this`outbox, this`inbox, this`log
      ensures EnabledAll(limit, old(Now(counter)), key, [DataStep(id, w)])
      ensures Now(counter) == ApplyAll(old(Now(counter)), key, [DataStep(id, w)])
      ensures old(log) <= log && responses == Responses(log[|old(log)|..])
      ensures connections == if Ends(DataStep(id, w)) then old(connections) - {id}
                             else old(connections)[id := ConnectionInfo(now)]
      ensures outbox == if w.writeFails then old(outbox) else old(outbox)[id := At(old(outbox), id) + data]
      ensures inbox == if w.writeFails then old(inbox)
                       else old(inbox)[id := At(old(inbox), id) + Made(true, ReadsOf(w, id))]
    {
      DataTaken(limit, Now(counter), key, id, w);
      RemoveTouched(connections, id, ConnectionInfo(now));
      var closed;
      responses, closed := WriteAndRead(counter, id, data, w, now);
      if closed {
        connections := connections - {id};
      }
    }

    method RelayData(counter: Counter, limit: nat, signed: seq<Byte>, data: seq<Byte>, w: World, now: nat)
      returns (responses: seq<ServerResponseType>, ghost steps: seq<Step>)
      modifies this`connections, this`outbox, this`inbox, this`log
      ensures steps == DataSteps(old(connections.Keys), Framing.VerifiedId(signer, signed), w)
      ensures EnabledAll(limit, old(Now(counter)), key, steps)
      ensures Now(counter) == ApplyAll(old(Now(counter)), key, steps)
      ensures old(log) <= log && responses == Responses(log[|old(log)|..])
      ensures !Speaks(signer, old(connections.Keys), signed) ==>
                responses == [] && State() == old(State()) && log == old(log)
      ensures connections == if steps == [] then old(connections) else
                               var id := Framing.VerifiedId(signer, signed).value;
                               if Ends(steps[0]) then old(connections) - {id}
                               else old(connections)[id := ConnectionInfo(now)]
      ensures outbox == if steps == [] || w.writeFails then old(outbox) else
                          var id := Framing.VerifiedId(signer, signed).value;
                          old(outbox)[id := At(old(outbox), id) + data]
      ensures inbox == if steps == [] || w.writeFails then old(inbox) else
                         var id := Framing.VerifiedId(signer, signed).value;
                         old(inbox)[id := At(old(inbox), id) + Made(true, ReadsOf(w, id))]
    {
      var verified := Framing.CheckSigned(signer, signed);
      SpeaksFor(signer, connections.Keys, signed);
      steps := DataSteps(connections.Keys, verified, w);
      if verified.None? || verified.value !in connections {
        return [], steps;
      }
      responses := RelayTo(counter, limit, verified.value, data, w, now);
    }

    /** The responses for one connection that was read from. */
    method Answer(id: U64, accumulated: seq<Byte>, ending: Ending, ghost made: seq<Reading>)
      returns (responses: seq<ServerResponseType>)
      requires accumulated == GotBytes(made) && ending == EndingOf(made)
      ensures responses == ReadReply(id, made)
    {
      responses := [];
      if accumulated != [] {
        responses := responses + [Data(id, accumulated, true)];
      }
      match ending {
        case StillOpen =>
        case Ended => responses := responses + [Close(id, [])];
        case Broken(text) => responses := responses + [Close(id, text)];
      }
    }

    method CloseConnection(counter: Counter, limit: nat, signed: seq<Byte>)
      returns (responses: seq<ServerResponseType>, ghost steps: seq<Step>)
      modifies this`connections, this`log
      ensures steps == CloseSteps(old(connections.Keys), Framing.VerifiedId(signer, signed))
      ensures EnabledAll(limit, old(Now(counter)), key, steps)
      ensures Now(counter) == ApplyAll(old(Now(counter)), key, steps)
      ensures old(log) <= log && responses == Responses(log[|old(log)|..])
      ensures responses == if Speaks(signer, old(connections.Keys), signed) then [Close(IdIn(signed), [])] else []
      ensures responses == [] ==> State() == old(State()) && log == old(log)
      ensures connections == if steps == [] then old(connections)
                             else old(connections) - {Framing.VerifiedId(signer, signed).value}
    {
      responses := [];
      var verified := Framing.CheckSigned(signer, signed);
      SpeaksFor(signer, connections.Keys, signed);
      steps := CloseSteps(connections.Keys, verified);
      if verified.None? || verified.value !in connections {
        return;
      }
      var id := verified.value;
      ghost var before := log;
      connections := connections - {id};
      log := log + Added(counter.issued, key, steps[0]);
      OneStep(limit, old(Now(counter)), key, steps[0]);
      responses := responses + [Close(id, [])];
      assert log[|before|..] == [Sent(key, Close(id, []))];
    }

    method ReadPending(id: U64, w: World) returns (accumulated: seq<Byte>, ending: Ending)
      modifies this`inbox
      ensures var made := Made(false, ReadsOf(w, id));
              && accumulated == GotBytes(made) && ending == EndingOf(made)
              && inbox == old(inbox)[id := At(old(inbox), id) + made]
    {
      var incoming := ReadsOf(w, id);
      var attempts;
      accumulated, ending, attempts := CollectPending(incoming);
      StopsOnce(false, incoming, attempts);
      inbox := inbox[id := At(inbox, id) + incoming[..attempts]];
    }

    /** The body of the poll's loop: one connection's pending bytes, and whether it is to be removed. */
    method PollOne(counter: Counter, id: U64, w: World, now: nat)
      returns (responses: seq<ServerResponseType>, closed: bool)
      requires id in connections
      modifies this`connections, this`inbox, this`log
      ensures connections == Touched(old(connections), id, w, now) && connections.Keys == old(connections.Keys)
      ensures inbox == old(inbox)[id := At(old(inbox), id) + Made(false, ReadsOf(w, id))]
      ensures log == old(log) + Added(counter.issued, key, PollStep(id, w))
      ensures responses == ReadReply(id, Made(false, ReadsOf(w, id)))
      ensures closed <==> EndedBy(Made(false, ReadsOf(w, id)))
    {
      ghost var made := Made(false, ReadsOf(w, id));
      var accumulated, ending := ReadPending(id, w);
      responses := Answer(id, accumulated, ending, made);
      log := log + Added(counter.issued, key, PollStep(id, w));
      if accumulated != [] {
        connections := connections[id := ConnectionInfo(now)];
      }
      closed := !ending.StillOpen?;
    }

    /** One turn of the poll's loop. `toRemove` are the connections found closed so far, which stay in the table. */
    method PollNext(counter: Counter, limit: nat, w: World, now: nat, id: U64, todo: set<U64>, toRemove: set<U64>,
                    ghost start: View, ghost was: Sockets, ghost order: seq<U64>)
      returns (responses: seq<ServerResponseType>, toRemove': set<U64>)
      requires id in todo && todo <= connections.Keys == was.connections.Keys == start.table && toRemove !! todo
      requires Polled(limit, start, key, w, order, todo, View(counter.issued, connections.Keys - toRemove, log))
      requires connections == TouchedExcept(was.connections, todo, w, now)
      requires inbox == ReadFrom(was.inbox, start.table - todo, w)
      modifies this`connections, this`inbox, this`log
      ensures connections.Keys == old(connections.Keys) && toRemove' !! todo - {id}
      ensures Polled(limit, start, key, w, order + [id], todo - {id},
                     View(counter.issued, connections.Keys - toRemove', log))
      ensures connections == TouchedExcept(was.connections, todo - {id}, w, now)
      ensures inbox == ReadFrom(was.inbox, start.table - (todo - {id}), w)
      ensures old(log) <= log && responses == Responses(log[|old(log)|..])
    {
      PollAdvances(limit, start, key, w, order, todo, View(counter.issued, connections.Keys - toRemove, log), id);
      PollRemoves(counter.issued, connections.Keys, toRemove, log, key, id, w);
      Record(log, Added(counter.issued, key, PollStep(id, w)));
      ExchangeReply(counter.issued, key, false, id, w);
      TouchMore(was.connections, todo, id, w, now);
      ReadMore(was.inbox, start.table, todo, w, id);
      var closed;
      responses, closed := PollOne(counter, id, w, now);
      toRemove' := if closed then toRemove + {id} else toRemove;
    }

    /** The poll's loop. */
    method PollAll(counter: Counter, limit: nat, w: World, now: nat)
      returns (responses: seq<ServerResponseType>, toRemove: set<U64>, ghost order: seq<U64>)
      modifies this`connections, this`inbox, this`log
      ensures Polled(limit, old(Now(counter)), key, w, order, {},
                     View(counter.issued, connections.Keys - toRemove, log))
      ensures responses == Responses(log[|old(log)|..])
      ensures connections == TouchedExcept(old(connections), {}, w, now)
      ensures inbox == ReadFrom(old(inbox), old(connections.Keys), w)
    {
      ghost var start, was := Now(counter), State();
      var todo: set<U64> := connections.Keys;
      toRemove, responses, order := {}, [], [];
      NothingPolled(was, w, now);
      Record(log, []);
      while todo != {}
        invariant todo <= connections.Keys == was.connections.Keys == start.table && toRemove !! todo
        invariant Polled(limit, start, key, w, order, todo, View(counter.issued, connections.Keys - toRemove, log))
        invariant responses == Responses(log[|start.log|..])
        invariant connections == TouchedExcept(was.connections, todo, w, now)
        invariant inbox == ReadFrom(was.inbox, start.table - todo, w)
      {
        var id :| id in todo;
        ghost var mid := log;
        var answer;
        answer, toRemove := PollNext(counter, limit, w, now, id, todo, toRemove, start, was, order);
        RecordOn(start.log, mid, log);
        order := order + [id];
        todo := todo - {id};
        responses := responses + answer;
      }
      assert start.table - todo == start.table;
    }

    method Poll(counter: Counter, limit: nat, w: World, now: nat)
      returns (responses: seq<ServerResponseType>, ghost order: seq<U64>)
      modifies this`connections, this`inbox, this`log
      ensures Polled(limit, old(Now(counter)), key, w, order, {}, Now(counter))
      ensures responses == Responses(log[|old(log)|..])
      ensures forall id :: id in connections ==>
                id in old(connections) && connections[id] == Touched(old(connections), id, w, now)[id]
      ensures inbox == ReadFrom(old(inbox), old(connections.Keys), w)
    {
      var toRemove;
      responses, toRemove, order := PollAll(counter, limit, w, now);
      connections := connections - toRemove;
    }

    /** A StartConnection always gets one answer. */
    method Start(counter: Counter, limit: nat, allowPrivate: bool, msg: Message, w: World, now: nat)
      returns (responses: seq<ServerResponseType>, ghost steps: seq<Step>)
      requires counter.Valid() && msg.StartConnection?
      modifies this`connections, this`outbox, this`log, counter
      ensures counter.Valid()
      ensures Answers(limit, allowPrivate, signer, old(connections.Keys), msg, w, steps)
      ensures Handled(limit, old(Now(counter)), key, steps, Now(counter), responses)
      ensures Effect(signer, old(Now(counter)), key, msg, w, now, steps, old(State()), State())
      ensures Vain(limit, allowPrivate, signer, old(connections.Keys), msg, w) ==>
                State() == old(State()) && counter.issued == old(counter.issued)
    {
      ghost var start, was := Now(counter), State();
      ghost var step := StartStep(limit, |connections|, allowPrivate, w);
      var response := StartConnection(counter, limit, allowPrivate, w, now);
      log := log + Added(start.issued, key, step);
      StartConcludes(limit, allowPrivate, key, w, start, was, Now(counter), now, State(), response);
      StartEffect(signer, start, key, msg, w, now, step, was, State());
      return [response], [step];
    }

    method TakeData(counter: Counter, limit: nat, allowPrivate: bool, msg: Message, w: World, now: nat)
      returns (responses: seq<ServerResponseType>, ghost steps: seq<Step>)
      requires msg.Data?
      modifies this`connections, this`outbox, this`inbox, this`log
      ensures Answers(limit, allowPrivate, signer, old(connections.Keys), msg, w, steps)
      ensures Handled(limit, old(Now(counter)), key, steps, Now(counter), responses)
      ensures Effect(signer, old(Now(counter)), key, msg, w, now, steps, old(State()), State())
      ensures Vain(limit, allowPrivate, signer, old(connections.Keys), msg, w) ==>
                State() == old(State()) && counter.issued == old(counter.issued)
    {
      ghost var start, was := Now(counter), State();
      responses, steps := RelayData(counter, limit, msg.connectionIdSigned, msg.data, w, now);
      DataEffect(signer, start, key, msg, w, now, steps, was, State());
    }

    method TakeClose(counter: Counter, limit: nat, allowPrivate: bool, msg: Message, w: World, now: nat)
      returns (responses: seq<ServerResponseType>, ghost steps: seq<Step>)
      requires msg.Close?
      modifies this`connections, this`log
      ensures Answers(limit, allowPrivate, signer, old(connections.Keys), msg, w, steps)
      ensures Handled(limit, old(Now(counter)), key, steps, Now(counter), responses)
      ensures Effect(signer, old(Now(counter)), key, msg, w, now, steps, old(State()), State())
      ensures Vain(limit, allowPrivate, signer, old(connections.Keys), msg, w) ==>
                State() == old(State()) && counter.issued == old(counter.issued)
    {
      ghost var start, was := Now(counter), State();
      responses, steps := CloseConnection(counter, limit, msg.connectionIdSigned);
      CloseEffect(signer, start, key, msg, w, now, steps, was, State());
    }

    method AnswerPoll(counter: Counter, limit: nat, allowPrivate: bool, msg: Message, w: World, now: nat)
      returns (responses: seq<ServerResponseType>, ghost steps: seq<Step>)
      requires msg.Poll?
      modifies this`connections, this`inbox, this`log
      ensures Answers(limit, allowPrivate, signer, old(connections.Keys), msg, w, steps)
      ensures Handled(limit, old(Now(counter)), key, steps, Now(counter), responses)
      ensures Effect(signer, old(Now(counter)), key, msg, w, now, steps, old(State()), State())
      ensures Vain(limit, allowPrivate, signer, old(connections.Keys), msg, w) ==>
                State() == old(State()) && counter.issued == old(counter.issued)
    {
      ghost var start, was := Now(counter), State();
      ghost var order;
      responses, order := Poll(counter, limit, w, now);
      steps := PollSteps(order, w);
      PolledAnswers(limit, allowPrivate, signer, key, start, msg, w, order, Now(counter), responses);
      PollEffect(signer, start, key, msg, w, now, order, was, State());
    }

    /** One message, by its kind. */
    method Dispatch(counter: Counter, limit: nat, allowPrivate: bool, msg: Message, w: World, now: nat)
      returns (responses: seq<ServerResponseType>, ghost steps: seq<Step>)
      requires counter.Valid()
      modifies this`connections, this`outbox, this`inbox, this`log, counter
      ensures counter.Valid()
      ensures Answers(limit, allowPrivate, signer, old(connections.Keys), msg, w, steps)
      ensures Handled(limit, old(Now(counter)), key, steps, Now(counter), responses)
      ensures Effect(signer, old(Now(counter)), key, msg, w, now, steps, old(State()), State())
      ensures Vain(limit, allowPrivate, signer, old(connections.Keys), msg, w) ==>
                State() == old(State()) && counter.issued == old(counter.issued)
    {
      match msg {
        case StartConnection(_, _) =>
          responses, steps := Start(counter, limit, allowPrivate, msg, w, now);
        case Data(_, _, _) =>
          responses, steps := TakeData(counter, limit, allowPrivate, msg, w, now);
        case Close(_) =>
          responses, steps := TakeClose(counter, limit, allowPrivate, msg, w, now);
        case Poll =>
          responses, steps := AnswerPoll(counter, limit, allowPrivate, msg, w, now);
      }
    }

    /** The body of the request's message loop. */
    method HandleMessage(counter: Counter, limit: nat, allowPrivate: bool, msg: Message, w: World, now: nat)
      returns (responses: seq<ServerResponseType>, ghost steps: seq<Step>)
      requires Valid() && counter.Valid()
      modifies this, counter
      ensures Valid() && counter.Valid()
      ensures Answers(limit, allowPrivate, signer, old(connections.Keys), msg, w, steps)
      ensures Handled(limit, old(Now(counter)), key, steps, Now(counter), responses)
      ensures Reply(limit, allowPrivate, signer, old(connections.Keys), old(counter.issued), msg, w, responses)
      ensures Vain(limit, allowPrivate, signer, old(connections.Keys), msg, w) ==>
                State() == old(State()) && counter.issued == old(counter.issued)
      ensures history == old(history) + [Told(msg, w, now)] + Deeds(old(counter.issued), now, steps)
    {
      ghost var start, was := Now(counter), State();
      responses, steps := Dispatch(counter, limit, allowPrivate, msg, w, now);
      MessageAccounts(signer, start, key, msg, w, now, steps, was, State(), history);
      StepsReply(limit, allowPrivate, signer, start, key, msg, w, steps, Now(counter), responses);
      history := history + [Told(msg, w, now)] + Deeds(start.issued, now, steps);
    }

    /** The same after `drawn` ids went to other clients. */
    method HandleNext(counter: Counter, limit: nat, allowPrivate: bool, msg: Message, w: World, drawn: nat, now: nat)
      returns (responses: seq<ServerResponseType>, ghost steps: seq<Step>)
      requires Valid() && counter.Valid()
      modifies this, counter
      ensures Valid() && counter.Valid()
      ensures Answers(limit, allowPrivate, signer, old(connections.Keys), msg, w, steps)
      ensures Handled(limit, Moved(old(Now(counter)), drawn), key, steps, Now(counter), responses)
      ensures history == old(history) + [Told(msg, w, now)] + Deeds(Moved(old(Now(counter)), drawn).issued, now, steps)
    {
      ghost var start := Now(counter);
      counter.DrawnByOthers(drawn);
      assert Now(counter) == Moved(start, drawn);
      responses, steps := HandleMessage(counter, limit, allowPrivate, msg, w, now);
    }

    /** The request's message loop. `drawn[i]` ids go to other clients before the i-th message. */
    method HandleMessages(counter: Counter, limit: nat, allowPrivate: bool,
                          msgs: seq<Message>, worlds: seq<World>, drawn: seq<nat>, now: nat)
      returns (responses: seq<ServerResponseType>, ghost parts: seq<seq<Step>>)
      requires Valid() && counter.Valid() && |msgs| == |worlds| == |drawn|
      modifies this, counter
      ensures Valid() && counter.Valid() && |parts| == |msgs|
      ensures AnswersAll(limit, allowPrivate, signer, key, old(Now(counter)), msgs, worlds, drawn, parts)
      ensures HandledAll(limit, old(Now(counter)), key, drawn, parts, Now(counter), responses)
      ensures history == Chronicle(old(history), old(Now(counter)), key, now, msgs, worlds, drawn, parts)
    {
      ghost var start := Now(counter);
      responses, parts := [], [];
      assert log[|start.log|..] == [];
      for i := 0 to |msgs|
        invariant Valid() && counter.Valid() && |parts| == i
        invariant AnswersAll(limit, allowPrivate, signer, key, start, msgs[..i], worlds[..i], drawn[..i], parts)
        invariant HandledAll(limit, start, key, drawn[..i], parts, Now(counter), responses)
        invariant history == Chronicle(old(history), start, key, now, msgs[..i], worlds[..i], drawn[..i], parts)
      {
        ghost var mid := Now(counter);
        ghost var told := history;
        var more;
        ghost var taken;
        more, taken := HandleNext(counter, limit, allowPrivate, msgs[i], worlds[i], drawn[i], now);
        AnswersMore(limit, allowPrivate, signer, key, start, msgs, worlds, drawn, i, parts, taken);
        ChronicleMore(old(history), start, key, now, msgs, worlds, drawn, i, parts, taken, mid, told);
        HandledMore(limit, start, key, drawn, i, parts, mid, responses, taken, Now(counter), more);
        parts := parts + [taken];
        responses := responses + more;
      }
      assert msgs[..|msgs|] == msgs && worlds[..|worlds|] == worlds && drawn[..|drawn|] == drawn;
    }

    /** One request: the nonce is checked once, and only then are its messages handled, in order. */
    method HandleRequest(counter: Counter, limit: nat, allowPrivate: bool, keyIsValid: bool,
                         request: ClientMessages.ClientMessage, worlds: seq<World>, drawn: seq<nat>,
                         rejection: Addresses.Utf8, now: nat)
      returns (responses: Option<seq<ServerResponseType>>, ghost parts: seq<seq<Step>>)
      requires Valid() && counter.Valid() && |worlds| == |drawn| == |request.messages|
      modifies this, nonce, counter
      ensures Valid() && counter.Valid()
      ensures nonce.Abstract() == Nonces.Present(old(nonce.Abstract()), request.nonce)
      ensures !Nonces.Accepts(old(nonce.Abstract()), request.nonce) ==>
                && responses == Some([Error(0, InvalidNonce, rejection)])
                && Now(counter) == Apply(old(Now(counter)), key, Refuse(InvalidNonce, rejection))
      ensures Nonces.Accepts(old(nonce.Abstract()), request.nonce) && !keyIsValid ==>
                responses.None? && Now(counter) == old(Now(counter))
      ensures !Nonces.Accepts(old(nonce.Abstract()), request.nonce) || !keyIsValid ==>
                && State() == old(State()) && history == old(history)
                && counter.issued == old(counter.issued)
      ensures Nonces.Accepts(old(nonce.Abstract()), request.nonce) && keyIsValid ==>
                && responses.Some? && |parts| == |request.messages|
                && AnswersAll(limit, allowPrivate, signer, key, old(Now(counter)),
                              request.messages, worlds, drawn, parts)
                && HandledAll(limit, old(Now(counter)), key, drawn, parts, Now(counter), responses.value)
                && history == Chronicle(old(history), old(Now(counter)), key, now,
                                        request.messages, worlds, drawn, parts)
    {
      parts := [];
      var accepted := nonce.Check(request.nonce);
      if !accepted {
        RefusalAccounts(signer, State(), log, history, counter.issued, key, Refuse(InvalidNonce, rejection));
        log := log + [Sent(key, Error(0, InvalidNonce, rejection))];
        return Some([Error(0, InvalidNonce, rejection)]), [];
      }
      if !keyIsValid {
        return None, [];
      }
      var all;
      all, parts := HandleMessages(counter, limit, allowPrivate, request.messages, worlds, drawn, now);
      return Some(all), parts;
    }

    /** The cleanup's visit: connections idle for longer than `idle` are dropped without a word, and these are exactly
        the open ones whose history shows no activity for so long. */
    method Cleanup(counter: Counter, limit: nat, now: nat, idle: nat) returns (ghost steps: seq<Step>)
      requires Valid()
      modifies this`connections, this`log, this`history
      ensures Valid() && history == old(history) + Deeds(counter.issued, now, steps)
      ensures connections == old(connections) - IdleIds(old(connections), now, idle)
      ensures forall id: U64 :: id in connections <==>
                (var c := ChannelOf(signer, old(history), id); c.open && now - c.lastActive <= idle)
      ensures Swept(limit, old(Now(counter)), key, steps, Now(counter))
    {
      ghost var start, was := Now(counter), State();
      steps := Sweep(counter, limit, now, idle);
      CleanupAccounts(signer, start, key, steps, counter.issued, now, was, State(), history);
      forall id: U64
        ensures id in connections <==> (var c := ChannelOf(signer, history, id); c.open && now - c.lastActive <= idle)
      {
        assert AccountedFor(signer, was, start.log, history, id);
      }
      history := history + Deeds(counter.issued, now, steps);
    }

    method Sweep(counter: Counter, limit: nat, now: nat, idle: nat) returns (ghost steps: seq<Step>)
      modifies this`connections, this`log
      ensures connections == old(connections) - IdleIds(old(connections), now, idle)
      ensures Swept(limit, old(Now(counter)), key, steps, Now(counter))
    {
      ghost var start := Now(counter);
      var toRemove := IdleIds(connections, now, idle);
      ghost var was, all := connections, toRemove;
      steps := [];
      while toRemove != {}
        invariant toRemove <= all <= was.Keys && connections == was - (all - toRemove)
        invariant Swept(limit, start, key, steps, Now(counter))
      {
        var id :| id in toRemove;
        SweepMore(limit, start, key, steps, Now(counter), id);
        RemoveOneMore(was, all, toRemove, id);
        toRemove := toRemove - {id};
        steps := steps + [Expire(id)];
        log := log + [Expired(key, id)];
        connections := connections - {id};
      }
    }
  }

  /** A poll counts as activity only if it brought bytes. */
  function Touched(connections: map<U64, ConnectionInfo>, id: U64, w: World, now: nat): map<U64, ConnectionInfo>
    requires id in connections
  {
    if GotBytes(Made(false, ReadsOf(w, id))) == [] then connections else connections[id := ConnectionInfo(now)]
  }

  /** The connections once all but those in `todo` have been polled. */
  function TouchedExcept(was: map<U64, ConnectionInfo>, todo: set<U64>, w: World, now: nat): map<U64, ConnectionInfo> {
    map id | id in was :: if id in todo then was[id] else Touched(was, id, w, now)[id]
  }

  lemma RemoveTouched(m: map<U64, ConnectionInfo>, id: U64, info: ConnectionInfo)
    ensures m[id := info] - {id} == m - {id} && (m - {id}).Keys == m.Keys - {id}
    ensures id in m ==> m[id := info].Keys == m.Keys
  {}

  lemma TouchMore(was: map<U64, ConnectionInfo>, todo: set<U64>, id: U64, w: World, now: nat)
    requires id in todo && id in was
    ensures TouchedExcept(was, todo - {id}, w, now) == Touched(TouchedExcept(was, todo, w, now), id, w, now)
  {}

  /** The attempts a poll makes to read from a target. */
  function PolledFor(table: set<U64>, w: World, id: U64): seq<Reading> {
    if id in table then Made(false, ReadsOf(w, id)) else []
  }

  function ReadFrom(before: map<U64, seq<Reading>>, done: set<U64>, w: World): map<U64, seq<Reading>> {
    map id | id in before.Keys + done :: At(before, id) + PolledFor(done, w, id)
  }

  lemma NothingPolled(was: Sockets, w: World, now: nat)
    ensures TouchedExcept(was.connections, was.connections.Keys, w, now) == was.connections
    ensures ReadFrom(was.inbox, was.connections.Keys - was.connections.Keys, w) == was.inbox
  {
    var after := ReadFrom(was.inbox, was.connections.Keys - was.connections.Keys, w);
    forall id | id in was.inbox ensures after[id] == was.inbox[id] {
      NothingAppended(was.inbox[id]);
    }
  }

  lemma ReadMore(before: map<U64, seq<Reading>>, table: set<U64>, todo: set<U64>, w: World, id: U64)
    requires id in todo && todo <= table
    ensures var inbox := ReadFrom(before, table - todo, w);
            ReadFrom(before, table - (todo - {id}), w) == inbox[id := At(inbox, id) + Made(false, ReadsOf(w, id))]
  {
    assert table - (todo - {id}) == table - todo + {id};
    NothingAppended(At(before, id));
  }

  lemma ReadAt(before: map<U64, seq<Reading>>, done: set<U64>, w: World, id: U64)
    ensures At(ReadFrom(before, done, w), id) == At(before, id) + PolledFor(done, w, id)
  {
    NothingAppended(At(before, id));
  }

  lemma Record(log: seq<Entry>, added: seq<Entry>)
    ensures (log + added)[|log|..] == added && log[|log|..] == []
  {}

  lemma RecordOn(start: seq<Entry>, mid: seq<Entry>, log: seq<Entry>)
    requires start <= mid <= log
    ensures Responses(log[|start|..]) == Responses(mid[|start|..]) + Responses(log[|mid|..])
  {
    assert log == mid + log[|mid|..];
    RecordMore(start, mid, log[|mid|..]);
  }

  // How messages are answered.

  lemma SpeaksFor(signer: Framing.Signer, table: set<U64>, signed: seq<Byte>)
    ensures var id := Framing.VerifiedId(signer, signed);
            && (Speaks(signer, table, signed) <==> id.Some? && id.value in table)
            && (id.Some? ==> |signed| >= 74 && id.value == IdIn(signed))
  {
    Framing.ForgedIsRefused(signer, signed);
    if Framing.VerifiedId(signer, signed).Some? {
      Framing.VerifiedExactly(signer, signed, Framing.VerifiedId(signer, signed).value);
    }
  }

  lemma StartAnswered(limit: nat, open: nat, allowPrivate: bool, w: World, issued: nat, key: Key)
    ensures var responses := Responses(Added(issued, key, StartStep(limit, open, allowPrivate, w)));
            |responses| == 1 && StartReply(limit, open, allowPrivate, w, issued, responses[0])
  {
    OneResponse(Added(issued, key, StartStep(limit, open, allowPrivate, w))[0]);
  }

  /** Only one response is a reply to a StartConnection. */
  lemma StartReplyIs(limit: nat, open: nat, allowPrivate: bool, w: World, issued: nat, r: ServerResponseType,
                     r': ServerResponseType)
    requires StartReply(limit, open, allowPrivate, w, issued, r) && StartReply(limit, open, allowPrivate, w, issued, r')
    ensures r == r'
  {
    if r.Error? && r'.Error? {
      assert r'.errorCode == r.errorCode <==> Causes(limit, open, allowPrivate, w, r.errorCode);
    }
  }

  /** And it is what the step puts on record. */
  lemma StartTaken(limit: nat, allowPrivate: bool, w: World, v: View, key: Key, response: ServerResponseType)
    requires StartReply(limit, |v.table|, allowPrivate, w, v.issued, response)
    ensures var step := StartStep(limit, |v.table|, allowPrivate, w);
            && Enabled(limit, v, step) && (step.Open? <==> response.Challenge?) && (step.Open? || step.Refuse?)
            && [response] == Responses(Added(v.issued, key, step))
  {
    StartAnswered(limit, |v.table|, allowPrivate, w, v.issued, key);
    var responses := Responses(Added(v.issued, key, StartStep(limit, |v.table|, allowPrivate, w)));
    StartReplyIs(limit, |v.table|, allowPrivate, w, v.issued, response, responses[0]);
    assert responses == [response];
  }

  lemma StartConcludes(limit: nat, allowPrivate: bool, key: Key, w: World, v: View, before: Sockets, v': View, now: nat,
                       after: Sockets, response: ServerResponseType)
    requires v.table == before.connections.Keys && v'.table == after.connections.Keys
    requires StartReply(limit, |before.connections|, allowPrivate, w, v.issued, response)
    requires after.connections
             == if response.Challenge? then before.connections[response.connectionId := ConnectionInfo(now)]
                                  else before.connections
    requires v'.issued == v.issued + if response.Challenge? then 1 else 0
    requires v'.log == v.log + Added(v.issued, key, StartStep(limit, |before.connections|, allowPrivate, w))
    ensures |before.connections| == |v.table|
    ensures var step := StartStep(limit, |v.table|, allowPrivate, w);
            && (step.Open? <==> response.Challenge?) && (step.Open? || step.Refuse?)
            && Handled(limit, v, key, [step], v', [response])
  {
    assert |before.connections| == |before.connections.Keys|;
    StartTaken(limit, allowPrivate, w, v, key, response);
    OneHandled(limit, v, key, StartStep(limit, |v.table|, allowPrivate, w), v', [response]);
  }

  /** What an exchange puts on record is the answer to the attempts it made. */
  lemma ExchangeReply(issued: nat, key: Key, reply: bool, id: U64, w: World)
    ensures Responses(Added(issued, key, ExchangeOf(reply, id, w))) == ReadReply(id, Made(reply, ReadsOf(w, id)))
    ensures Ends(ExchangeOf(reply, id, w)) <==> EndedBy(Made(reply, ReadsOf(w, id)))
  {
    var made := Made(reply, ReadsOf(w, id));
    ExchangeResponses(key, id, Chunks(made), EndingOf(made));
    ReadReplyIs(id, made);
  }

  lemma ReadReplyIs(id: U64, made: seq<Reading>)
    ensures ReadReply(id, made)
            == (if Chunks(made) == [] then [] else [Data(id, Flatten(Chunks(made)), true)])
               + (match EndingOf(made)
                  case StillOpen => []
                  case Ended => [Close(id, [])]
                  case Broken(text) => [Close(id, text)])
  {
    ChunksFlatten(made);
    NoChunksNoBytes(made);
  }

  lemma DataReply(issued: nat, key: Key, id: U64, w: World)
    ensures Responses(Added(issued, key, DataStep(id, w)))
            == if w.writeFails then [Close(id, w.text)] else ReadReply(id, Made(true, ReadsOf(w, id)))
    ensures Ends(DataStep(id, w)) <==> w.writeFails || EndedBy(Made(true, ReadsOf(w, id)))
  {
    if w.writeFails {
      OneResponse(Sent(key, Close(id, w.text)));
    } else {
      ExchangeReply(issued, key, true, id, w);
    }
  }

  lemma {:induction false} PollAnswered(v: View, key: Key, order: seq<U64>, w: World)
    ensures Responses(AfterPolls(v, key, order, w).log) == Responses(v.log) + PollReply(order, w)
  {
    if order == [] {
      NothingAppended(Responses(v.log));
    } else {
      var most, last := order[..|order| - 1], order[|order| - 1];
      var mid := AfterPolls(v, key, most, w);
      PollAnswered(v, key, most, w);
      ExchangeReply(mid.issued, key, false, last, w);
      ResponsesAppend(mid.log, Added(mid.issued, key, PollStep(last, w)));
      Reassociate(Responses(v.log), PollReply(most, w), ReadReply(last, Made(false, ReadsOf(w, last))));
    }
  }

  lemma SameTail<T>(a: seq<T>, x: seq<T>, y: seq<T>)
    requires a + x == a + y
    ensures x == y
  {
    assert (a + x)[|a|..] == x && (a + y)[|a|..] == y;
  }

  lemma OnRecordSince(start: seq<Entry>, log: seq<Entry>)
    requires start <= log
    ensures Responses(log) == Responses(start) + Responses(log[|start|..])
  {
    assert log == start + log[|start|..];
    ResponsesAppend(start, log[|start|..]);
  }

  lemma PollReplied(limit: nat, v: View, key: Key, order: seq<U64>, w: World, v': View,
                    responses: seq<ServerResponseType>)
    requires Handled(limit, v, key, PollSteps(order, w), v', responses)
    ensures responses == PollReply(order, w)
  {
    PollsApplied(v, key, order, w);
    PollAnswered(v, key, order, w);
    OnRecordSince(v.log, v'.log);
    SameTail(Responses(v.log), responses, PollReply(order, w));
  }

  lemma OneReplied(limit: nat, v: View, key: Key, step: Step, v': View, responses: seq<ServerResponseType>)
    requires Handled(limit, v, key, [step], v', responses)
    ensures responses == Responses(Added(v.issued, key, step))
  {
    OneApplied(v, key, step);
    assert (v.log + Added(v.issued, key, step))[|v.log|..] == Added(v.issued, key, step);
  }

  lemma NoneReplied(limit: nat, v: View, key: Key, v': View, responses: seq<ServerResponseType>)
    requires Handled(limit, v, key, [], v', responses)
    ensures responses == [] && v' == v
  {
    assert v.log[|v.log|..] == [];
  }

  /** The steps of a message say what the world outside demands: its responses are the reply to it. */
  lemma StepsReply(limit: nat, allowPrivate: bool, signer: Framing.Signer, v: View, key: Key, msg: Message, w: World,
                   steps: seq<Step>, v': View, responses: seq<ServerResponseType>)
    requires Answers(limit, allowPrivate, signer, v.table, msg, w, steps)
    requires Handled(limit, v, key, steps, v', responses)
    ensures Reply(limit, allowPrivate, signer, v.table, v.issued, msg, w, responses)
  {
    if steps == [] {
      NoneReplied(limit, v, key, v', responses);
    }
    match msg {
      case StartConnection(_, _) =>
        StartAnswered(limit, |v.table|, allowPrivate, w, v.issued, key);
        OneReplied(limit, v, key, steps[0], v', responses);
      case Data(signed, _, _) =>
        SpeaksFor(signer, v.table, signed);
        if steps != [] {
          DataReply(v.issued, key, IdIn(signed), w);
          OneReplied(limit, v, key, steps[0], v', responses);
        }
      case Close(signed) =>
        SpeaksFor(signer, v.table, signed);
        if steps != [] {
          OneResponse(Sent(key, Close(IdIn(signed), [])));
          OneReplied(limit, v, key, steps[0], v', responses);
        }
      case Poll =>
        var order :| NoRepeats(order) && (forall id :: id in order <==> id in v.table) && steps == PollSteps(order, w);
        PollReplied(limit, v, key, order, w, v', responses);
    }
  }

  lemma RefusalAccounts(signer: Framing.Signer, s: Sockets, log: seq<Entry>, history: seq<Deed>,
                        issued: nat, key: Key, step: Step)
    requires Accounted(signer, s, log, history) && step.Refuse?
    ensures Accounted(signer, s, log + Added(issued, key, step), history)
  {
    forall id: U64 ensures AccountedFor(signer, s, log + Added(issued, key, step), history, id) {
      assert AccountedFor(signer, s, log, history, id);
      OthersRelayNothing(View(issued, {}, log), key, step, id);
    }
  }

  // What each kind of message does.

  lemma StartEffect(signer: Framing.Signer, v: View, key: Key, msg: Message, w: World, now: nat, step: Step,
                    before: Sockets, after: Sockets)
    requires msg.StartConnection? && v.table == before.connections.Keys && (step.Open? || step.Refuse?)
    requires after.connections == if step.Open? then before.connections[IdOf(v.issued) := ConnectionInfo(now)]
                                  else before.connections
    requires after.outbox == if step.Open? then before.outbox[IdOf(v.issued) := []] else before.outbox
    requires after.inbox == before.inbox
    ensures Effect(signer, v, key, msg, w, now, [step], before, after)
  {
    forall id: U64
      ensures EffectOn(signer, v.issued, msg, w, now, [step], before, after, id)
      ensures RelaysOn(signer, v, key, msg, w, [step], id)
    {
      NothingSent(signer, msg, w, At(before.outbox, id), At(before.inbox, id), id);
      StartRelays(signer, v, key, msg, w, step, id);
    }
  }

  lemma NothingSent(signer: Framing.Signer, msg: Message, w: World, sent: seq<Byte>, made: seq<Reading>, id: U64)
    requires msg.StartConnection?
    ensures sent + SentBy(signer, msg, w, id) == sent && made + MadeBy(signer, msg, w, id) == made
  {}

  lemma StartRelays(signer: Framing.Signer, v: View, key: Key, msg: Message, w: World, step: Step, id: U64)
    requires msg.StartConnection? && (step.Open? || step.Refuse?)
    ensures RelaysOn(signer, v, key, msg, w, [step], id)
  {
    NothingAppended(Relayed(v.log, id));
    OneApplied(v, key, step);
    OthersRelayNothing(v, key, step, id);
  }

  lemma OneApplied(v: View, key: Key, step: Step)
    ensures ApplyAll(v, key, [step]) == Apply(v, key, step)
  {
    assert [step][..0] == [];
  }

  lemma DataRelays(signer: Framing.Signer, v: View, key: Key, msg: Message, w: World, id: U64)
    requires msg.Data?
    ensures var steps := DataSteps(v.table, Framing.VerifiedId(signer, msg.connectionIdSigned), w);
            RelaysOn(signer, v, key, msg, w, steps, id)
  {
    var verified := Framing.VerifiedId(signer, msg.connectionIdSigned);
    NothingAppended(Relayed(v.log, id));
    if verified.Some? && verified.value in v.table {
      OneApplied(v, key, DataStep(verified.value, w));
      if w.writeFails {
        OthersRelayNothing(v, key, DataStep(verified.value, w), id);
      } else {
        LoopRelays(v, key, true, verified.value, w, id);
      }
    }
  }

  lemma DataEffectOn(signer: Framing.Signer, issued: nat, msg: Message, w: World, now: nat, steps: seq<Step>,
                     before: Sockets, after: Sockets, id: U64)
    requires msg.Data?
    requires steps == DataSteps(before.connections.Keys, Framing.VerifiedId(signer, msg.connectionIdSigned), w)
    requires after.connections == if steps == [] then before.connections else
                                    var id := Framing.VerifiedId(signer, msg.connectionIdSigned).value;
                                    if Ends(steps[0]) then before.connections - {id}
                                    else before.connections[id := ConnectionInfo(now)]
    requires after.outbox == if steps == [] || w.writeFails then before.outbox else
                               var id := Framing.VerifiedId(signer, msg.connectionIdSigned).value;
                               before.outbox[id := At(before.outbox, id) + msg.data]
    requires after.inbox == if steps == [] || w.writeFails then before.inbox else
                              var id := Framing.VerifiedId(signer, msg.connectionIdSigned).value;
                              before.inbox[id := At(before.inbox, id) + Made(true, ReadsOf(w, id))]
    ensures EffectOn(signer, issued, msg, w, now, steps, before, after, id)
  {
    NothingAppended(At(before.outbox, id));
    NothingAppended(At(before.inbox, id));
  }

  lemma DataEffect(signer: Framing.Signer, v: View, key: Key, msg: Message, w: World, now: nat, steps: seq<Step>,
                   before: Sockets, after: Sockets)
    requires msg.Data? && v.table == before.connections.Keys
    requires steps == DataSteps(v.table, Framing.VerifiedId(signer, msg.connectionIdSigned), w)
    requires after.connections == if steps == [] then before.connections else
                                    var id := Framing.VerifiedId(signer, msg.connectionIdSigned).value;
                                    if Ends(steps[0]) then before.connections - {id}
                                    else before.connections[id := ConnectionInfo(now)]
    requires after.outbox == if steps == [] || w.writeFails then before.outbox else
                               var id := Framing.VerifiedId(signer, msg.connectionIdSigned).value;
                               before.outbox[id := At(before.outbox, id) + msg.data]
    requires after.inbox == if steps == [] || w.writeFails then before.inbox else
                              var id := Framing.VerifiedId(signer, msg.connectionIdSigned).value;
                              before.inbox[id := At(before.inbox, id) + Made(true, ReadsOf(w, id))]
    ensures Effect(signer, v, key, msg, w, now, steps, before, after)
  {
    forall id: U64
      ensures EffectOn(signer, v.issued, msg, w, now, steps, before, after, id)
      ensures RelaysOn(signer, v, key, msg, w, steps, id)
    {
      DataEffectOn(signer, v.issued, msg, w, now, steps, before, after, id);
      DataRelays(signer, v, key, msg, w, id);
    }
  }

  lemma CloseEffect(signer: Framing.Signer, v: View, key: Key, msg: Message, w: World, now: nat, steps: seq<Step>,
                    before: Sockets, after: Sockets)
    requires msg.Close? && v.table == before.connections.Keys
    requires steps == CloseSteps(v.table, Framing.VerifiedId(signer, msg.connectionIdSigned))
    requires after.connections == if steps == [] then before.connections
                                  else before.connections - {Framing.VerifiedId(signer, msg.connectionIdSigned).value}
    requires after.outbox == before.outbox && after.inbox == before.inbox
    ensures Effect(signer, v, key, msg, w, now, steps, before, after)
  {
    forall id: U64
      ensures EffectOn(signer, v.issued, msg, w, now, steps, before, after, id)
      ensures RelaysOn(signer, v, key, msg, w, steps, id)
    {
      NothingAppended(At(before.outbox, id));
      NothingAppended(At(before.inbox, id));
      NothingAppended(Relayed(v.log, id));
      if steps != [] {
        OneApplied(v, key, steps[0]);
        OthersRelayNothing(v, key, steps[0], id);
      }
    }
  }

  lemma PollApplied(v: View, key: Key, order: seq<U64>, w: World)
    requires order != []
    ensures ApplyAll(v, key, PollSteps(order, w))
            == Apply(ApplyAll(v, key, PollSteps(order[..|order| - 1], w)), key, PollStep(order[|order| - 1], w))
  {
    assert PollSteps(order, w)[..|order| - 1] == PollSteps(order[..|order| - 1], w);
  }

  /** `after` is what was relayed before and what one attempt or none brought. */
  predicate Brings(before: seq<Byte>, got: seq<Byte>, read: bool, after: seq<Byte>) {
    after == if read then before + got else before
  }

  lemma PollRelaysMore(relayed: seq<Byte>, mid: View, key: Key, before: bool, last: U64, w: World, id: U64)
    requires before ==> id != last
    requires Brings(relayed, GotBytes(Made(false, ReadsOf(w, id))), before, Relayed(mid.log, id))
    ensures Brings(relayed, GotBytes(Made(false, ReadsOf(w, id))), before || id == last,
                   Relayed(Apply(mid, key, PollStep(last, w)).log, id))
  {
    LoopRelays(mid, key, false, last, w, id);
    NothingAppended(Relayed(mid.log, id));
  }

  lemma LastOf(order: seq<U64>, id: U64)
    requires order != [] && NoRepeats(order)
    ensures var n := |order| - 1;
            && NoRepeats(order[..n]) && (id in order[..n] ==> id != order[n])
            && (id in order <==> id in order[..n] || id == order[n])
  {
    assert order == order[..|order| - 1] + [order[|order| - 1]];
  }

  /** The view after these connections were polled, one by one. */
  ghost function AfterPolls(v: View, key: Key, order: seq<U64>, w: World): View {
    if order == [] then v else
      Apply(AfterPolls(v, key, order[..|order| - 1], w), key, PollStep(order[|order| - 1], w))
  }

  lemma {:induction false} PollsApplied(v: View, key: Key, order: seq<U64>, w: World)
    ensures ApplyAll(v, key, PollSteps(order, w)) == AfterPolls(v, key, order, w)
  {
    if order != [] {
      PollsApplied(v, key, order[..|order| - 1], w);
      PollApplied(v, key, order, w);
    }
  }

  lemma {:induction false} PollRelays(v: View, key: Key, order: seq<U64>, w: World, id: U64)
    requires NoRepeats(order)
    ensures Brings(Relayed(v.log, id), GotBytes(Made(false, ReadsOf(w, id))), id in order,
                   Relayed(AfterPolls(v, key, order, w).log, id))
  {
    if order != [] {
      var most, last := order[..|order| - 1], order[|order| - 1];
      LastOf(order, id);
      PollRelays(v, key, most, w, id);
      PollRelaysMore(Relayed(v.log, id), AfterPolls(v, key, most, w), key, id in most, last, w, id);
    }
  }

  lemma PollRelaysOn(signer: Framing.Signer, v: View, key: Key, msg: Message, w: World, order: seq<U64>, id: U64)
    requires msg.Poll? && NoRepeats(order) && (id in order <==> id in v.table)
    ensures RelaysOn(signer, v, key, msg, w, PollSteps(order, w), id)
  {
    NothingAppended(Relayed(v.log, id));
    PollsApplied(v, key, order, w);
    PollRelays(v, key, order, w, id);
  }

  lemma PollEffectOn(signer: Framing.Signer, issued: nat, msg: Message, w: World, now: nat, steps: seq<Step>,
                     before: Sockets, after: Sockets, id: U64)
    requires msg.Poll? && steps != [Open] && after.outbox == before.outbox
    requires id in after.connections ==>
               && id in before.connections
               && after.connections[id] == Touched(before.connections, id, w, now)[id]
    requires after.inbox == ReadFrom(before.inbox, before.connections.Keys, w)
    ensures EffectOn(signer, issued, msg, w, now, steps, before, after, id)
  {
    NothingAppended(At(before.outbox, id));
    NothingAppended(At(before.inbox, id));
    ReadAt(before.inbox, before.connections.Keys, w, id);
  }

  lemma PollEffect(signer: Framing.Signer, v: View, key: Key, msg: Message, w: World, now: nat, order: seq<U64>,
                   before: Sockets, after: Sockets)
    requires msg.Poll? && v.table == before.connections.Keys
    requires NoRepeats(order) && forall id :: id in order <==> id in v.table
    requires after.outbox == before.outbox
    requires forall id :: id in after.connections ==>
               && id in before.connections
               && after.connections[id] == Touched(before.connections, id, w, now)[id]
    requires after.inbox == ReadFrom(before.inbox, v.table, w)
    ensures Effect(signer, v, key, msg, w, now, PollSteps(order, w), before, after)
  {
    var steps := PollSteps(order, w);
    assert forall i :: 0 <= i < |steps| ==> steps[i].Exchange?;
    assert [Open][0] == Open;
    forall id: U64
      ensures EffectOn(signer, v.issued, msg, w, now, steps, before, after, id)
      ensures RelaysOn(signer, v, key, msg, w, steps, id)
    {
      PollEffectOn(signer, v.issued, msg, w, now, steps, before, after, id);
      PollRelaysOn(signer, v, key, msg, w, order, id);
    }
  }

  lemma PolledAnswers(limit: nat, allowPrivate: bool, signer: Framing.Signer, key: Key, start: View, msg: Message,
                      w: World, order: seq<U64>, v: View, responses: seq<ServerResponseType>)
    requires msg.Poll? && Polled(limit, start, key, w, order, {}, v) && responses == Responses(v.log[|start.log|..])
    ensures Answers(limit, allowPrivate, signer, start.table, msg, w, PollSteps(order, w))
    ensures Handled(limit, start, key, PollSteps(order, w), v, responses)
  {
    assert start.table - {} == start.table;
  }

  function IdleIds(connections: map<U64, ConnectionInfo>, now: nat, idle: nat): set<U64> {
    set id | id in connections && now - connections[id].lastActivity > idle
  }

  lemma RemoveOneMore(was: map<U64, ConnectionInfo>, all: set<U64>, toRemove: set<U64>, id: U64)
    requires id in toRemove && toRemove <= all
    ensures was - (all - (toRemove - {id})) == (was - (all - toRemove)) - {id}
    ensures (was - (all - toRemove) - {id}).Keys == (was - (all - toRemove)).Keys - {id}
    ensures id in was ==> id in was - (all - toRemove)
  {}

  /** Nothing but expiries led from `start` to `v`. */
  ghost predicate Swept(limit: nat, start: View, key: Key, steps: seq<Step>, v: View) {
    && EnabledAll(limit, start, key, steps)
    && v == ApplyAll(start, key, steps)
    && forall s :: s in steps ==> s.Expire?
  }

  lemma SweepMore(limit: nat, start: View, key: Key, steps: seq<Step>, v: View, id: U64)
    requires Swept(limit, start, key, steps, v) && id in v.table
    ensures Swept(limit, start, key, steps + [Expire(id)], View(v.issued, v.table - {id}, v.log + [Expired(key, id)]))
  {
    StepMore(limit, start, key, steps, Expire(id));
  }

  /** The connections of `start`, less `todo`, have been polled once each, in this order. */
  ghost predicate Polled(limit: nat, start: View, key: Key, w: World, order: seq<U64>, todo: set<U64>, v: View) {
    && EnabledAll(limit, start, key, PollSteps(order, w))
    && v == ApplyAll(start, key, PollSteps(order, w))
    && todo <= v.table && start.log <= v.log
    && NoRepeats(order)
    && forall id :: id in order <==> id in start.table - todo
  }

  lemma PollAdvances(limit: nat, start: View, key: Key, w: World, order: seq<U64>, todo: set<U64>, v: View, id: U64)
    requires Polled(limit, start, key, w, order, todo, v) && id in todo && todo <= start.table
    ensures Polled(limit, start, key, w, order + [id], todo - {id}, Apply(v, key, PollStep(id, w)))
  {
    MadeBounded(false, ReadsOf(w, id));
    ChunksFlatten(Made(false, ReadsOf(w, id)));
    PollMore(order, id, w);
    NoRepeatsMore(order, id);
    StepMore(limit, start, key, PollSteps(order, w), PollStep(id, w));
  }

  lemma NoRepeatsMore(order: seq<U64>, id: U64)
    requires NoRepeats(order) && id !in order
    ensures NoRepeats(order + [id])
  {}

  lemma StepMore(limit: nat, v: View, key: Key, steps: seq<Step>, step: Step)
    requires EnabledAll(limit, v, key, steps) && Enabled(limit, ApplyAll(v, key, steps), step)
    ensures EnabledAll(limit, v, key, steps + [step])
    ensures ApplyAll(v, key, steps + [step]) == Apply(ApplyAll(v, key, steps), key, step)
  {
    assert (steps + [step])[..|steps|] == steps;
  }

  /** Remembering what to remove, and removing it, come to the same table. */
  lemma PollRemoves(issued: nat, open: set<U64>, toRemove: set<U64>, log: seq<Entry>, key: Key, id: U64, w: World)
    ensures var step := PollStep(id, w);
            Apply(View(issued, open - toRemove, log), key, step)
            == View(issued, open - (if step.ending.StillOpen? then toRemove else toRemove + {id}),
                    log + Added(issued, key, step))
  {
    assert open - toRemove - {id} == open - (toRemove + {id});
  }

  lemma RecordMore(start: seq<Entry>, log: seq<Entry>, added: seq<Entry>)
    requires start <= log
    ensures start <= log + added
    ensures Responses((log + added)[|start|..]) == Responses(log[|start|..]) + Responses(added)
  {
    assert (log + added)[|start|..] == log[|start|..] + added;
    ResponsesAppend(log[|start|..], added);
  }

  lemma DataStepEnabled(limit: nat, v: View, id: U64, w: World)
    requires id in v.table
    ensures Enabled(limit, v, DataStep(id, w))
  {
    MadeBounded(true, ReadsOf(w, id));
    ChunksFlatten(Made(true, ReadsOf(w, id)));
  }

  lemma DataTaken(limit: nat, v: View, key: Key, id: U64, w: World)
    requires id in v.table
    ensures var step := DataStep(id, w); var log := v.log + Added(v.issued, key, step);
            && EnabledAll(limit, v, key, [step])
            && ApplyAll(v, key, [step]) == View(v.issued, if Ends(step) then v.table - {id} else v.table, log)
            && (Ends(step) <==> w.writeFails || EndedBy(Made(true, ReadsOf(w, id))))
            && v.log <= log
            && Responses(log[|v.log|..])
               == (if w.writeFails then [Close(id, w.text)] else ReadReply(id, Made(true, ReadsOf(w, id))))
  {
    DataReply(v.issued, key, id, w);
    DataStepEnabled(limit, v, id, w);
    OneStep(limit, v, key, DataStep(id, w));
    Record(v.log, Added(v.issued, key, DataStep(id, w)));
  }

  lemma OneStep(limit: nat, v: View, key: Key, step: Step)
    requires Enabled(limit, v, step)
    ensures EnabledAll(limit, v, key, [step]) && ApplyAll(v, key, [step]) == Apply(v, key, step)
  {
    assert [step][..|[step]| - 1] == [];
    assert EnabledAll(limit, v, key, []) && ApplyAll(v, key, []) == v;
  }

  lemma PollMore(order: seq<U64>, id: U64, w: World)
    ensures PollSteps(order + [id], w) == PollSteps(order, w) + [PollStep(id, w)]
    ensures PollSteps(order + [id], w)[..|order|] == PollSteps(order, w)
  {}

  lemma {:induction false} ReadsSayNothing(key: Key, id: U64, chunks: seq<Chunk>)
    ensures Responses(Reads(key, id, chunks)) == []
  {
    if chunks != [] {
      ReadsSayNothing(key, id, chunks[..|chunks| - 1]);
      assert Reads(key, id, chunks)[..|chunks| - 1] == Reads(key, id, chunks[..|chunks| - 1]);
    }
  }

  lemma OneResponse(e: Entry)
    requires e.Sent?
    ensures Responses([e]) == [e.response]
  {
    assert [e][..0] == [];
  }

  lemma ExchangeResponses(key: Key, id: U64, chunks: seq<Chunk>, ending: Ending)
    ensures Responses(Relay(key, id, chunks) + Closing(key, id, ending)) ==
            (if chunks == [] then [] else [Data(id, Flatten(chunks), true)])
            + (match ending case StillOpen => [] case Ended => [Close(id, [])] case Broken(text) => [Close(id, text)])
  {
    ReadsSayNothing(key, id, chunks);
    var data := if chunks == [] then [] else [Sent(key, Data(id, Flatten(chunks), true))];
    ResponsesAppend(Reads(key, id, chunks), data);
    ResponsesAppend(Relay(key, id, chunks), Closing(key, id, ending));
    if chunks != [] {
      OneResponse(data[0]);
    }
    if !ending.StillOpen? {
      OneResponse(Closing(key, id, ending)[0]);
    }
  }

  /** The steps from `start` to `v` were all enabled, and `responses` is what they put on record. */
  ghost predicate Handled(limit: nat, start: View, key: Key, steps: seq<Step>, v: View,
                          responses: seq<ServerResponseType>) {
    && EnabledAll(limit, start, key, steps)
    && v == ApplyAll(start, key, steps)
    && start.log <= v.log
    && responses == Responses(v.log[|start.log|..])
  }

  /** The same of a batch, others being handed ids before each message. */
  ghost predicate HandledAll(limit: nat, start: View, key: Key, drawn: seq<nat>, parts: seq<seq<Step>>, v: View,
                             responses: seq<ServerResponseType>)
    requires |drawn| == |parts|
  {
    && EnabledWoven(limit, start, key, drawn, parts)
    && v == Woven(start, key, drawn, parts)
    && start.log <= v.log
    && responses == Responses(v.log[|start.log|..])
  }

  lemma OneHandled(limit: nat, start: View, key: Key, step: Step, v: View, responses: seq<ServerResponseType>)
    requires Enabled(limit, start, step) && v == Apply(start, key, step)
    requires responses == Responses(Added(start.issued, key, step))
    ensures Handled(limit, start, key, [step], v, responses)
  {
    OneStep(limit, start, key, step);
    assert (start.log + Added(start.issued, key, step))[|start.log|..] == Added(start.issued, key, step);
  }

  lemma Prefix<T>(s: seq<T>, i: nat)
    requires i < |s|
    ensures s[..i + 1][..i] == s[..i] && s[..i + 1][i] == s[i]
  {}

  lemma Snoc<T>(s: seq<T>, x: T)
    ensures (s + [x])[..|s|] == s && (s + [x])[|s|] == x
  {}

  lemma AnswersMore(limit: nat, allowPrivate: bool, signer: Framing.Signer, key: Key, v: View,
                    msgs: seq<Message>, worlds: seq<World>, drawn: seq<nat>, i: nat,
                    parts: seq<seq<Step>>, taken: seq<Step>)
    requires |msgs| == |worlds| == |drawn| && i < |msgs| && |parts| == i
    requires AnswersAll(limit, allowPrivate, signer, key, v, msgs[..i], worlds[..i], drawn[..i], parts)
    requires Answers(limit, allowPrivate, signer, Woven(v, key, drawn[..i], parts).table, msgs[i], worlds[i], taken)
    ensures AnswersAll(limit, allowPrivate, signer, key, v,
                       msgs[..i + 1], worlds[..i + 1], drawn[..i + 1], parts + [taken])
  {
    Prefix(msgs, i);
    Prefix(worlds, i);
    Prefix(drawn, i);
    Snoc(parts, taken);
  }

  lemma ChronicleMore(history: seq<Deed>, v: View, key: Key, now: nat, msgs: seq<Message>, worlds: seq<World>,
                      drawn: seq<nat>, i: nat, parts: seq<seq<Step>>, taken: seq<Step>, mid: View, told: seq<Deed>)
    requires |msgs| == |worlds| == |drawn| && i < |msgs| && |parts| == i
    requires mid == Woven(v, key, drawn[..i], parts)
    requires told == Chronicle(history, v, key, now, msgs[..i], worlds[..i], drawn[..i], parts)
    ensures Chronicle(history, v, key, now, msgs[..i + 1], worlds[..i + 1], drawn[..i + 1], parts + [taken])
            == told + [Told(msgs[i], worlds[i], now)] + Deeds(Moved(mid, drawn[i]).issued, now, taken)
  {
    Prefix(msgs, i);
    Prefix(worlds, i);
    Prefix(drawn, i);
    Snoc(parts, taken);
  }

  lemma WovenMore(limit: nat, start: View, key: Key, drawn: seq<nat>, i: nat, parts: seq<seq<Step>>, taken: seq<Step>)
    requires i < |drawn| && |parts| == i && EnabledWoven(limit, start, key, drawn[..i], parts)
    requires EnabledAll(limit, Moved(Woven(start, key, drawn[..i], parts), drawn[i]), key, taken)
    ensures EnabledWoven(limit, start, key, drawn[..i + 1], parts + [taken])
    ensures Woven(start, key, drawn[..i + 1], parts + [taken])
            == ApplyAll(Moved(Woven(start, key, drawn[..i], parts), drawn[i]), key, taken)
  {
    Prefix(drawn, i);
    Snoc(parts, taken);
  }

  lemma HandledMore(limit: nat, start: View, key: Key, drawn: seq<nat>, i: nat, parts: seq<seq<Step>>, mid: View,
                    ra: seq<ServerResponseType>, taken: seq<Step>, v: View, rb: seq<ServerResponseType>)
    requires i < |drawn| && |parts| == i
    requires HandledAll(limit, start, key, drawn[..i], parts, mid, ra)
    requires Handled(limit, Moved(mid, drawn[i]), key, taken, v, rb)
    ensures HandledAll(limit, start, key, drawn[..i + 1], parts + [taken], v, ra + rb)
  {
    WovenMore(limit, start, key, drawn, i, parts, taken);
    assert v.log == mid.log + v.log[|mid.log|..];
    RecordMore(start.log, mid.log, v.log[|mid.log|..]);
  }
}
