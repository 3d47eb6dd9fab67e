/** How each kind of message is answered, told from the world outside alone. */
module Replies {
  import opened Bytes
  import opened ServerResponses
  import opened Sessions
  import opened Worlds
  import opened Accounts
  import Framing

  /** The connection is allowed and comes about. */
  predicate Welcome(limit: nat, open: nat, allowPrivate: bool, w: World) {
    open < limit && (allowPrivate || !w.isPrivate) && w.connect.Connected?
  }

  /** The cause of each error a StartConnection can meet. */
  predicate Causes(limit: nat, open: nat, allowPrivate: bool, w: World, code: ErrorCode) {
    match code
    case TooManyConnections => open >= limit
    case HostUnreachable => open < limit && ((!allowPrivate && w.isPrivate) || w.connect.OtherError?)
    case ConnectionRefused => open < limit && (allowPrivate || !w.isPrivate) && w.connect.ConnectionRefusedError?
    case Timeout =>
      open < limit && (allowPrivate || !w.isPrivate) && (w.connect.TimedOutError? || w.connect.DeadlinePassed?)
    case InvalidNonce => false
    case Unknown => false
  }

  /** A StartConnection gets a Challenge with the next id if it is welcome, and otherwise the error that has its
      cause. */
  predicate StartReply(limit: nat, open: nat, allowPrivate: bool, w: World, issued: nat, r: ServerResponseType) {
    && (r.Challenge? <==> Welcome(limit, open, allowPrivate, w))
    && (r.Challenge? ==> r.connectionId == IdOf(issued))
    && (!r.Challenge? ==> r.Error? && r.connectionId == 0 && r.message == w.text)
    && (r.Error? ==> forall code :: r.errorCode == code <==> Causes(limit, open, allowPrivate, w, code))
  }

  /** The end of the stream and a read error end a connection; a full buffer, a short one and silence do not. */
  predicate EndedBy(made: seq<Reading>) {
    made != [] && (made[|made| - 1].Eof? || made[|made| - 1].Failed?)
  }

  function CloseReply(id: U64, last: Reading): seq<ServerResponseType> {
    match last
    case Got(_) => []
    case Eof => [Close(id, [])]
    case Failed(text) => [Close(id, text)]
    case Nothing => []
  }

  /** Reading from a target is answered by its bytes, if there are any, and then by a Close, if the connection ended. */
  function ReadReply(id: U64, made: seq<Reading>): seq<ServerResponseType> {
    (if GotBytes(made) == [] then [] else [Data(id, GotBytes(made), true)])
    + (if made == [] then [] else CloseReply(id, made[|made| - 1]))
  }

  function PollReply(order: seq<U64>, w: World): seq<ServerResponseType> {
    if order == [] then [] else
      var id := order[|order| - 1];
      PollReply(order[..|order| - 1], w) + ReadReply(id, Made(false, ReadsOf(w, id)))
  }

  predicate NoRepeats(order: seq<U64>) {
    forall i, j :: 0 <= i < j < |order| ==> order[i] != order[j]
  }

  /** The id in the 8 bytes before the signature. */
  function IdIn(signed: seq<Byte>): U64
    requires |signed| >= 74
  {
    BytesRoundTrip(signed[|signed| - 72..|signed| - 64]);
    Widths();
    FromLittleEndian(signed[|signed| - 72..|signed| - 64])
  }

  /** The signature holds, for a connection that is open. */
  predicate Speaks(signer: Framing.Signer, table: set<U64>, signed: seq<Byte>) {
    |signed| >= 74 && signer.verify(signed[..|signed| - 64], signed[|signed| - 64..]) && IdIn(signed) in table
  }

  /** The responses to a message, the open connections being `table`. */
  ghost predicate Reply(limit: nat, allowPrivate: bool, signer: Framing.Signer, table: set<U64>, issued: nat,
                        msg: Message, w: World, responses: seq<ServerResponseType>)
  {
    match msg
    case StartConnection(_, _) =>
      |responses| == 1 && StartReply(limit, |table|, allowPrivate, w, issued, responses[0])
    case Data(signed, _, _) =>
      responses == if !Speaks(signer, table, signed) then []
                   else if w.writeFails then [Close(IdIn(signed), w.text)]
                   else ReadReply(IdIn(signed), Made(true, ReadsOf(w, IdIn(signed))))
    case Close(signed) => responses == if Speaks(signer, table, signed) then [Close(IdIn(signed), [])] else []
    case Poll =>
      exists order ::
        NoRepeats(order) && (forall id :: id in order <==> id in table) && responses == PollReply(order, w)
  }

  /** A Data or Close that does not speak for an open connection, or a StartConnection that is not welcome. */
  predicate Vain(limit: nat, allowPrivate: bool, signer: Framing.Signer, table: set<U64>, msg: Message, w: World) {
    match msg
    case StartConnection(_, _) => !Welcome(limit, |table|, allowPrivate, w)
    case Data(signed, _, _) => !Speaks(signer, table, signed)
    case Close(signed) => !Speaks(signer, table, signed)
    case Poll => false
  }

  /** What counts as activity of an open connection: data that speaks for it, whether or not it can be written, and a
      poll whose first attempt brings bytes. */
  lemma ActivatesExactly(signer: Framing.Signer, msg: Message, w: World, id: U64)
    ensures Activates(signer, msg, w, id)
       <==> match msg
            case Data(signed, _, _) => Speaks(signer, {id}, signed)
            case Poll => ReadsOf(w, id) != [] && ReadsOf(w, id)[0].Got?
            case _ => false
  {
    match msg {
      case Data(signed, _, _) =>
        Framing.VerifiedExactly(signer, signed, id);
      case Poll => PollActivates(w, id);
      case _ =>
    }
  }

  lemma PollActivates(w: World, id: U64)
    ensures GotBytes(Made(false, ReadsOf(w, id))) != [] <==> ReadsOf(w, id) != [] && ReadsOf(w, id)[0].Got?
  {
    var incoming := ReadsOf(w, id);
    var n := Attempts(false, incoming);
    AttemptsStop(false, incoming, 0);
    assert incoming[..0] == [] && (incoming != [] ==> n > 0);
    if n > 0 {
      FirstBrings(incoming, n);
    }
  }

  lemma {:induction false} FirstBrings(incoming: seq<Reading>, n: nat)
    requires Reaches(false, incoming, n) && n > 0
    ensures GotBytes(incoming[..n]) != [] <==> incoming[0].Got?
  {
    assert incoming[..n][..n - 1] == incoming[..n - 1];
    if n == 1 {
      assert incoming[..1][..0] == [];
    } else {
      FirstBrings(incoming, n - 1);
      AllKept(false, incoming, n);
    }
  }
}
