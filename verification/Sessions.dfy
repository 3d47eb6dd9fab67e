/** What happens to a connection id, from challenge to close, over every interleaving of clients. */
module Sessions {
  import opened Bytes
  import opened Options
  import Addresses
  import ClientMessages
  import opened ServerResponses

  type Key = ClientMessages.Key

  const MAX_RESPONSE_DATA: nat := 4 * 1024 * 1024
  const READ_BUFFER: nat := 65536

  /** What one successful read delivers. */
  type Chunk = b: seq<Byte> | 0 < |b| <= READ_BUFFER witness [0]

  function Flatten(chunks: seq<seq<Byte>>): seq<Byte> {
    if chunks == [] then [] else Flatten(chunks[..|chunks| - 1]) + chunks[|chunks| - 1]
  }

  /** How reading from a target stopped. */
  datatype Ending = StillOpen | Ended | Broken(text: Addresses.Utf8)

  /** The atomic things a client's request, or the cleanup, does to the server. */
  datatype Step =
    | Refuse(code: ErrorCode, text: Addresses.Utf8)
    | Open
    | Exchange(id: U64, chunks: seq<Chunk>, ending: Ending)
    | Drop(id: U64, text: Addresses.Utf8)
    | Expire(id: U64)

  /** What is on record: responses sent, bytes read from a target, and silent removals. */
  datatype Entry =
    | Sent(key: Key, response: ServerResponseType)
    | Read(key: Key, id: U64, bytes: Chunk)
    | Expired(key: Key, id: U64)

  /** The n-th id handed out, counting from 0, by the wrapping 64-bit counter that starts at 1. */
  function IdOf(n: nat): U64 {
    (1 + n) % U64_LIMIT
  }

  function Reads(key: Key, id: U64, chunks: seq<Chunk>): seq<Entry> {
    seq(|chunks|, i requires 0 <= i < |chunks| => Read(key, id, chunks[i]))
  }

  function Closing(key: Key, id: U64, ending: Ending): seq<Entry> {
    match ending
    case StillOpen => []
    case Ended => [Sent(key, Close(id, []))]
    case Broken(text) => [Sent(key, Close(id, text))]
  }

  function Relay(key: Key, id: U64, chunks: seq<Chunk>): seq<Entry> {
    Reads(key, id, chunks) + (if chunks == [] then [] else [Sent(key, Data(id, Flatten(chunks), true))])
  }

  /** What a client's handler sees: the shared count of ids, its own table, and the record. */
  datatype View = View(issued: nat, table: set<U64>, log: seq<Entry>)

  predicate Enabled(limit: nat, v: View, step: Step) {
    match step
    case Refuse(_, _) => true
    case Open => |v.table| < limit
    case Exchange(id, chunks, _) => id in v.table && |Flatten(chunks)| < MAX_RESPONSE_DATA + READ_BUFFER
    case Drop(id, _) => id in v.table
    case Expire(id) => id in v.table
  }

  /** What a step puts on record. */
  function Added(issued: nat, key: Key, step: Step): seq<Entry> {
    match step
    case Refuse(code, text) => [Sent(key, Error(0, code, text))]
    case Open => [Sent(key, Challenge(IdOf(issued)))]
    case Exchange(id, chunks, ending) => Relay(key, id, chunks) + Closing(key, id, ending)
    case Drop(id, text) => [Sent(key, Close(id, text))]
    case Expire(id) => [Expired(key, id)]
  }

  function Apply(v: View, key: Key, step: Step): View {
    var log := v.log + Added(v.issued, key, step);
    match step
    case Refuse(_, _) => v.(log := log)
    case Open => View(v.issued + 1, v.table + {IdOf(v.issued)}, log)
    case Exchange(id, _, ending) => View(v.issued, if ending.StillOpen? then v.table else v.table - {id}, log)
    case Drop(id, _) => View(v.issued, v.table - {id}, log)
    case Expire(id) => View(v.issued, v.table - {id}, log)
  }

  /** The whole server. */
  datatype State = State(issued: nat, tables: map<Key, set<U64>>, log: seq<Entry>)

  const INITIAL := State(0, map[], [])

  function Table(s: State, key: Key): set<U64> {
    if key in s.tables then s.tables[key] else {}
  }

  function ViewOf(s: State, key: Key): View {
    View(s.issued, Table(s, key), s.log)
  }

  function Perform(s: State, key: Key, step: Step): State {
    var v := Apply(ViewOf(s, key), key, step);
    State(v.issued, s.tables[key := v.table], v.log)
  }

  /** Steps of any clients, in any order. */
  type Run = seq<(Key, Step)>

  function After(run: Run): State {
    if run == [] then INITIAL else Perform(After(run[..|run| - 1]), run[|run| - 1].0, run[|run| - 1].1)
  }

  predicate IsRun(limit: nat, run: Run) {
    run == []
    || (&& IsRun(limit, run[..|run| - 1])
        && Enabled(limit, ViewOf(After(run[..|run| - 1]), run[|run| - 1].0), run[|run| - 1].1))
  }

  // The record of one connection id.

  predicate Concerns(e: Entry, id: U64) {
    match e
    case Sent(_, Challenge(i)) => i == id
    case Sent(_, Data(i, _, _)) => i == id
    case Sent(_, Close(i, _)) => i == id
    case Sent(_, Error(_, _, _)) => false
    case Read(_, _, _) => false
    case Expired(_, i) => i == id
  }

  function Project(log: seq<Entry>, id: U64): seq<Entry> {
    if log == [] then [] else
      Project(log[..|log| - 1], id) + (if Concerns(log[|log| - 1], id) then [log[|log| - 1]] else [])
  }

  predicate IsChallenge(e: Entry) {
    e.Sent? && e.response.Challenge?
  }

  predicate IsData(e: Entry) {
    e.Sent? && e.response.Data?
  }

  predicate IsFinal(e: Entry) {
    e.Expired? || (e.Sent? && e.response.Close?)
  }

  /** Challenge, then Data, then at most one Close or expiry and nothing after it; all for one client. */
  ghost predicate SessionShape(s: seq<Entry>) {
    s != [] ==>
      && IsChallenge(s[0])
      && (forall i :: 0 <= i < |s| ==> s[i].key == s[0].key)
      && (forall i :: 0 < i < |s| - 1 ==> IsData(s[i]))
      && (|s| > 1 ==> IsData(s[|s| - 1]) || IsFinal(s[|s| - 1]))
  }

  ghost predicate Live(s: seq<Entry>) {
    s != [] && !IsFinal(s[|s| - 1])
  }

  ghost predicate Recorded(s: State, id: U64) {
    && (id == 0 || id > s.issued ==> Project(s.log, id) == [])
    && SessionShape(Project(s.log, id))
    && forall key :: id in Table(s, key) <==> Live(Project(s.log, id)) && Project(s.log, id)[0].key == key
  }

  ghost predicate Inv(limit: nat, s: State) {
    && (forall id: U64 :: Recorded(s, id))
    && (forall key :: |Table(s, key)| <= limit)
  }

  lemma {:induction false} ProjectAppend(a: seq<Entry>, b: seq<Entry>, id: U64)
    ensures Project(a + b, id) == Project(a, id) + Project(b, id)
  {
    if b == [] {
      assert a + b == a;
    } else {
      assert (a + b)[..|a + b| - 1] == a + b[..|b| - 1];
      ProjectAppend(a, b[..|b| - 1], id);
    }
  }

  lemma ProjectOne(e: Entry, id: U64)
    ensures Project([e], id) == if Concerns(e, id) then [e] else []
  {
    assert [e][..0] == [];
  }

  lemma {:induction false} ReadsConcernNone(key: Key, id: U64, chunks: seq<Chunk>, i: U64)
    ensures Project(Reads(key, id, chunks), i) == []
  {
    if chunks != [] {
      ReadsConcernNone(key, id, chunks[..|chunks| - 1], i);
      assert Reads(key, id, chunks)[..|chunks| - 1] == Reads(key, id, chunks[..|chunks| - 1]);
    }
  }

  lemma ProjectRelay(key: Key, id: U64, chunks: seq<Chunk>, i: U64)
    ensures Project(Relay(key, id, chunks), i) ==
            if i == id && chunks != [] then [Sent(key, Data(id, Flatten(chunks), true))] else []
  {
    var data := if chunks == [] then [] else [Sent(key, Data(id, Flatten(chunks), true))];
    ReadsConcernNone(key, id, chunks, i);
    ProjectAppend(Reads(key, id, chunks), data, i);
    if chunks != [] {
      ProjectOne(data[0], i);
    }
  }

  /** The connection a step is about. */
  function Subject(issued: nat, step: Step): Option<U64> {
    match step
    case Refuse(_, _) => None
    case Open => Some(IdOf(issued))
    case Exchange(id, _, _) => Some(id)
    case Drop(id, _) => Some(id)
    case Expire(id) => Some(id)
  }

  /** What a step puts on the record of its own connection. */
  function OnRecord(issued: nat, key: Key, step: Step): seq<Entry> {
    match step
    case Exchange(id, chunks, ending) =>
      (if chunks == [] then [] else [Sent(key, Data(id, Flatten(chunks), true))]) + Closing(key, id, ending)
    case _ => Added(issued, key, step)
  }

  lemma ProjectClosing(key: Key, i: U64, ending: Ending, id: U64)
    ensures Project(Closing(key, i, ending), id) == if i == id then Closing(key, i, ending) else []
  {
    if !ending.StillOpen? {
      ProjectOne(Closing(key, i, ending)[0], id);
    }
  }

  lemma ProjectExchange(key: Key, i: U64, chunks: seq<Chunk>, ending: Ending, id: U64)
    ensures Project(Relay(key, i, chunks) + Closing(key, i, ending), id)
            == if i == id then OnRecord(0, key, Exchange(i, chunks, ending)) else []
  {
    ProjectRelay(key, i, chunks, id);
    ProjectClosing(key, i, ending, id);
    ProjectAppend(Relay(key, i, chunks), Closing(key, i, ending), id);
  }

  lemma ProjectAdded(issued: nat, key: Key, step: Step, id: U64)
    ensures Project(Added(issued, key, step), id)
            == if Subject(issued, step) == Some(id) then OnRecord(issued, key, step) else []
  {
    if step.Exchange? {
      ProjectExchange(key, step.id, step.chunks, step.ending, id);
    } else {
      ProjectOne(Added(issued, key, step)[0], id);
      OnlyItsOwn(issued, key, step, id);
    }
  }

  lemma OnlyItsOwn(issued: nat, key: Key, step: Step, id: U64)
    requires !step.Exchange?
    ensures |Added(issued, key, step)| == 1
    ensures Concerns(Added(issued, key, step)[0], id) <==> Subject(issued, step) == Some(id)
  {}

  lemma ProjectAfter(s: State, key: Key, step: Step, id: U64)
    ensures Project(Perform(s, key, step).log, id)
            == Project(s.log, id) + (if Subject(s.issued, step) == Some(id) then OnRecord(s.issued, key, step) else [])
  {
    ProjectAdded(s.issued, key, step, id);
    ProjectAppend(s.log, Added(s.issued, key, step), id);
  }

  lemma OthersTable(s: State, key: Key, step: Step, id: U64)
    requires Subject(s.issued, step) != Some(id)
    ensures forall k :: id in Table(Perform(s, key, step), k) <==> id in Table(s, k)
    ensures s.issued <= Perform(s, key, step).issued
  {}

  lemma OthersUnaffected(s: State, key: Key, step: Step, id: U64)
    requires Recorded(s, id) && Subject(s.issued, step) != Some(id)
    ensures Recorded(Perform(s, key, step), id)
  {
    ProjectAfter(s, key, step, id);
    OthersTable(s, key, step, id);
    assert Project(Perform(s, key, step).log, id) == Project(s.log, id);
  }

  lemma OpenProject(s: State, key: Key, id: U64)
    requires IdOf(s.issued) == id && Project(s.log, id) == []
    ensures Project(Perform(s, key, Open).log, id) == [Sent(key, Challenge(id))]
  {
    ProjectAfter(s, key, Open, id);
  }

  lemma OpenRecorded(s: State, key: Key)
    requires s.issued + 1 < U64_LIMIT && Recorded(s, IdOf(s.issued))
    ensures Recorded(Perform(s, key, Open), IdOf(s.issued))
  {
    var id: U64, t := s.issued + 1, Perform(s, key, Open);
    assert IdOf(s.issued) == id;
    OpenProject(s, key, id);
    forall k ensures id in Table(t, k) <==> k == key {
      assert id !in Table(s, k);
    }
  }

  /** What a live session can be extended with: at most one Data and at most one final entry. */
  ghost predicate Extension(q: seq<Entry>, key: Key, final: bool) {
    && |q| <= 2
    && (forall i :: 0 <= i < |q| ==> q[i].key == key)
    && (forall i :: 0 <= i < |q| - 1 ==> IsData(q[i]))
    && (q != [] ==> IsData(q[|q| - 1]) || IsFinal(q[|q| - 1]))
    && (final <==> q != [] && IsFinal(q[|q| - 1]))
  }

  lemma SessionGoesOn(p: seq<Entry>, q: seq<Entry>, key: Key, final: bool)
    requires SessionShape(p) && Live(p) && p[0].key == key
    requires Extension(q, key, final)
    ensures SessionShape(p + q)
    ensures Live(p + q) <==> !final
    ensures p + q != [] && (p + q)[0].key == key
  {
    forall i | 0 < i < |p + q| - 1 ensures IsData((p + q)[i]) {}
  }

  predicate Ends(step: Step) {
    step.Drop? || step.Expire? || (step.Exchange? && !step.ending.StillOpen?)
  }

  lemma StepExtends(issued: nat, key: Key, step: Step)
    requires !step.Open? && !step.Refuse?
    ensures Extension(OnRecord(issued, key, step), key, Ends(step))
  {}

  lemma SubjectTable(s: State, key: Key, step: Step, id: U64)
    requires !step.Open? && Subject(s.issued, step) == Some(id)
    ensures Table(Perform(s, key, step), key) == if Ends(step) then Table(s, key) - {id} else Table(s, key)
    ensures forall k :: k != key ==> Table(Perform(s, key, step), k) == Table(s, k)
  {}

  lemma SubjectRecorded(limit: nat, s: State, key: Key, step: Step, id: U64)
    requires Recorded(s, id) && Enabled(limit, ViewOf(s, key), step)
    requires !step.Open? && Subject(s.issued, step) == Some(id)
    ensures Recorded(Perform(s, key, step), id)
  {
    var p, q := Project(s.log, id), OnRecord(s.issued, key, step);
    assert id in Table(s, key);
    ProjectAfter(s, key, step, id);
    StepExtends(s.issued, key, step);
    SessionGoesOn(p, q, key, Ends(step));
    SubjectTable(s, key, step, id);
  }

  lemma StepKeepsInv(limit: nat, s: State, key: Key, step: Step)
    requires Inv(limit, s) && Enabled(limit, ViewOf(s, key), step) && Perform(s, key, step).issued < U64_LIMIT
    ensures Inv(limit, Perform(s, key, step))
  {
    forall id: U64 ensures Recorded(Perform(s, key, step), id) {
      if Subject(s.issued, step) != Some(id) {
        assert Recorded(s, id);
        OthersUnaffected(s, key, step, id);
      } else if step.Open? {
        assert Recorded(s, id);
        OpenRecorded(s, key);
      } else {
        assert Recorded(s, id);
        SubjectRecorded(limit, s, key, step, id);
      }
    }
    forall k ensures |Table(Perform(s, key, step), k)| <= limit {
      TableStaysSmall(limit, ViewOf(s, key), key, step);
      assert |Table(s, k)| <= limit;
    }
  }

  lemma TableStaysSmall(limit: nat, v: View, key: Key, step: Step)
    requires |v.table| <= limit && Enabled(limit, v, step)
    ensures |Apply(v, key, step).table| <= limit
  {
    if !step.Open? {
      var t := Apply(v, key, step).table;
      assert v.table == t + (v.table - t);
    }
  }

  lemma {:induction false} RunKeepsInv(limit: nat, run: Run)
    requires IsRun(limit, run) && After(run).issued < U64_LIMIT
    ensures Inv(limit, After(run))
  {
    if run != [] {
      RunKeepsInv(limit, run[..|run| - 1]);
      StepKeepsInv(limit, After(run[..|run| - 1]), run[|run| - 1].0, run[|run| - 1].1);
    }
  }

  // What holds of every run.

  /** In every interleaving the entries of one id form a session, and id 0 has none. */
  lemma {:induction false} SessionTrace(limit: nat, run: Run, id: U64)
    requires IsRun(limit, run) && After(run).issued < U64_LIMIT
    ensures SessionShape(Project(After(run).log, id))
    ensures id == 0 ==> Project(After(run).log, id) == []
  {
    RunKeepsInv(limit, run);
    assert Recorded(After(run), id);
  }

  ghost function Challenged(log: seq<Entry>, key: Key): set<U64> {
    set e | e in log && IsChallenge(e) && e.key == key :: e.response.connectionId
  }

  ghost function Closed(log: seq<Entry>, key: Key): set<U64> {
    set e | e in log && e.Sent? && e.response.Close? && e.key == key :: e.response.connectionId
  }

  ghost function ExpiredIds(log: seq<Entry>, key: Key): set<U64> {
    set e | e in log && e.Expired? && e.key == key :: e.id
  }

  lemma {:induction false} ProjectMembers(log: seq<Entry>, id: U64, e: Entry)
    ensures e in Project(log, id) <==> e in log && Concerns(e, id)
  {
    if log != [] {
      ProjectMembers(log[..|log| - 1], id, e);
      assert log == log[..|log| - 1] + [log[|log| - 1]];
    }
  }

  lemma LiveHasNoFinal(p: seq<Entry>)
    requires SessionShape(p) && Live(p)
    ensures forall e :: e in p ==> !IsFinal(e)
  {}

  lemma InTableIsOpen(s: State, key: Key, id: U64)
    requires Recorded(s, id) && id in Table(s, key)
    ensures id in Challenged(s.log, key) && id !in Closed(s.log, key) && id !in ExpiredIds(s.log, key)
  {
    var p := Project(s.log, id);
    LiveHasNoFinal(p);
    ProjectMembers(s.log, id, p[0]);
    forall e | e in s.log && Concerns(e, id) ensures !IsFinal(e) {
      ProjectMembers(s.log, id, e);
    }
  }

  lemma OpenIsInTable(s: State, key: Key, id: U64)
    requires Recorded(s, id)
    requires id in Challenged(s.log, key) && id !in Closed(s.log, key) && id !in ExpiredIds(s.log, key)
    ensures id in Table(s, key)
  {
    var p := Project(s.log, id);
    var e :| e in s.log && IsChallenge(e) && e.key == key && e.response.connectionId == id;
    ProjectMembers(s.log, id, e);
    var last := p[|p| - 1];
    ProjectMembers(s.log, id, last);
  }

  /** A client's table is what it was challenged for less what was closed or expired; it respects the
      limit; no id is in two tables; and id 0 is in none. */
  lemma {:induction false} Ledger(limit: nat, run: Run, key: Key)
    requires IsRun(limit, run) && After(run).issued < U64_LIMIT
    ensures var s := After(run);
            && Table(s, key) == Challenged(s.log, key) - Closed(s.log, key) - ExpiredIds(s.log, key)
            && |Table(s, key)| <= limit
            && 0 !in Table(s, key)
            && forall k :: k != key ==> Table(s, k) !! Table(s, key)
  {
    var s := After(run);
    RunKeepsInv(limit, run);
    forall id: U64 ensures id in Table(s, key) <==>
                           id in Challenged(s.log, key) - Closed(s.log, key) - ExpiredIds(s.log, key) {
      assert Recorded(s, id);
      if id in Table(s, key) {
        InTableIsOpen(s, key, id);
      } else if id in Challenged(s.log, key) - Closed(s.log, key) - ExpiredIds(s.log, key) {
        OpenIsInTable(s, key, id);
      }
    }
    assert Recorded(s, 0);
    forall k, id: U64 | k != key && id in Table(s, k) ensures id !in Table(s, key) {
      assert Recorded(s, id);
    }
  }

  /** The bound on the number of connections is exact: ids stay distinct and non-zero just as long as it holds. */
  lemma IdsExactly(n: nat)
    ensures (forall i, j :: 0 <= i < j < n ==> IdOf(i) != IdOf(j)) && (forall i :: 0 <= i < n ==> IdOf(i) != 0)
       <==> n < U64_LIMIT
  {
    if n < U64_LIMIT {
      forall i | 0 <= i < n ensures IdOf(i) == i + 1 {}
    } else {
      assert IdOf(U64_LIMIT - 1) == 0;
    }
  }

  /** The bytes sent to a client as Data for one id. */
  function Relayed(log: seq<Entry>, id: U64): seq<Byte> {
    if log == [] then [] else
      var e := log[|log| - 1];
      Relayed(log[..|log| - 1], id) + (if IsData(e) && e.response.connectionId == id then e.response.data else [])
  }

  /** The bytes read from the target of one id. */
  function Fetched(log: seq<Entry>, id: U64): seq<Byte> {
    if log == [] then [] else
      var e := log[|log| - 1];
      Fetched(log[..|log| - 1], id) + (if e.Read? && e.id == id then e.bytes else [])
  }

  lemma {:induction false} RelayedAppend(a: seq<Entry>, b: seq<Entry>, id: U64)
    ensures Relayed(a + b, id) == Relayed(a, id) + Relayed(b, id)
  {
    if b == [] {
      assert a + b == a;
    } else {
      assert (a + b)[..|a + b| - 1] == a + b[..|b| - 1];
      RelayedAppend(a, b[..|b| - 1], id);
      var last := b[|b| - 1];
      Reassociate(Relayed(a, id), Relayed(b[..|b| - 1], id),
                  if IsData(last) && last.response.connectionId == id then last.response.data else []);
    }
  }

  lemma {:induction false} FetchedAppend(a: seq<Entry>, b: seq<Entry>, id: U64)
    ensures Fetched(a + b, id) == Fetched(a, id) + Fetched(b, id)
  {
    if b == [] {
      assert a + b == a;
    } else {
      assert (a + b)[..|a + b| - 1] == a + b[..|b| - 1];
      FetchedAppend(a, b[..|b| - 1], id);
      var last := b[|b| - 1];
      Reassociate(Fetched(a, id), Fetched(b[..|b| - 1], id), if last.Read? && last.id == id then last.bytes else []);
    }
  }

  lemma FlowAppend(a: seq<Entry>, b: seq<Entry>, id: U64)
    ensures Relayed(a + b, id) == Relayed(a, id) + Relayed(b, id)
    ensures Fetched(a + b, id) == Fetched(a, id) + Fetched(b, id)
  {
    RelayedAppend(a, b, id);
    FetchedAppend(a, b, id);
  }

  lemma FlowOne(e: Entry, id: U64)
    ensures Relayed([e], id) == if IsData(e) && e.response.connectionId == id then e.response.data else []
    ensures Fetched([e], id) == if e.Read? && e.id == id then e.bytes else []
  {
    assert [e][..0] == [];
  }

  lemma {:induction false} FlowOfReads(key: Key, i: U64, chunks: seq<Chunk>, id: U64)
    ensures Relayed(Reads(key, i, chunks), id) == []
    ensures Fetched(Reads(key, i, chunks), id) == if i == id then Flatten(chunks) else []
  {
    if chunks != [] {
      FlowOfReads(key, i, chunks[..|chunks| - 1], id);
      assert Reads(key, i, chunks)[..|chunks| - 1] == Reads(key, i, chunks[..|chunks| - 1]);
    }
  }

  lemma FlowOfRelay(key: Key, i: U64, chunks: seq<Chunk>, id: U64)
    ensures Relayed(Relay(key, i, chunks), id) == Fetched(Relay(key, i, chunks), id)
  {
    FlowOfReads(key, i, chunks, id);
    var data := if chunks == [] then [] else [Sent(key, Data(i, Flatten(chunks), true))];
    FlowAppend(Reads(key, i, chunks), data, id);
    if chunks != [] {
      FlowOne(data[0], id);
    }
  }

  lemma FlowOfExchange(key: Key, i: U64, chunks: seq<Chunk>, ending: Ending, id: U64)
    ensures var added := Relay(key, i, chunks) + Closing(key, i, ending); Relayed(added, id) == Fetched(added, id)
  {
    FlowOfRelay(key, i, chunks, id);
    FlowAppend(Relay(key, i, chunks), Closing(key, i, ending), id);
    if !ending.StillOpen? {
      FlowOne(Closing(key, i, ending)[0], id);
    }
  }

  lemma FlowOfStep(issued: nat, key: Key, step: Step, id: U64)
    ensures Relayed(Added(issued, key, step), id) == Fetched(Added(issued, key, step), id)
  {
    match step {
      case Refuse(code, text) => FlowOne(Sent(key, Error(0, code, text)), id);
      case Open => FlowOne(Sent(key, Challenge(IdOf(issued))), id);
      case Exchange(i, chunks, ending) => FlowOfExchange(key, i, chunks, ending, id);
      case Drop(i, text) => FlowOne(Sent(key, Close(i, text)), id);
      case Expire(i) => FlowOne(Expired(key, i), id);
    }
  }

  /** Nothing is lost, added or reordered on the way: what a client got for an id is what its steps read from its
      target. */
  lemma {:induction false} BytesConserved(limit: nat, run: Run, id: U64)
    requires IsRun(limit, run)
    ensures Relayed(After(run).log, id) == Fetched(After(run).log, id)
  {
    if run != [] {
      var s, key, step := After(run[..|run| - 1]), run[|run| - 1].0, run[|run| - 1].1;
      BytesConserved(limit, run[..|run| - 1], id);
      FlowOfStep(s.issued, key, step, id);
      FlowAppend(s.log, Added(s.issued, key, step), id);
    }
  }

  predicate PayloadInBounds(e: Entry) {
    IsData(e) ==> 0 < |e.response.data| < MAX_RESPONSE_DATA + READ_BUFFER
  }

  lemma FlattenGrows(chunks: seq<Chunk>)
    requires chunks != []
    ensures |Flatten(chunks)| > 0
  {}

  lemma AddedInBounds(limit: nat, v: View, key: Key, step: Step)
    requires Enabled(limit, v, step)
    ensures forall e :: e in Added(v.issued, key, step) ==> PayloadInBounds(e)
  {
    if step.Exchange? && step.chunks != [] {
      FlattenGrows(step.chunks);
    }
  }

  /** Every Data payload has at least one byte and fewer than 4 MiB plus one read buffer. */
  lemma {:induction false} PayloadsBounded(limit: nat, run: Run)
    requires IsRun(limit, run)
    ensures forall e :: e in After(run).log ==> PayloadInBounds(e)
  {
    if run != [] {
      var s, key, step := After(run[..|run| - 1]), run[|run| - 1].0, run[|run| - 1].1;
      PayloadsBounded(limit, run[..|run| - 1]);
      AddedInBounds(limit, ViewOf(s, key), key, step);
    }
  }

  // Several steps of one client in a row, as a request makes them.

  function ApplyAll(v: View, key: Key, steps: seq<Step>): View {
    if steps == [] then v else Apply(ApplyAll(v, key, steps[..|steps| - 1]), key, steps[|steps| - 1])
  }

  predicate EnabledAll(limit: nat, v: View, key: Key, steps: seq<Step>) {
    steps == []
    || (EnabledAll(limit, v, key, steps[..|steps| - 1])
        && Enabled(limit, ApplyAll(v, key, steps[..|steps| - 1]), steps[|steps| - 1]))
  }

  /** The responses on record, in order. */
  function Responses(log: seq<Entry>): seq<ServerResponseType> {
    if log == [] then [] else
      Responses(log[..|log| - 1]) + (if log[|log| - 1].Sent? then [log[|log| - 1].response] else [])
  }

  lemma {:induction false} ResponsesAppend(a: seq<Entry>, b: seq<Entry>)
    ensures Responses(a + b) == Responses(a) + Responses(b)
  {
    if b == [] {
      assert a + b == a;
    } else {
      assert (a + b)[..|a + b| - 1] == a + b[..|b| - 1];
      ResponsesAppend(a, b[..|b| - 1]);
    }
  }

  function Continue(run: Run, key: Key, steps: seq<Step>): Run {
    if steps == [] then run else Continue(run, key, steps[..|steps| - 1]) + [(key, steps[|steps| - 1])]
  }

  /** A client's view agrees with the server on everything but the other clients' records. */
  predicate Agrees(s: State, key: Key, v: View) {
    v.issued == s.issued && v.table == Table(s, key)
  }

  lemma StepContinuesRun(limit: nat, run: Run, key: Key, v: View, step: Step)
    requires IsRun(limit, run) && Agrees(After(run), key, v) && Enabled(limit, v, step)
    ensures IsRun(limit, run + [(key, step)])
    ensures Agrees(After(run + [(key, step)]), key, Apply(v, key, step))
    ensures After(run + [(key, step)]).log == After(run).log + Added(v.issued, key, step)
    ensures forall k :: k != key ==> Table(After(run + [(key, step)]), k) == Table(After(run), k)
  {
    var longer := run + [(key, step)];
    assert longer[..|longer| - 1] == run;
    assert After(longer) == Perform(After(run), key, step);
  }

  /** A request's steps continue any run of the server that left its client's view as the request found it,
      and put the same entries on record there. */
  lemma {:induction false} RequestContinuesRun(limit: nat, run: Run, key: Key, v: View, steps: seq<Step>)
    requires IsRun(limit, run) && Agrees(After(run), key, v)
    requires EnabledAll(limit, v, key, steps)
    ensures IsRun(limit, Continue(run, key, steps))
    ensures Agrees(After(Continue(run, key, steps)), key, ApplyAll(v, key, steps))
    ensures v.log <= ApplyAll(v, key, steps).log
    ensures After(Continue(run, key, steps)).log == After(run).log + ApplyAll(v, key, steps).log[|v.log|..]
    ensures forall k :: k != key ==> Table(After(Continue(run, key, steps)), k) == Table(After(run), k)
  {
    if steps == [] {
      assert After(run).log + v.log[|v.log|..] == After(run).log;
    } else {
      var most, last := steps[..|steps| - 1], steps[|steps| - 1];
      var mid := ApplyAll(v, key, most);
      RequestContinuesRun(limit, run, key, v, most);
      StepContinuesRun(limit, Continue(run, key, most), key, mid, last);
      RecordGrows(After(run).log, v.log, mid.log, Added(mid.issued, key, last));
    }
  }

  lemma RecordGrows(all: seq<Entry>, start: seq<Entry>, mid: seq<Entry>, more: seq<Entry>)
    requires start <= mid
    ensures start <= mid + more && all + (mid + more)[|start|..] == all + mid[|start|..] + more
  {}

  // Overlapping requests: between two messages of one client, others may take steps of their own.

  /** Others have been handed ids in the meantime. */
  function Moved(v: View, drawn: nat): View {
    v.(issued := v.issued + drawn)
  }

  /** The view after a request's messages took these steps, others being handed ids before each. */
  function Woven(v: View, key: Key, drawn: seq<nat>, parts: seq<seq<Step>>): View
    requires |drawn| == |parts|
  {
    if parts == [] then v else
      var n := |parts| - 1;
      ApplyAll(Moved(Woven(v, key, drawn[..n], parts[..n]), drawn[n]), key, parts[n])
  }

  predicate EnabledWoven(limit: nat, v: View, key: Key, drawn: seq<nat>, parts: seq<seq<Step>>)
    requires |drawn| == |parts|
  {
    parts == [] ||
    var n := |parts| - 1;
    && EnabledWoven(limit, v, key, drawn[..n], parts[..n])
    && EnabledAll(limit, Moved(Woven(v, key, drawn[..n], parts[..n]), drawn[n]), key, parts[n])
  }

  /** How many ids a stretch of a run hands out. */
  function Draws(gap: Run): nat {
    if gap == [] then 0 else Draws(gap[..|gap| - 1]) + (if gap[|gap| - 1].1.Open? then 1 else 0)
  }

  function AllDraws(gaps: seq<Run>): seq<nat> {
    seq(|gaps|, i requires 0 <= i < |gaps| => Draws(gaps[i]))
  }

  /** The run in which the others' steps come before each message's. */
  function Weave(run: Run, key: Key, gaps: seq<Run>, parts: seq<seq<Step>>): Run
    requires |gaps| == |parts|
  {
    if parts == [] then run else
      var n := |parts| - 1;
      Continue(Weave(run, key, gaps[..n], parts[..n]) + gaps[n], key, parts[n])
  }

  /** Each gap holds steps of other clients that can be taken where it stands. */
  ghost predicate Fits(limit: nat, run: Run, key: Key, gaps: seq<Run>, parts: seq<seq<Step>>)
    requires |gaps| == |parts|
  {
    parts == [] ||
    var n := |parts| - 1;
    && Fits(limit, run, key, gaps[..n], parts[..n])
    && IsRun(limit, Weave(run, key, gaps[..n], parts[..n]) + gaps[n])
    && (forall e :: e in gaps[n] ==> e.0 != key)
  }

  /** One client's entries. */
  function OfKey(log: seq<Entry>, key: Key): seq<Entry> {
    if log == [] then [] else
      OfKey(log[..|log| - 1], key) + (if log[|log| - 1].key == key then [log[|log| - 1]] else [])
  }

  lemma {:induction false} OfKeyAppend(a: seq<Entry>, b: seq<Entry>, key: Key)
    ensures OfKey(a + b, key) == OfKey(a, key) + OfKey(b, key)
  {
    if b == [] {
      assert a + b == a;
    } else {
      assert (a + b)[..|a + b| - 1] == a + b[..|b| - 1];
      OfKeyAppend(a, b[..|b| - 1], key);
    }
  }

  lemma {:induction false} OneOwner(log: seq<Entry>, owner: Key, key: Key)
    requires forall e :: e in log ==> e.key == owner
    ensures OfKey(log, key) == if owner == key then log else []
  {
    if log != [] {
      OneOwner(log[..|log| - 1], owner, key);
      assert log == log[..|log| - 1] + [log[|log| - 1]];
      assert log[|log| - 1] in log;
    }
  }

  lemma AddedIsOwn(issued: nat, key: Key, step: Step)
    ensures forall e :: e in Added(issued, key, step) ==> e.key == key
  {}

  lemma {:induction false} ApplyAllIsOwn(v: View, key: Key, steps: seq<Step>)
    ensures v.log <= ApplyAll(v, key, steps).log
    ensures forall e :: e in ApplyAll(v, key, steps).log[|v.log|..] ==> e.key == key
  {
    if steps != [] {
      var mid, last := ApplyAll(v, key, steps[..|steps| - 1]), steps[|steps| - 1];
      ApplyAllIsOwn(v, key, steps[..|steps| - 1]);
      AddedIsOwn(mid.issued, key, last);
      assert (mid.log + Added(mid.issued, key, last))[|v.log|..] == mid.log[|v.log|..] + Added(mid.issued, key, last);
    }
  }

  lemma OtherLeaves(s: State, other: Key, step: Step, key: Key)
    requires other != key
    ensures Table(Perform(s, other, step), key) == Table(s, key)
    ensures Perform(s, other, step).issued == s.issued + if step.Open? then 1 else 0
    ensures OfKey(Perform(s, other, step).log, key) == OfKey(s.log, key)
  {
    AddedIsOwn(s.issued, other, step);
    OneOwner(Added(s.issued, other, step), other, key);
    OfKeyAppend(s.log, Added(s.issued, other, step), key);
    assert OfKey(s.log, key) + [] == OfKey(s.log, key);
  }

  lemma AfterOneMore(run: Run, gap: Run)
    requires gap != []
    ensures var last := gap[|gap| - 1]; After(run + gap) == Perform(After(run + gap[..|gap| - 1]), last.0, last.1)
  {
    LastApart(run, gap);
    AfterStep(run + gap[..|gap| - 1], gap[|gap| - 1]);
  }

  lemma LastApart<T>(a: seq<T>, b: seq<T>)
    requires b != []
    ensures a + b == (a + b[..|b| - 1]) + [b[|b| - 1]]
  {}

  lemma AfterStep(run: Run, e: (Key, Step))
    ensures After(run + [e]) == Perform(After(run), e.0, e.1)
  {
    assert (run + [e])[..|run|] == run;
  }

  /** Steps of others leave a client's table and entries alone, and move the count of ids by what they draw. */
  lemma {:induction false} OthersLeave(run: Run, gap: Run, key: Key)
    requires forall e :: e in gap ==> e.0 != key
    ensures Table(After(run + gap), key) == Table(After(run), key)
    ensures After(run + gap).issued == After(run).issued + Draws(gap)
    ensures OfKey(After(run + gap).log, key) == OfKey(After(run).log, key)
  {
    if gap == [] {
      assert run + gap == run;
    } else {
      var most, last := gap[..|gap| - 1], gap[|gap| - 1];
      assert last in gap;
      OthersLeave(run, most, key);
      AfterOneMore(run, gap);
      OtherLeaves(After(run + most), last.0, last.1, key);
    }
  }

  /** One message's steps, after a gap, in the whole server. */
  lemma MessageContinues(limit: nat, run: Run, key: Key, v: View, gap: Run, steps: seq<Step>)
    requires Agrees(After(run), key, v) && IsRun(limit, run + gap) && forall e :: e in gap ==> e.0 != key
    requires EnabledAll(limit, Moved(v, Draws(gap)), key, steps)
    ensures var after := ApplyAll(Moved(v, Draws(gap)), key, steps); var longer := Continue(run + gap, key, steps);
            && IsRun(limit, longer) && Agrees(After(longer), key, after)
            && v.log <= after.log
            && OfKey(After(longer).log, key) == OfKey(After(run).log, key) + after.log[|v.log|..]
  {
    var here := Moved(v, Draws(gap));
    OthersLeave(run, gap, key);
    RequestContinuesRun(limit, run + gap, key, here, steps);
    ApplyAllIsOwn(here, key, steps);
    var added := ApplyAll(here, key, steps).log[|v.log|..];
    OfKeyAppend(After(run + gap).log, added, key);
    OneOwner(added, key, key);
  }

  lemma Unfold(limit: nat, run: Run, key: Key, v: View, gaps: seq<Run>, parts: seq<seq<Step>>)
    requires |gaps| == |parts| > 0 && EnabledWoven(limit, v, key, AllDraws(gaps), parts)
    ensures var n := |parts| - 1; var mid := Woven(v, key, AllDraws(gaps[..n]), parts[..n]);
            && EnabledWoven(limit, v, key, AllDraws(gaps[..n]), parts[..n])
            && EnabledAll(limit, Moved(mid, Draws(gaps[n])), key, parts[n])
            && Woven(v, key, AllDraws(gaps), parts) == ApplyAll(Moved(mid, Draws(gaps[n])), key, parts[n])
  {
    var n := |parts| - 1;
    assert AllDraws(gaps)[..n] == AllDraws(gaps[..n]);
  }

  lemma Chain(all: seq<Entry>, start: seq<Entry>, mid: seq<Entry>, after: seq<Entry>)
    requires start <= mid <= after
    ensures start <= after && (all + mid[|start|..]) + after[|mid|..] == all + after[|start|..]
  {}

  /** However other clients' steps fall between a request's messages, its steps and theirs make a run of the whole
      server, which leaves the client where the request does and holds the client's entries in the same order. */
  lemma {:induction false} RequestWeaves(limit: nat, run: Run, key: Key, v: View, gaps: seq<Run>, parts: seq<seq<Step>>)
    requires |gaps| == |parts| && IsRun(limit, run) && Agrees(After(run), key, v)
    requires Fits(limit, run, key, gaps, parts) && EnabledWoven(limit, v, key, AllDraws(gaps), parts)
    ensures var after := Woven(v, key, AllDraws(gaps), parts); var woven := Weave(run, key, gaps, parts);
            && IsRun(limit, woven) && Agrees(After(woven), key, after)
            && v.log <= after.log
            && OfKey(After(woven).log, key) == OfKey(After(run).log, key) + after.log[|v.log|..]
  {
    if parts == [] {
      assert OfKey(After(run).log, key) + v.log[|v.log|..] == OfKey(After(run).log, key);
    } else {
      var n := |parts| - 1;
      var mid, after := Woven(v, key, AllDraws(gaps[..n]), parts[..n]), Woven(v, key, AllDraws(gaps), parts);
      Unfold(limit, run, key, v, gaps, parts);
      RequestWeaves(limit, run, key, v, gaps[..n], parts[..n]);
      MessageContinues(limit, Weave(run, key, gaps[..n], parts[..n]), key, mid, gaps[n], parts[n]);
      Chain(OfKey(After(run).log, key), v.log, mid.log, after.log);
    }
  }
}
