/** What the world outside answers while a message is handled, and how the two reading loops take it. */
module Worlds {
  import opened Bytes
  import opened Sessions
  import Addresses

  datatype Connect = Connected | ConnectionRefusedError | TimedOutError | OtherError | DeadlinePassed

  /** One attempt to read: some bytes, the end of the stream, an error, or nothing in time. */
  datatype Reading = Got(chunk: Chunk) | Eof | Failed(text: Addresses.Utf8) | Nothing

  /** `incoming` is what attempts to read from each target would give, until time is up; `text` is the wording of an
      error. */
  datatype World = World(
    isPrivate: bool,
    connect: Connect,
    writeFails: bool,
    incoming: map<U64, seq<Reading>>,
    text: Addresses.Utf8)

  function ReadsOf(w: World, id: U64): seq<Reading> {
    if id in w.incoming then w.incoming[id] else []
  }

  /** All the bytes that the attempts brought, in order. */
  function GotBytes(made: seq<Reading>): seq<Byte> {
    if made == [] then [] else
      var last := made[|made| - 1];
      GotBytes(made[..|made| - 1]) + (if last.Got? then last.chunk else [])
  }

  /** The same, attempt by attempt. */
  function Chunks(made: seq<Reading>): seq<Chunk> {
    if made == [] then [] else
      var last := made[|made| - 1];
      Chunks(made[..|made| - 1]) + (if last.Got? then [last.chunk] else [])
  }

  function EndingOf(made: seq<Reading>): Ending {
    if made == [] then StillOpen else
      match made[|made| - 1]
      case Got(_) => StillOpen
      case Eof => Ended
      case Failed(text) => Broken(text)
      case Nothing => StillOpen
  }

  /** After these attempts another is made: the last brought bytes, for a reply a full buffer of them, and there are
      less than 4 MiB in hand. */
  predicate GoesOn(reply: bool, made: seq<Reading>) {
    made == [] ||
    var last := made[|made| - 1];
    last.Got? && (reply ==> |last.chunk| == READ_BUFFER) && |GotBytes(made)| < MAX_RESPONSE_DATA
  }

  /** A loop comes to its n-th attempt: it went on after all before. */
  ghost predicate Reaches(reply: bool, incoming: seq<Reading>, n: nat) {
    n <= |incoming| && forall k :: 0 <= k < n ==> GoesOn(reply, incoming[..k])
  }

  /** A loop makes n attempts: it never goes on when it should not, and stops early only then. */
  ghost predicate StopsAt(reply: bool, incoming: seq<Reading>, n: nat) {
    Reaches(reply, incoming, n) && (n == |incoming| || !GoesOn(reply, incoming[..n]))
  }

  function Attempts(reply: bool, incoming: seq<Reading>): (n: nat)
    ensures n <= |incoming|
  {
    AttemptsFrom(reply, incoming, 0)
  }

  function AttemptsFrom(reply: bool, incoming: seq<Reading>, n: nat): (r: nat)
    requires n <= |incoming|
    ensures r <= |incoming|
    decreases |incoming| - n
  {
    if n == |incoming| || !GoesOn(reply, incoming[..n]) then n else AttemptsFrom(reply, incoming, n + 1)
  }

  lemma {:induction false} AttemptsStop(reply: bool, incoming: seq<Reading>, n: nat)
    requires Reaches(reply, incoming, n)
    ensures StopsAt(reply, incoming, AttemptsFrom(reply, incoming, n))
    decreases |incoming| - n
  {
    if n < |incoming| && GoesOn(reply, incoming[..n]) {
      AttemptsStop(reply, incoming, n + 1);
    }
  }

  /** The attempts a loop makes. */
  function Made(reply: bool, incoming: seq<Reading>): seq<Reading> {
    incoming[..Attempts(reply, incoming)]
  }

  /** Where a loop stops is determined. */
  lemma StopsOnce(reply: bool, incoming: seq<Reading>, n: nat)
    requires StopsAt(reply, incoming, n)
    ensures incoming[..n] == Made(reply, incoming)
  {
    var m := Attempts(reply, incoming);
    AttemptsStop(reply, incoming, 0);
    assert n == |incoming| || !GoesOn(reply, incoming[..n]);
    assert m == |incoming| || !GoesOn(reply, incoming[..m]);
  }

  lemma OneMoreAttempt(made: seq<Reading>, r: Reading)
    ensures GotBytes(made + [r]) == GotBytes(made) + (if r.Got? then r.chunk else [])
    ensures Chunks(made + [r]) == Chunks(made) + (if r.Got? then [r.chunk] else [])
    ensures EndingOf(made + [r]) == EndingOf([r])
  {
    assert (made + [r])[..|made|] == made;
  }

  /** One attempt more, after which the loop goes on if it brought enough and there is room. */
  lemma ReachesMore(reply: bool, incoming: seq<Reading>, n: nat)
    requires Reaches(reply, incoming, n) && n < |incoming| && GoesOn(reply, incoming[..n])
    ensures Reaches(reply, incoming, n + 1)
    ensures GotBytes(incoming[..n + 1])
            == GotBytes(incoming[..n]) + (if incoming[n].Got? then incoming[n].chunk else [])
    ensures EndingOf(incoming[..n + 1]) == EndingOf([incoming[n]])
    ensures GoesOn(reply, incoming[..n + 1])
       <==> && incoming[n].Got? && (reply ==> |incoming[n].chunk| == READ_BUFFER)
            && |GotBytes(incoming[..n + 1])| < MAX_RESPONSE_DATA
  {
    OneMoreAttempt(incoming[..n], incoming[n]);
    assert incoming[..n + 1] == incoming[..n] + [incoming[n]];
  }

  lemma {:induction false} ChunksFlatten(made: seq<Reading>)
    ensures Flatten(Chunks(made)) == GotBytes(made)
  {
    if made != [] {
      var most, last := made[..|made| - 1], made[|made| - 1];
      ChunksFlatten(most);
      if last.Got? {
        assert Chunks(made)[..|Chunks(most)|] == Chunks(most);
      } else {
        assert Chunks(made) == Chunks(most);
      }
    }
  }

  lemma {:induction false} NoChunksNoBytes(made: seq<Reading>)
    ensures Chunks(made) == [] <==> GotBytes(made) == []
  {
    if made != [] {
      NoChunksNoBytes(made[..|made| - 1]);
    }
  }

  /** Nothing that was read is dropped: all attempts but the last brought bytes, and the chunks are theirs, in order,
      with the last one's if it brought some. */
  lemma {:induction false} AllKept(reply: bool, incoming: seq<Reading>, n: nat)
    requires Reaches(reply, incoming, n)
    ensures forall k :: 0 <= k < n - 1 ==> incoming[k].Got?
    ensures |Chunks(incoming[..n])| == if n > 0 && !incoming[n - 1].Got? then n - 1 else n
    ensures forall k :: 0 <= k < |Chunks(incoming[..n])| ==>
              incoming[k].Got? && Chunks(incoming[..n])[k] == incoming[k].chunk
  {
    if n > 0 {
      AllKept(reply, incoming, n - 1);
      assert incoming[..n][..n - 1] == incoming[..n - 1];
      if n > 1 {
        assert GoesOn(reply, incoming[..n - 1]) && incoming[..n - 1][n - 2] == incoming[n - 2];
      }
    }
  }

  /** Where a loop stops, in numbers: every attempt but the last brought bytes, for a reply 65536 of them, and left
      less than 4 MiB in hand; unless there is nothing more to try, the last did not bring bytes, or brought fewer for
      a reply, or left 4 MiB or more. */
  lemma StopsExactly(reply: bool, incoming: seq<Reading>)
    ensures var made := Made(reply, incoming); var n := |made|;
            && n <= |incoming| && made == incoming[..n]
            && (forall k :: 0 <= k && k + 1 < n ==>
                  && incoming[k].Got? && (reply ==> |incoming[k].chunk| == 65536)
                  && |GotBytes(incoming[..k + 1])| < 4 * 1024 * 1024)
            && (n < |incoming| ==>
                  && n > 0
                  && (|| !incoming[n - 1].Got? || (reply && |incoming[n - 1].chunk| < 65536)
                      || |GotBytes(made)| >= 4 * 1024 * 1024))
  {
    var n := Attempts(reply, incoming);
    AttemptsStop(reply, incoming, 0);
    forall k | 0 <= k && k + 1 < n
      ensures incoming[k].Got? && (reply ==> |incoming[k].chunk| == 65536) && |GotBytes(incoming[..k + 1])| < 4194304
    {
      assert GoesOn(reply, incoming[..k + 1]) && incoming[..k + 1][k] == incoming[k];
    }
    assert incoming[..0] == [];
  }

  /** Neither loop ever holds 4 MiB plus a buffer. */
  lemma MadeBounded(reply: bool, incoming: seq<Reading>)
    ensures |GotBytes(Made(reply, incoming))| < MAX_RESPONSE_DATA + READ_BUFFER
  {
    var n := Attempts(reply, incoming);
    AttemptsStop(reply, incoming, 0);
    if n > 0 {
      assert GoesOn(reply, incoming[..n - 1]);
      OneMoreAttempt(incoming[..n - 1], incoming[n - 1]);
      assert incoming[..n] == incoming[..n - 1] + [incoming[n - 1]];
    }
  }

  /** What a loop does to a connection. */
  function ExchangeOf(reply: bool, id: U64, w: World): Step {
    var made := Made(reply, ReadsOf(w, id));
    Exchange(id, Chunks(made), EndingOf(made))
  }
}
