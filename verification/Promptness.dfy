/** When the sender's messages go out, event by event. */
module Promptness {
  import opened Bytes
  import CM = ClientMessages
  import opened LambdaSender

  ghost predicate AllKnown(c: Config, events: seq<Event>) {
    c.HostsFit() && forall e :: e in events ==> c.Knows(e)
  }

  /** A message other than a StartConnection. */
  predicate Queues(e: Event) {
    e.Arrives? && !e.msg.StartConnection?
  }

  predicate AllQueue(events: seq<Event>) {
    forall e :: e in events ==> Queues(e)
  }

  lemma KnownBoth(c: Config, a: seq<Event>, b: seq<Event>)
    requires AllKnown(c, a) && AllKnown(c, b)
    ensures AllKnown(c, a + b)
  {}

  lemma KnownParts(c: Config, a: seq<Event>, b: seq<Event>)
    requires AllKnown(c, a + b)
    ensures AllKnown(c, a) && AllKnown(c, b)
  {
    assert forall e :: e in a || e in b ==> e in a + b;
  }

  lemma OneMore(c: Config, a: seq<Event>, e: Event)
    requires AllKnown(c, a + [e])
    ensures AllKnown(c, a) && c.Knows(e) && After(c, a + [e]) == Step(c, After(c, a), e)
  {
    assert forall x :: x in a ==> x in a + [e];
    assert e in a + [e] && (a + [e])[..|a|] == a;
  }

  lemma KeptOneMore(c: Config, a: seq<Event>, e: Event, s: nat)
    requires AllKnown(c, a + [e])
    ensures AllKnown(c, a) && c.Knows(e)
    ensures Kept(c, a + [e], s)
            == Kept(c, a, s) + if IsStart(e) && After(c, a).mode == Final then [] else For(c, e, s)
  {
    OneMore(c, a, e);
    assert (a + [e])[..|a|] == a && (a + [e])[|a|] == e;
  }

  // Nothing that went out is taken back.

  lemma HandedGrows(c: Config, batches: seq<Batch>, messages: seq<CM.ClientMessageType>)
    ensures batches <= Handed(c, batches, messages)
  {}

  lemma StepGrows(c: Config, st: State, e: Event, s: nat)
    requires c.HostsFit() && c.Knows(e) && s < |st.sent| == |c.servers|
    ensures |Step(c, st, e).sent| == |c.servers| && st.sent[s] <= Step(c, st, e).sent[s]
  {
    var flushed := Flushed(c, st.sent, st.pending);
    HandedGrows(c, st.sent[s], Entry(st.pending, s));
    if IsStart(e) && e.msg.serverIdx == s {
      HandedGrows(c, st.sent[s], [Wire(c, e.msg)]);
      HandedGrows(c, flushed[s], [Wire(c, e.msg)]);
    }
  }

  lemma {:induction false} SentGrows(c: Config, a: seq<Event>, b: seq<Event>, s: nat)
    requires AllKnown(c, a + b) && s < |c.servers|
    ensures AllKnown(c, a) && After(c, a).sent[s] <= After(c, a + b).sent[s]
  {
    assert forall x :: x in a ==> x in a + b;
    if b == [] {
      assert a + b == a;
    } else {
      var most, last := b[..|b| - 1], b[|b| - 1];
      assert a + b == (a + most) + [last];
      OneMore(c, a + most, last);
      SentGrows(c, a, most, s);
      StepGrows(c, After(c, a + most), last, s);
    }
  }

  lemma {:induction false} FlattenGrows(a: seq<Batch>, b: seq<Batch>)
    requires a <= b
    ensures Flatten(a) <= Flatten(b)
  {
    if |a| < |b| {
      FlattenGrows(a, b[..|b| - 1]);
    } else {
      assert a == b;
    }
  }

  lemma {:induction false} KeptGrows(c: Config, a: seq<Event>, b: seq<Event>, s: nat)
    requires AllKnown(c, a + b)
    ensures AllKnown(c, a) && Kept(c, a, s) <= Kept(c, a + b, s)
  {
    assert forall x :: x in a ==> x in a + b;
    if b == [] {
      assert a + b == a;
    } else {
      var most, last := b[..|b| - 1], b[|b| - 1];
      assert a + b == (a + most) + [last];
      KeptOneMore(c, a + most, last, s);
      KeptGrows(c, a, most, s);
    }
  }

  /** While the sender is idle nothing is pending, and everything received before, less what was dropped, is out. */
  lemma IdleIsOut(c: Config, a: seq<Event>, s: nat)
    requires AllKnown(c, a) && s < |c.servers| && After(c, a).mode == Idle
    ensures After(c, a).pending == map[] && Flatten(After(c, a).sent[s]) == Kept(c, a, s)
  {
    OrderKept(c, a, s);
    assert Entry(After(c, a).pending, s) == [];
  }

  /** What was received before an idle moment is out ever after. */
  lemma OutSinceIdle(c: Config, events: seq<Event>, m: nat, n: nat, s: nat)
    requires AllKnown(c, events) && s < |c.servers| && m <= n <= |events| && After(c, events[..n]).mode == Idle
    ensures Kept(c, events[..m], s) <= Flatten(After(c, events).sent[s])
  {
    assert events[..m] + events[m..n] == events[..n] && events[..n] + events[n..] == events;
    KeptGrows(c, events[..m], events[m..n], s);
    IdleIsOut(c, events[..n], s);
    SentGrows(c, events[..n], events[n..], s);
    FlattenGrows(After(c, events[..n]).sent[s], After(c, events).sent[s]);
  }

  // Where the sender is, from what it meets.

  lemma {:induction false} BurstStays(c: Config, a: seq<Event>, burst: seq<Event>)
    requires AllKnown(c, a + burst) && AllQueue(burst)
    ensures AllKnown(c, a)
    ensures After(c, a).mode in {Draining, Final} ==> After(c, a + burst).mode == After(c, a).mode
  {
    assert forall x :: x in a ==> x in a + burst;
    if burst == [] {
      assert a + burst == a;
    } else {
      var most, last := burst[..|burst| - 1], burst[|burst| - 1];
      assert last in burst && a + burst == (a + most) + [last];
      OneMore(c, a + most, last);
      BurstStays(c, a, most);
    }
  }

  /** Quiet moments and StartConnections begin no turn. */
  lemma IdleStays(c: Config, a: seq<Event>, e: Event)
    requires AllKnown(c, a + [e]) && AllKnown(c, a) && After(c, a).mode == Idle
    ensures After(c, a + [e]).mode == Idle <==> !Queues(e)
  {
    OneMore(c, a, e);
  }

  /** A turn of the task, from an idle moment: it drains while messages come, StartConnections too; at a quiet moment it
      waits, unless the last thing it met was a StartConnection, which left nothing pending; whatever ends the wait, it
      then drains a last time, up to a quiet moment or a StartConnection. */
  lemma TurnModes(c: Config, a: seq<Event>, first: Event, burst: seq<Event>, x: Event, late: seq<Event>, end: Event)
    requires AllKnown(c, a + [first] + burst + [Quiet] + [x] + late + [end]) && AllKnown(c, a)
    requires After(c, a).mode == Idle && Queues(first) && (forall e :: e in burst ==> e.Arrives?) && AllQueue(late)
    requires end.Quiet? || IsStart(end)
    ensures AllKnown(c, a + [first] + burst) && After(c, a + [first] + burst).mode == Draining
    ensures var met := a + [first] + burst;
            && AllKnown(c, met + [Quiet] + [x] + late)
            && After(c, met + [Quiet]).mode == (if IsStart(met[|met| - 1]) then Idle else Mode.Waiting)
            && (!IsStart(met[|met| - 1]) ==>
                  && After(c, met + [Quiet] + [x]).mode == Final
                  && After(c, met + [Quiet] + [x] + late).mode == Final
                  && After(c, met + [Quiet] + [x] + late + [end]).mode == Idle)
  {
    var met := a + [first] + burst;
    OneMore(c, met + [Quiet] + [x] + late, end);
    BurstStays(c, met + [Quiet] + [x], late);
    OneMore(c, met + [Quiet], x);
    OneMore(c, met, Quiet);
    DrainsOn(c, a, first, burst);
  }

  /** What is pending after the first message of a turn depends on whether the last one met was a StartConnection. */
  lemma {:induction false} DrainsOn(c: Config, a: seq<Event>, first: Event, burst: seq<Event>)
    requires AllKnown(c, a + [first] + burst) && AllKnown(c, a)
    requires After(c, a).mode == Idle && Queues(first) && forall e :: e in burst ==> e.Arrives?
    ensures var met := a + [first] + burst;
            && After(c, met).mode == Draining
            && (After(c, met).pending == map[] <==> IsStart(met[|met| - 1]))
  {
    if burst == [] {
      assert a + [first] + burst == a + [first];
      OneMore(c, a, first);
      assert first.msg.serverIdx in After(c, a + [first]).pending;
    } else {
      var most, last := burst[..|burst| - 1], burst[|burst| - 1];
      assert last in burst && a + [first] + burst == (a + [first] + most) + [last];
      OneMore(c, a + [first] + most, last);
      DrainsOn(c, a, first, most);
      assert Queues(last) ==> last.msg.serverIdx in After(c, a + [first] + burst).pending;
    }
  }

  /** A received message is out at the latest when a quiet moment, one more event, any messages that follow it at once,
      and then a quiet moment or a StartConnection have passed. */
  lemma Prompt(c: Config, a: seq<Event>, x: Event, burst: seq<Event>, end: Event, s: nat)
    requires AllKnown(c, a + [Quiet] + [x] + burst + [end]) && s < |c.servers|
    requires AllQueue(burst) && (end.Quiet? || IsStart(end))
    ensures AllKnown(c, a)
    ensures Kept(c, a, s) <= Flatten(After(c, a + [Quiet] + [x] + burst + [end]).sent[s])
  {
    var events := a + [Quiet] + [x] + burst + [end];
    assert events[..|a|] == a && events[..|a| + 1] == a + [Quiet] && events[..|a| + 2] == a + [Quiet] + [x];
    assert events[..|a| + 2 + |burst|] == a + [Quiet] + [x] + burst;
    var n := IdleMoment(c, a, x, burst, end);
    OutSinceIdle(c, events, |a|, n, s);
  }

  /** By then the sender has been idle at some moment. */
  lemma IdleMoment(c: Config, a: seq<Event>, x: Event, burst: seq<Event>, end: Event) returns (n: nat)
    requires AllKnown(c, a + [Quiet] + [x] + burst + [end])
    requires AllQueue(burst) && (end.Quiet? || IsStart(end))
    ensures var events := a + [Quiet] + [x] + burst + [end];
            |a| <= n <= |events| && AllKnown(c, events[..n]) && After(c, events[..n]).mode == Idle
  {
    var events := a + [Quiet] + [x] + burst + [end];
    OneMore(c, a + [Quiet] + [x] + burst, end);
    BurstStays(c, a + [Quiet] + [x], burst);
    OneMore(c, a + [Quiet], x);
    OneMore(c, a, Quiet);
    assert events[..|a|] == a && events[..|a| + 1] == a + [Quiet] && events[..|a| + 2] == a + [Quiet] + [x];
    assert events[..|events|] == events;
    if After(c, a).mode == Idle {
      n := |a|;
    } else if After(c, a + [Quiet]).mode == Idle {
      n := |a| + 1;
    } else if After(c, a + [Quiet] + [x]).mode == Idle {
      n := |a| + 2;
    } else {
      n := |events|;
    }
  }

  /** Three quiet moments always do: then the sender is idle, nothing is pending, and all is out. */
  lemma ThreeQuiets(c: Config, a: seq<Event>, s: nat)
    requires AllKnown(c, a) && s < |c.servers|
    ensures var events := a + [Quiet] + [Quiet] + [Quiet];
            && AllKnown(c, events) && After(c, events).mode == Idle && After(c, events).pending == map[]
            && Flatten(After(c, events).sent[s]) == Kept(c, a, s)
  {
    QuietAdds(c, a, s);
    QuietAdds(c, a + [Quiet], s);
    QuietAdds(c, a + [Quiet] + [Quiet], s);
    QuietModes(c, a);
    QuietModes(c, a + [Quiet]);
    QuietModes(c, a + [Quiet] + [Quiet]);
    IdleIsOut(c, a + [Quiet] + [Quiet] + [Quiet], s);
  }

  lemma QuietModes(c: Config, a: seq<Event>)
    requires AllKnown(c, a) && AllKnown(c, a + [Quiet])
    ensures match After(c, a).mode
            case Draining => After(c, a + [Quiet]).mode in {Idle, Mode.Waiting}
            case Waiting => After(c, a + [Quiet]).mode == Final
            case _ => After(c, a + [Quiet]).mode == Idle
  {
    OneMore(c, a, Quiet);
  }

  lemma QuietAdds(c: Config, a: seq<Event>, s: nat)
    requires AllKnown(c, a)
    ensures AllKnown(c, a + [Quiet]) && Kept(c, a + [Quiet], s) == Kept(c, a, s)
  {
    assert AllKnown(c, a + [Quiet]) by {
      forall e | e in a + [Quiet] ensures c.Knows(e) {
        assert e in a || e == Quiet;
      }
    }
    KeptOneMore(c, a, Quiet, s);
    assert Kept(c, a, s) + [] == Kept(c, a, s);
  }

  /** A StartConnection makes everything before it go out, and goes out itself, alone, unless it is dropped. */
  lemma StartIsPrompt(c: Config, a: seq<Event>, e: Event, s: nat)
    requires AllKnown(c, a + [e]) && IsStart(e) && s < |c.servers|
    ensures AllKnown(c, a) && c.Knows(e)
    ensures var st := After(c, a + [e]); st.pending == map[] && Flatten(st.sent[s]) == Kept(c, a + [e], s)
    ensures var batches := After(c, a + [e]).sent[e.msg.serverIdx];
            After(c, a).mode != Final ==>
              batches != [] && batches[|batches| - 1].messages == [CM.StartConnection(e.msg.host, e.msg.port)]
  {
    OneMore(c, a, e);
    OrderKept(c, a, s);
    OrderKept(c, a + [e], s);
    assert Entry(After(c, a + [e]).pending, s) == [];
  }

  // What goes out together.

  lemma {:induction false} ReceivedAppend(c: Config, a: seq<Event>, b: seq<Event>, s: nat)
    requires AllKnown(c, a + b)
    ensures AllKnown(c, a) && AllKnown(c, b)
    ensures Received(c, a + b, s) == Received(c, a, s) + Received(c, b, s)
  {
    assert forall x :: x in a || x in b ==> x in a + b;
    if b == [] {
      assert a + b == a && Received(c, a, s) + [] == Received(c, a, s);
    } else {
      var most, last := b[..|b| - 1], b[|b| - 1];
      assert (a + b)[..|a + b| - 1] == a + most && (a + b)[|a + b| - 1] == last;
      ReceivedAppend(c, a, most, s);
      Reassociate(Received(c, a, s), Received(c, most, s), For(c, last, s));
    }
  }

  lemma OneReceived(c: Config, e: Event, s: nat)
    requires AllKnown(c, [e])
    ensures c.Knows(e) && Received(c, [e], s) == For(c, e, s)
  {
    assert e in [e] && [e][..0] == [];
  }

  predicate IsFor(e: Event, s: nat) {
    e.Arrives? && e.msg.serverIdx == s
  }

  function ArrivalsFor(events: seq<Event>, s: nat): set<nat> {
    set i: nat | i < |events| && IsFor(events[i], s)
  }

  lemma ArrivalsMore(events: seq<Event>, last: Event, s: nat)
    ensures ArrivalsFor(events + [last], s) == ArrivalsFor(events, s) + if IsFor(last, s) then {|events|} else {}
  {}

  lemma {:induction false} AllReceived(c: Config, events: seq<Event>, s: nat)
    requires AllKnown(c, events)
    ensures |Received(c, events, s)| == |ArrivalsFor(events, s)|
  {
    if events != [] {
      var most, last := events[..|events| - 1], events[|events| - 1];
      assert events == most + [last];
      AllReceived(c, most, s);
      ArrivalsMore(most, last, s);
    }
  }

  /** A server's messages are those that arrived for it, one each, in the order of arrival. */
  lemma ReceivedExactly(c: Config, events: seq<Event>, s: nat, i: nat)
    requires AllKnown(c, events) && i in ArrivalsFor(events, s)
    ensures |Received(c, events, s)| == |ArrivalsFor(events, s)| > |ArrivalsFor(events[..i], s)|
    ensures c.Knows(events[i])
    ensures Received(c, events, s)[|ArrivalsFor(events[..i], s)|] == Wire(c, events[i].msg)
  {
    var before, e, after := events[..i], events[i], events[i + 1..];
    assert events == before + [e] + after;
    AllReceived(c, events, s);
    KnownParts(c, before + [e], after);
    KnownParts(c, before, [e]);
    AllReceived(c, before, s);
    ReceivedAppend(c, before + [e], after, s);
    ReceivedAppend(c, before, [e], s);
    OneReceived(c, e, s);
  }

  /** Messages that are only queued wait in order. */
  lemma {:induction false} QueueGrows(c: Config, a: seq<Event>, burst: seq<Event>, s: nat)
    requires AllKnown(c, a + burst) && AllQueue(burst) && s < |c.servers|
    ensures AllKnown(c, a) && AllKnown(c, burst)
    ensures After(c, a + burst).sent == After(c, a).sent
    ensures Entry(After(c, a + burst).pending, s) == Entry(After(c, a).pending, s) + Received(c, burst, s)
  {
    assert forall x :: x in a || x in burst ==> x in a + burst;
    if burst == [] {
      assert a + burst == a;
      assert Entry(After(c, a).pending, s) + [] == Entry(After(c, a).pending, s);
    } else {
      var most, last := burst[..|burst| - 1], burst[|burst| - 1];
      assert last in burst && a + burst == (a + most) + [last];
      QueueGrows(c, a, most, s);
      OneMore(c, a + most, last);
      QueueOne(c, After(c, a + most), last, s);
      Reassociate(Entry(After(c, a).pending, s), Received(c, most, s), For(c, last, s));
    }
  }

  lemma QueueOne(c: Config, st: State, e: Event, s: nat)
    requires c.HostsFit() && c.Knows(e) && |st.sent| == |c.servers| && Queues(e)
    ensures Step(c, st, e).sent == st.sent
    ensures Entry(Step(c, st, e).pending, s) == Entry(st.pending, s) + For(c, e, s)
  {
    assert Entry(st.pending, s) + [] == Entry(st.pending, s);
  }

  /** Messages that come at once, one that comes during the wait, if any, and those that follow it at once go out
      together: one batch more for each server they are for, with all of them, in order, and not before. */
  lemma OneBatch(c: Config, a: seq<Event>, burst: seq<Event>, x: Event, late: seq<Event>, s: nat)
    requires AllKnown(c, a + burst + [Quiet] + [x] + late + [Quiet]) && AllKnown(c, a) && s < |c.servers|
    requires After(c, a).mode == Idle && burst != [] && AllQueue(burst) && AllQueue(late) && !IsStart(x)
    ensures AllKnown(c, burst + [x] + late) && AllKnown(c, a + burst + [Quiet] + [x] + late)
    ensures After(c, a + burst + [Quiet] + [x] + late).sent == After(c, a).sent
    ensures After(c, a + burst + [Quiet] + [x] + late + [Quiet]).sent[s]
            == Handed(c, After(c, a).sent[s], Received(c, burst + [x] + late, s))
  {
    var waited := a + burst + [Quiet] + [x];
    KnownParts(c, waited + late, [Quiet]);
    KnownParts(c, waited, late);
    IdleIsOut(c, a, s);
    BurstWaits(c, a, burst, x, s);
    KnownBoth(c, burst + [x], late);
    ReceivedAppend(c, burst + [x], late, s);
    LastDrain(c, waited, late, s);
  }

  /** The last drain queues and then flushes. */
  lemma LastDrain(c: Config, waited: seq<Event>, late: seq<Event>, s: nat)
    requires AllKnown(c, waited + late + [Quiet]) && AllKnown(c, waited) && s < |c.servers|
    requires After(c, waited).mode == Final && AllQueue(late)
    ensures AllKnown(c, waited + late) && AllKnown(c, late)
    ensures After(c, waited + late).sent == After(c, waited).sent
    ensures After(c, waited + late + [Quiet]).sent[s]
            == Handed(c, After(c, waited).sent[s], Entry(After(c, waited).pending, s) + Received(c, late, s))
  {
    OneMore(c, waited + late, Quiet);
    BurstStays(c, waited, late);
    QueueGrows(c, waited, late, s);
  }

  /** The burst of a turn is pending when the wait begins. */
  lemma BurstPending(c: Config, a: seq<Event>, burst: seq<Event>, s: nat)
    requires AllKnown(c, a + burst + [Quiet]) && AllKnown(c, a) && s < |c.servers|
    requires After(c, a).mode == Idle && After(c, a).pending == map[] && burst != [] && AllQueue(burst)
    ensures AllKnown(c, burst)
    ensures var st := After(c, a + burst + [Quiet]);
            st.mode == Mode.Waiting && st.sent == After(c, a).sent && Entry(st.pending, s) == Received(c, burst, s)
  {
    OneMore(c, a + burst, Quiet);
    QueueGrows(c, a, burst, s);
    BurstDrains(c, a, burst);
    assert [] + Received(c, burst, s) == Received(c, burst, s);
  }

  lemma {:induction false} BurstDrains(c: Config, a: seq<Event>, burst: seq<Event>)
    requires AllKnown(c, a + burst) && AllKnown(c, a)
    requires After(c, a).mode == Idle && burst != [] && AllQueue(burst)
    ensures After(c, a + burst).mode == Draining && After(c, a + burst).pending != map[]
  {
    var most, last := burst[..|burst| - 1], burst[|burst| - 1];
    assert last in burst && a + burst == (a + most) + [last];
    OneMore(c, a + most, last);
    if most == [] {
      assert a + most == a;
    } else {
      BurstDrains(c, a, most);
    }
    assert last.msg.serverIdx in After(c, a + burst).pending;
  }

  lemma BurstWaits(c: Config, a: seq<Event>, burst: seq<Event>, x: Event, s: nat)
    requires AllKnown(c, a + burst + [Quiet] + [x]) && AllKnown(c, a) && s < |c.servers|
    requires After(c, a).mode == Idle && After(c, a).pending == map[] && burst != [] && AllQueue(burst) && !IsStart(x)
    ensures AllKnown(c, burst + [x])
    ensures var st := After(c, a + burst + [Quiet] + [x]);
            st.mode == Final && st.sent == After(c, a).sent && Entry(st.pending, s) == Received(c, burst + [x], s)
  {
    OneMore(c, a + burst + [Quiet], x);
    BurstPending(c, a, burst, s);
    BurstThen(c, After(c, a + burst + [Quiet]), burst, x, s);
  }

  lemma BurstThen(c: Config, st: State, burst: seq<Event>, x: Event, s: nat)
    requires AllKnown(c, burst) && c.Knows(x) && |st.sent| == |c.servers| && !IsStart(x)
    requires st.mode == Mode.Waiting && Entry(st.pending, s) == Received(c, burst, s)
    ensures AllKnown(c, burst + [x])
    ensures Step(c, st, x).mode == Final && Step(c, st, x).sent == st.sent
    ensures Entry(Step(c, st, x).pending, s) == Received(c, burst + [x], s)
  {
    ReceivedAppend(c, burst, [x], s);
    OneReceived(c, x, s);
    if x.Quiet? {
      assert Received(c, burst, s) + [] == Received(c, burst, s);
    } else {
      QueueOne(c, st, x, s);
    }
  }
}
