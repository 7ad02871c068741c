/** Every interleaving of the event bus: publishers share the lock, a writer has
    it alone, each send is a step, and subscribers read whenever they like. */
module BusRuns {
  import opened EventBus
  import opened BusSteps

  // ---------------------------------------------------------------- what each step keeps

  lemma CancelKeeps(b: Bus, d: nat)
    requires Inv(b) && Enabled(b, Cancel(d))
    ensures Inv(Next(b, Cancel(d)))
  {
    hide Stretch, FromPub, Taken, Position, RemoveFirst;
    var b' := Next(b, Cancel(d));
    RemoveKeeps(b.subs, d);
    forall c, p | 0 <= c < |b'.chans| && 0 <= p < |b.pubs| ensures Complete(b', c, p) {
      assert Complete(b, c, p);
      assert Upto(b', c, p) == Upto(b, c, p);
    }
  }

  lemma SendKeeps(b: Bus, q: nat)
    requires Inv(b) && Enabled(b, Send(q))
    ensures Inv(Next(b, Send(q)))
  {
    hide Stretch, FromPub, Taken, Position, Delivered, Sent;
    var pub := b.pubs[q];
    var d := b.subs[pub.at];
    var b' := Next(b, Send(q));
    var m := Last(pub, q);
    assert d in b.subs && !b.chans[d].closed;
    SentDelivers(b.chans[d], m, b.size);
    assert b'.chans[d].closed == b.chans[d].closed && b'.chans[d].waiting == b.chans[d].waiting by {
      SentFields(b.chans[d], m, b.size);
    }
    forall c, p | 0 <= c < |b'.chans| && 0 <= p < |b.pubs| ensures Complete(b', c, p) {
      SendCompletes(b, q, c, p);
    }
  }

  lemma StepKeeps(b: Bus, a: Action)
    requires Inv(b) && Enabled(b, a)
    ensures Inv(Next(b, a))
  {
    hide Inv, Next;
    match a
    case Subscribe => SubscribeKeeps(b);
    case Begin(p, e) => BeginKeeps(b, p, e);
    case Send(p) => SendKeeps(b, p);
    case Finish(p) => FinishKeeps(b, p);
    case Receive(c) => ReceiveKeeps(b, c);
    case Cancel(c) => CancelKeeps(b, c);
  }

  lemma {:induction false} RunKeeps(b: Bus, schedule: seq<Action>)
    requires Inv(b)
    ensures Inv(Run(b, schedule))
    decreases |schedule|
  {
    hide Inv, Next;
    if schedule != [] {
      if Enabled(b, schedule[0]) {
        StepKeeps(b, schedule[0]);
        RunKeeps(Next(b, schedule[0]), schedule[1..]);
      } else {
        RunKeeps(b, schedule[1..]);
      }
    }
  }

  /** Every schedule from a new bus keeps the invariant: no panic, open channels
      registered exactly once, closed ones not at all, buffers bounded, and every
      channel's record exact. */
  lemma EveryRun(bufferSize: int, n: nat, schedule: seq<Action>)
    ensures Inv(Run(Start(bufferSize, n), schedule))
  {
    RunKeeps(Start(bufferSize, n), schedule);
  }

  lemma {:induction false} OwnOrder(sends: seq<Sending>, p: nat, begun: seq<Event>, lo: nat, hi: nat)
    requires lo <= hi <= |begun| && FromPub(sends, p) == Stretch(p, begun, lo, hi)
    ensures InOrder(Taken(sends), p, begun, lo, hi)
  {
    hide InOrder, Stretch;
    if sends == [] {
      assert InOrder([], p, begun, lo, hi) by { InOrderEmpty(p, begun, lo, hi); }
    } else {
      var n := |sends| - 1;
      var m := sends[n].msg;
      if m.pub == p {
        assert FromPub(sends[..n], p) == FromPub(sends, p)[..hi - lo - 1];
        assert m == FromPub(sends, p)[hi - lo - 1];
        assert Stretch(p, begun, lo, hi)[..hi - lo - 1] == Stretch(p, begun, lo, hi - 1);
        OwnOrder(sends[..n], p, begun, lo, hi - 1);
        InOrderNext(Taken(sends[..n]), p, begun, lo, hi);
      } else {
        OwnOrder(sends[..n], p, begun, lo, hi);
        InOrderOther(Taken(sends[..n]), m, p, begun, lo, hi);
      }
      assert Taken(sends[..n]) + [] == Taken(sends[..n]);
    }
  }

  /** In any run: what subscriber c has got or will get from publisher p comes in
      p's order and is only what p began between c's registration and its
      removal, or until now. */
  lemma SubscriberSees(bufferSize: int, n: nat, schedule: seq<Action>, c: nat, p: nat)
    requires c < |Run(Start(bufferSize, n), schedule).chans| && p < |Run(Start(bufferSize, n), schedule).pubs|
    ensures var b := Run(Start(bufferSize, n), schedule);
            var ch := b.chans[c];
            && p < |ch.joined| && p < |ch.left|
            && (var until := if ch.closed then ch.left[p] else |b.pubs[p].begun|;
                until <= |b.pubs[p].begun|
                && InOrder(ch.received + ch.buffer, p, b.pubs[p].begun, ch.joined[p], until))
  {
    hide Run, Taken, FromPub, Stretch, Registered, PubsOk;
    EveryRun(bufferSize, n, schedule);
    var b := Run(Start(bufferSize, n), schedule);
    assert Complete(b, c, p) && Delivered(b.chans[c], b.size);
    OwnOrder(b.chans[c].sends, p, b.pubs[p].begun, b.chans[c].joined[p], Upto(b, c, p));
  }

  // ---------------------------------------------------------------- the object and the machine

  /** The next of p's sends, and what it does to the channel it reaches. */
  lemma OneSend(b: Bus, p: nat)
    requires Inv(b) && p < |b.pubs| && b.pubs[p].busy && b.pubs[p].at < |b.subs|
    ensures Enabled(b, Send(p)) && b.pubs[p].begun != [] && b.subs[b.pubs[p].at] < |b.chans|
    ensures var sent, d := Next(b, Send(p)), b.subs[b.pubs[p].at];
            && Inv(sent) && sent.pubs == b.pubs[p := b.pubs[p].(at := b.pubs[p].at + 1)] && sent.subs == b.subs
            && sent.size == b.size && sent.chans == b.chans[d := Sent(b.chans[d], Last(b.pubs[p], p), b.size)]
  {
    hide Sent;
    assert b.subs[b.pubs[p].at] in b.subs;
    hide Inv;
    StepKeeps(b, Send(p));
  }

  lemma {:induction false} RestOffers(b: Bus, p: nat)
    requires Inv(b) && p < |b.pubs| && b.pubs[p].busy && Sendable(b, p)
    ensures var t := Run(b, RestOfPublish(p, |b.subs| - b.pubs[p].at));
            SentOnward(b, t, b.pubs[p].at, Last(b.pubs[p], p)) && !t.pubs[p].busy
    decreases |b.subs| - b.pubs[p].at
  {
    hide Inv, Sent, Run;
    var at, m := b.pubs[p].at, Last(b.pubs[p], p);
    var n := |b.subs| - at;
    if n == 0 {
      RunStep(b, Finish(p), []);
      assert [Finish(p)] + [] == [Finish(p)];
      assert forall c: Bus :: Run(c, []) == c by { RunNothing(); }
    } else {
      OneSend(b, p);
      hide Next, Enabled;
      var sent := Next(b, Send(p));
      assert Sent(b.chans[b.subs[at]], m, b.size).buffer == Offer(b.chans[b.subs[at]].buffer, m, b.size)
        && Sent(b.chans[b.subs[at]], m, b.size).closed == b.chans[b.subs[at]].closed by { SentBuffer(); }
      SendableKept(sent, p);
      RestOffers(sent, p);
      RunStep(b, Send(p), RestOfPublish(p, n - 1));
      OneMoreOffered(b, sent, Run(sent, RestOfPublish(p, n - 1)), at, m);
    }
  }

  /** A call of Publish that nobody interrupts does in the machine what Publish
      does to the object: every registered channel is offered the event once,
      no other channel changes, and the lock is free again. */
  lemma PublishIsOffer(b: Bus, p: nat, e: Event)
    requires Inv(b) && p < |b.pubs| && !b.pubs[p].busy
    ensures var t := Run(b, PublishCall(p, e, |b.subs|));
            && |t.pubs| == |b.pubs| && !t.pubs[p].busy && t.subs == b.subs && |t.chans| == |b.chans|
            && forall c :: 0 <= c < |b.chans| ==>
                 && Payload(t.chans[c].buffer)
                    == (if c in b.subs then Offer(Payload(b.chans[c].buffer), e, b.size)
                        else Payload(b.chans[c].buffer))
                 && t.chans[c].closed == b.chans[c].closed
  {
    hide Inv, Offer, Run;
    var b1 := Next(b, Begin(p, e));
    StepKeeps(b, Begin(p, e));
    SendableKept(b1, p);
    RestOffers(b1, p);
    var t := Run(b1, RestOfPublish(p, |b.subs|));
    RunStep(b, Begin(p, e), RestOfPublish(p, |b.subs|));
    var m := Last(b1.pubs[p], p);
    assert m.event == e;
    forall c | 0 <= c < |b.chans|
      ensures Payload(t.chans[c].buffer)
                == (if c in b.subs then Offer(Payload(b.chans[c].buffer), e, b.size) else Payload(b.chans[c].buffer))
    {
      assert b.subs[0..] == b.subs;
      if c in b.subs {
        var k :| 0 <= k < |b.subs| && b.subs[k] == c;
        PayloadOffer(b.chans[c].buffer, m, b.size);
      }
    }
  }
}
