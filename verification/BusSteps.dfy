/** The event bus as a state machine: publishers, subscribers, readers and
    cancellations take turns, one atomic step at a time, and the records of what
    was published, offered and taken say what happened. The invariant ties the
    records to the channels; here are its parts and what single steps do to them. */
module BusSteps {
  import opened EventBus

  /** The k-th event of a publisher. */
  datatype Msg = Msg(pub: nat, k: nat, event: Event)

  /** One send of the publish loop: how full the buffer was and what became of
      the message. */
  datatype Sending = Sending(msg: Msg, held: nat, taken: bool)

  /** A channel, with the record of all sends to it and of how much each
      publisher had published when it was registered and when removed. */
  datatype Chan = Chan(
    buffer: seq<Msg>, received: seq<Msg>, closed: bool, waiting: bool,
    sends: seq<Sending>, joined: seq<nat>, left: seq<nat>)

  /** A publisher, with the events it has begun to publish; it holds the read
      lock while it is at a subscriber index. */
  datatype Publisher = Publisher(begun: seq<Event>, busy: bool, at: nat)

  datatype Bus = Bus(size: nat, subs: seq<nat>, chans: seq<Chan>, pubs: seq<Publisher>, panicked: bool)

  datatype Action =
    | Subscribe
    | Begin(pub: nat, event: Event)
    | Send(pub: nat)
    | Finish(pub: nat)
    | Receive(chan: nat)
    | Cancel(chan: nat)

  function Counts(pubs: seq<Publisher>): (r: seq<nat>)
    ensures |r| == |pubs| && forall p :: 0 <= p < |pubs| ==> r[p] == |pubs[p].begun|
  {
    seq(|pubs|, p requires 0 <= p < |pubs| => |pubs[p].begun|)
  }

  /** No publisher holds the read lock, so a writer may take the lock. */
  predicate Unlocked(b: Bus) {
    forall p :: 0 <= p < |b.pubs| ==> !b.pubs[p].busy
  }

  predicate Enabled(b: Bus, a: Action) {
    match a
    case Subscribe => Unlocked(b)
    case Begin(p, _) => p < |b.pubs| && !b.pubs[p].busy
    case Send(p) => p < |b.pubs| && b.pubs[p].busy && b.pubs[p].at < |b.subs| && b.subs[b.pubs[p].at] < |b.chans|
    case Finish(p) => p < |b.pubs| && b.pubs[p].busy && b.pubs[p].at >= |b.subs|
    case Receive(c) => c < |b.chans| && b.chans[c].buffer != []
    case Cancel(c) => c < |b.chans| && b.chans[c].waiting && Unlocked(b)
  }

  function Last(p: Publisher, i: nat): Msg
    requires p.begun != []
  {
    Msg(i, |p.begun| - 1, p.begun[|p.begun| - 1])
  }

  /** One send; on a closed channel it panics. */
  function Sent(c: Chan, m: Msg, size: nat): Chan {
    c.(buffer := Offer(c.buffer, m, size),
       sends := c.sends + [Sending(m, |c.buffer|, |c.buffer| < size)])
  }

  function Next(b: Bus, a: Action): Bus
    requires Enabled(b, a)
  {
    match a
    case Subscribe =>
      b.(subs := b.subs + [|b.chans|],
         chans := b.chans + [Chan([], [], false, true, [], Counts(b.pubs), Counts(b.pubs))])
    case Begin(p, e) => b.(pubs := b.pubs[p := Publisher(b.pubs[p].begun + [e], true, 0)])
    case Send(p) =>
      var pub := b.pubs[p];
      var c := b.subs[pub.at];
      if pub.begun == [] || b.chans[c].closed then b.(panicked := true)
      else b.(chans := b.chans[c := Sent(b.chans[c], Last(pub, p), b.size)],
              pubs := b.pubs[p := pub.(at := pub.at + 1)])
    case Finish(p) => b.(pubs := b.pubs[p := b.pubs[p].(busy := false)])
    case Receive(c) =>
      var ch := b.chans[c];
      b.(chans := b.chans[c := ch.(buffer := ch.buffer[1..], received := ch.received + [ch.buffer[0]])])
    case Cancel(c) =>
      if b.chans[c].closed then b.(panicked := true)
      else b.(subs := RemoveFirst(b.subs, c),
              chans := b.chans[c := b.chans[c].(closed := true, waiting := false, left := Counts(b.pubs))])
  }

  /** Any schedule; what is not enabled blocks and changes nothing. */
  function Run(b: Bus, schedule: seq<Action>): Bus
    decreases |schedule|
  {
    if schedule == [] then b
    else Run(if Enabled(b, schedule[0]) then Next(b, schedule[0]) else b, schedule[1..])
  }

  /** NewEventBus with n goroutines that will publish. */
  function Start(bufferSize: int, n: nat): Bus {
    Bus(if bufferSize < 1 then 64 else bufferSize, [], [],
        seq(n, _ => Publisher([], false, 0)), false)
  }

  // ---------------------------------------------------------------- what the records say

  function Taken(sends: seq<Sending>): seq<Msg> {
    if sends == [] then []
    else
      var s := sends[|sends| - 1];
      Taken(sends[..|sends| - 1]) + if s.taken then [s.msg] else []
  }

  function FromPub(sends: seq<Sending>, p: nat): seq<Msg> {
    if sends == [] then []
    else
      var s := sends[|sends| - 1];
      FromPub(sends[..|sends| - 1], p) + if s.msg.pub == p then [s.msg] else []
  }

  /** Publisher p's messages number lo up to hi. */
  function Stretch(p: nat, begun: seq<Event>, lo: nat, hi: nat): (r: seq<Msg>)
    requires lo <= hi <= |begun|
    ensures |r| == hi - lo && forall i :: 0 <= i < |r| ==> r[i] == Msg(p, lo + i, begun[lo + i])
  {
    seq(hi - lo, i requires 0 <= i < hi - lo => Msg(p, lo + i, begun[lo + i]))
  }

  function Position(subs: seq<nat>, c: nat): (i: nat)
    requires c in subs
    ensures i < |subs| && subs[i] == c
  {
    if subs[0] == c then 0 else 1 + Position(subs[1..], c)
  }

  /** How many of p's events have been sent to channel c's place in the list. */
  function Upto(b: Bus, c: nat, p: nat): nat
    requires c < |b.chans| && p < |b.pubs| && p < |b.chans[c].left|
    requires b.chans[c].closed || c in b.subs
  {
    var pub := b.pubs[p];
    if b.chans[c].closed then b.chans[c].left[p]
    else if pub.busy && pub.at <= Position(b.subs, c) && pub.begun != [] then |pub.begun| - 1
    else |pub.begun|
  }

  // ---------------------------------------------------------------- the invariant

  ghost predicate Registered(b: Bus) {
    && b.size >= 1 && !b.panicked && Distinct(b.subs)
    && (forall c :: c in b.subs ==> c < |b.chans|)
    && (forall c :: 0 <= c < |b.chans| ==> (c in b.subs <==> !b.chans[c].closed))
    && (forall c :: 0 <= c < |b.chans| ==> b.chans[c].waiting == !b.chans[c].closed)
  }

  ghost predicate PubsOk(b: Bus) {
    forall p :: 0 <= p < |b.pubs| && b.pubs[p].busy ==> b.pubs[p].begun != [] && b.pubs[p].at <= |b.subs|
  }

  /** In send order, nothing lost but what met a full buffer. */
  ghost predicate Delivered(c: Chan, size: nat) {
    && c.received + c.buffer == Taken(c.sends) && |c.buffer| <= size
    && (forall i :: 0 <= i < |c.sends| ==> (c.sends[i].taken <==> c.sends[i].held < size) && c.sends[i].held <= size)
  }

  /** Sent to c from p: exactly what p began between c's registration and its
      removal, in p's order, up to the send now due. */
  ghost predicate Complete(b: Bus, c: nat, p: nat)
    requires c < |b.chans| && p < |b.pubs|
  {
    var ch := b.chans[c];
    && p < |ch.joined| && p < |ch.left| && (ch.closed || c in b.subs)
    && ch.joined[p] <= Upto(b, c, p) <= |b.pubs[p].begun|
    && FromPub(ch.sends, p) == Stretch(p, b.pubs[p].begun, ch.joined[p], Upto(b, c, p))
  }

  ghost predicate Inv(b: Bus) {
    && Registered(b) && PubsOk(b)
    && (forall c :: 0 <= c < |b.chans| ==> Delivered(b.chans[c], b.size))
    && (forall c, p :: 0 <= c < |b.chans| && 0 <= p < |b.pubs| ==> Complete(b, c, p))
  }

  lemma PositionUnique(subs: seq<nat>, c: nat, i: nat)
    requires Distinct(subs) && i < |subs| && subs[i] == c
    ensures c in subs && Position(subs, c) == i
  {
    var j := Position(subs, c);
  }

  lemma SubscribeKeeps(b: Bus)
    requires Inv(b) && Enabled(b, Subscribe)
    ensures Inv(Next(b, Subscribe))
  {
    hide Stretch, FromPub, Taken, Position;
    var b' := Next(b, Subscribe);
    var n := |b.chans|;
    assert forall c :: c in b'.subs <==> c in b.subs || c == n;
    forall c, p | 0 <= c < |b'.chans| && 0 <= p < |b.pubs| ensures Complete(b', c, p) {
      if c < n {
        assert Complete(b, c, p);
      } else {
        assert FromPub([], p) == [] by { NoSends(p); }
        assert Stretch(p, b.pubs[p].begun, |b.pubs[p].begun|, |b.pubs[p].begun|) == [];
      }
    }
    assert Registered(b') by { NewlyRegistered(b); }
    NoSends(0);
    assert Delivered(b'.chans[n], b.size);
  }

  lemma NewlyRegistered(b: Bus)
    requires Registered(b) && Enabled(b, Subscribe)
    ensures Registered(Next(b, Subscribe))
  {
    var b' := Next(b, Subscribe);
    var n := |b.chans|;
    assert n !in b.subs;
    forall i, j | 0 <= i < j < |b'.subs| ensures b'.subs[i] != b'.subs[j] {
      assert b.subs[i] in b.subs;
    }
    assert b'.subs[|b.subs|] == n;
    forall c | 0 <= c < |b'.chans|
      ensures (c in b'.subs <==> !b'.chans[c].closed) && b'.chans[c].waiting == !b'.chans[c].closed
    {
      if c < n {
        assert b'.chans[c] == b.chans[c];
      }
    }
  }

  lemma NoSends(p: nat)
    ensures FromPub([], p) == [] && Taken([]) == []
  {
  }

  lemma StretchGrows(p: nat, begun: seq<Event>, e: Event, lo: nat, hi: nat)
    requires lo <= hi <= |begun|
    ensures Stretch(p, begun + [e], lo, hi) == Stretch(p, begun, lo, hi)
  {
  }

  lemma BeginKeeps(b: Bus, q: nat, e: Event)
    requires Inv(b) && Enabled(b, Begin(q, e))
    ensures Inv(Next(b, Begin(q, e)))
  {
    hide Stretch, FromPub, Taken, Position;
    var b' := Next(b, Begin(q, e));
    forall c, p | 0 <= c < |b'.chans| && 0 <= p < |b.pubs| ensures Complete(b', c, p) {
      assert Complete(b, c, p);
      if p == q {
        StretchGrows(p, b.pubs[p].begun, e, b.chans[c].joined[p], Upto(b, c, p));
        assert b'.pubs[p].begun == b.pubs[p].begun + [e];
        assert Upto(b', c, p) == Upto(b, c, p);
      }
    }
  }

  lemma FinishKeeps(b: Bus, q: nat)
    requires Inv(b) && Enabled(b, Finish(q))
    ensures Inv(Next(b, Finish(q)))
  {
    hide Stretch, FromPub, Taken;
    var b' := Next(b, Finish(q));
    forall c, p | 0 <= c < |b'.chans| && 0 <= p < |b.pubs| ensures Complete(b', c, p) {
      assert Complete(b, c, p);
      assert Upto(b', c, p) == Upto(b, c, p);
    }
  }

  lemma ReceiveKeeps(b: Bus, d: nat)
    requires Inv(b) && Enabled(b, Receive(d))
    ensures Inv(Next(b, Receive(d)))
  {
    hide Stretch, FromPub, Taken, Position;
    var b' := Next(b, Receive(d));
    var ch := b.chans[d];
    assert ch.received + [ch.buffer[0]] + ch.buffer[1..] == ch.received + ch.buffer;
    forall c, p | 0 <= c < |b'.chans| && 0 <= p < |b.pubs| ensures Complete(b', c, p) {
      assert Complete(b, c, p);
      assert Upto(b', c, p) == Upto(b, c, p);
    }
  }

  lemma OneMoreSend(sends: seq<Sending>, s: Sending, p: nat)
    ensures Taken(sends + [s]) == Taken(sends) + (if s.taken then [s.msg] else [])
    ensures FromPub(sends + [s], p) == FromPub(sends, p) + (if s.msg.pub == p then [s.msg] else [])
  {
    assert (sends + [s])[..|sends|] == sends;
  }

  lemma SentDelivers(c: Chan, m: Msg, size: nat)
    requires Delivered(c, size)
    ensures Delivered(Sent(c, m, size), size)
  {
    hide FromPub;
    OneMoreSend(c.sends, Sending(m, |c.buffer|, |c.buffer| < size), 0);
  }

  lemma SentFields(c: Chan, m: Msg, size: nat)
    ensures var c' := Sent(c, m, size);
            c'.closed == c.closed && c'.waiting == c.waiting && c'.joined == c.joined && c'.left == c.left
            && c'.sends == c.sends + [Sending(m, |c.buffer|, |c.buffer| < size)]
  {
  }

  lemma SendCompletes(b: Bus, q: nat, c: nat, p: nat)
    requires Inv(b) && Enabled(b, Send(q)) && c < |b.chans| && p < |b.pubs|
    ensures var b' := Next(b, Send(q)); c < |b'.chans| && p < |b'.pubs| && Complete(b', c, p)
  {
    hide Stretch, FromPub, Taken, Position, Delivered, Sent;
    var pub := b.pubs[q];
    var d := b.subs[pub.at];
    var b' := Next(b, Send(q));
    var m := Last(pub, q);
    var ch := b.chans[c];
    assert d in b.subs;
    SentFields(b.chans[d], m, b.size);
    assert Complete(b, c, p);
    if !ch.closed {
      PositionUnique(b.subs, d, pub.at);
      PositionUnique(b.subs, c, Position(b.subs, c));
    }
    if c == d {
      OneMoreSend(ch.sends, Sending(m, |ch.buffer|, |ch.buffer| < b.size), p);
      if p == q {
        var hi := |pub.begun| - 1;
        assert Upto(b, c, p) == hi && Upto(b', c, p) == hi + 1;
        StretchOneMore(p, pub.begun, ch.joined[p], hi);
      } else {
        assert Upto(b', c, p) == Upto(b, c, p);
      }
    } else {
      assert Upto(b', c, p) == Upto(b, c, p);
    }
  }

  lemma StretchOneMore(p: nat, begun: seq<Event>, lo: nat, hi: nat)
    requires lo <= hi < |begun|
    ensures Stretch(p, begun, lo, hi + 1) == Stretch(p, begun, lo, hi) + [Msg(p, hi, begun[hi])]
  {
  }

  /** p's messages among these are some of its events lo up to hi, in order. */
  ghost predicate InOrder(got: seq<Msg>, p: nat, begun: seq<Event>, lo: nat, hi: nat)
    requires hi <= |begun|
  {
    && (forall i :: 0 <= i < |got| && got[i].pub == p ==> lo <= got[i].k < hi && got[i].event == begun[got[i].k])
    && (forall i, j :: 0 <= i < j < |got| && got[i].pub == p && got[j].pub == p ==> got[i].k < got[j].k)
  }

  lemma InOrderNext(got: seq<Msg>, p: nat, begun: seq<Event>, lo: nat, hi: nat)
    requires lo < hi <= |begun| && InOrder(got, p, begun, lo, hi - 1)
    ensures InOrder(got, p, begun, lo, hi)
    ensures InOrder(got + [Msg(p, hi - 1, begun[hi - 1])], p, begun, lo, hi)
  {
  }

  lemma InOrderOther(got: seq<Msg>, m: Msg, p: nat, begun: seq<Event>, lo: nat, hi: nat)
    requires hi <= |begun| && m.pub != p && InOrder(got, p, begun, lo, hi)
    ensures InOrder(got + [m], p, begun, lo, hi)
  {
  }

  lemma InOrderEmpty(p: nat, begun: seq<Event>, lo: nat, hi: nat)
    requires hi <= |begun|
    ensures InOrder([], p, begun, lo, hi)
  {
  }

  // ---------------------------------------------------------------- parts of one call of Publish

  /** The events in a buffer, without whose they are. */
  function Payload(buffer: seq<Msg>): seq<Event> {
    seq(|buffer|, i requires 0 <= i < |buffer| => buffer[i].event)
  }

  lemma PayloadOffer(buffer: seq<Msg>, m: Msg, size: nat)
    ensures Payload(Offer(buffer, m, size)) == Offer(Payload(buffer), m.event, size)
  {
  }

  /** p's sends from the index it is at to the end, then its release of the
      lock. */
  function RestOfPublish(p: nat, n: nat): seq<Action>
    decreases n
  {
    if n == 0 then [Finish(p)] else [Send(p)] + RestOfPublish(p, n - 1)
  }

  /** One call of Publish that nobody interrupts. */
  function PublishCall(p: nat, e: Event, n: nat): seq<Action> {
    [Begin(p, e)] + RestOfPublish(p, n)
  }

  /** Between b and t the channels registered from place i on got offered m, the
      others kept their buffers. */
  ghost predicate SentOnward(b: Bus, t: Bus, i: nat, m: Msg)
    requires i <= |b.subs|
  {
    && t.subs == b.subs && t.size == b.size && |t.chans| == |b.chans| && |t.pubs| == |b.pubs|
    && (forall k :: i <= k < |b.subs| && b.subs[k] < |b.chans| ==>
          t.chans[b.subs[k]].buffer == Offer(b.chans[b.subs[k]].buffer, m, b.size))
    && (forall c :: 0 <= c < |b.chans| && c !in b.subs[i..] ==> t.chans[c].buffer == b.chans[c].buffer)
    && (forall c :: 0 <= c < |b.chans| ==> t.chans[c].closed == b.chans[c].closed)
  }

  /** What the invariant says about a publisher that holds the lock. */
  ghost predicate Sendable(b: Bus, p: nat)
    requires p < |b.pubs|
  {
    && Distinct(b.subs) && b.pubs[p].begun != [] && b.pubs[p].at <= |b.subs|
    && forall c :: c in b.subs ==> c < |b.chans| && !b.chans[c].closed
  }

  lemma SendableKept(b: Bus, p: nat)
    requires Inv(b) && p < |b.pubs| && b.pubs[p].busy
    ensures Sendable(b, p)
  {
  }

  lemma RunStep(b: Bus, a: Action, rest: seq<Action>)
    requires Enabled(b, a)
    ensures Run(b, [a] + rest) == Run(Next(b, a), rest)
  {
    hide Enabled, Next;
    assert ([a] + rest)[1..] == rest;
  }

  lemma RunNothing()
    ensures forall b :: Run(b, []) == b
  {
  }

  lemma SentBuffer()
    ensures forall c, m, size ::
              Sent(c, m, size).buffer == Offer(c.buffer, m, size) && Sent(c, m, size).closed == c.closed
  {
  }

  lemma OneMoreOffered(b: Bus, sent: Bus, t: Bus, at: nat, m: Msg)
    requires Distinct(b.subs) && at < |b.subs| && (forall c :: c in b.subs ==> c < |b.chans|)
    requires sent.subs == b.subs && sent.size == b.size && |sent.pubs| == |b.pubs| && |sent.chans| == |b.chans|
    requires forall c :: 0 <= c < |b.chans| && c != b.subs[at] ==> sent.chans[c] == b.chans[c]
    requires b.subs[at] < |b.chans| && sent.chans[b.subs[at]].buffer == Offer(b.chans[b.subs[at]].buffer, m, b.size)
    requires sent.chans[b.subs[at]].closed == b.chans[b.subs[at]].closed
    requires at + 1 <= |sent.subs| && SentOnward(sent, t, at + 1, m)
    ensures SentOnward(b, t, at, m)
  {
    hide Offer;
    var d := b.subs[at];
    assert b.subs[at..] == [d] + b.subs[at + 1..];
    assert d !in b.subs[at + 1..];
    assert forall k :: 0 <= k < |b.subs| ==> b.subs[k] in b.subs;
    forall k | at <= k < |b.subs|
      ensures t.chans[b.subs[k]].buffer == Offer(b.chans[b.subs[k]].buffer, m, b.size)
    {
      assert b.subs[k] in b.subs;
      if k > at {
        assert b.subs[k] != d;
      }
    }
  }
}
