/** The in-process event bus as an object: bounded, lossy channels, and the
    publish, subscribe and cancel operations that run under its lock. */
module EventBus {

  datatype Event = Event(kind: nat, at: int, mac: seq<int>, message: string)

  // ---------------------------------------------------------------- the object

  /** What a non-blocking send leaves in a buffer. */
  function Offer<T>(buffer: seq<T>, x: T, size: nat): seq<T> {
    if |buffer| < size then buffer + [x] else buffer
  }

  /** Removal of the first occurrence, as the slice shift does it. */
  function RemoveFirst<T(==)>(s: seq<T>, x: T): seq<T> {
    if s == [] then [] else if s[0] == x then s[1..] else [s[0]] + RemoveFirst(s[1..], x)
  }

  ghost predicate Distinct<T>(s: seq<T>) {
    forall i, j :: 0 <= i < j < |s| ==> s[i] != s[j]
  }

  class Channel {
    var buffer: seq<Event>
    var closed: bool
    const size: nat

    constructor (size: nat)
      ensures buffer == [] && !closed && this.size == size
    {
      buffer, closed, this.size := [], false, size;
    }

    /** select with a default branch; sending on a closed channel panics. */
    method TrySend(e: Event)
      requires !closed
      modifies `buffer
      ensures buffer == Offer(old(buffer), e, size)
    {
      if |buffer| < size {
        buffer := buffer + [e];
      }
    }

    method Close()
      requires !closed
      modifies `closed
      ensures closed
    {
      closed := true;
    }
  }

  class EventBus {
    var subscribers: seq<Channel>
    const bufferSize: nat

    ghost predicate Valid()
      reads this, subscribers
    {
      && bufferSize >= 1 && Distinct(subscribers)
      && forall ch :: ch in subscribers ==> !ch.closed && ch.size == bufferSize && |ch.buffer| <= bufferSize
    }

    constructor (bufferSize: int)
      ensures Valid() && subscribers == []
      ensures this.bufferSize == if bufferSize < 1 then 64 else bufferSize
    {
      this.bufferSize := if bufferSize < 1 then 64 else bufferSize;
      subscribers := [];
    }

    method Publish(e: Event)
      requires Valid()
      modifies set ch | ch in subscribers :: ch`buffer
      ensures Valid() && subscribers == old(subscribers)
      ensures forall ch :: ch in subscribers ==> ch.buffer == Offer(old(ch.buffer), e, bufferSize)
    {
      var subs := subscribers;
      for i := 0 to |subs|
        invariant subscribers == subs && forall ch :: ch in subs ==> !ch.closed
        invariant forall j :: 0 <= j < i ==> subs[j].buffer == Offer(old(subs[j].buffer), e, bufferSize)
        invariant forall j :: i <= j < |subs| ==> subs[j].buffer == old(subs[j].buffer)
      {
        subs[i].TrySend(e);
      }
    }

    method Subscribe() returns (ch: Channel)
      requires Valid()
      modifies `subscribers
      ensures Valid() && fresh(ch) && ch.buffer == [] && subscribers == old(subscribers) + [ch]
    {
      ch := new Channel(bufferSize);
      subscribers := subscribers + [ch];
    }

    /** The goroutine that Subscribe leaves behind, once its context is done. */
    method Cancel(ch: Channel)
      requires Valid() && !ch.closed
      modifies `subscribers, ch`closed
      ensures Valid() && ch.closed && subscribers == RemoveFirst(old(subscribers), ch)
    {
      ghost var before := subscribers;
      for i := 0 to |subscribers|
        invariant subscribers == before && ch !in before[..i] && !ch.closed
      {
        if subscribers[i] == ch {
          RemovedHere(before, i);
          subscribers := subscribers[..i] + subscribers[i + 1..];
          break;
        }
      }
      if ch !in before {
        RemoveAbsent(before, ch);
      }
      RemoveKeeps(before, ch);
      ch.Close();
    }
  }

  lemma {:induction false} RemovedHere<T>(s: seq<T>, i: nat)
    requires i < |s| && s[i] !in s[..i]
    ensures RemoveFirst(s, s[i]) == s[..i] + s[i + 1..]
  {
    if i > 0 {
      assert s[0] in s[..i];
      assert s[1..][..i - 1] == s[..i][1..];
      RemovedHere(s[1..], i - 1);
    }
  }

  lemma {:induction false} RemoveAbsent<T>(s: seq<T>, x: T)
    requires x !in s
    ensures RemoveFirst(s, x) == s
  {
    if s != [] {
      RemoveAbsent(s[1..], x);
    }
  }

  /** Of distinct subscribers exactly the given one goes; the others keep their
      order. */
  lemma {:induction false} RemoveKeeps<T>(s: seq<T>, x: T)
    requires Distinct(s)
    ensures Distinct(RemoveFirst(s, x)) && x !in RemoveFirst(s, x)
    ensures forall y :: y in RemoveFirst(s, x) <==> y in s && y != x
    ensures x in s ==> exists i :: 0 <= i < |s| && s[i] == x && RemoveFirst(s, x) == s[..i] + s[i + 1..]
  {
    if x in s {
      var i :| 0 <= i < |s| && s[i] == x;
      RemovedHere(s, i);
      forall y | y in s && y != x ensures y in s[..i] + s[i + 1..] {
        var k :| 0 <= k < |s| && s[k] == y;
        assert if k < i then s[..i][k] == y else s[i + 1..][k - i - 1] == y;
      }
    } else {
      RemoveAbsent(s, x);
    }
  }
}
