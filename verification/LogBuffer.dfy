/** The ring buffer of recent log entries, against the plain sequence of
    everything ever added. */
module LogBuffer {

  datatype LogEntry = LogEntry(time: int, level: int, message: string, service: string, mac: string,
                               attrs: map<string, string>)

  const NO_ENTRY := LogEntry(0, 0, "", "", "", map[])

  function Min(a: nat, b: nat): nat { if a < b then a else b }

  function Reverse(s: seq<LogEntry>): (r: seq<LogEntry>)
    ensures |r| == |s| && forall i :: 0 <= i < |s| ==> r[i] == s[|s| - 1 - i]
  {
    seq(|s|, i requires 0 <= i < |s| => s[|s| - 1 - i])
  }

  /** The newest n of what a buffer of this size can still hold, newest first. */
  function Window(all: seq<LogEntry>, size: nat, n: nat): (r: seq<LogEntry>)
    ensures |r| == Min(n, Min(size, |all|))
  {
    Reverse(all[|all| - Min(n, Min(size, |all|))..])
  }

  predicate Matches(e: LogEntry, mac: string, service: string, level: int) {
    && (mac != "" ==> e.mac == mac)
    && (service != "" ==> e.service == service)
    && (level > 0 ==> e.level >= level)
  }

  function Matching(s: seq<LogEntry>, mac: string, service: string, level: int): seq<LogEntry> {
    if s == [] then []
    else (if Matches(s[0], mac, service, level) then [s[0]] else []) + Matching(s[1..], mac, service, level)
  }

  /** The first limit matches; no limit for zero or less. */
  function Filtered(window: seq<LogEntry>, mac: string, service: string, level: int, limit: int): seq<LogEntry> {
    var m := Matching(window, mac, service, level);
    if limit <= 0 || |m| <= limit then m else m[..limit]
  }

  lemma ModOnce(x: int, size: int)
    requires 0 < size && 0 <= x < 2 * size
    ensures x % size == if x < size then x else x - size
  {
    if x >= size {
      assert x == size * 1 + (x - size);
    }
  }

  lemma NextSlot(n: nat, size: nat)
    requires size >= 1
    ensures (n % size + 1) % size == (n + 1) % size
  {
    var q, r := n / size, n % size;
    assert n == q * size + r;
    ModOnce(r + 1, size);
    if r + 1 < size {
      assert n + 1 == q * size + (r + 1);
      DivUnique(n + 1, size, q, r + 1);
    } else {
      assert n + 1 == (q + 1) * size + 0;
      DivUnique(n + 1, size, q + 1, 0);
    }
  }

  lemma DivUnique(n: int, d: int, q: int, r: int)
    requires d > 0 && n == q * d + r && 0 <= r < d
    ensures n % d == r
  {
    var k := n / d - q;
    assert n == (n / d) * d + n % d;
    assert k * d == r - n % d;
    assert k >= 1 ==> k * d >= d;
    assert k <= -1 ==> k * d <= -d;
  }

  class LogBuffer {
    const entries: array<LogEntry>
    const size: nat
    var pos: nat
    var count: nat
    ghost var all: seq<LogEntry>

    ghost predicate Valid()
      reads this, entries
    {
      && entries.Length == size >= 1 && pos < size && pos == |all| % size && count == Min(size, |all|)
      && forall k :: 0 <= k < count ==> entries[Slot(pos, k)] == all[|all| - 1 - k]
    }

    /** Where the entry k places before the newest one sits. */
    function Slot(pos: nat, k: nat): (i: nat)
      requires pos < size && k < size
      ensures i < size
    {
      if k < pos then pos - 1 - k else pos - 1 - k + size
    }

    constructor (size: int)
      ensures Valid() && all == [] && this.size == if size < 1 then 1000 else size
      ensures fresh(entries)
    {
      var n := if size < 1 then 1000 else size;
      this.size := n;
      entries := new LogEntry[n](_ => NO_ENTRY);
      pos, count, all := 0, 0, [];
    }

    method Add(e: LogEntry)
      requires Valid()
      modifies this, entries
      ensures Valid() && all == old(all) + [e]
    {
      NextSlot(|all|, size);
      ModOnce(pos + 1, size);
      entries[pos] := e;
      ghost var before := pos;
      pos := (pos + 1) % size;
      if count < size {
        count := count + 1;
      }
      all := all + [e];
      forall k | 0 <= k < count ensures entries[Slot(pos, k)] == all[|all| - 1 - k] {
        if k == 0 {
          assert Slot(pos, 0) == before;
        } else {
          assert Slot(pos, k) == Slot(before, k - 1) != before;
          assert all[|all| - 1 - k] == old(all)[|old(all)| - 1 - (k - 1)];
        }
      }
    }

    method Recent(n: int) returns (r: seq<LogEntry>)
      requires Valid() && n >= 0
      ensures r == Window(all, size, n)
    {
      var m := if n > count then count else n;
      if m == 0 {
        return [];
      }
      r := [];
      for i := 0 to m
        invariant |r| == i && forall k :: 0 <= k < i ==> r[k] == all[|all| - 1 - k]
      {
        ModOnce(pos - 1 - i + size, size);
        var idx := (pos - 1 - i + size) % size;
        assert idx == Slot(pos, i);
        r := r + [entries[idx]];
      }
    }

    method Filter(mac: string, service: string, level: int, limit: int) returns (r: seq<LogEntry>)
      requires Valid()
      ensures r == Filtered(Window(all, size, size), mac, service, level, limit)
    {
      hide Window, Matching;
      var lim := if limit <= 0 then count else limit;
      ghost var window := Window(all, size, size);
      WindowHolds();
      ghost var m := Matching(window, mac, service, level);
      MatchingFits(window, mac, service, level);
      r := [];
      var i := 0;
      assert window[0..] == window;
      while i < count && |r| < lim
        invariant 0 <= i <= count && |r| <= lim
        invariant m == r + Matching(window[i..], mac, service, level)
      {
        ModOnce(pos - 1 - i + size, size);
        var e := entries[(pos - 1 - i + size) % size];
        MatchingStep(window, i, mac, service, level);
        i := i + 1;
        if mac != "" && e.mac != mac {
          continue;
        }
        if service != "" && e.service != service {
          continue;
        }
        if level > 0 && e.level < level {
          continue;
        }
        r := r + [e];
      }
      MatchingFits(window[i..], mac, service, level);
    }

    /** The slots, walked back from the newest, are the window. */
    lemma WindowHolds()
      requires Valid()
      ensures var w := Window(all, size, size);
              |w| == count && forall k :: 0 <= k < count ==> w[k] == entries[Slot(pos, k)]
    {
    }
  }

  lemma MatchingStep(s: seq<LogEntry>, i: nat, mac: string, service: string, level: int)
    requires i < |s|
    ensures Matching(s[i..], mac, service, level)
         == (if Matches(s[i], mac, service, level) then [s[i]] else [])
            + Matching(s[i + 1..], mac, service, level)
  {
    assert s[i..][1..] == s[i + 1..];
  }

  lemma {:induction false} MatchingFits(s: seq<LogEntry>, mac: string, service: string, level: int)
    ensures |Matching(s, mac, service, level)| <= |s|
  {
    if s != [] {
      MatchingFits(s[1..], mac, service, level);
    }
  }

  lemma {:induction false} MatchingAll(s: seq<LogEntry>)
    ensures Matching(s, "", "", 0) == s
  {
    if s != [] {
      MatchingAll(s[1..]);
    }
  }

  lemma {:induction false} MatchingMembers(s: seq<LogEntry>, mac: string, service: string, level: int)
    ensures forall e :: e in Matching(s, mac, service, level) <==>
              && e in s && (mac == "" || e.mac == mac) && (service == "" || e.service == service)
              && (level <= 0 || e.level >= level)
  {
    if s != [] {
      MatchingMembers(s[1..], mac, service, level);
      assert s == [s[0]] + s[1..];
    }
  }

  /** What stands earlier in a filtered list stands earlier in the window. */
  lemma {:induction false} MatchingInOrder(s: seq<LogEntry>, mac: string, service: string, level: int, i: nat, j: nat)
    returns (p: nat, q: nat)
    requires i < j < |Matching(s, mac, service, level)|
    ensures p < q < |s| && s[p] == Matching(s, mac, service, level)[i] && s[q] == Matching(s, mac, service, level)[j]
  {
    var rest := Matching(s[1..], mac, service, level);
    if !Matches(s[0], mac, service, level) {
      p, q := MatchingInOrder(s[1..], mac, service, level, i, j);
      p, q := p + 1, q + 1;
    } else if i > 0 {
      p, q := MatchingInOrder(s[1..], mac, service, level, i - 1, j - 1);
      p, q := p + 1, q + 1;
    } else {
      assert rest[j - 1] in rest;
      MatchingMembers(s[1..], mac, service, level);
      var k :| 0 <= k < |s[1..]| && s[1..][k] == rest[j - 1];
      p, q := 0, k + 1;
    }
  }

  /** Without a limit, Filter gives exactly the entries of the window that have the
      MAC, the service and at least the level asked for. */
  lemma FilterExactly(all: seq<LogEntry>, size: nat, mac: string, service: string, level: int, limit: int)
    requires limit <= 0
    ensures forall e :: e in Filtered(Window(all, size, size), mac, service, level, limit) <==>
              && e in all[|all| - Min(size, |all|)..] && (mac == "" || e.mac == mac)
              && (service == "" || e.service == service) && (level <= 0 || e.level >= level)
  {
    hide Matching;
    var part := all[|all| - Min(size, |all|)..];
    MatchingMembers(Window(all, size, size), mac, service, level);
    forall e ensures e in Reverse(part) <==> e in part {
      if e in part {
        var i :| 0 <= i < |part| && part[i] == e;
        assert Reverse(part)[|part| - 1 - i] == e;
      }
    }
  }

  /** Without criteria, Filter with a positive limit is Recent. */
  lemma UnfilteredIsRecent(all: seq<LogEntry>, size: nat, limit: nat)
    requires limit > 0
    ensures Filtered(Window(all, size, size), "", "", 0, limit) == Window(all, size, limit)
  {
    MatchingAll(Window(all, size, size));
  }

  /** A larger buffer only shows more of the past; within its size a buffer
      forgets nothing. */
  lemma WindowIsTail(all: seq<LogEntry>, size: nat, n: nat)
    requires n <= size
    ensures Window(all, size, n) == Reverse(all[|all| - Min(n, |all|)..])
    ensures Window(all, size, n) <= Window(all, size, size)
  {
  }
}
