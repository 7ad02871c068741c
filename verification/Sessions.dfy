/** Boot sessions: the state machine of one session, the store that shares the
    session objects, and the manager that numbers them. */
module Sessions {
  import opened Text
  import opened Domain
  import opened Mac

  datatype BootState = Discover | Offer | TFTP | IPXE | Menu | Boot | Done | Failed

  /** validTransitions; the two terminal states have none. */
  function Allowed(s: BootState): seq<BootState> {
    match s
    case Discover => [Offer, Failed]
    case Offer => [TFTP, Failed]
    case TFTP => [IPXE, Failed]
    case IPXE => [Menu, Boot, Failed]
    case Menu => [Boot, Failed]
    case Boot => [Done, Failed]
    case Done => []
    case Failed => []
  }

  function Rank(s: BootState): nat {
    match s
    case Discover => 0 case Offer => 1 case TFTP => 2 case IPXE => 3
    case Menu => 4 case Boot => 5 case Done => 6 case Failed => 7
  }

  datatype SessionEvent = SessionEvent(state: BootState, at: int, detail: string)

  /** The states of an event list, each allowed after the one before it. */
  predicate IsPath(from: BootState, events: seq<SessionEvent>)
    decreases |events|
  {
    events == [] || (events[0].state in Allowed(from) && IsPath(events[0].state, events[1..]))
  }

  function Last(from: BootState, events: seq<SessionEvent>): BootState {
    if events == [] then from else events[|events| - 1].state
  }

  lemma {:induction false} PathExtends(from: BootState, events: seq<SessionEvent>, e: SessionEvent)
    requires IsPath(from, events) && e.state in Allowed(Last(from, events))
    ensures IsPath(from, events + [e])
    decreases |events|
  {
    if events == [] {
      assert [e][1..] == [] && events + [e] == [e];
    } else {
      assert (events + [e])[1..] == events[1..] + [e];
      assert Last(events[0].state, events[1..]) == Last(from, events);
      PathExtends(events[0].state, events[1..], e);
    }
  }

  /** The longest way a session can still go. */
  function Longest(s: BootState): nat {
    match s
    case Discover => 6 case Offer => 5 case TFTP => 4 case IPXE => 3
    case Menu => 2 case Boot => 1 case Done => 0 case Failed => 0
  }

  /** A session moves strictly forward and has at most six events. */
  lemma {:induction false} PathsAreShort(from: BootState, events: seq<SessionEvent>)
    requires IsPath(from, events)
    ensures |events| <= Longest(from)
    ensures forall i :: 0 <= i < |events| ==> Rank(from) < Rank(events[i].state)
    ensures forall i, j :: 0 <= i < j < |events| ==> Rank(events[i].state) < Rank(events[j].state)
    decreases |events|
  {
    if events != [] {
      PathsAreShort(events[0].state, events[1..]);
      forall i | 1 <= i < |events| ensures Rank(events[0].state) < Rank(events[i].state) {
        assert events[i] == events[1..][i - 1];
      }
      forall i, j | 0 <= i < j < |events| ensures Rank(events[i].state) < Rank(events[j].state) {
        if i > 0 { assert events[i] == events[1..][i - 1] && events[j] == events[1..][j - 1]; }
      }
    }
  }

  /** Which moves are allowed: failing, as long as the session is not over, and
      the next stage; and from iPXE straight to the boot. */
  lemma AllowedExactly(s: BootState, t: BootState)
    ensures t in Allowed(s) <==>
              && s != Done && s != Failed
              && (t == Failed || (t != Failed && Rank(t) == Rank(s) + 1) || (s == IPXE && t == Boot))
  {
    var a := Allowed(s);
    assert t in a <==> exists i :: 0 <= i < |a| && a[i] == t;
    assert |a| > 0 ==> a[0] in a;
    assert |a| > 1 ==> a[1] in a;
    assert |a| > 2 ==> a[2] in a;
  }

  function Event(s: BootState): SessionEvent { SessionEvent(s, 0, "") }

  /** The stages up to the end, with the menu or without it. */
  function WayDone(from: BootState, menu: bool): seq<SessionEvent> {
    match from
    case Discover => [Event(Offer), Event(TFTP), Event(IPXE)] + WayFromIPXE(menu)
    case Offer => [Event(TFTP), Event(IPXE)] + WayFromIPXE(menu)
    case TFTP => [Event(IPXE)] + WayFromIPXE(menu)
    case IPXE => WayFromIPXE(menu)
    case Menu => [Event(Boot), Event(Done)]
    case Boot => [Event(Done)]
    case Done => []
    case Failed => []
  }

  function WayFromIPXE(menu: bool): seq<SessionEvent> {
    if menu then [Event(Menu), Event(Boot), Event(Done)] else [Event(Boot), Event(Done)]
  }

  lemma PathStep(from: BootState, e: SessionEvent, rest: seq<SessionEvent>)
    requires e.state in Allowed(from) && IsPath(e.state, rest)
    ensures IsPath(from, [e] + rest)
  {
    assert ([e] + rest)[1..] == rest;
  }

  lemma LatePaths(menu: bool)
    ensures IsPath(Boot, [Event(Done)]) && IsPath(Menu, [Event(Boot), Event(Done)]) && IsPath(IPXE, WayFromIPXE(menu))
  {
    hide IsPath;
    AllowedExactly(Boot, Done);
    AllowedExactly(Menu, Boot);
    AllowedExactly(IPXE, Menu);
    AllowedExactly(IPXE, Boot);
    assert IsPath(Done, []) by { NoPath(Done); }
    PathStep(Boot, Event(Done), []);
    assert [Event(Done)] + [] == [Event(Done)];
    PathStep(Menu, Event(Boot), [Event(Done)]);
    assert [Event(Boot)] + [Event(Done)] == [Event(Boot), Event(Done)];
    PathStep(IPXE, Event(Menu), [Event(Boot), Event(Done)]);
    PathStep(IPXE, Event(Boot), [Event(Done)]);
    assert [Event(Menu)] + [Event(Boot), Event(Done)] == [Event(Menu), Event(Boot), Event(Done)];
  }

  lemma NoPath(from: BootState)
    ensures IsPath(from, [])
  {
  }

  lemma EarlyPaths(menu: bool)
    ensures IsPath(TFTP, WayDone(TFTP, menu)) && IsPath(Offer, WayDone(Offer, menu))
    ensures IsPath(Discover, WayDone(Discover, menu))
  {
    hide IsPath, WayFromIPXE;
    LatePaths(menu);
    AllowedExactly(TFTP, IPXE);
    AllowedExactly(Offer, TFTP);
    AllowedExactly(Discover, Offer);
    var w := WayFromIPXE(menu);
    PathStep(TFTP, Event(IPXE), w);
    PathStep(Offer, Event(TFTP), [Event(IPXE)] + w);
    assert [Event(TFTP)] + ([Event(IPXE)] + w) == [Event(TFTP), Event(IPXE)] + w;
    PathStep(Discover, Event(Offer), [Event(TFTP), Event(IPXE)] + w);
    assert [Event(Offer)] + ([Event(TFTP), Event(IPXE)] + w) == [Event(Offer), Event(TFTP), Event(IPXE)] + w;
  }

  /** A session that is not over can always come to its end, or fail at once. */
  lemma EndIsReachable(from: BootState)
    requires from != Done && from != Failed
    ensures exists way: seq<SessionEvent> :: IsPath(from, way) && Last(from, way) == Done
    ensures IsPath(from, [Event(Failed)]) && Last(from, [Event(Failed)]) == Failed
  {
    hide IsPath;
    LatePaths(true);
    EarlyPaths(true);
    AllowedExactly(from, Failed);
    NoPath(Failed);
    PathStep(from, Event(Failed), []);
    assert [Event(Failed)] + [] == [Event(Failed)];
    var way := WayDone(from, true);
    assert IsPath(from, way) && Last(from, way) == Done;
  }

  /** A whole boot: six events through the menu, which no session exceeds, or
      five without it. */
  lemma WholeBoots()
    ensures exists way: seq<SessionEvent> :: IsPath(Discover, way) && |way| == 6 && Last(Discover, way) == Done
                          && way[3].state == Menu
    ensures exists way: seq<SessionEvent> :: IsPath(Discover, way) && |way| == 5 && Last(Discover, way) == Done
                          && forall e :: e in way ==> e.state != Menu
  {
    hide IsPath;
    EarlyPaths(true);
    EarlyPaths(false);
    var long, short := WayDone(Discover, true), WayDone(Discover, false);
    assert IsPath(Discover, long) && |long| == 6 && Last(Discover, long) == Done && long[3].state == Menu;
    assert forall e :: e in short ==> e.state != Menu;
    assert IsPath(Discover, short) && |short| == 5 && Last(Discover, short) == Done;
  }

  // ---------------------------------------------------------------- session numbers

  function SessionID(millis: int, n: nat): string {
    "session-" + Decimal(millis) + "-" + Decimal(n)
  }

  function AfterLastDash(s: string): string {
    if s == "" then ""
    else if s[|s| - 1] == '-' then ""
    else AfterLastDash(s[..|s| - 1]) + [s[|s| - 1]]
  }

  lemma {:induction false} DashThen(a: string, t: string)
    requires '-' !in t
    ensures AfterLastDash(a + "-" + t) == t
    decreases |t|
  {
    var s := a + "-" + t;
    if t == "" {
      assert s[|s| - 1] == '-';
    } else {
      assert s[..|s| - 1] == a + "-" + t[..|t| - 1];
      assert s[|s| - 1] == t[|t| - 1];
      DashThen(a, t[..|t| - 1]);
    }
  }

  /** Sessions started at any times have different identifiers as long as their
      counter values differ. */
  lemma IDsDiffer(t: int, m: nat, u: int, n: nat)
    requires m != n
    ensures SessionID(t, m) != SessionID(u, n)
  {
    assert '-' !in Digits(m) && '-' !in Digits(n) by { assert '-' !in DIGITS; }
    DashThen("session-" + Decimal(t), Digits(m));
    DashThen("session-" + Decimal(u), Digits(n));
    NumberOfDigits(m);
    NumberOfDigits(n);
  }

  // ---------------------------------------------------------------- the objects

  class Session {
    const id: string
    const mac: MAC
    const clientName: string
    const arch: ClientArch
    const startedAt: int
    var updatedAt: int
    var state: BootState
    var events: seq<SessionEvent>
    var error: string

    ghost predicate Valid()
      reads this
    {
      IsPath(Discover, events) && state == Last(Discover, events)
    }

    constructor (id: string, mac: MAC, clientName: string, arch: ClientArch, now: int)
      ensures Valid() && this.id == id && this.mac == mac && this.clientName == clientName && this.arch == arch
      ensures startedAt == updatedAt == now && state == Discover && events == [] && error == ""
    {
      this.id, this.mac, this.clientName, this.arch := id, mac, clientName, arch;
      startedAt, updatedAt := now, now;
      state, events, error := Discover, [], "";
    }

    method Transition(next: BootState, detail: string, now: int) returns (ok: bool)
      requires Valid()
      modifies this
      ensures Valid() && (ok <==> next in Allowed(old(state)))
      ensures ok ==> state == next && updatedAt == now && events == old(events) + [SessionEvent(next, now, detail)]
      ensures ok ==> error == if next == Failed then detail else old(error)
      ensures !ok ==> unchanged(this)
    {
      var allowed := Allowed(state);
      if allowed == [] {
        return false;
      }
      var valid := false;
      for i := 0 to |allowed|
        invariant valid <==> next in allowed[..i]
      {
        if allowed[i] == next {
          valid := true;
          break;
        }
      }
      if !valid {
        return false;
      }
      PathExtends(Discover, events, SessionEvent(next, now, detail));
      state := next;
      updatedAt := now;
      events := events + [SessionEvent(next, now, detail)];
      if next == Failed {
        error := detail;
      }
      ok := true;
    }
  }

  /** The sessions of a MAC, newest first. */
  ghost function Newest(ss: seq<Session>, mac: MAC): seq<Session> {
    if ss == [] then []
    else (if ss[|ss| - 1].mac == mac then [ss[|ss| - 1]] else []) + Newest(ss[..|ss| - 1], mac)
  }

  lemma NewestStep(ss: seq<Session>, i: nat, mac: MAC)
    requires i < |ss|
    ensures Newest(ss[..i + 1], mac) == (if ss[i].mac == mac then [ss[i]] else []) + Newest(ss[..i], mac)
  {
    assert ss[..i + 1][..i] == ss[..i];
  }

  lemma NewestOfNone(ss: seq<Session>, mac: MAC)
    ensures Newest(ss[..0], mac) == []
  {
  }

  /** The sessions that can still go somewhere, in order. */
  ghost function Active(ss: seq<Session>): seq<Session>
    reads ss
  {
    if ss == [] then []
    else Active(ss[..|ss| - 1]) + if Allowed(ss[|ss| - 1].state) != [] then [ss[|ss| - 1]] else []
  }

  ghost predicate DistinctIDs(ss: seq<Session>) {
    forall i, j :: 0 <= i < j < |ss| ==> ss[i].id != ss[j].id
  }

  ghost predicate FirstWithID(ss: seq<Session>, i: int, id: string) {
    0 <= i < |ss| && ss[i].id == id && forall j :: 0 <= j < i ==> ss[j].id != id
  }

  /** With distinct identifiers a session replaces exactly its own slot. */
  lemma OwnSlot(ss: seq<Session>, k: nat, s: Session)
    requires DistinctIDs(ss) && k < |ss| && ss[k].id == s.id
    ensures forall i :: FirstWithID(ss, i, s.id) <==> i == k
    ensures DistinctIDs(ss[k := s])
  {
  }

  class MemorySessionStore {
    var sessions: seq<Session>

    constructor ()
      ensures sessions == []
    {
      sessions := [];
    }

    method Create(s: Session)
      modifies this
      ensures sessions == old(sessions) + [s]
    {
      sessions := sessions + [s];
    }

    /** Replaces the first session with this identifier, if there is one. */
    method Update(s: Session) returns (ok: bool)
      modifies this
      ensures ok <==> exists i :: FirstWithID(old(sessions), i, s.id)
      ensures ok ==> exists i :: FirstWithID(old(sessions), i, s.id) && sessions == old(sessions)[i := s]
      ensures !ok ==> sessions == old(sessions)
    {
      for i := 0 to |sessions|
        invariant sessions == old(sessions) && forall j :: 0 <= j < i ==> sessions[j].id != s.id
      {
        if sessions[i].id == s.id {
          assert FirstWithID(sessions, i, s.id);
          sessions := sessions[i := s];
          return true;
        }
      }
      ok := false;
    }

    method FindByMAC(mac: MAC) returns (r: Option<Session>)
      ensures r == if Newest(sessions, mac) == [] then None else Some(Newest(sessions, mac)[0])
    {
      var i := |sessions|;
      assert sessions[..i] == sessions;
      while i > 0
        invariant 0 <= i <= |sessions| && Newest(sessions, mac) == Newest(sessions[..i], mac)
      {
        i := i - 1;
        assert sessions[..i + 1][..i] == sessions[..i];
        SameKey(sessions[i].mac, mac);
        if MacString(sessions[i].mac) == MacString(mac) {
          return Some(sessions[i]);
        }
      }
      r := None;
    }

    method FindActive() returns (active: seq<Session>)
      ensures active == Active(sessions)
    {
      active := [];
      for i := 0 to |sessions|
        invariant active == Active(sessions[..i])
      {
        assert sessions[..i + 1][..i] == sessions[..i];
        if sessions[i].state != Done && sessions[i].state != Failed {
          active := active + [sessions[i]];
        }
      }
      assert sessions[..|sessions|] == sessions;
    }

    /** At most limit sessions of the MAC, newest first. */
    method History(mac: MAC, limit: int) returns (r: seq<Session>)
      ensures var all := Newest(sessions, mac);
              r == if limit <= 0 then [] else if limit < |all| then all[..limit] else all
    {
      hide Newest, MacString;
      r := [];
      var i := |sessions|;
      assert sessions[..i] == sessions;
      while i > 0 && |r| < limit
        invariant 0 <= i <= |sessions| && Newest(sessions, mac) == r + Newest(sessions[..i], mac)
        invariant limit <= 0 ==> r == []
        invariant limit > 0 ==> |r| <= limit
      {
        i := i - 1;
        NewestStep(sessions, i, mac);
        SameKey(sessions[i].mac, mac);
        if MacString(sessions[i].mac) == MacString(mac) {
          r := r + [sessions[i]];
        }
      }
      NewestOfNone(sessions, mac);
    }
  }

  lemma SameKey(a: MAC, b: MAC)
    ensures MacString(a) == MacString(b) <==> a == b
  {
    if MacString(a) == MacString(b) {
      MacStringInjective(a, b);
    }
  }

  /** Numbers sessions with a counter that only grows. */
  class SessionManager {
    const store: MemorySessionStore
    var counter: nat
    ghost var times: seq<int>
    ghost var numbers: seq<nat>

    ghost predicate Valid()
      reads this, store, store.sessions
    {
      && Numbered(store.sessions, times, numbers, counter)
      && forall i :: 0 <= i < |store.sessions| ==> store.sessions[i].Valid()
    }

    constructor (store: MemorySessionStore)
      requires store.sessions == []
      ensures Valid() && this.store == store && counter == 0
    {
      this.store, counter, times, numbers := store, 0, [], [];
    }

    method Start(mac: MAC, clientName: string, arch: ClientArch, now: int) returns (s: Session)
      requires Valid()
      modifies this, store
      ensures Valid() && fresh(s) && store.sessions == old(store.sessions) + [s]
      ensures s.mac == mac && s.clientName == clientName && s.arch == arch && s.startedAt == now
      ensures s.state == Discover && s.events == []
    {
      counter := counter + 1;
      s := new Session(SessionID(now, counter), mac, clientName, arch, now);
      store.Create(s);
      times, numbers := times + [now], numbers + [counter];
    }

    /** Moves a session and puts it back into the store. A session that came
        from the store keeps its slot, so the store's list is what it was; one
        that did not moves all the same, but the call fails unless its
        identifier is known. */
    method Transition(s: Session, next: BootState, detail: string, now: int) returns (ok: bool)
      requires Valid() && s.Valid()
      modifies store, s
      ensures Valid() && s.Valid()
      ensures if next in Allowed(old(s.state))
              then s.state == next && s.events == old(s.events) + [SessionEvent(next, now, detail)]
              else unchanged(s)
      ensures ok <==> next in Allowed(old(s.state)) && exists i :: FirstWithID(old(store.sessions), i, s.id)
      ensures s in old(store.sessions) ==>
                store.sessions == old(store.sessions) && (ok <==> next in Allowed(old(s.state)))
    {
      hide SessionID, IsPath, Last, Allowed;
      NumberedDistinct(store.sessions, times, numbers, counter);
      if s in store.sessions {
        ghost var k :| 0 <= k < |store.sessions| && store.sessions[k] == s;
        OwnSlot(store.sessions, k, s);
        assert FirstWithID(store.sessions, k, s.id);
      }
      ok := s.Transition(next, detail, now);
      if ok {
        ok := store.Update(s);
        if ok {
          ghost var i :| FirstWithID(old(store.sessions), i, s.id) && store.sessions == old(store.sessions)[i := s];
          assert store.sessions[i].id == old(store.sessions)[i].id;
        }
      }
    }
  }

  ghost predicate Numbered(ss: seq<Session>, times: seq<int>, numbers: seq<nat>, counter: nat) {
    && |times| == |numbers| == |ss|
    && (forall i :: 0 <= i < |ss| ==> ss[i].id == SessionID(times[i], numbers[i]) && numbers[i] <= counter)
    && (forall i, j :: 0 <= i < j < |ss| ==> numbers[i] != numbers[j])
  }

  /** So no two sessions of a store share an identifier. */
  lemma NumberedDistinct(ss: seq<Session>, times: seq<int>, numbers: seq<nat>, counter: nat)
    requires Numbered(ss, times, numbers, counter)
    ensures DistinctIDs(ss)
  {
    forall i, j | 0 <= i < j < |ss| ensures ss[i].id != ss[j].id {
      IDsDiffer(times[i], numbers[i], times[j], numbers[j]);
    }
  }

  /** A valid session's history: forward only, at most six events, and finished
      exactly when nothing is allowed any more. */
  lemma SessionHistory(s: Session)
    requires s.Valid()
    ensures |s.events| <= 6
    ensures forall i, j :: 0 <= i < j < |s.events| ==> Rank(s.events[i].state) < Rank(s.events[j].state)
    ensures Allowed(s.state) == [] <==> s.state in {Done, Failed}
  {
    PathsAreShort(Discover, s.events);
  }

  lemma {:induction false} NewestExactly(ss: seq<Session>, mac: MAC)
    ensures forall s :: s in Newest(ss, mac) <==> s in ss && s.mac == mac
  {
    if ss != [] {
      NewestExactly(ss[..|ss| - 1], mac);
      assert forall s :: s in ss <==> s in ss[..|ss| - 1] || s == ss[|ss| - 1];
    }
  }

  lemma {:induction false} NewestIsStored(ss: seq<Session>, mac: MAC, i: nat) returns (p: nat)
    requires i < |Newest(ss, mac)|
    ensures p < |ss| && ss[p] == Newest(ss, mac)[i]
  {
    p := |ss| - 1;
    if ss[p].mac != mac {
      p := NewestIsStored(ss[..p], mac, i);
    } else if i > 0 {
      p := NewestIsStored(ss[..p], mac, i - 1);
    }
  }

  lemma {:induction false} ActiveIsStored(ss: seq<Session>, i: nat) returns (p: nat)
    requires i < |Active(ss)|
    ensures p < |ss| && ss[p] == Active(ss)[i]
  {
    p := |ss| - 1;
    if i < |Active(ss[..p])| {
      p := ActiveIsStored(ss[..p], i);
    }
  }

  /** The newest first: what stands earlier in the list was stored later. */
  lemma {:induction false} NewestInOrder(ss: seq<Session>, mac: MAC, i: nat, j: nat) returns (p: nat, q: nat)
    requires i < j < |Newest(ss, mac)|
    ensures q < p < |ss| && ss[p] == Newest(ss, mac)[i] && ss[q] == Newest(ss, mac)[j]
  {
    var n := |ss| - 1;
    if ss[n].mac == mac {
      if i == 0 {
        q := NewestIsStored(ss[..n], mac, j - 1);
        p := n;
      } else {
        p, q := NewestInOrder(ss[..n], mac, i - 1, j - 1);
      }
    } else {
      p, q := NewestInOrder(ss[..n], mac, i, j);
    }
  }

  /** The unfinished sessions stand in the order they were stored in. */
  lemma {:induction false} ActiveInOrder(ss: seq<Session>, i: nat, j: nat) returns (p: nat, q: nat)
    requires i < j < |Active(ss)|
    ensures p < q < |ss| && ss[p] == Active(ss)[i] && ss[q] == Active(ss)[j]
  {
    var n := |ss| - 1;
    var init := Active(ss[..n]);
    if j == |init| {
      p := ActiveIsStored(ss[..n], i);
      q := n;
    } else {
      p, q := ActiveInOrder(ss[..n], i, j);
    }
  }

  lemma {:induction false} ActiveExactly(ss: seq<Session>)
    ensures forall s :: s in Active(ss) <==> s in ss && s.state !in {Done, Failed}
  {
    if ss != [] {
      ActiveExactly(ss[..|ss| - 1]);
      assert forall s :: s in ss <==> s in ss[..|ss| - 1] || s == ss[|ss| - 1];
    }
  }
}
