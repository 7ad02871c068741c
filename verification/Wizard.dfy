/** The configuration wizard: its edits of menus and clients, with prompts as
    arbitrary inputs that meet the prompt's own check. */
module Wizard {
  import opened Domain
  import opened Mac
  import opened MergeRules
  import opened SaveLoad
  import opened Rewriting
  import G = Generator

  datatype MenuState = MenuState(name: string, labelText: string, kind: string, kernel: string, initrd: string,
                                 cmdline: string, chain: string, httpPath: string, httpFiles: string)
  datatype ClientState = ClientState(mac: string, name: string, entries: seq<string>, default: string, timeout: int)
  datatype State = State(menus: seq<MenuState>, clients: seq<ClientState>)

  datatype NetbootMode = Skip | Remote | SelfHosted

  const NETBOOT := "netboot-xyz"
  const LOCAL := "local-disk"

  // ---------------------------------------------------------------- prompts

  /** What promptClient and promptClientEdit ask for. */
  datatype ClientInput = ClientInput(mac: string, name: string, entries: seq<string>, default: string, timeout: int)

  predicate SlugOk(name: string) { name != "" && ' ' !in name }

  /** A menu entry as promptMenuEntry can return it. */
  predicate MenuInputOk(m: MenuState) {
    && SlugOk(m.name) && m.labelText != ""
    && m.kind in ["install", "live", "tool", "chain", "exit"]
    && (m.kind == "chain" ==> m.chain != "")
  }

  predicate Offered(menus: seq<MenuState>, entries: seq<string>) {
    forall e :: e in entries ==> exists m :: m in menus && m.name == e
  }

  /** Entries come from the menu list, the default from the entries. */
  predicate ClientInputOk(menus: seq<MenuState>, c: ClientInput) {
    && c.name != "" && Offered(menus, c.entries)
    && (|c.entries| > 1 ==> c.default in c.entries && c.timeout >= 0)
  }

  // ---------------------------------------------------------------- the edits on values

  function Without(entries: seq<string>, x: string): (r: seq<string>)
    ensures forall e :: e in r <==> e in entries && e != x
  {
    if entries == [] then []
    else if entries[0] == x then Without(entries[1..], x)
    else [entries[0]] + Without(entries[1..], x)
  }

  function MenusWithout(menus: seq<MenuState>, x: string): (r: seq<MenuState>)
    ensures forall m :: m in r <==> m in menus && m.name != x
  {
    if menus == [] then []
    else if menus[0].name == x then MenusWithout(menus[1..], x)
    else [menus[0]] + MenusWithout(menus[1..], x)
  }

  function EachClient(cs: seq<ClientState>, f: ClientState -> ClientState): (r: seq<ClientState>)
    ensures |r| == |cs| && forall i :: 0 <= i < |cs| ==> r[i] == f(cs[i])
  {
    seq(|cs|, i requires 0 <= i < |cs| => f(cs[i]))
  }

  function RemoteMenu(): MenuState {
    MenuState(NETBOOT, "netboot.xyz", "chain", "", "", "", "https://boot.netboot.xyz", "", "")
  }

  function LocalMenu(): MenuState {
    MenuState(NETBOOT, "netboot.xyz (local)", "chain", "", "", "",
              "http://${server_ip}:${http_port}/netboot/netboot.xyz.lkrn", "/netboot/", "netboot/")
  }

  function NoNetboot(c: ClientState): ClientState { c.(entries := Without(c.entries, NETBOOT)) }
  function WithNetboot(c: ClientState): ClientState { c.(entries := Without(c.entries, NETBOOT) + [NETBOOT]) }

  function Netboot(s: State, mode: NetbootMode): State {
    var menus := MenusWithout(s.menus, NETBOOT);
    match mode
    case Skip => State(menus, EachClient(s.clients, NoNetboot))
    case Remote => State(menus + [RemoteMenu()], EachClient(s.clients, WithNetboot))
    case SelfHosted => State(menus + [LocalMenu()], EachClient(s.clients, WithNetboot))
  }

  function AddMenu(s: State, m: MenuState): State { s.(menus := s.menus + [m]) }

  function RenameEntry(old': string, new': string, e: string): string { if e == old' then new' else e }

  function RenamedIn(entries: seq<string>, old': string, new': string): (r: seq<string>)
    ensures |r| == |entries| && forall i :: 0 <= i < |r| ==> r[i] == RenameEntry(old', new', entries[i])
  {
    seq(|entries|, i requires 0 <= i < |entries| => RenameEntry(old', new', entries[i]))
  }

  function RenameClient(c: ClientState, old': string, new': string): ClientState {
    c.(entries := RenamedIn(c.entries, old', new'), default := RenameEntry(old', new', c.default))
  }

  /** The edited entry as promptMenuEntryEdit leaves it: the fields of other
      types are cleared. */
  function EditedMenu(m: MenuState, input: MenuState): MenuState {
    if input.kind == "chain" then
      m.(name := input.name, labelText := input.labelText, kind := input.kind, chain := input.chain, kernel := "",
         initrd := "", cmdline := "")
    else if input.kind != "exit" then
      m.(name := input.name, labelText := input.labelText, kind := input.kind, kernel := input.kernel,
         initrd := input.initrd,
         cmdline := input.cmdline, httpPath := input.httpPath, chain := "")
    else
      m.(name := input.name, labelText := input.labelText, kind := input.kind, kernel := "", initrd := "",
         cmdline := "", chain := "")
  }

  function EditMenu(s: State, i: nat, input: MenuState): State
    requires i < |s.menus|
  {
    var menus := s.menus[i := EditedMenu(s.menus[i], input)];
    if input.name == s.menus[i].name then s.(menus := menus)
    else State(menus, EachClient(s.clients, (c: ClientState) => RenameClient(c, s.menus[i].name, input.name)))
  }

  function DropEntry(c: ClientState, x: string): ClientState {
    c.(entries := Without(c.entries, x), default := if c.default == x then "" else c.default)
  }

  function RemoveMenu(s: State, i: nat): State
    requires i < |s.menus|
  {
    State(s.menus[..i] + s.menus[i + 1..], EachClient(s.clients, (c: ClientState) => DropEntry(c, s.menus[i].name)))
  }

  predicate WildcardLast(clients: seq<ClientState>) {
    clients != [] && clients[|clients| - 1].mac == "*"
  }

  /** stepClients: the wildcard, if it is last, gets new entries. */
  function SetWildcardEntries(s: State, entries: seq<string>): State {
    if WildcardLast(s.clients)
    then s.(clients := s.clients[|s.clients| - 1 := s.clients[|s.clients| - 1].(entries := entries)])
    else s
  }

  function NewClient(c: ClientInput): ClientState {
    if |c.entries| > 1 then ClientState(c.mac, c.name, c.entries, c.default, c.timeout)
    else ClientState(c.mac, c.name, c.entries, "", 0)
  }

  function AddClient(s: State, c: ClientInput): State {
    var n := |s.clients| - 1;
    if WildcardLast(s.clients) then s.(clients := s.clients[..n] + [NewClient(c), s.clients[n]])
    else s.(clients := s.clients + [NewClient(c)])
  }

  function EditClient(s: State, i: nat, c: ClientInput): State
    requires i < |s.clients|
  {
    s.(clients := s.clients[i := NewClient(c).(mac := s.clients[i].mac)])
  }

  function RemoveClient(s: State, i: nat): State
    requires i < |s.clients|
  {
    s.(clients := s.clients[..i] + s.clients[i + 1..])
  }

  // ---------------------------------------------------------------- the wizard itself

  class WizardState {
    var menus: seq<MenuState>
    var clients: seq<ClientState>

    function Now(): State reads this { State(menus, clients) }

    constructor (s: State)
      ensures Now() == s
    {
      menus, clients := s.menus, s.clients;
    }

    method StepNetboot(mode: NetbootMode)
      modifies this
      ensures Now() == Netboot(old(Now()), mode)
    {
      hide RemoteMenu, LocalMenu, NETBOOT, Without;
      var filtered: seq<MenuState> := [];
      for i := 0 to |menus|
        invariant menus == old(menus) && clients == old(clients)
        invariant MenusWithout(menus, NETBOOT) == filtered + MenusWithout(menus[i..], NETBOOT)
      {
        assert menus[i..][1..] == menus[i + 1..];
        if menus[i].name != NETBOOT {
          filtered := filtered + [menus[i]];
        }
      }
      menus := filtered;
      for i := 0 to |clients|
        invariant menus == filtered && |clients| == |old(clients)|
        invariant forall k :: 0 <= k < |clients| ==>
                  clients[k] == if k < i then NoNetboot(old(clients)[k]) else old(clients)[k]
      {
        var kept := Filter(clients[i].entries, NETBOOT);
        clients := clients[i := clients[i].(entries := kept)];
      }
      assert menus == MenusWithout(old(menus), NETBOOT);
      match mode {
        case Skip =>
        case Remote =>
          menus := menus + [RemoteMenu()];
          AddNetbootToClients();
        case SelfHosted =>
          menus := menus + [LocalMenu()];
          AddNetbootToClients();
      }
    }

    method AddNetbootToClients()
      modifies this`clients
      ensures |clients| == |old(clients)|
      ensures forall k :: 0 <= k < |clients| ==>
                clients[k] == old(clients)[k].(entries := old(clients)[k].entries + [NETBOOT])
    {
      for i := 0 to |clients|
        invariant |clients| == |old(clients)|
        invariant forall k :: 0 <= k < |clients| ==>
                    clients[k] == if k < i then old(clients)[k].(entries := old(clients)[k].entries + [NETBOOT])
                                  else old(clients)[k]
      {
        clients := clients[i := clients[i].(entries := clients[i].entries + [NETBOOT])];
      }
    }

    method MenusEdit(idx: nat, input: MenuState)
      requires idx < |menus|
      modifies this
      ensures Now() == EditMenu(old(Now()), idx, input)
    {
      var oldName := menus[idx].name;
      menus := menus[idx := EditedMenu(menus[idx], input)];
      var newName := menus[idx].name;
      if oldName != newName {
        for i := 0 to |clients|
          invariant menus == old(menus)[idx := EditedMenu(old(menus)[idx], input)] && |clients| == |old(clients)|
          invariant forall k :: 0 <= k < |clients| ==>
                      clients[k] == if k < i then RenameClient(old(clients)[k], oldName, newName) else old(clients)[k]
        {
          var c := clients[i];
          for j := 0 to |c.entries|
            invariant |c.entries| == |clients[i].entries| && c == clients[i].(entries := c.entries)
            invariant forall k :: 0 <= k < |c.entries| ==>
                        c.entries[k] == if k < j then RenameEntry(oldName, newName, clients[i].entries[k])
                                        else clients[i].entries[k]
          {
            if c.entries[j] == oldName {
              c := c.(entries := c.entries[j := newName]);
            }
          }
          assert c.entries == RenamedIn(clients[i].entries, oldName, newName);
          if c.default == oldName {
            c := c.(default := newName);
          }
          clients := clients[i := c];
        }
      }
    }

    method MenusRemove(idx: nat)
      requires idx < |menus|
      modifies this
      ensures Now() == RemoveMenu(old(Now()), idx)
    {
      var removed := menus[idx].name;
      menus := menus[..idx] + menus[idx + 1..];
      for i := 0 to |clients|
        invariant menus == old(menus)[..idx] + old(menus)[idx + 1..] && |clients| == |old(clients)|
        invariant forall k :: 0 <= k < |clients| ==>
                  clients[k] == if k < i then DropEntry(old(clients)[k], removed) else old(clients)[k]
      {
        var kept := Filter(clients[i].entries, removed);
        var c := clients[i].(entries := kept);
        if c.default == removed {
          c := c.(default := "");
        }
        clients := clients[i := c];
      }
    }

    method MenusAdd(m: MenuState)
      modifies this`menus
      ensures Now() == AddMenu(old(Now()), m)
    {
      menus := menus + [m];
    }

    /** The first question of stepClients. */
    method StepWildcard(entries: seq<string>)
      modifies this`clients
      ensures Now() == SetWildcardEntries(old(Now()), entries)
    {
      if |clients| > 0 && clients[|clients| - 1].mac == "*" {
        var last := |clients| - 1;
        clients := clients[last := clients[last].(entries := entries)];
      }
    }

    method ClientsAdd(c: ClientInput)
      modifies this`clients
      ensures Now() == AddClient(old(Now()), c)
    {
      var n := |clients| - 1;
      if |clients| > 0 && clients[n].mac == "*" {
        clients := clients[..n] + [NewClient(c), clients[n]];
      } else {
        clients := clients + [NewClient(c)];
      }
    }

    /** The first run's addition, which does not look at what is last. */
    method ClientsInsert(c: ClientInput)
      requires clients != []
      modifies this`clients
      ensures var n := |old(clients)| - 1; clients == old(clients)[..n] + [NewClient(c), old(clients)[n]]
      ensures WildcardLast(old(clients)) ==> Now() == AddClient(old(Now()), c)
    {
      var n := |clients| - 1;
      clients := clients[..n] + [NewClient(c), clients[n]];
    }

    method ClientsRemove(idx: nat)
      requires idx < |clients|
      modifies this`clients
      ensures Now() == RemoveClient(old(Now()), idx)
    {
      clients := clients[..idx] + clients[idx + 1..];
    }

    method ClientsEdit(idx: nat, c: ClientInput)
      requires idx < |clients|
      modifies this`clients
      ensures Now() == EditClient(old(Now()), idx, c)
    {
      var e := clients[idx].(name := c.name, entries := c.entries);
      if |e.entries| > 1 {
        e := e.(default := c.default, timeout := c.timeout);
      } else {
        e := e.(default := "", timeout := 0);
      }
      clients := clients[idx := e];
    }
  }

  method Filter(entries: seq<string>, x: string) returns (kept: seq<string>)
    ensures kept == Without(entries, x)
  {
    kept := [];
    for i := 0 to |entries|
      invariant Without(entries, x) == kept + Without(entries[i..], x)
    {
      assert entries[i..][1..] == entries[i + 1..];
      if entries[i] != x {
        kept := kept + [entries[i]];
      }
    }
  }

  // ---------------------------------------------------------------- runs

  datatype Edit =
    | DoNetboot(mode: NetbootMode)
    | DoAddMenu(menu: MenuState)
    | DoEditMenu(index: nat, menu: MenuState)
    | DoRemoveMenu(index: nat)
    | DoSetWildcard(entries: seq<string>)
    | DoAddClient(client: ClientInput)
    | DoEditClient(index: nat, client: ClientInput)
    | DoRemoveClient(index: nat)

  /** The edits the prompts allow in a state. */
  predicate Possible(s: State, e: Edit) {
    match e
    case DoNetboot(_) => true
    case DoAddMenu(m) => MenuInputOk(m)
    case DoEditMenu(i, m) => i < |s.menus| && MenuInputOk(m)
    case DoRemoveMenu(i) => i < |s.menus| && s.menus[i].name != LOCAL
    case DoSetWildcard(es) => Offered(s.menus, es)
    case DoAddClient(c) => ClientInputOk(s.menus, c) && ParsedMAC(c.mac).Some?
    case DoEditClient(i, c) => i < |s.clients| && ClientInputOk(s.menus, c)
    case DoRemoveClient(i) => i < |s.clients| && s.clients[i].mac != "*"
  }

  function Apply(s: State, e: Edit): State
    requires Possible(s, e)
  {
    match e
    case DoNetboot(m) => Netboot(s, m)
    case DoAddMenu(m) => AddMenu(s, m)
    case DoEditMenu(i, m) => EditMenu(s, i, m)
    case DoRemoveMenu(i) => RemoveMenu(s, i)
    case DoSetWildcard(es) => SetWildcardEntries(s, es)
    case DoAddClient(c) => AddClient(s, c)
    case DoEditClient(i, c) => EditClient(s, i, c)
    case DoRemoveClient(i) => RemoveClient(s, i)
  }

  function Run(s: State, edits: seq<Edit>): State
    decreases |edits|
  {
    if edits == [] then s
    else Run(if Possible(s, edits[0]) then Apply(s, edits[0]) else s, edits[1..])
  }

  ghost predicate RefsOk(s: State) {
    forall c :: c in s.clients ==> Offered(s.menus, c.entries)
  }

  predicate DefaultOk(c: ClientState) { c.default != "" ==> c.default in c.entries }

  ghost predicate DefaultsOk(s: State) {
    forall i :: 0 <= i < |s.clients| ==> DefaultOk(s.clients[i])
  }

  ghost predicate MacsOk(s: State) {
    forall c :: c in s.clients ==> ParsedMAC(c.mac).Some?
  }

  lemma OfferedGrows(a: seq<MenuState>, b: seq<MenuState>, entries: seq<string>)
    requires Offered(a, entries) && forall m :: m in a ==> m in b
    ensures Offered(b, entries)
  {
  }

  lemma NetbootKeepsRefs(s: State, mode: NetbootMode)
    requires RefsOk(s)
    ensures RefsOk(Netboot(s, mode))
  {
    var t := Netboot(s, mode);
    forall c | c in t.clients ensures Offered(t.menus, c.entries) {
      var i :| 0 <= i < |t.clients| && t.clients[i] == c;
      assert Offered(s.menus, s.clients[i].entries);
      forall e | e in c.entries ensures exists m :: m in t.menus && m.name == e {
        if e == NETBOOT {
          assert mode != Skip;
          assert t.menus[|t.menus| - 1].name == NETBOOT;
        } else {
          assert e in s.clients[i].entries;
          var m :| m in s.menus && m.name == e;
          assert m in MenusWithout(s.menus, NETBOOT);
        }
      }
    }
  }

  lemma RenamedStillOffered(menus: seq<MenuState>, k: nat, m: MenuState, entries: seq<string>)
    requires Offered(menus, entries) && k < |menus|
    ensures Offered(menus[k := m], RenamedIn(entries, menus[k].name, m.name))
  {
    var after, renamed := menus[k := m], RenamedIn(entries, menus[k].name, m.name);
    assert after[k] == m;
    forall e | e in renamed ensures exists x :: x in after && x.name == e {
      var j :| 0 <= j < |renamed| && renamed[j] == e;
      assert entries[j] in entries;
      if e != m.name {
        var i :| 0 <= i < |menus| && menus[i].name == e;
        assert after[i] == menus[i];
      }
    }
  }

  lemma EditMenuKeepsRefs(s: State, k: nat, input: MenuState)
    requires RefsOk(s) && k < |s.menus|
    ensures RefsOk(EditMenu(s, k, input))
  {
    hide Offered;
    var t := EditMenu(s, k, input);
    var o := s.menus[k].name;
    forall c | c in t.clients ensures Offered(t.menus, c.entries) {
      var i :| 0 <= i < |t.clients| && t.clients[i] == c;
      var before := s.clients[i].entries;
      assert s.clients[i] in s.clients;
      RenamedStillOffered(s.menus, k, EditedMenu(s.menus[k], input), before);
      assert o == input.name ==> RenamedIn(before, o, input.name) == before;
    }
  }

  lemma RemoveMenuKeepsRefs(s: State, k: nat)
    requires RefsOk(s) && k < |s.menus|
    ensures RefsOk(RemoveMenu(s, k))
  {
    var t := RemoveMenu(s, k);
    forall c | c in t.clients ensures Offered(t.menus, c.entries) {
      var i :| 0 <= i < |t.clients| && t.clients[i] == c;
      assert Offered(s.menus, s.clients[i].entries);
      forall e | e in c.entries ensures exists m :: m in t.menus && m.name == e {
        assert e in s.clients[i].entries && e != s.menus[k].name;
        var m :| m in s.menus && m.name == e;
        var x :| 0 <= x < |s.menus| && s.menus[x] == m;
        assert t.menus[if x < k then x else x - 1] == m;
      }
    }
  }

  lemma ClientEditsKeepRefs(s: State, e: Edit)
    requires RefsOk(s) && Possible(s, e) && (e.DoSetWildcard? || e.DoAddClient? || e.DoEditClient? || e.DoRemoveClient?)
    ensures RefsOk(Apply(s, e))
  {
    hide Offered, ParsedMAC;
    var t := Apply(s, e);
    forall c | c in t.clients ensures Offered(t.menus, c.entries) {
      if e.DoSetWildcard? && c !in s.clients { assert c.entries == e.entries; }
    }
  }

  /** No edit the prompts allow leaves a client entry without its menu. */
  lemma EditKeepsRefs(s: State, e: Edit)
    requires RefsOk(s) && Possible(s, e)
    ensures RefsOk(Apply(s, e))
  {
    match e
    case DoNetboot(m) => NetbootKeepsRefs(s, m);
    case DoAddMenu(m) =>
      forall c | c in s.clients ensures Offered(s.menus + [m], c.entries) {
        OfferedGrows(s.menus, s.menus + [m], c.entries);
      }
    case DoEditMenu(i, m) => EditMenuKeepsRefs(s, i, m);
    case DoRemoveMenu(i) => RemoveMenuKeepsRefs(s, i);
    case _ => ClientEditsKeepRefs(s, e);
  }

  /** The edits after which every default is still among its client's entries:
      all but skipping netboot.xyz while some client defaults to it, renaming a
      nameless menu, which turns every absent default into the new name, and,
      in states that no first run reaches, giving the wildcard entries without
      its default. */
  predicate SparesDefaults(s: State, e: Edit) {
    match e
    case DoNetboot(Skip) => forall c :: c in s.clients ==> c.default != NETBOOT
    case DoSetWildcard(es) =>
      WildcardLast(s.clients) ==> s.clients[|s.clients| - 1].default == "" || s.clients[|s.clients| - 1].default in es
    case DoEditMenu(i, m) =>
      i < |s.menus| && s.menus[i].name == "" ==>
        forall c :: c in s.clients && c.default == "" ==> "" in c.entries || m.name in c.entries
    case _ => true
  }

  lemma RenameAndDefault(c: ClientState, o: string, n: string)
    requires DefaultOk(c) && n != ""
    ensures DefaultOk(RenameClient(c, o, n)) <==> (o == "" && c.default == "" ==> "" in c.entries || n in c.entries)
  {
    var r := RenameClient(c, o, n);
    if c.default in c.entries {
      var j :| 0 <= j < |c.entries| && c.entries[j] == c.default;
      assert r.entries[j] in r.entries;
    }
    if o == "" && c.default == "" && ("" in c.entries || n in c.entries) {
      var j :| 0 <= j < |c.entries| && (c.entries[j] == "" || c.entries[j] == n);
      assert r.entries[j] == n && r.entries[j] in r.entries;
    }
  }

  lemma SkipAndDefaults(s: State)
    requires DefaultsOk(s)
    ensures DefaultsOk(Netboot(s, Skip)) <==> forall c :: c in s.clients ==> c.default != NETBOOT
  {
    var t := Netboot(s, Skip);
    if DefaultsOk(t) {
      forall c | c in s.clients ensures c.default != NETBOOT {
        var i :| 0 <= i < |s.clients| && s.clients[i] == c;
        assert DefaultOk(t.clients[i]);
      }
    } else {
      var i :| 0 <= i < |t.clients| && !DefaultOk(t.clients[i]);
      assert DefaultOk(s.clients[i]) && s.clients[i] in s.clients;
    }
  }

  lemma EditMenuAndDefaults(s: State, k: nat, input: MenuState)
    requires DefaultsOk(s) && Possible(s, DoEditMenu(k, input))
    ensures DefaultsOk(EditMenu(s, k, input)) <==> SparesDefaults(s, DoEditMenu(k, input))
  {
    var t, o := EditMenu(s, k, input), s.menus[k].name;
    if input.name != o {
      forall i | 0 <= i < |s.clients|
        ensures DefaultOk(t.clients[i]) <==>
                (o == "" && s.clients[i].default == "" ==>
                    "" in s.clients[i].entries || input.name in s.clients[i].entries)
      {
        RenameAndDefault(s.clients[i], o, input.name);
      }
    }
  }

  lemma MenuEditsAndDefaults(s: State, e: Edit)
    requires DefaultsOk(s) && Possible(s, e) && (e.DoRemoveMenu? || (e.DoNetboot? && e.mode != Skip))
    ensures DefaultsOk(Apply(s, e))
  {
    var t := Apply(s, e);
    forall i | 0 <= i < |t.clients| ensures DefaultOk(t.clients[i]) {
      assert DefaultOk(s.clients[i]);
    }
  }

  lemma ClientEditsAndDefaults(s: State, e: Edit)
    requires DefaultsOk(s) && Possible(s, e)
    requires e.DoSetWildcard? || e.DoAddClient? || e.DoEditClient? || e.DoRemoveClient?
    ensures DefaultsOk(Apply(s, e)) <==> SparesDefaults(s, e)
  {
    hide ParsedMAC, Offered;
    var t := Apply(s, e);
    var n := |s.clients| - 1;
    if e.DoSetWildcard? {
      if WildcardLast(s.clients) {
        assert DefaultOk(t.clients[n]) <==> SparesDefaults(s, e);
        assert forall i :: 0 <= i < n ==> t.clients[i] == s.clients[i];
      }
    } else {
      forall i | 0 <= i < |t.clients| ensures DefaultOk(t.clients[i]) {
        if e.DoAddClient? {
          var new_ := NewClient(e.client);
          assert DefaultOk(new_);
          if WildcardLast(s.clients) {
            assert t.clients[i] == if i < n then s.clients[i] else if i == n then new_ else s.clients[n];
          } else {
            assert t.clients[i] == if i <= n then s.clients[i] else new_;
          }
        } else if e.DoRemoveClient? {
          assert t.clients[i] == s.clients[if i < e.index then i else i + 1];
        } else {
          assert DefaultOk(NewClient(e.client));
        }
      }
    }
  }

  /** Which edits keep defaults valid, both ways. */
  lemma EditKeepsDefaultsExactly(s: State, e: Edit)
    requires DefaultsOk(s) && Possible(s, e)
    ensures DefaultsOk(Apply(s, e)) <==> SparesDefaults(s, e)
  {
    match e
    case DoNetboot(m) => if m == Skip { SkipAndDefaults(s); } else { MenuEditsAndDefaults(s, e); }
    case DoAddMenu(_) =>
    case DoEditMenu(i, m) => EditMenuAndDefaults(s, i, m);
    case DoRemoveMenu(_) => MenuEditsAndDefaults(s, e);
    case _ => ClientEditsAndDefaults(s, e);
  }

  // ---------------------------------------------------------------- defaults over whole sessions

  /** Every edit that happens spares the defaults of the state it happens in. */
  predicate Spared(s: State, edits: seq<Edit>)
    decreases |edits|
  {
    edits == []
    || (if Possible(s, edits[0]) then SparesDefaults(s, edits[0]) && Spared(Apply(s, edits[0]), edits[1..])
        else Spared(s, edits[1..]))
  }

  ghost predicate DefaultsOkThroughout(s: State, edits: seq<Edit>) {
    forall k :: 0 <= k <= |edits| ==> DefaultsOk(Run(s, edits[..k]))
  }

  lemma ThroughoutStep(s: State, edits: seq<Edit>)
    requires edits != []
    ensures DefaultsOkThroughout(s, edits) <==>
            DefaultsOk(s) && DefaultsOkThroughout(if Possible(s, edits[0]) then Apply(s, edits[0]) else s, edits[1..])
  {
    hide DefaultsOk, Possible, Apply;
    var t := if Possible(s, edits[0]) then Apply(s, edits[0]) else s;
    assert edits[..0] == [];
    forall k | 1 <= k <= |edits| ensures Run(s, edits[..k]) == Run(t, edits[1..][..k - 1]) {
      assert edits[..k][1..] == edits[1..][..k - 1];
    }
    if DefaultsOkThroughout(s, edits) {
      assert DefaultsOk(Run(s, edits[..0]));
      forall k | 0 <= k <= |edits[1..]| ensures DefaultsOk(Run(t, edits[1..][..k])) {
        assert DefaultsOk(Run(s, edits[..k + 1]));
      }
    }
  }

  /** Defaults are valid at every moment of a session, exactly when every edit
      of it spares them. */
  lemma {:induction false} SessionDefaultsExactly(s: State, edits: seq<Edit>)
    requires DefaultsOk(s)
    ensures DefaultsOkThroughout(s, edits) <==> Spared(s, edits)
    ensures Spared(s, edits) ==> DefaultsOk(Run(s, edits))
    decreases |edits|
  {
    hide DefaultsOk, Possible, Apply, SparesDefaults, DefaultsOkThroughout;
    if edits == [] {
      assert DefaultsOkThroughout(s, []) by { NothingHappens(s); }
    } else {
      ThroughoutStep(s, edits);
      if Possible(s, edits[0]) {
        EditKeepsDefaultsExactly(s, edits[0]);
        var t := Apply(s, edits[0]);
        if SparesDefaults(s, edits[0]) {
          SessionDefaultsExactly(t, edits[1..]);
        } else {
          assert !DefaultsOkThroughout(t, edits[1..]) by { AtTheStart(t, edits[1..]); }
        }
      } else {
        SessionDefaultsExactly(s, edits[1..]);
      }
    }
  }

  lemma NothingHappens(s: State)
    requires DefaultsOk(s)
    ensures DefaultsOkThroughout(s, [])
  {
    hide DefaultsOk;
  }

  lemma AtTheStart(s: State, edits: seq<Edit>)
    requires !DefaultsOk(s)
    ensures !DefaultsOkThroughout(s, edits)
  {
    hide DefaultsOk;
    assert edits[..0] == [];
    assert Run(s, edits[..0]) == s;
  }

  // The editor, RunEdit, never asks for the wildcard's entries on their own.

  predicate IsEditSession(edits: seq<Edit>) { forall e :: e in edits ==> !e.DoSetWildcard? }

  predicate Skips(e: Edit) { e.DoNetboot? && e.mode == Skip }

  /** No skip of netboot.xyz while some client defaults to it. */
  predicate SkipsSpare(s: State, edits: seq<Edit>)
    decreases |edits|
  {
    edits == []
    || (if Possible(s, edits[0])
        then (Skips(edits[0]) ==> forall c :: c in s.clients ==> c.default != NETBOOT)
            && SkipsSpare(Apply(s, edits[0]), edits[1..])
        else SkipsSpare(s, edits[1..]))
  }

  ghost predicate NamesOk(s: State) { forall m :: m in s.menus ==> m.name != "" }

  lemma EditKeepsNames(s: State, e: Edit)
    requires NamesOk(s) && Possible(s, e)
    ensures NamesOk(Apply(s, e))
  {
    hide ParsedMAC, Offered, ClientInputOk, EachClient, Netboot, NETBOOT, LOCAL;
    if e.DoNetboot? {
      NetbootKeepsNames(s, e.mode);
    } else {
      var t := Apply(s, e);
      forall m | m in t.menus ensures m.name != "" {
        var i :| 0 <= i < |t.menus| && t.menus[i] == m;
      }
    }
  }

  lemma NetbootKeepsNames(s: State, mode: NetbootMode)
    requires NamesOk(s)
    ensures NamesOk(Netboot(s, mode))
  {
    hide EachClient, MenusWithout;
    assert RemoteMenu().name != "" && LocalMenu().name != "";
    var t := Netboot(s, mode);
    forall m | m in t.menus ensures m.name != "" {
      var i :| 0 <= i < |t.menus| && t.menus[i] == m;
      assert m in MenusWithout(s.menus, NETBOOT) || m == RemoteMenu() || m == LocalMenu();
    }
  }

  /** From a configuration whose menus have names, an editing session keeps
      defaults valid throughout exactly when no skip takes a default away. */
  lemma {:induction false} EditSessionDefaultsExactly(s: State, edits: seq<Edit>)
    requires DefaultsOk(s) && NamesOk(s) && IsEditSession(edits)
    ensures DefaultsOkThroughout(s, edits) <==> SkipsSpare(s, edits)
  {
    hide DefaultsOk, DefaultsOkThroughout, Spared, SkipsSpare;
    SessionDefaultsExactly(s, edits);
    SparedIsSkips(s, edits);
  }

  lemma {:induction false} SparedIsSkips(s: State, edits: seq<Edit>)
    requires NamesOk(s) && IsEditSession(edits)
    ensures Spared(s, edits) <==> SkipsSpare(s, edits)
    decreases |edits|
  {
    hide Possible, Apply;
    if edits != [] {
      assert IsEditSession(edits[1..]) && edits[0] in edits;
      if Possible(s, edits[0]) {
        EditKeepsNames(s, edits[0]);
        SparedIsSkips(Apply(s, edits[0]), edits[1..]);
        if edits[0].DoEditMenu? {
          assert edits[0].index < |s.menus| ==> s.menus[edits[0].index] in s.menus;
        }
      } else {
        SparedIsSkips(s, edits[1..]);
      }
    }
  }

  const LOCAL_MENU := MenuState(LOCAL, "Boot from local disk", "exit", "", "", "", "", "", "")
  const DEFAULT_CLIENT := ClientState("*", "default", [LOCAL], "", 0)

  /** What a first run starts from. */
  function DefaultState(): State { State([LOCAL_MENU], [DEFAULT_CLIENT]) }

  const TAKES_DEFAULT: seq<Edit> :=
    [DoNetboot(Remote),
     DoEditClient(0, ClientInput("*", "default", [LOCAL, NETBOOT], NETBOOT, 30)),
     DoNetboot(Skip)]

  /** An editing session of the untouched default configuration that leaves the
      default client defaulting to an entry it no longer has. */
  lemma SkipTakesDefault(cfg: FullConfig)
    requires StateOf(cfg) == DefaultState()
    ensures IsEditSession(TAKES_DEFAULT) && NamesOk(StateOf(cfg)) && DefaultsOk(StateOf(cfg))
    ensures Run(StateOf(cfg), TAKES_DEFAULT).clients == [ClientState("*", "default", [LOCAL], NETBOOT, 30)]
    ensures !DefaultsOk(Run(StateOf(cfg), TAKES_DEFAULT))
  {
    hide Netboot, EditClient, Possible, StateOf;
    var asked := ClientState("*", "default", [LOCAL, NETBOOT], NETBOOT, 30);
    var s1 := State([LOCAL_MENU, RemoteMenu()], [DEFAULT_CLIENT.(entries := [LOCAL, NETBOOT])]);
    RemoteAdds();
    EditAsks(s1);
    var s2 := s1.(clients := [asked]);
    SkipDrops(s1.menus, asked);
    NetbootPossible();
    assert TAKES_DEFAULT[1..] == [TAKES_DEFAULT[1], TAKES_DEFAULT[2]];
    assert TAKES_DEFAULT[1..][1..] == [TAKES_DEFAULT[2]] && [TAKES_DEFAULT[2]][1..] == [];
    assert Run(s2, [TAKES_DEFAULT[2]]) == Run(Netboot(s2, Skip), []);
    assert Run(s1, TAKES_DEFAULT[1..]) == Run(s2, [TAKES_DEFAULT[2]]);
    assert !DefaultOk(Run(StateOf(cfg), TAKES_DEFAULT).clients[0]);
  }

  lemma NetbootPossible()
    ensures forall s, m :: Possible(s, DoNetboot(m))
  {
  }

  lemma RemoteAdds()
    ensures Netboot(DefaultState(), Remote)
         == State([LOCAL_MENU, RemoteMenu()], [DEFAULT_CLIENT.(entries := [LOCAL, NETBOOT])])
  {
    hide MenusWithout, Without, EachClient, RemoteMenu, LOCAL_MENU;
    OnlyLocalStays();
    NetbootComes();
    assert EachClient([DEFAULT_CLIENT], WithNetboot) == [WithNetboot(DEFAULT_CLIENT)] by {
      EachOne(DEFAULT_CLIENT, WithNetboot);
    }
  }

  lemma EachOne(c: ClientState, f: ClientState -> ClientState)
    ensures EachClient([c], f) == [f(c)]
  {
  }

  lemma NetbootComes()
    ensures WithNetboot(DEFAULT_CLIENT) == DEFAULT_CLIENT.(entries := [LOCAL, NETBOOT])
  {
    WithoutNone([LOCAL], NETBOOT);
  }

  lemma WithoutNone(entries: seq<string>, x: string)
    requires |entries| == 1 && entries[0] != x
    ensures Without(entries, x) == entries
  {
    assert entries[1..] == [];
  }

  lemma OnlyLocalStays()
    ensures MenusWithout([LOCAL_MENU], NETBOOT) == [LOCAL_MENU]
  {
    var ms := [LOCAL_MENU];
    assert ms[1..] == [] && ms[0].name != NETBOOT;
    assert MenusWithout(ms, NETBOOT) == [ms[0]] + MenusWithout(ms[1..], NETBOOT);
  }

  lemma EditAsks(s: State)
    requires s.menus == [LOCAL_MENU, RemoteMenu()] && s.clients == [DEFAULT_CLIENT.(entries := [LOCAL, NETBOOT])]
    ensures Possible(s, TAKES_DEFAULT[1])
    ensures EditClient(s, 0, TAKES_DEFAULT[1].client)
              == s.(clients := [ClientState("*", "default", [LOCAL, NETBOOT], NETBOOT, 30)])
  {
    var es := [LOCAL, NETBOOT];
    forall e | e in es ensures exists m :: m in s.menus && m.name == e {
      assert s.menus[0].name == LOCAL && s.menus[1].name == NETBOOT;
    }
    assert es[1] == NETBOOT;
  }

  lemma SkipDrops(menus: seq<MenuState>, c: ClientState)
    requires c.entries == [LOCAL, NETBOOT]
    ensures Netboot(State(menus, [c]), Skip).clients == [c.(entries := [LOCAL])]
  {
    assert [LOCAL, NETBOOT][1..] == [NETBOOT] && [NETBOOT][1..] == [];
    assert Without([NETBOOT], NETBOOT) == [];
    assert Without([LOCAL, NETBOOT], NETBOOT) == [LOCAL];
    assert EachClient([c], NoNetboot) == [NoNetboot(c)];
  }

  /** The configuration that a first run writes when nothing is added. */
  lemma DefaultIsLoaded(cfg: FullConfig)
    requires cfg.menus == [MenuEntry(LOCAL, "Boot from local disk", "", Exit, NO_HTTP, NO_BOOT, "")]
    requires cfg.clients == [Client(WILDCARD, "default", MenuConfig([LOCAL], "", 0), None, map[], true, "")]
    ensures StateOf(cfg) == DefaultState() && Consistent(cfg) && Writable(cfg)
  {
    assert Named(cfg.menus, LOCAL) by { assert cfg.menus[0].name == LOCAL; }
  }

  // ---------------------------------------------------------------- the first run

  /** Run: one netboot question, then new menus, the wildcard's entries, and new
      clients. */
  function FirstRun(mode: NetbootMode, menus: seq<MenuState>, wildcard: seq<string>,
                    clients: seq<ClientInput>): seq<Edit> {
    [DoNetboot(mode)]
    + seq(|menus|, i requires 0 <= i < |menus| => DoAddMenu(menus[i]))
    + [DoSetWildcard(wildcard)]
    + seq(|clients|, i requires 0 <= i < |clients| => DoAddClient(clients[i]))
  }

  predicate OnlyAdds(edits: seq<Edit>) {
    forall e :: e in edits ==> e.DoAddMenu? || e.DoSetWildcard? || e.DoAddClient?
  }

  /** The wildcard is last and without a default. */
  predicate PlainWildcard(s: State) {
    WildcardLast(s.clients) && s.clients[|s.clients| - 1].default == ""
  }

  lemma {:induction false} AddsSpare(s: State, edits: seq<Edit>)
    requires OnlyAdds(edits) && PlainWildcard(s)
    ensures Spared(s, edits) && PlainWildcard(Run(s, edits))
    decreases |edits|
  {
    hide Possible;
    if edits != [] {
      assert OnlyAdds(edits[1..]) && edits[0] in edits;
      if Possible(s, edits[0]) {
        AddKeepsPlain(s, edits[0]);
        AddsSpare(Apply(s, edits[0]), edits[1..]);
      } else {
        AddsSpare(s, edits[1..]);
      }
    }
  }

  lemma AddKeepsPlain(s: State, e: Edit)
    requires Possible(s, e) && OnlyAdds([e]) && PlainWildcard(s)
    ensures PlainWildcard(Apply(s, e)) && SparesDefaults(s, e)
  {
    hide ParsedMAC, Offered, ClientInputOk, MenuInputOk;
    assert e in [e];
  }

  /** However a first run goes, its defaults are valid throughout, its wildcard
      stays last, so that new clients always have something to go before, every
      entry names a menu and every MAC is readable. */
  lemma FirstRunKeeps(mode: NetbootMode, menus: seq<MenuState>, wildcard: seq<string>, clients: seq<ClientInput>)
    ensures var edits := FirstRun(mode, menus, wildcard, clients);
            var t := Run(DefaultState(), edits);
            && DefaultsOkThroughout(DefaultState(), edits) && RefsOk(t) && MacsOk(t)
            && forall k :: 0 <= k <= |edits| ==> WildcardLast(Run(DefaultState(), edits[..k]).clients)
  {
    hide DefaultsOkThroughout, Spared, Netboot, RefsOk, MacsOk, Run;
    var edits, s := FirstRun(mode, menus, wildcard, clients), DefaultState();
    DefaultStateOk();
    assert edits[0] == DoNetboot(mode) && OnlyAdds(edits[1..]);
    NetbootKeepsPlain(s, mode);
    AddsSpare(Netboot(s, mode), edits[1..]);
    assert Spared(s, edits) by { SparedFirst(s, edits, mode); }
    SessionDefaultsExactly(s, edits);
    RunKeeps(s, edits);
    forall k | 0 <= k <= |edits| ensures WildcardLast(Run(s, edits[..k]).clients) {
      RunKeeps(s, edits[..k]);
    }
  }

  lemma SparedFirst(s: State, edits: seq<Edit>, mode: NetbootMode)
    requires edits != [] && edits[0] == DoNetboot(mode)
    ensures Spared(Netboot(s, mode), edits[1..]) && (forall c :: c in s.clients ==> c.default != NETBOOT) ==>
              Spared(s, edits)
  {
    hide Netboot;
  }

  lemma NetbootKeepsPlain(s: State, mode: NetbootMode)
    requires PlainWildcard(s)
    ensures PlainWildcard(Netboot(s, mode))
  {
    hide Without, MenusWithout, EachClient, RemoteMenu, LocalMenu, NETBOOT, LOCAL;
    EachKeepsPlain(s.clients, NoNetboot);
    EachKeepsPlain(s.clients, WithNetboot);
  }

  lemma EachKeepsPlain(cs: seq<ClientState>, f: ClientState -> ClientState)
    requires cs != [] && forall c :: f(c).mac == c.mac && f(c).default == c.default
    ensures |EachClient(cs, f)| == |cs|
    ensures EachClient(cs, f)[|cs| - 1].mac == cs[|cs| - 1].mac
    ensures EachClient(cs, f)[|cs| - 1].default == cs[|cs| - 1].default
  {
  }

  lemma DefaultStateOk()
    ensures DefaultsOk(DefaultState()) && RefsOk(DefaultState()) && MacsOk(DefaultState())
    ensures PlainWildcard(DefaultState())
    ensures forall c :: c in DefaultState().clients ==> c.default != NETBOOT
  {
    hide ParsedMAC;
    WildcardParses();
    var s := DefaultState();
    forall e | e in DEFAULT_CLIENT.entries ensures exists m :: m in s.menus && m.name == e {
      assert s.menus[0].name == LOCAL;
    }
  }

  lemma EachKeepsLast(cs: seq<ClientState>, f: ClientState -> ClientState)
    requires WildcardLast(cs) && forall c :: f(c).mac == c.mac
    ensures WildcardLast(EachClient(cs, f))
  {
  }

  lemma LastStays(s: State, e: Edit)
    requires Possible(s, e) && WildcardLast(s.clients)
    ensures WildcardLast(Apply(s, e).clients)
  {
    hide WildcardLast, Netboot, EditMenu, RemoveMenu, AddMenu, AddClient, EditClient, RemoveClient, SetWildcardEntries;
    match e
    case DoNetboot(m) => NetbootKeepsLast(s, m);
    case DoEditMenu(i, m) => EditMenuKeepsLast(s, i, m);
    case DoRemoveMenu(i) => RemoveMenuKeepsLast(s, i);
    case _ => ClientEditsKeepLast(s, e);
  }

  lemma NetbootKeepsLast(s: State, mode: NetbootMode)
    requires WildcardLast(s.clients)
    ensures WildcardLast(Netboot(s, mode).clients)
  {
    hide MenusWithout, Without;
    EachKeepsLast(s.clients, NoNetboot);
    EachKeepsLast(s.clients, WithNetboot);
  }

  lemma EditMenuKeepsLast(s: State, i: nat, m: MenuState)
    requires WildcardLast(s.clients) && i < |s.menus|
    ensures WildcardLast(EditMenu(s, i, m).clients)
  {
  }

  lemma RemoveMenuKeepsLast(s: State, i: nat)
    requires WildcardLast(s.clients) && i < |s.menus|
    ensures WildcardLast(RemoveMenu(s, i).clients)
  {
    hide Without;
  }

  lemma ClientEditsKeepLast(s: State, e: Edit)
    requires Possible(s, e) && WildcardLast(s.clients)
    requires e.DoAddMenu? || e.DoSetWildcard? || e.DoAddClient? || e.DoEditClient? || e.DoRemoveClient?
    ensures WildcardLast(Apply(s, e).clients)
  {
    hide ParsedMAC, Offered, ClientInputOk, MenuInputOk, Netboot, EditMenu, RemoveMenu;
  }

  /** Where the clients of an edited state come from. */
  lemma ClientOrigin(s: State, e: Edit)
    requires Possible(s, e)
    ensures forall c :: c in Apply(s, e).clients ==>
              SameMac(s.clients, c.mac) || (e.DoAddClient? && c.mac == e.client.mac)
  {
    hide SameMac, EachClient, NewClient, MenuInputOk, ClientInputOk, ParsedMAC, Offered, EditedMenu, MenusWithout;
    hide RemoteMenu, LocalMenu, NETBOOT, LOCAL;
    match e
    case DoNetboot(m) =>
      EachHasMac(s.clients, NoNetboot);
      EachHasMac(s.clients, WithNetboot);
    case DoEditMenu(i, m) =>
      EachHasMac(s.clients, (c: ClientState) => RenameClient(c, s.menus[i].name, m.name));
      EachHasMac(s.clients, (c: ClientState) => c);
      OwnMac(s.clients);
    case DoRemoveMenu(i) => EachHasMac(s.clients, (c: ClientState) => DropEntry(c, s.menus[i].name));
    case DoAddMenu(_) => OwnMac(s.clients);
    case _ => ClientEditOrigin(s, e);
  }

  ghost predicate SameMac(cs: seq<ClientState>, mac: string) { exists d :: d in cs && d.mac == mac }

  lemma OwnMac(cs: seq<ClientState>)
    ensures forall c :: c in cs ==> SameMac(cs, c.mac)
  {
  }

  lemma EachHasMac(cs: seq<ClientState>, f: ClientState -> ClientState)
    requires forall c :: f(c).mac == c.mac
    ensures forall c :: c in EachClient(cs, f) ==> SameMac(cs, c.mac)
  {
    forall c | c in EachClient(cs, f) ensures SameMac(cs, c.mac) {
      var i :| 0 <= i < |cs| && EachClient(cs, f)[i] == c;
      assert cs[i] in cs && cs[i].mac == c.mac;
    }
  }

  /** One client replaced by one of the same MAC. */
  lemma ReplacedOrigin(cs: seq<ClientState>, i: nat, d: ClientState)
    requires i < |cs| && d.mac == cs[i].mac
    ensures forall c :: c in cs[i := d] ==> SameMac(cs, c.mac)
  {
    assert cs[i] in cs;
    forall c | c in cs[i := d] ensures SameMac(cs, c.mac) {
      assert c == d || c in cs;
    }
  }

  lemma ClientEditOrigin(s: State, e: Edit)
    requires Possible(s, e) && (e.DoSetWildcard? || e.DoAddClient? || e.DoEditClient? || e.DoRemoveClient?)
    ensures forall c :: c in Apply(s, e).clients ==>
              SameMac(s.clients, c.mac) || (e.DoAddClient? && c.mac == e.client.mac)
  {
    hide ParsedMAC, Offered, ClientInputOk, SameMac, NETBOOT, LOCAL;
    OwnMac(s.clients);
    var cs, n := s.clients, |s.clients| - 1;
    match e
    case DoSetWildcard(es) => if cs != [] { ReplacedOrigin(cs, n, cs[n].(entries := es)); }
    case DoEditClient(i, c) => ReplacedOrigin(cs, i, NewClient(c).(mac := cs[i].mac));
    case DoAddClient(c) => assert forall d :: d in Apply(s, e).clients ==> d in cs || d == NewClient(c);
    case DoRemoveClient(i) => assert forall d :: d in Apply(s, e).clients ==> d in cs;
  }

  /** A wildcard in last place stays last, and every MAC stays readable. */
  lemma EditKeepsWildcardLast(s: State, e: Edit)
    requires Possible(s, e)
    ensures WildcardLast(s.clients) ==> WildcardLast(Apply(s, e).clients)
    ensures MacsOk(s) ==> MacsOk(Apply(s, e))
  {
    hide ParsedMAC, WildcardLast, Apply;
    if WildcardLast(s.clients) {
      LastStays(s, e);
    }
    if MacsOk(s) {
      MacsStay(s, e);
    }
  }

  lemma MacsStay(s: State, e: Edit)
    requires Possible(s, e) && MacsOk(s)
    ensures MacsOk(Apply(s, e))
  {
    hide ParsedMAC, WildcardLast, Apply;
    ClientOrigin(s, e);
  }

  lemma {:induction false} RunKeeps(s: State, edits: seq<Edit>)
    requires RefsOk(s) && MacsOk(s)
    ensures RefsOk(Run(s, edits)) && MacsOk(Run(s, edits))
    ensures WildcardLast(s.clients) ==> WildcardLast(Run(s, edits).clients)
    decreases |edits|
  {
    hide RefsOk, MacsOk, WildcardLast, Apply, Possible;
    if edits != [] {
      if Possible(s, edits[0]) {
        EditKeepsRefs(s, edits[0]);
        EditKeepsWildcardLast(s, edits[0]);
        RunKeeps(Apply(s, edits[0]), edits[1..]);
      } else {
        RunKeeps(s, edits[1..]);
      }
    }
  }

  // ---------------------------------------------------------------- to and from configurations

  function MenuEntryOf(m: MenuState): MenuEntry {
    MenuEntry(m.name, m.labelText, "", ParseMenuType(m.kind).GetOr(Install), MenuHTTP(m.httpFiles, m.httpPath, ""),
              NO_BOOT.(kernel := m.kernel, initrd := m.initrd, cmdline := m.cmdline, chain := m.chain), "")
  }

  function ClientOf(c: ClientState): Client {
    Client(ParsedMAC(c.mac).GetOr([]), c.name, MenuConfig(c.entries, c.default, c.timeout), None, map[], true, "")
  }

  /** The menus and clients of StateToConfig. */
  function EntriesOf(ms: seq<MenuState>): (r: seq<MenuEntry>)
    ensures |r| == |ms| && forall i :: 0 <= i < |ms| ==> r[i] == MenuEntryOf(ms[i])
  {
    seq(|ms|, i requires 0 <= i < |ms| => MenuEntryOf(ms[i]))
  }

  function ClientsFrom(cs: seq<ClientState>): (r: seq<Client>)
    ensures |r| == |cs| && forall i :: 0 <= i < |cs| ==> r[i] == ClientOf(cs[i])
  {
    seq(|cs|, i requires 0 <= i < |cs| => ClientOf(cs[i]))
  }

  function MenuStateOf(m: MenuEntry): MenuState {
    MenuState(m.name, m.labelText, TypeName(m.kind), m.boot.kernel, m.boot.initrd, m.boot.cmdline, m.boot.chain,
              m.http.path, m.http.files)
  }

  function ClientStateOf(c: Client): ClientState {
    ClientState(if c.IsWildcard() then "*" else MacString(c.mac),
                c.name, c.menu.entries, c.menu.default, c.menu.timeout)
  }

  /** The menus and clients of ConfigToState. */
  function StateOf(cfg: FullConfig): State {
    State(
      seq(|cfg.menus|, i requires 0 <= i < |cfg.menus| => MenuStateOf(cfg.menus[i])),
      seq(|cfg.clients|, i requires 0 <= i < |cfg.clients| => ClientStateOf(cfg.clients[i])))
  }

  method StateToConfig(s: State) returns (menus: seq<MenuEntry>, clients: seq<Client>)
    ensures menus == EntriesOf(s.menus) && clients == ClientsFrom(s.clients)
  {
    hide MenuEntryOf, ClientOf, ParsedMAC;
    menus := [];
    for i := 0 to |s.menus|
      invariant menus == EntriesOf(s.menus[..i])
    {
      menus := menus + [MenuEntryOf(s.menus[i])];
    }
    clients := [];
    for i := 0 to |s.clients|
      invariant clients == ClientsFrom(s.clients[..i])
    {
      clients := clients + [ClientOf(s.clients[i])];
    }
  }

  method ConfigToState(cfg: FullConfig) returns (s: State)
    ensures s == StateOf(cfg)
  {
    hide MenuStateOf, ClientStateOf;
    var menus: seq<MenuState> := [];
    for i := 0 to |cfg.menus|
      invariant |menus| == i && forall k :: 0 <= k < i ==> menus[k] == MenuStateOf(cfg.menus[k])
    {
      menus := menus + [MenuStateOf(cfg.menus[i])];
    }
    var clients: seq<ClientState> := [];
    for i := 0 to |cfg.clients|
      invariant |clients| == i && forall k :: 0 <= k < i ==> clients[k] == ClientStateOf(cfg.clients[k])
    {
      clients := clients + [ClientStateOf(cfg.clients[i])];
    }
    s := State(menus, clients);
  }

  const STANDARD_FILES := BootFiles("ipxe.efi", "ipxe-i386.efi", "undionly.kpxe", "ipxe-arm64.efi")

  /** Noted are the architectures that have a file. */
  predicate Noted(archs: seq<string>, f: BootFiles) {
    && ("uefi_x64" in archs <==> f.uefx64 != "") && ("uefi_x86" in archs <==> f.uefx86 != "")
    && ("bios" in archs <==> f.bios != "") && ("arm64" in archs <==> f.arm64 != "")
  }

  method ArchsOf(f: BootFiles) returns (archs: seq<string>)
    ensures Noted(archs, f)
  {
    archs := [];
    if f.uefx64 != "" {
      archs := archs + ["uefi_x64"];
    }
    if f.uefx86 != "" {
      archs := archs + ["uefi_x86"];
    }
    if f.bios != "" {
      archs := archs + ["bios"];
    }
    if f.arm64 != "" {
      archs := archs + ["arm64"];
    }
  }

  function FilesOf(archs: seq<string>): BootFiles {
    BootFiles(if "uefi_x64" in archs then STANDARD_FILES.uefx64 else "",
              if "uefi_x86" in archs then STANDARD_FILES.uefx86 else "",
              if "bios" in archs then STANDARD_FILES.bios else "",
              if "arm64" in archs then STANDARD_FILES.arm64 else "")
  }

  method FilesFor(archs: seq<string>) returns (f: BootFiles)
    ensures f == FilesOf(archs)
  {
    f := BootFiles("", "", "", "");
    for i := 0 to |archs|
      invariant f == FilesOf(archs[..i])
    {
      assert archs[..i + 1] == archs[..i] + [archs[i]];
      if archs[i] == "uefi_x64" {
        f := f.(uefx64 := "ipxe.efi");
      } else if archs[i] == "uefi_x86" {
        f := f.(uefx86 := "ipxe-i386.efi");
      } else if archs[i] == "bios" {
        f := f.(bios := "undionly.kpxe");
      } else if archs[i] == "arm64" {
        f := f.(arm64 := "ipxe-arm64.efi");
      }
    }
    assert archs[..|archs|] == archs;
  }

  /** After a session without edits a machine is served the same boot file
      exactly when there was none or the standard one. */
  lemma UntouchedFilesExactly(f: BootFiles, archs: seq<string>, arch: ClientArch)
    requires Noted(archs, f)
    ensures FilesOf(archs).FileForArch(arch) == f.FileForArch(arch)
            <==> f.FileForArch(arch) in ["", STANDARD_FILES.FileForArch(arch)]
    ensures FilesOf(archs).FileForArch(arch) == "" <==> f.FileForArch(arch) == ""
  {
    var two := ["", STANDARD_FILES.FileForArch(arch)];
    assert two[0] == "" && two[1] == STANDARD_FILES.FileForArch(arch);
  }

  // ---------------------------------------------------------------- what a session without edits changes

  /** A client comes through the wizard unchanged exactly when it has no boot
      files, no variables and is enabled: a disabled one is switched on. */
  lemma UntouchedClientExactly(c: Client)
    ensures ClientOf(ClientStateOf(c)).enabled
    ensures ClientOf(ClientStateOf(c)) == c.(sourceFile := "") <==>
            c.enabled && c.vars == map[] && c.bootloader.None? && (c.mac == [] || KnownLength(c.mac))
  {
    hide ParsedMAC, MacString;
    MacRoundTrip(c.mac);
    WildcardParses();
  }

  /** A wimboot entry that also says the same as kernel and initrd. */
  predicate SpelledOut(m: MenuEntry) {
    && m.boot.kernel == "wimboot" && m.boot.cmdline == ""
    && m.boot.files == (if m.boot.initrd == "" then [] else [m.boot.initrd])
  }

  /** What the wizard's menu state does not hold makes no difference. */
  predicate HeldByWizard(m: MenuEntry) {
    || m.kind.Exit? || m.boot.chain != ""
    || (if m.boot.loader == "wimboot"
        then SpelledOut(m)
        else m.boot.binary == "" && m.boot.image == "")
  }

  lemma SameURLSameFile(m: MenuEntry, f: string, g: string, vars: Vars)
    requires G.FileTemplate(m, f, vars) == G.FileTemplate(m, g, vars)
    ensures f == g
  {
    var prefix := G.FileTemplate(m, "", vars);
    assert G.FileTemplate(m, f, vars) == prefix + f && G.FileTemplate(m, g, vars) == prefix + g;
    assert (prefix + f)[|prefix|..] == f && (prefix + g)[|prefix|..] == g;
  }

  /** An entry that went through the wizard unedited asks for the same actions,
      before substitution, exactly when the wizard holds all that its boot uses. */
  lemma UntouchedMenuBootsExactly(m: MenuEntry, vars: Vars)
    ensures G.MenuActions(MenuEntryOf(MenuStateOf(m)), vars) == G.MenuActions(m, vars) <==> HeldByWizard(m)
  {
    hide G.FileTemplate, TypeName, ParseMenuType;
    MenuTypeRoundTrip(m.kind);
    var n := MenuEntryOf(MenuStateOf(m));
    forall f ensures G.FileTemplate(n, f, vars) == G.FileTemplate(m, f, vars) { SameNameSameURL(n, m, f, vars); }
    if !m.kind.Exit? && m.boot.chain == "" {
      if m.boot.loader == "wimboot" {
        WimbootThroughWizard(m, n, vars);
      } else {
        PlainThroughWizard(m, n, vars);
      }
    }
  }

  lemma SameNameSameURL(n: MenuEntry, m: MenuEntry, f: string, vars: Vars)
    requires n.http.path == m.http.path && n.name == m.name
    ensures G.FileTemplate(n, f, vars) == G.FileTemplate(m, f, vars)
  {
  }

  lemma PlainThroughWizard(m: MenuEntry, n: MenuEntry, vars: Vars)
    requires n.boot == NO_BOOT.(kernel := m.boot.kernel, initrd := m.boot.initrd, cmdline := m.boot.cmdline)
    requires forall f :: G.FileTemplate(n, f, vars) == G.FileTemplate(m, f, vars)
    requires m.boot.chain == "" && m.boot.loader != "wimboot"
    ensures G.BootActions(n, vars) == G.BootActions(m, vars) <==> m.boot.binary == "" && m.boot.image == ""
  {
    hide G.FileTemplate;
    var a, b := G.BootActions(n, vars), G.BootActions(m, vars);
    assert a[|a| - 1] == G.BootNow;
    assert m.boot.binary != "" ==> b[|b| - 1].RunBinary?;
    assert m.boot.binary == "" && m.boot.image != "" ==> |b| == |a| + 1;
  }

  lemma WimbootThroughWizard(m: MenuEntry, n: MenuEntry, vars: Vars)
    requires n.boot == NO_BOOT.(kernel := m.boot.kernel, initrd := m.boot.initrd, cmdline := m.boot.cmdline)
    requires forall f :: G.FileTemplate(n, f, vars) == G.FileTemplate(m, f, vars)
    requires m.boot.chain == "" && m.boot.loader == "wimboot"
    ensures G.BootActions(n, vars) == G.BootActions(m, vars) <==> SpelledOut(m)
  {
    hide G.FileTemplate, G.BootActions;
    if SpelledOut(m) {
      SpelledOutIsSame(m, n, vars);
    }
    if G.BootActions(n, vars) == G.BootActions(m, vars) {
      SameIsSpelledOut(m, n, vars);
    }
  }

  lemma SpelledOutIsSame(m: MenuEntry, n: MenuEntry, vars: Vars)
    requires n.boot == NO_BOOT.(kernel := m.boot.kernel, initrd := m.boot.initrd, cmdline := m.boot.cmdline)
    requires forall f :: G.FileTemplate(n, f, vars) == G.FileTemplate(m, f, vars)
    requires m.boot.loader == "wimboot" && SpelledOut(m)
    ensures G.BootActions(n, vars) == G.BootActions(m, vars)
  {
    hide G.FileTemplate;
    var load := G.LoadKernel(G.FileTemplate(m, "wimboot", vars), "");
    var rest := G.Given(m.boot.initrd, G.LoadFile(G.FileTemplate(m, m.boot.initrd, vars)));
    assert G.LoadFiles(m, m.boot.files, vars) == rest;
    assert G.BootActions(m, vars) == [load] + rest + [G.BootNow];
    assert G.BootActions(n, vars) == [load] + rest + [] + [G.BootNow];
  }

  lemma SameIsSpelledOut(m: MenuEntry, n: MenuEntry, vars: Vars)
    requires n.boot == NO_BOOT.(kernel := m.boot.kernel, initrd := m.boot.initrd, cmdline := m.boot.cmdline)
    requires forall f :: G.FileTemplate(n, f, vars) == G.FileTemplate(m, f, vars)
    requires m.boot.loader == "wimboot" && G.BootActions(n, vars) == G.BootActions(m, vars)
    ensures SpelledOut(m)
  {
    hide G.FileTemplate;
    var a, b := G.BootActions(n, vars), G.BootActions(m, vars);
    assert b[0] == G.LoadKernel(G.FileTemplate(m, "wimboot", vars), "") && |b| == |m.boot.files| + 2;
    assert a[0] == G.LoadKernel(G.FileTemplate(m, m.boot.kernel, vars), m.boot.cmdline);
    SameURLSameFile(m, m.boot.kernel, "wimboot", vars);
    if m.boot.initrd != "" {
      assert b[1] == G.LoadFile(G.FileTemplate(m, m.boot.files[0], vars));
      assert a[1] == G.LoadFile(G.FileTemplate(m, m.boot.initrd, vars));
      SameURLSameFile(m, m.boot.initrd, m.boot.files[0], vars);
    }
  }

  lemma LoadedStateOk(cfg: FullConfig)
    requires Consistent(cfg) && Writable(cfg)
    ensures RefsOk(StateOf(cfg)) && MacsOk(StateOf(cfg))
    ensures cfg.Valid() ==> DefaultsOk(StateOf(cfg))
  {
    hide ParsedMAC, MacString, DistinctBy;
    var s := StateOf(cfg);
    WildcardParses();
    forall c | c in s.clients ensures Offered(s.menus, c.entries) && ParsedMAC(c.mac).Some? {
      var i :| 0 <= i < |s.clients| && s.clients[i] == c;
      assert cfg.clients[i] in cfg.clients;
      MacRoundTrip(cfg.clients[i].mac);
      forall e | e in c.entries ensures exists m :: m in s.menus && m.name == e {
        assert Named(cfg.menus, e);
        var j :| 0 <= j < |cfg.menus| && cfg.menus[j].name == e;
        assert s.menus[j] in s.menus;
      }
    }
    if cfg.Valid() {
      forall i | 0 <= i < |s.clients| ensures DefaultOk(s.clients[i]) {
        assert cfg.clients[i] in cfg.clients;
      }
    }
  }

  lemma StateRefers(s: State)
    requires RefsOk(s)
    ensures Refers(EntriesOf(s.menus), ClientsFrom(s.clients))
  {
    hide ParsedMAC, ParseMenuType;
    var menus, clients := EntriesOf(s.menus), ClientsFrom(s.clients);
    forall c, e | c in clients && e in c.menu.entries ensures Named(menus, e) {
      var i :| 0 <= i < |clients| && clients[i] == c;
      assert s.clients[i] in s.clients;
      var j :| 0 <= j < |s.menus| && s.menus[j].name == e;
      assert menus[j] in menus;
    }
  }

  /** After any session every client entry still names a menu. */
  lemma SessionRefers(cfg: FullConfig, edits: seq<Edit>, out: FullConfig)
    requires Consistent(cfg) && Writable(cfg)
    requires out.menus == EntriesOf(Run(StateOf(cfg), edits).menus)
    requires out.clients == ClientsFrom(Run(StateOf(cfg), edits).clients)
    ensures Refers(out.menus, out.clients)
  {
    hide RefsOk, MacsOk, WildcardLast, Run, Writable, Consistent;
    LoadedStateOk(cfg);
    RunKeeps(StateOf(cfg), edits);
    StateRefers(Run(StateOf(cfg), edits));
  }

  lemma StateWritable(s: State, out: FullConfig)
    requires MacsOk(s) && out.menus == EntriesOf(s.menus) && out.clients == ClientsFrom(s.clients)
    ensures Writable(out)
  {
    hide ParsedMAC;
    forall c | c in out.clients ensures KnownLength(c.mac) {
      var i :| 0 <= i < |out.clients| && out.clients[i] == c;
      assert s.clients[i] in s.clients;
      ParsedLength(s.clients[i].mac);
    }
    forall m | m in out.menus ensures !m.kind.OtherType? {
      var i :| 0 <= i < |out.menus| && out.menus[i] == m;
    }
  }

  lemma ParsedLength(t: string)
    ensures ParsedMAC(t).Some? ==> KnownLength(ParsedMAC(t).value)
  {
  }
}
