/** What makes the state of the wizard valid, menu by menu and client by client,
    and what each kind of edit, with netboot.xyz, an added, edited or removed menu
    or client, or new entries for the wildcard, does to that: first the parts,
    then one edit after the other. */
module ValidEdits {
  import opened Domain
  import opened Mac
  import opened SaveLoad
  import opened Wizard

  // ---------------------------------------------------------------- states

  predicate MenuStateValid(m: MenuState) {
    && m.name != "" && m.labelText != ""
    && match ParseMenuType(m.kind).GetOr(Install)
       case Exit => true
       case Chain => m.chain != ""
       case _ => m.kernel != ""
  }

  predicate ClientStateValid(c: ClientState) {
    ParsedMAC(c.mac).Some? && c.name != "" && c.entries != [] && c.timeout >= 0 && DefaultOk(c)
  }

  ghost predicate StateValid(s: State) {
    && (forall i :: 0 <= i < |s.menus| ==> MenuStateValid(s.menus[i]))
    && (forall i :: 0 <= i < |s.clients| ==> ClientStateValid(s.clients[i]))
  }

  predicate ServicesValid(cfg: FullConfig) {
    cfg.server.Valid() && cfg.dhcpProxy.Valid() && cfg.tftp.Valid() && cfg.http.Valid() && cfg.bootloader.Valid()
  }

  predicate EntriesValid(menus: seq<MenuEntry>, clients: seq<Client>) {
    (forall m :: m in menus ==> m.Valid()) && (forall c :: c in clients ==> c.Valid())
  }

  lemma MenuValidExactly(m: MenuState)
    ensures MenuEntryOf(m).Valid() <==> MenuStateValid(m)
  {
  }

  lemma ClientValidExactly(c: ClientState)
    ensures ClientOf(c).Valid() <==> ClientStateValid(c)
  {
    hide ParsedMAC;
    ParsedLength(c.mac);
  }

  lemma ValidDefaults(s: State)
    ensures StateValid(s) ==> DefaultsOk(s)
  {
    hide ParsedMAC, MenuStateValid;
  }

  lemma ValidParts(cfg: FullConfig)
    ensures cfg.Valid() <==> ServicesValid(cfg) && EntriesValid(cfg.menus, cfg.clients)
  {
  }

  lemma EachMember(menus: seq<MenuEntry>, clients: seq<Client>)
    ensures EntriesValid(menus, clients) <==>
              && (forall i :: 0 <= i < |menus| ==> menus[i].Valid())
              && (forall i :: 0 <= i < |clients| ==> clients[i].Valid())
  {
    if forall i :: 0 <= i < |menus| ==> menus[i].Valid() {
      forall m | m in menus ensures m.Valid() {
        var i :| 0 <= i < |menus| && menus[i] == m;
      }
    }
    if forall i :: 0 <= i < |clients| ==> clients[i].Valid() {
      forall c | c in clients ensures c.Valid() {
        var i :| 0 <= i < |clients| && clients[i] == c;
      }
    }
  }

  lemma EntriesJoin(ma: seq<MenuEntry>, mb: seq<MenuEntry>, mc: seq<MenuEntry>, ca: seq<Client>, cb: seq<Client>,
                    cc: seq<Client>)
    ensures EntriesValid(ma + mb + mc, ca + cb + cc) <==> EntriesValid(mb, cb) && EntriesValid(ma + mc, ca + cc)
  {
  }

  lemma NormalEntries(cfg: FullConfig, path: string)
    ensures EntriesValid(Normal(cfg, path).menus, Normal(cfg, path).clients) <==> EntriesValid(cfg.menus, cfg.clients)
  {
    hide NormalMenu, NormalClient;
    var n := Normal(cfg, path);
    forall i | 0 <= i < |cfg.menus| ensures n.menus[i].Valid() <==> cfg.menus[i].Valid() {
      NormalMenuSettles(cfg.menus[i], path);
    }
    forall i | 0 <= i < |cfg.clients| ensures n.clients[i].Valid() <==> cfg.clients[i].Valid() {
      NormalClientSettles(cfg.clients[i], path);
    }
    EachMember(n.menus, n.clients);
    EachMember(cfg.menus, cfg.clients);
  }

  // ---------------------------------------------------------------- edits

  predicate Bootable(m: MenuState) { m.kind in ["chain", "exit"] || m.kernel != "" }

  predicate OtherThan(entries: seq<string>, x: string) { exists e :: e in entries && e != x }

  /** The prompts leave four ways out of the valid states: an entry that is
      neither chain nor exit without a kernel, a client without entries, the
      removal of a client's only entry, and skipping netboot.xyz where it is the
      only entry or the default; and a fifth in states that no first run reaches,
      giving the wildcard entries without its default. */
  ghost predicate SparesValidity(s: State, e: Edit) {
    match e
    case DoNetboot(m) =>
      m == Skip ==> forall c :: c in s.clients ==> OtherThan(c.entries, NETBOOT) && c.default != NETBOOT
    case DoAddMenu(m) => Bootable(m)
    case DoEditMenu(_, m) => Bootable(m)
    case DoRemoveMenu(i) => i < |s.menus| ==> forall c :: c in s.clients ==> OtherThan(c.entries, s.menus[i].name)
    case DoSetWildcard(es) =>
      WildcardLast(s.clients) ==>
        es != [] && (s.clients[|s.clients| - 1].default == "" || s.clients[|s.clients| - 1].default in es)
    case DoAddClient(c) => c.entries != []
    case DoEditClient(_, c) => c.entries != []
    case DoRemoveClient(_) => true
  }

  lemma KnownTypes()
    ensures ParseMenuType("install") == Some(Install) && ParseMenuType("live") == Some(Live)
    ensures ParseMenuType("tool") == Some(Tool) && ParseMenuType("exit") == Some(Exit)
    ensures ParseMenuType("chain") == Some(Chain)
  {
    hide ParseMenuType;
    MenuTypeRoundTrip(Install);
    MenuTypeRoundTrip(Live);
    MenuTypeRoundTrip(Tool);
    MenuTypeRoundTrip(Exit);
    MenuTypeRoundTrip(Chain);
  }

  lemma InputValid(m: MenuState)
    requires MenuInputOk(m)
    ensures MenuStateValid(m) <==> Bootable(m)
    ensures forall old' :: MenuStateValid(EditedMenu(old', m)) <==> Bootable(m)
  {
    hide ParseMenuType;
    KnownTypes();
    var kinds := ["install", "live", "tool", "chain", "exit"];
    assert kinds[0] == "install" && kinds[1] == "live" && kinds[2] == "tool" && kinds[3] == "chain"
        && kinds[4] == "exit";
    var two := ["chain", "exit"];
    assert two[0] == "chain" && two[1] == "exit";
  }

  lemma NetbootMenusValid()
    ensures MenuStateValid(RemoteMenu()) && MenuStateValid(LocalMenu())
  {
    hide ParseMenuType;
    KnownTypes();
  }

  lemma WithoutKeeps(entries: seq<string>, x: string)
    ensures Without(entries, x) != [] <==> OtherThan(entries, x)
  {
    var r := Without(entries, x);
    if r != [] {
      assert r[0] in r;
    }
  }

  lemma NetbootClient(c: ClientState)
    requires ClientStateValid(c)
    ensures ClientStateValid(NoNetboot(c)) <==> OtherThan(c.entries, NETBOOT) && c.default != NETBOOT
    ensures ClientStateValid(WithNetboot(c))
  {
    hide ParsedMAC, Without, OtherThan;
    WithoutKeeps(c.entries, NETBOOT);
  }

  lemma NetbootValid(s: State, mode: NetbootMode)
    requires StateValid(s)
    ensures StateValid(Netboot(s, mode)) <==> SparesValidity(s, DoNetboot(mode))
  {
    hide ClientStateValid, MenuStateValid, OtherThan, NoNetboot, WithNetboot, RemoteMenu, LocalMenu;
    var t := Netboot(s, mode);
    NetbootMenusValid();
    forall i | 0 <= i < |t.menus| ensures MenuStateValid(t.menus[i]) {
      assert t.menus[i] in MenusWithout(s.menus, NETBOOT) ==> t.menus[i] in s.menus;
    }
    forall i | 0 <= i < |s.clients|
      ensures ClientStateValid(NoNetboot(s.clients[i])) <==>
              OtherThan(s.clients[i].entries, NETBOOT) && s.clients[i].default != NETBOOT
      ensures ClientStateValid(WithNetboot(s.clients[i]))
    {
      NetbootClient(s.clients[i]);
    }
    EveryClient(s.clients, t.clients,
                (c: ClientState) => OtherThan(c.entries, NETBOOT) && c.default != NETBOOT, mode == Skip);
  }

  /** One condition on each client decides the clients of the new state. */
  lemma EveryClient(cs: seq<ClientState>, ds: seq<ClientState>, p: ClientState -> bool, decides: bool)
    requires |cs| == |ds| && forall i :: 0 <= i < |cs| ==> (ClientStateValid(ds[i]) <==> (decides ==> p(cs[i])))
    ensures (forall i :: 0 <= i < |ds| ==> ClientStateValid(ds[i])) <==> (decides ==> forall c :: c in cs ==> p(c))
  {
    hide ClientStateValid;
    if decides && (forall i :: 0 <= i < |ds| ==> ClientStateValid(ds[i])) {
      forall c | c in cs ensures p(c) {
        var i :| 0 <= i < |cs| && cs[i] == c;
        assert ClientStateValid(ds[i]);
      }
    }
    if decides && (forall c :: c in cs ==> p(c)) {
      forall i | 0 <= i < |ds| ensures ClientStateValid(ds[i]) { assert cs[i] in cs; }
    }
  }

  lemma EditMenuValid(s: State, k: nat, input: MenuState)
    requires StateValid(s) && Possible(s, DoEditMenu(k, input))
    ensures StateValid(EditMenu(s, k, input)) <==> Bootable(input)
  {
    hide ParsedMAC, MenuStateValid, RenamedIn, Bootable;
    var t, o := EditMenu(s, k, input), s.menus[k].name;
    InputValid(input);
    assert MenuStateValid(t.menus[k]) <==> Bootable(input);
    assert o != "" by { NameOfValid(s.menus[k]); }
    forall i | 0 <= i < |s.clients| ensures ClientStateValid(t.clients[i]) {
      if input.name != o {
        RenameAndDefault(s.clients[i], o, input.name);
      }
    }
  }

  lemma NameOfValid(m: MenuState)
    requires MenuStateValid(m)
    ensures m.name != ""
  {
  }

  lemma RemoveMenuValid(s: State, k: nat)
    requires StateValid(s) && k < |s.menus|
    ensures StateValid(RemoveMenu(s, k)) <==> SparesValidity(s, DoRemoveMenu(k))
  {
    hide MenuStateValid, ClientStateValid, OtherThan, DropEntry;
    var t, x := RemoveMenu(s, k), s.menus[k].name;
    forall i | 0 <= i < |s.clients| ensures ClientStateValid(t.clients[i]) <==> OtherThan(s.clients[i].entries, x) {
      DropValid(s.clients[i], x);
    }
    EveryClient(s.clients, t.clients, (c: ClientState) => OtherThan(c.entries, x), true);
  }

  lemma DropValid(c: ClientState, x: string)
    requires ClientStateValid(c)
    ensures ClientStateValid(DropEntry(c, x)) <==> OtherThan(c.entries, x)
  {
    hide ParsedMAC, Without, OtherThan;
    WithoutKeeps(c.entries, x);
  }

  lemma SetWildcardValid(s: State, es: seq<string>)
    requires StateValid(s)
    ensures StateValid(SetWildcardEntries(s, es)) <==> SparesValidity(s, DoSetWildcard(es))
  {
    hide ParsedMAC, MenuStateValid;
    var t, n := SetWildcardEntries(s, es), |s.clients| - 1;
    if WildcardLast(s.clients) {
      assert ClientStateValid(t.clients[n]) <==> SparesValidity(s, DoSetWildcard(es));
    }
  }

  lemma NewClientValid(menus: seq<MenuState>, c: ClientInput)
    requires ClientInputOk(menus, c)
    ensures forall mac :: ClientStateValid(NewClient(c).(mac := mac)) <==> ParsedMAC(mac).Some? && c.entries != []
  {
    hide ParsedMAC, Offered;
  }

  lemma AddClientValid(s: State, c: ClientInput)
    requires StateValid(s) && ClientInputOk(s.menus, c) && ParsedMAC(c.mac).Some?
    ensures StateValid(AddClient(s, c)) <==> c.entries != []
  {
    hide ParsedMAC, ClientInputOk, MenuStateValid, ClientStateValid, NewClient;
    var t, n := AddClient(s, c), |s.clients| - 1;
    NewClientValid(s.menus, c);
    assert NewClient(c).(mac := c.mac) == NewClient(c) by { NewClientMac(c); }
    var at := if WildcardLast(s.clients) then n else n + 1;
    assert t.clients[at] == NewClient(c);
    forall i | 0 <= i < |t.clients| && i != at ensures ClientStateValid(t.clients[i]) {
      assert t.clients[i] == s.clients[if i < at then i else i - 1];
    }
  }

  lemma NewClientMac(c: ClientInput)
    ensures NewClient(c).mac == c.mac
  {
  }

  lemma EditClientValid(s: State, k: nat, c: ClientInput)
    requires StateValid(s) && ClientInputOk(s.menus, c) && k < |s.clients|
    ensures StateValid(EditClient(s, k, c)) <==> c.entries != []
  {
    hide ParsedMAC, ClientInputOk, MenuStateValid, NewClient;
    var t := EditClient(s, k, c);
    NewClientValid(s.menus, c);
    assert ClientStateValid(t.clients[k]) <==> c.entries != [];
    assert forall j :: 0 <= j < |t.clients| && j != k ==> t.clients[j] == s.clients[j];
  }

  lemma RemoveClientValid(s: State, k: nat)
    requires StateValid(s) && k < |s.clients|
    ensures StateValid(RemoveClient(s, k))
  {
    hide ClientStateValid, MenuStateValid;
    var t := RemoveClient(s, k);
    assert forall j :: 0 <= j < |t.clients| ==> t.clients[j] == s.clients[if j < k then j else j + 1];
  }

  lemma AddMenuValid(s: State, m: MenuState)
    requires StateValid(s) && MenuInputOk(m)
    ensures StateValid(AddMenu(s, m)) <==> Bootable(m)
  {
    hide MenuStateValid, ClientStateValid, Bootable;
    InputValid(m);
    var t := AddMenu(s, m);
    assert t.menus[|s.menus|] == m && forall i :: 0 <= i < |s.menus| ==> t.menus[i] == s.menus[i];
  }

  // ---------------------------------------------------------------- sessions

  ghost predicate ValidThroughout(s: State, edits: seq<Edit>) {
    forall k :: 0 <= k <= |edits| ==> StateValid(Run(s, edits[..k]))
  }

  /** Every edit that happens keeps the state it happens in valid. */
  ghost predicate SparedValidity(s: State, edits: seq<Edit>)
    decreases |edits|
  {
    edits == []
    || (if Possible(s, edits[0]) then SparesValidity(s, edits[0]) && SparedValidity(Apply(s, edits[0]), edits[1..])
        else SparedValidity(s, edits[1..]))
  }

  lemma ValidStep(s: State, edits: seq<Edit>)
    requires edits != []
    ensures ValidThroughout(s, edits) <==>
            StateValid(s) && ValidThroughout(if Possible(s, edits[0]) then Apply(s, edits[0]) else s, edits[1..])
  {
    hide StateValid, Possible, Apply;
    var t := if Possible(s, edits[0]) then Apply(s, edits[0]) else s;
    assert edits[..0] == [];
    forall k | 1 <= k <= |edits| ensures Run(s, edits[..k]) == Run(t, edits[1..][..k - 1]) {
      assert edits[..k][1..] == edits[1..][..k - 1];
    }
    if ValidThroughout(s, edits) {
      assert StateValid(Run(s, edits[..0]));
      forall k | 0 <= k <= |edits[1..]| ensures StateValid(Run(t, edits[1..][..k])) {
        assert StateValid(Run(s, edits[..k + 1]));
      }
    }
  }

  lemma ValidAtStart(s: State, edits: seq<Edit>)
    ensures ValidThroughout(s, edits) ==> StateValid(s)
    ensures StateValid(s) ==> ValidThroughout(s, [])
  {
    hide StateValid;
    assert edits[..0] == [];
    assert Run(s, edits[..0]) == s;
  }
}
