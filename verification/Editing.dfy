/** What the wizard saves of what was entered in it. */
module Editing {
  import opened Text
  import opened Domain
  import opened Mac
  import opened SaveLoad
  import opened Rewriting
  import opened Wizard
  import opened Validity
  import opened ValidEdits
  import opened BootURLs
  import opened Script
  import D = Directory
  import G = Generator
  import L = MenuLayout
  import M = Machine
  import Subst = Substitution

  // ---------------------------------------------------------------- menus

  /** The prompts of a type ask for its own fields only. */
  predicate OwnFields(i: MenuState) {
    if i.kind in ["chain", "exit"] then i.kernel == i.initrd == i.cmdline == "" && (i.kind == "exit" ==> i.chain == "")
    else i.chain == ""
  }

  /** An edited entry shows and does what was entered, whatever it was before;
      only the list of files that is not asked for stays. */
  lemma EditMeansEntered(m: MenuState, i: MenuState, vars: Vars)
    requires MenuInputOk(i) && OwnFields(i)
    ensures var e, entered := MenuEntryOf(EditedMenu(m, i)), MenuEntryOf(i);
            && e.name == entered.name == i.name && e.labelText == entered.labelText == i.labelText
            && e.kind == entered.kind && e.http.files == m.httpFiles
            && G.MenuActions(e, vars) == G.MenuActions(entered, vars)
  {
    hide ParseMenuType, G.FileTemplate;
    KnownTypes();
    var kinds, two := ["install", "live", "tool", "chain", "exit"], ["chain", "exit"];
    assert forall k :: k in kinds <==> k == "install" || k == "live" || k == "tool" || k == "chain" || k == "exit";
    assert forall k :: k in two <==> k == "chain" || k == "exit";
    var e, entered := MenuEntryOf(EditedMenu(m, i)), MenuEntryOf(i);
    if i.kind !in two {
      SameTemplates(e, entered, vars);
    }
  }

  lemma SameTemplates(e: MenuEntry, f: MenuEntry, vars: Vars)
    requires e.name == f.name && e.http.path == f.http.path
    ensures forall file :: G.FileTemplate(e, file, vars) == G.FileTemplate(f, file, vars)
  {
  }

  /** What an entry with a kernel asks for, in terms of what was entered. */
  lemma EnteredKernelBoots(i: MenuState, vars: Vars, retry: string, b: seq<Cmd>)
    requires MenuInputOk(i) && OwnFields(i) && i.kind !in ["chain", "exit"]
    requires Plain(MenuEntryOf(i), vars) && G.CompilesAll(G.MenuActions(MenuEntryOf(i), vars), vars, retry, b)
    ensures var folder := "http://" + vars.serverIP + ":" + Decimal(vars.httpPort) + i.httpPath;
            L.RunBlock(b, [], [], AllOk(|b|)).status == M.Booted(
              (if i.kernel == "" then []
               else if i.cmdline == "" then [Kernel(folder + i.kernel)]
               else [Kernel(folder + i.kernel + " " + i.cmdline)])
              + (if i.initrd == "" then [] else [Initrd(folder + i.initrd)]))
  {
    hide ParseMenuType, G.FileTemplate, G.CompilesAll, L.RunBlock, Decimal, Plain;
    KnownTypes();
    var kinds, two := ["install", "live", "tool", "chain", "exit"], ["chain", "exit"];
    assert forall k :: k in kinds <==> k == "install" || k == "live" || k == "tool" || k == "chain" || k == "exit";
    assert forall k :: k in two <==> k == "chain" || k == "exit";
    WhatBoots(MenuEntryOf(i), vars, retry, b);
  }

  // ---------------------------------------------------------------- what a session saves

  lemma {:induction false} RunAppend(s: State, edits: seq<Edit>, e: Edit)
    ensures Run(s, edits + [e]) == if Possible(Run(s, edits), e) then Apply(Run(s, edits), e) else Run(s, edits)
    decreases |edits|
  {
    hide Possible, Apply;
    if edits == [] {
      assert edits + [e] == [e] && [e][1..] == [];
    } else {
      assert (edits + [e])[1..] == edits[1..] + [e];
      RunAppend(if Possible(s, edits[0]) then Apply(s, edits[0]) else s, edits[1..], e);
    }
  }

  /** The type that is saved under a name of the menu. */
  function TypeOf(kind: string): MenuType {
    if kind == "install" then Install
    else if kind == "live" then Live
    else if kind == "tool" then Tool
    else if kind == "exit" then MenuType.Exit
    else MenuType.Chain
  }

  lemma SavedEdit(m: MenuState, i: MenuState, path: string, vars: Vars)
    requires MenuInputOk(i) && OwnFields(i)
    ensures var e := NormalMenu(MenuEntryOf(EditedMenu(m, i)), path);
            && e.name == i.name && e.labelText == i.labelText && e.kind == TypeOf(i.kind)
            && G.MenuActions(e, vars) == G.MenuActions(MenuEntryOf(i), vars)
  {
    hide ParseMenuType, G.FileTemplate;
    KnownTypes();
    var kinds, two := ["install", "live", "tool", "chain", "exit"], ["chain", "exit"];
    assert forall k :: k in kinds <==> k == "install" || k == "live" || k == "tool" || k == "chain" || k == "exit";
    assert forall k :: k in two <==> k == "chain" || k == "exit";
    if i.kind !in two {
      SameTemplates(NormalMenu(MenuEntryOf(EditedMenu(m, i)), path), MenuEntryOf(i), vars);
    }
  }

  /** Editing an entry last and saving: the written file has the entry that was
      entered in its place, and the others as they were. */
  lemma EditedMenuIsSaved(s: State, edits: seq<Edit>, k: nat, i: MenuState, out: FullConfig, path: string, vars: Vars)
    requires Possible(Run(s, edits), DoEditMenu(k, i)) && OwnFields(i)
    requires D.SavesState(Run(s, edits + [DoEditMenu(k, i)]), out)
    ensures var menus, before := Normal(out, path).menus, Run(s, edits).menus;
            && |menus| == |before| && k < |menus|
            && menus[k].name == i.name && menus[k].labelText == i.labelText && menus[k].kind == TypeOf(i.kind)
            && G.MenuActions(menus[k], vars) == G.MenuActions(MenuEntryOf(i), vars)
            && forall j :: 0 <= j < |menus| && j != k ==> menus[j] == NormalMenu(MenuEntryOf(before[j]), path)
  {
    hide Run, MenuEntryOf, NormalMenu, EditedMenu, NormalClient, G.MenuActions, TypeOf;
    RunAppend(s, edits, DoEditMenu(k, i));
    SavedEdit(Run(s, edits).menus[k], i, path, vars);
  }

  /** Adding one. */
  lemma AddedMenuIsSaved(s: State, edits: seq<Edit>, i: MenuState, out: FullConfig, path: string, vars: Vars)
    requires MenuInputOk(i) && OwnFields(i) && D.SavesState(Run(s, edits + [DoAddMenu(i)]), out)
    ensures var menus, before := Normal(out, path).menus, Run(s, edits).menus;
            && |menus| == |before| + 1
            && menus[|before|].name == i.name && menus[|before|].labelText == i.labelText
            && menus[|before|].kind == TypeOf(i.kind)
            && G.MenuActions(menus[|before|], vars) == G.MenuActions(MenuEntryOf(i), vars)
            && forall j :: 0 <= j < |before| ==> menus[j] == NormalMenu(MenuEntryOf(before[j]), path)
  {
    hide Run, MenuEntryOf, NormalMenu, NormalClient, G.MenuActions, TypeOf, MenuInputOk;
    RunAppend(s, edits, DoAddMenu(i));
    SavedEntry(i, path, vars);
  }

  lemma SavedEntry(i: MenuState, path: string, vars: Vars)
    requires MenuInputOk(i) && OwnFields(i)
    ensures var e := NormalMenu(MenuEntryOf(i), path);
            && e.name == i.name && e.labelText == i.labelText && e.kind == TypeOf(i.kind)
            && G.MenuActions(e, vars) == G.MenuActions(MenuEntryOf(i), vars)
  {
    hide ParseMenuType, G.FileTemplate;
    KnownTypes();
    var kinds, two := ["install", "live", "tool", "chain", "exit"], ["chain", "exit"];
    assert forall k :: k in kinds <==> k == "install" || k == "live" || k == "tool" || k == "chain" || k == "exit";
    assert forall k :: k in two <==> k == "chain" || k == "exit";
    SameTemplates(NormalMenu(MenuEntryOf(i), path), MenuEntryOf(i), vars);
  }

  /** A client with what was entered; default and timeout only with a choice. */
  predicate Entered(c: Client, i: ClientInput) {
    && c.name == i.name && c.menu.entries == i.entries && c.enabled
    && (|i.entries| > 1 ==> c.menu.default == i.default && c.menu.timeout == i.timeout)
    && (|i.entries| <= 1 ==> c.menu.default == "" && c.menu.timeout == 0)
  }

  /** Editing a client last and saving: what was entered, under the old address. */
  lemma EditedClientIsSaved(s: State, edits: seq<Edit>, k: nat, i: ClientInput, out: FullConfig, path: string)
    requires Possible(Run(s, edits), DoEditClient(k, i))
    requires D.SavesState(Run(s, edits + [DoEditClient(k, i)]), out)
    ensures var clients, before := Normal(out, path).clients, Run(s, edits).clients;
            && |clients| == |before| && k < |clients|
            && Entered(clients[k], i) && clients[k].mac == ParsedMAC(before[k].mac).GetOr([])
            && forall j :: 0 <= j < |clients| && j != k ==> clients[j] == NormalClient(ClientOf(before[j]), path)
  {
    hide Run, ParsedMAC, NormalMenu;
    RunAppend(s, edits, DoEditClient(k, i));
  }

  /** Adding one: in front of a wildcard in last place, else at the end. */
  lemma AddedClientIsSaved(s: State, edits: seq<Edit>, i: ClientInput, out: FullConfig, path: string)
    requires Possible(Run(s, edits), DoAddClient(i)) && D.SavesState(Run(s, edits + [DoAddClient(i)]), out)
    ensures var clients, before := Normal(out, path).clients, Run(s, edits).clients;
            var at := if before != [] && before[|before| - 1].mac == "*" then |before| - 1 else |before|;
            && |clients| == |before| + 1
            && Entered(clients[at], i) && Some(clients[at].mac) == ParsedMAC(i.mac)
            && forall j :: 0 <= j < |before| ==>
                 clients[if j < at then j else j + 1] == NormalClient(ClientOf(before[j]), path)
  {
    hide Run, ParsedMAC, NormalMenu, ClientInputOk;
    RunAppend(s, edits, DoAddClient(i));
  }

  // ---------------------------------------------------------------- renaming

  /** Renaming a menu changes no client's choice: an entry, or the default, names
      the same menu of the list before and after. */
  lemma RenameKeepsChoices(s: State, k: nat, i: MenuState, x: nat, j: nat)
    requires RefsOk(s) && DefaultsOk(s) && Possible(s, DoEditMenu(k, i)) && x < |s.clients| && j < |s.menus|
    requires forall a, b :: 0 <= a < b < |s.menus| ==> s.menus[a].name != s.menus[b].name
    requires s.menus[k].name != "" && forall a :: 0 <= a < |s.menus| && a != k ==> s.menus[a].name != i.name
    ensures var t := EditMenu(s, k, i);
            && |t.clients| == |s.clients| && |t.menus| == |s.menus|
            && |t.clients[x].entries| == |s.clients[x].entries|
            && (forall y :: 0 <= y < |s.clients[x].entries| ==>
                  (t.clients[x].entries[y] == t.menus[j].name <==> s.clients[x].entries[y] == s.menus[j].name))
            && (s.menus[j].name != "" ==>
                  (t.clients[x].default == t.menus[j].name <==> s.clients[x].default == s.menus[j].name))
  {
    hide MenuInputOk;
    var t, c := EditMenu(s, k, i), s.clients[x];
    assert SlugOk(i.name) by { InputNamed(i); }
    assert c in s.clients && Offered(s.menus, c.entries);
    forall e | e in c.entries ensures exists a :: 0 <= a < |s.menus| && s.menus[a].name == e {
      var m :| m in s.menus && m.name == e;
    }
    forall y | 0 <= y < |c.entries|
      ensures t.clients[x].entries[y] == t.menus[j].name <==> c.entries[y] == s.menus[j].name
    {
      assert c.entries[y] in c.entries;
    }
    assert DefaultOk(c);
  }

  lemma InputNamed(i: MenuState)
    requires MenuInputOk(i)
    ensures SlugOk(i.name)
  {
  }

  // ---------------------------------------------------------------- netboot.xyz

  /** The remote entry chains to netboot.xyz, is the only one of its name, and is
      the last choice of every client. */
  lemma RemoteNetboot(s: State, vars: Vars)
    ensures var t := Netboot(s, Remote);
            && t.menus != [] && t.menus[|t.menus| - 1].name == "netboot-xyz"
            && G.MenuActions(MenuEntryOf(t.menus[|t.menus| - 1]), vars) == [G.ChainTo("https://boot.netboot.xyz")]
            && (forall j :: 0 <= j < |t.menus| - 1 ==> t.menus[j].name != "netboot-xyz" && t.menus[j] in s.menus)
            && |t.clients| == |s.clients|
            && forall x :: 0 <= x < |t.clients| ==>
                 t.clients[x].entries != [] && t.clients[x].entries[|t.clients[x].entries| - 1] == "netboot-xyz"
  {
    hide ParseMenuType, MenusWithout, Without, RemoteMenu, LocalMenu, EachClient;
    RemoteChains(vars);
    var t := Netboot(s, Remote);
    forall x | 0 <= x < |t.clients|
      ensures t.clients[x].entries != [] && t.clients[x].entries[|t.clients[x].entries| - 1] == "netboot-xyz"
    {
      assert t.clients[x] == WithNetboot(s.clients[x]);
    }
    forall j | 0 <= j < |t.menus| - 1 ensures t.menus[j].name != "netboot-xyz" && t.menus[j] in s.menus {
      assert t.menus[j] in MenusWithout(s.menus, NETBOOT);
    }
  }

  lemma RemoteChains(vars: Vars)
    ensures RemoteMenu().name == "netboot-xyz"
    ensures G.MenuActions(MenuEntryOf(RemoteMenu()), vars) == [G.ChainTo("https://boot.netboot.xyz")]
  {
    hide ParseMenuType;
    KnownTypes();
  }

  const LOCAL_URL: seq<Piece> :=
    [Txt("http://"), Hole("server_ip"), Txt(":"), Hole("http_port"), Txt("/netboot/netboot.xyz.lkrn")]

  /** The local entry chains to a path that the server has no route for. */
  lemma LocalNetbootIsNotServed(vars: Vars, url: string)
    requires SimpleVars(vars) && Independent(vars) && '/' !in vars.serverIP
    requires Outcome(LocalMenu().chain, vars, url)
    ensures url == "http://" + vars.serverIP + ":" + Decimal(vars.httpPort) + "/netboot/netboot.xyz.lkrn"
    ensures RouteOf(PathOf(url)) == Elsewhere
  {
    hide Outcome, Independent, SimpleVars, Decimal, PathOf, LocalMenu, Render, WellFormed, LOCAL_URL;
    LocalSpelled();
    Subst.OutcomeDecided(LOCAL_URL, vars, url);
    LocalFilled(vars);
    PortIsPlain(vars.httpPort);
    var host := vars.serverIP + ":" + Decimal(vars.httpPort);
    assert url == "http://" + host + "/netboot/netboot.xyz.lkrn";
    var path := "/netboot/netboot.xyz.lkrn";
    PathAfterHost(host, path);
    assert path[1] == 'n' && "/data/"[1] == 'd' && "/boot/"[1] == 'b';
  }

  function TextOf(p: Piece): string {
    match p
    case Txt(t) => t
    case Hole(k) => Placeholder(k)
  }

  lemma FivePieces(a: Piece, b: Piece, c: Piece, d: Piece, e: Piece)
    ensures Render([a, b, c, d, e]) == TextOf(a) + TextOf(b) + TextOf(c) + TextOf(d) + TextOf(e)
  {
    hide TextOf;
    OnePiece(e, []);
    OnePiece(d, [e]);
    OnePiece(c, [d, e]);
    OnePiece(b, [c, d, e]);
    OnePiece(a, [b, c, d, e]);
    Flat5(TextOf(a), TextOf(b), TextOf(c), TextOf(d), TextOf(e));
  }

  lemma OnePiece(p: Piece, rest: seq<Piece>)
    ensures Render([p] + rest) == TextOf(p) + Render(rest)
    ensures Render([]) == ""
  {
    assert ([p] + rest)[1..] == rest;
  }

  lemma Flat5(a: string, b: string, c: string, d: string, e: string)
    ensures a + (b + (c + (d + (e + "")))) == a + b + c + d + e
  {
  }

  lemma LocalSpelled()
    ensures Render(LOCAL_URL) == LocalMenu().chain && WellFormed(LOCAL_URL)
  {
    hide Render, WellFormed, LocalMenu;
    LocalIsWellFormed();
    FivePieces(Txt("http://"), Hole("server_ip"), Txt(":"), Hole("http_port"), Txt("/netboot/netboot.xyz.lkrn"));
    HostSpelled();
    LocalTail();
  }

  lemma LocalIsWellFormed()
    ensures WellFormed(LOCAL_URL)
  {
    assert SimpleKey("server_ip") && SimpleKey("http_port");
    assert DollarFree("http://") && DollarFree(":") && DollarFree("/netboot/netboot.xyz.lkrn");
  }

  lemma HostSpelled()
    ensures "http://" + Placeholder("server_ip") + ":" + Placeholder("http_port") == "http://${server_ip}:${http_port}"
  {
    assert Placeholder("server_ip") == "${server_ip}" && Placeholder("http_port") == "${http_port}";
  }

  lemma LocalTail()
    ensures "http://${server_ip}:${http_port}" + "/netboot/netboot.xyz.lkrn" == LocalMenu().chain
  {
  }

  lemma LocalFilled(vars: Vars)
    ensures Fill(LOCAL_URL, Env(vars))
            == "http://" + vars.serverIP + ":" + Decimal(vars.httpPort) + "/netboot/netboot.xyz.lkrn"
  {
    hide Decimal, Render;
    var ip, port := vars.serverIP, Decimal(vars.httpPort);
    assert Env(vars)["server_ip"] == ip && Env(vars)["http_port"] == port;
    FivePieces(Txt("http://"), Txt(ip), Txt(":"), Txt(port), Txt("/netboot/netboot.xyz.lkrn"));
    assert Put(LOCAL_URL, Env(vars))
        == [Txt("http://"), Txt(ip), Txt(":"), Txt(port), Txt("/netboot/netboot.xyz.lkrn")];
  }

  // ---------------------------------------------------------------- what the wizard holds

  /** An entry comes through the wizard unchanged exactly when it has no more than
      the wizard holds. */
  lemma UntouchedMenuExactly(m: MenuEntry)
    ensures MenuEntryOf(MenuStateOf(m)) == m.(sourceFile := "") <==>
              && m.description == "" && m.http.upstream == "" && !m.kind.OtherType?
              && m.boot.loader == m.boot.binary == m.boot.image == "" && m.boot.files == []
  {
    hide ParseMenuType, TypeName;
    MenuTypeRoundTrip(m.kind);
  }

  /** After a session the files for all architectures are these. */
  lemma WizardFiles(archs: seq<string>)
    requires "bios" in archs && "uefi_x86" in archs && "uefi_x64" in archs && "arm64" in archs
    ensures FilesOf(archs) == BootFiles("ipxe.efi", "ipxe-i386.efi", "undionly.kpxe", "ipxe-arm64.efi")
  {
  }

  // ---------------------------------------------------------------- removing

  /** The entries that stay when a name goes stay in order. */
  lemma {:induction false} KeptEntriesInOrder(entries: seq<string>, x: string, i: nat, j: nat) returns (p: nat, q: nat)
    requires i < j < |Without(entries, x)|
    ensures p < q < |entries| && entries[p] == Without(entries, x)[i] && entries[q] == Without(entries, x)[j]
  {
    var rest := Without(entries[1..], x);
    if entries[0] == x {
      p, q := KeptEntriesInOrder(entries[1..], x, i, j);
      p, q := p + 1, q + 1;
    } else if i > 0 {
      p, q := KeptEntriesInOrder(entries[1..], x, i - 1, j - 1);
      p, q := p + 1, q + 1;
    } else {
      assert rest[j - 1] in entries[1..];
      var k :| 0 <= k < |entries[1..]| && entries[1..][k] == rest[j - 1];
      p, q := 0, k + 1;
    }
  }

  lemma {:induction false} WithoutCounts(entries: seq<string>, x: string)
    ensures multiset(Without(entries, x)) == multiset(entries)[x := 0]
  {
    if entries != [] {
      WithoutCounts(entries[1..], x);
      assert entries == [entries[0]] + entries[1..];
    }
  }

  /** Removing a menu takes it out of the list, its name out of every client's
      entries, as often as it is there, and out of the defaults; the other entries
      and defaults stay. */
  lemma RemoveKeepsOthers(s: State, k: nat, x: nat)
    requires k < |s.menus| && x < |s.clients|
    ensures var t, name := RemoveMenu(s, k), s.menus[k].name;
            && |t.menus| == |s.menus| - 1
            && (forall j :: 0 <= j < |t.menus| ==> t.menus[j] == s.menus[if j < k then j else j + 1])
            && |t.clients| == |s.clients| && t.clients[x].mac == s.clients[x].mac
            && t.clients[x].name == s.clients[x].name && t.clients[x].timeout == s.clients[x].timeout
            && (t.clients[x].default != s.clients[x].default ==>
                  s.clients[x].default == name && t.clients[x].default == "")
            && (s.clients[x].default == name != "" ==> t.clients[x].default == "")
            && multiset(t.clients[x].entries) == multiset(s.clients[x].entries)[name := 0]
  {
    hide Without;
    WithoutCounts(s.clients[x].entries, s.menus[k].name);
  }

  lemma MenusWithoutFirst(m: MenuState, rest: seq<MenuState>, x: string)
    ensures MenusWithout([m] + rest, x) == (if m.name == x then [] else [m]) + MenusWithout(rest, x)
  {
    assert ([m] + rest)[1..] == rest;
  }

  lemma FirstAndRest<T>(a: seq<T>, b: seq<T>)
    requires a != []
    ensures a == [a[0]] + a[1..] && a + b == [a[0]] + (a[1..] + b)
  {
  }

  lemma Regrouped<T>(a: seq<T>, b: seq<T>, c: seq<T>)
    ensures (a + b) + c == a + (b + c)
  {
  }

  /** The menus that stay when netboot.xyz goes stay in order: what is kept of a list is what is kept of its
      first part and then what is kept of the rest. */
  lemma {:induction false} KeptMenusInOrder(a: seq<MenuState>, b: seq<MenuState>, x: string)
    ensures MenusWithout(a + b, x) == MenusWithout(a, x) + MenusWithout(b, x)
  {
    if a == [] {
      assert a + b == b;
    } else {
      hide MenusWithout;
      FirstAndRest(a, b);
      MenusWithoutFirst(a[0], a[1..], x);
      MenusWithoutFirst(a[0], a[1..] + b, x);
      KeptMenusInOrder(a[1..], b, x);
      Regrouped(if a[0].name == x then [] else [a[0]], MenusWithout(a[1..], x), MenusWithout(b, x));
    }
  }
}
