/** From an edited configuration to the script a machine boots: the parts
    together. */
module Pipeline {
  import opened Domain
  import opened Mac
  import opened MergeRules
  import opened SaveLoad
  import opened Registry
  import opened Serving
  import opened Rewriting
  import opened Script
  import opened Machine
  import opened MenuLayout
  import opened MenuRun
  import opened ClosedScripts
  import opened JumpTargets
  import opened CleanScripts
  import opened BootMeaning
  import FirstWords
  import SpacedNames
  import D = Directory
  import G = Generator
  import P = Paths
  import Proxy
  import Text
  import V = ValidEdits
  import Validity
  import W = Wizard

  // ---------------------------------------------------------------- one directory

  /** WriteConfig: the data directory is written relative to the directory. */
  function WriteConfig(cfg: FullConfig, dir: string, cwd: string): RawFile {
    RawOf(cfg.(server := cfg.server.(dataDir := P.MakeRelative(cfg.server.dataDir, dir, cwd))))
  }

  /** resolvePaths after the merge. */
  function ResolvePaths(cfg: FullConfig, dir: string, cwd: string): FullConfig {
    cfg.(server := cfg.server.(dataDir := P.ResolveDir(cfg.server.dataDir, dir, cwd)))
  }

  function Written(cfg: FullConfig, dir: string, cwd: seq<string>): FullConfig {
    cfg.(server := cfg.server.(dataDir := P.MakeRelative(cfg.server.dataDir, dir, P.Absolute(cwd))))
  }

  /** The directory's files after a save: WriteConfig replaces one of them. */
  function AfterWrite(before: seq<FileResult>, cfg: FullConfig, file: string, after: seq<FileResult>,
                      dir: string, cwd: seq<string>): seq<FileResult>
    requires Readable(WriteConfig(cfg, dir, P.Absolute(cwd)), file)
  {
    D.Around(before, Parsed(WriteConfig(cfg, dir, P.Absolute(cwd)), file), after)
  }

  /** LoadDir. */
  function Load(files: seq<FileResult>, dir: string, cwd: seq<string>): FullConfig {
    ResolvePaths(Merged(files), dir, P.Absolute(cwd))
  }

  lemma NormalOfWritten(cfg: FullConfig, dir: string, cwd: seq<string>, file: string)
    ensures Normal(Written(cfg, dir, cwd), file) == Normal(cfg, file).(server := Written(cfg, dir, cwd).server)
    ensures Normal(cfg, file).server == cfg.server
  {
    hide NormalMenu, NormalClient;
  }

  /** Writing a configuration into any directory and loading that directory. It
      is accepted exactly when the menus and clients fit together with those of
      the other files; the data directory then is an absolute path; and what is
      loaded is the normal form of what was written exactly when the data
      directory was absolute and clean, or empty, and the other files have no
      menus and clients and leave the service sections alone. */
  lemma WriteThenLoad(cfg: FullConfig, dir: string, cwd: seq<string>, file: string,
                      before: seq<FileResult>, after: seq<FileResult>)
    requires P.AllProper(cwd) && dir != "" && Writable(cfg) && file != "" && D.AllNamed(before + after)
    ensures Readable(WriteConfig(cfg, dir, P.Absolute(cwd)), file)
    ensures var files := AfterWrite(before, cfg, file, after, dir, cwd);
            Mergeable(files) <==> D.Beside(cfg.menus, cfg.clients, before + after)
    ensures var files, d := AfterWrite(before, cfg, file, after, dir, cwd), cfg.server.dataDir;
            var f := Parsed(WriteConfig(cfg, dir, P.Absolute(cwd)), file);
            Mergeable(files) ==>
              && Load(files, dir, cwd).server == cfg.server.(dataDir := P.Reloaded(d, dir, P.Absolute(cwd)))
              && (Load(files, dir, cwd) == Normal(cfg, file) <==>
                  && (d == "" || (P.IsAbs(d) && P.Clean(d) == d))
                  && D.OnlyServices(before + after) && D.ServicesUndisturbed(before, f, after))
  {
    hide Merged, Mergeable, Parsed, Readable, RawOf, Normal, P.MakeRelative, P.ResolveDir, P.AllProper, P.Reloaded;
    hide P.Clean;
    hide D.Beside, D.OnlyServices, D.ServicesUndisturbed, D.Around, P.IsAbs;
    var d, w := cfg.server.dataDir, Written(cfg, dir, cwd);
    assert Writable(w);
    D.SavedExactly(before, w, file, after);
    D.SavedFile(w, file);
    P.AnyDataDirLoads(d, dir, cwd);
    NormalOfWritten(cfg, dir, cwd, file);
    var files := D.Saved(before, w, file, after);
    if Mergeable(files) {
      D.LoadsServer(before, Parsed(RawOf(w), file), after);
      D.LoadsNormalExactly(before, w, file, after);
      assert Merged(files).server == w.server;
      assert Load(files, dir, cwd) == Normal(cfg, file) <==>
             P.Reloaded(d, dir, P.Absolute(cwd)) == d && Merged(files) == Normal(w, file);
    }
  }

  // ---------------------------------------------------------------- edit, save, load, serve

  function SiteOf(cfg: FullConfig): Site { Site(cfg.clients, cfg.menus, map[], None) }

  /** serve starts: the directory loads and validates. */
  ghost predicate Starts(files: seq<FileResult>, dir: string, cwd: seq<string>) {
    Mergeable(files) && Load(files, dir, cwd).Valid()
  }

  /** Whatever directory it starts on, every request of a configured, enabled
      machine is answered with a script, after any run of overrides, reloads and
      requests. */
  lemma StartedSiteAnswers(files: seq<FileResult>, dir: string, cwd: seq<string>, ops: seq<Op>,
                           serverIP: string, httpPort: int, mac: MAC)
    requires Starts(files, dir, cwd) && LoadsMerged(ops)
    ensures var site := Run(SiteOf(Load(files, dir, cwd)), ops);
            var reply := ReplyTo(site, serverIP, httpPort, mac);
            !reply.Failure? && (Boots(site, mac) <==> reply.Override? || reply.Menu?)
  {
    hide Flat, LastGiven, P.ResolveDir, Refers, LoadsMerged, Run, DistinctBy, ServerSource;
    var start := SiteOf(Load(files, dir, cwd));
    LoadedIsSound(Load(files, dir, cwd), start);
    RunStaysSound(start, ops);
    SoundAnswers(Run(start, ops), serverIP, httpPort, mac);
  }

  /** What serve starts with can be used: an interface, an absolute data directory,
      ports that exist for every service that is on, and a URL for every machine
      that runs iPXE. */
  lemma StartedIsUsable(files: seq<FileResult>, dir: string, cwd: seq<string>,
                        serverIP: string, httpPort: int, mac: MAC)
    requires Starts(files, dir, cwd) && P.AllProper(cwd) && dir != "" && serverIP != "" && mac != []
    ensures var loaded := Load(files, dir, cwd);
            && loaded.server.iface != "" && P.IsAbs(loaded.server.dataDir) && loaded.bootloader.dir != ""
            && (loaded.dhcpProxy.enabled ==>
                  0 < loaded.dhcpProxy.port < 0x1_0000 && 0 < loaded.dhcpProxy.proxyPort < 0x1_0000)
            && (loaded.tftp.enabled ==> 0 < loaded.tftp.port < 0x1_0000)
            && (loaded.http.enabled ==> 0 < loaded.http.port < 0x1_0000)
            && ChainURL(loaded.bootloader.chainURL, serverIP, httpPort, MacString(mac)) != ""
  {
    hide Merged, Mergeable, ChainURL, MacString, P.Join, P.Abs;
    var loaded := Load(files, dir, cwd);
    Proxy.ChainIsSomewhere(loaded.bootloader.chainURL, serverIP, httpPort, mac);
    var d := Merged(files).server.dataDir;
    if d != "" && !P.IsAbs(d) {
      P.AbsJoin(dir, d, cwd);
      P.AbsoluteIsAbs(P.Walk(true, P.Components(P.Abs(dir, P.Absolute(cwd))), Text.Split(d, '/')));
    }
  }

  const NO_FILES := BootFiles("", "", "", "")

  /** And nothing more is asked of a configuration without menus and clients. */
  lemma LittleIsNeeded(iface: string, dataDir: string, dir: string, url: string, ports: seq<int>)
    requires iface != "" && dataDir != "" && dir != "" && url != ""
    requires |ports| == 4 && forall i :: 0 <= i < 4 ==> 0 < ports[i] < 0x1_0000
    ensures EMPTY_CONFIG.(
              server := ServerConfig(iface, dataDir, "", ""), bootloader := BootloaderConfig(dir, NO_FILES, url),
              dhcpProxy := DHCPProxyConfig(true, ports[0], ports[1], ""), tftp := TFTPConfig(true, ports[2], 0, 0, 0),
              http := HTTPConfig(true, ports[3], 0, NO_TLS)).Valid()
    ensures EMPTY_CONFIG.(
              server := ServerConfig(iface, dataDir, "", ""),
              bootloader := BootloaderConfig(dir, NO_FILES, url)).Valid()
  {
  }

  predicate OthersValid(others: seq<FileResult>) { V.EntriesValid(Flat(others, MenusOf), Flat(others, ClientsOf)) }

  lemma WrittenWritable(cfg: FullConfig, dir: string, cwd: seq<string>)
    ensures Writable(Written(cfg, dir, cwd)) <==> Writable(cfg)
  {
  }

  /** Whether serve starts after an edit: exactly when the saved menus and clients
      fit together with those of the other files, the wizard's state is valid, and
      so are the other files' entries and the services that are loaded. */
  lemma SavedStartsExactly(s: W.State, out: FullConfig, dir: string, cwd: seq<string>, file: string,
                           before: seq<FileResult>, after: seq<FileResult>)
    requires W.MacsOk(s) && D.SavesState(s, out)
    requires P.AllProper(cwd) && dir != "" && file != "" && D.AllNamed(before + after)
    ensures Readable(WriteConfig(out, dir, P.Absolute(cwd)), file)
    ensures var files := AfterWrite(before, out, file, after, dir, cwd);
            Starts(files, dir, cwd) <==>
              && D.Beside(out.menus, out.clients, before + after) && V.StateValid(s)
              && OthersValid(before + after) && V.ServicesValid(Load(files, dir, cwd))
  {
    hide Merged, Mergeable, Parsed, Readable, RawOf, Normal, Writable, P.MakeRelative, P.ResolveDir, P.AllProper;
    hide D.Beside, D.Around;
    hide V.StateValid, V.ServicesValid, V.EntriesValid, Flat, W.MacsOk;
    W.StateWritable(s, out);
    WriteThenLoad(out, dir, cwd, file, before, after);
    LoadedLists(out, dir, cwd, file, before, after);
    V.EntriesJoin(Flat(before, MenusOf), Normal(out, file).menus, Flat(after, MenusOf),
                  Flat(before, ClientsOf), Normal(out, file).clients, Flat(after, ClientsOf));
    V.NormalEntries(out, file);
    Validity.StateValidExactly(s, out);
    V.ValidParts(Load(AfterWrite(before, out, file, after, dir, cwd), dir, cwd));
    D.FlatAround(before, Parsed(WriteConfig(out, dir, P.Absolute(cwd)), file), after, MenusOf);
    D.FlatAround(before, Parsed(WriteConfig(out, dir, P.Absolute(cwd)), file), after, ClientsOf);
  }

  lemma LoadedLists(out: FullConfig, dir: string, cwd: seq<string>, file: string,
                    before: seq<FileResult>, after: seq<FileResult>)
    requires Writable(out)
    ensures Readable(WriteConfig(out, dir, P.Absolute(cwd)), file)
    ensures var loaded := Load(AfterWrite(before, out, file, after, dir, cwd), dir, cwd);
            && loaded.menus == Flat(before, MenusOf) + Normal(out, file).menus + Flat(after, MenusOf)
            && loaded.clients == Flat(before, ClientsOf) + Normal(out, file).clients + Flat(after, ClientsOf)
  {
    hide Merged, Parsed, Readable, RawOf, Normal, P.MakeRelative, P.ResolveDir, D.Around, Flat, Writable;
    var w := Written(out, dir, cwd);
    WrittenWritable(out, dir, cwd);
    D.SavedFile(w, file);
    NormalOfWritten(out, dir, cwd, file);
    D.LoadedAround(before, Parsed(RawOf(w), file), after);
  }

  /** In a directory without other files: names and MACs are distinct, the state
      is valid and so are the saved services. */
  lemma AloneStartsExactly(s: W.State, out: FullConfig, dir: string, cwd: seq<string>, file: string)
    requires W.RefsOk(s) && W.MacsOk(s) && D.SavesState(s, out)
    requires P.AllProper(cwd) && dir != "" && file != ""
    ensures Readable(WriteConfig(out, dir, P.Absolute(cwd)), file)
    ensures Starts(AfterWrite([], out, file, [], dir, cwd), dir, cwd) <==>
              && DistinctBy(out.menus, NameOf) && DistinctBy(out.clients, MacOf)
              && V.StateValid(s) && V.ServicesValid(out)
  {
    hide Merged, Mergeable, Parsed, Readable, RawOf, Normal, Writable, P.MakeRelative, P.ResolveDir, P.AllProper;
    hide P.Reloaded;
    hide W.MacsOk, W.RefsOk, V.StateValid, V.EntriesValid, Refers, DistinctBy, D.ServicesUndisturbed, D.Around;
    W.StateWritable(s, out);
    W.StateRefers(s);
    SavedStartsExactly(s, out, dir, cwd, file, [], []);
    WriteThenLoad(out, dir, cwd, file, [], []);
    ghost var none: seq<FileResult> := [];
    assert none + none == [];
    assert out.menus + [] == out.menus && out.clients + [] == out.clients;
    AloneServices(out, dir, cwd, file);
    assert OthersValid([]) by { NobodyElse(); }
  }

  lemma NobodyElse()
    ensures OthersValid([])
  {
  }

  lemma AloneServices(out: FullConfig, dir: string, cwd: seq<string>, file: string)
    requires Writable(out) && P.AllProper(cwd) && dir != "" && file != ""
    ensures Readable(WriteConfig(out, dir, P.Absolute(cwd)), file)
    ensures V.ServicesValid(Load(AfterWrite([], out, file, [], dir, cwd), dir, cwd)) <==> V.ServicesValid(out)
  {
    hide Parsed, Readable, RawOf, P.MakeRelative, P.AllProper, P.Reloaded, P.ResolveDir, Merged, Writable, NormalMenu;
    hide NormalClient;
    var w, f := Written(out, dir, cwd), file;
    WrittenWritable(out, dir, cwd);
    SaveThenLoad(w, file);
    assert D.Around([], Parsed(RawOf(w), file), []) == [Parsed(RawOf(w), file)];
    P.AnyDataDirLoads(out.server.dataDir, dir, cwd);
    P.ReloadedGiven(out.server.dataDir, dir, cwd);
  }

  /** From any configuration that merge accepted, through any wizard session: when
      serve starts on the directory it leaves, and that then every request of a
      configured, enabled machine is answered with a script, after any run of
      overrides, reloads and requests. */
  lemma EditedSiteAnswers(cfg: FullConfig, edits: seq<W.Edit>, out: FullConfig, dir: string, cwd: seq<string>,
                          file: string, before: seq<FileResult>, after: seq<FileResult>, ops: seq<Op>,
                          serverIP: string, httpPort: int, mac: MAC)
    requires Consistent(cfg) && Writable(cfg) && D.SavesState(W.Run(W.StateOf(cfg), edits), out)
    requires P.AllProper(cwd) && dir != "" && file != "" && D.AllNamed(before + after) && LoadsMerged(ops)
    ensures Readable(WriteConfig(out, dir, P.Absolute(cwd)), file)
    ensures var files, others := AfterWrite(before, out, file, after, dir, cwd), before + after;
            Starts(files, dir, cwd) <==>
              && Flat(others, ServersOf) == [] && OthersValid(others)
              && DistinctBy(out.menus + Flat(others, MenusOf), NameOf)
              && DistinctBy(out.clients + Flat(others, ClientsOf), MacOf)
              && Refers(out.menus + Flat(others, MenusOf), Flat(others, ClientsOf))
              && V.StateValid(W.Run(W.StateOf(cfg), edits)) && V.ServicesValid(Load(files, dir, cwd))
    ensures var files := AfterWrite(before, out, file, after, dir, cwd);
            Starts(files, dir, cwd) ==>
              var site := Run(SiteOf(Load(files, dir, cwd)), ops);
              var reply := ReplyTo(site, serverIP, httpPort, mac);
              !reply.Failure? && (Boots(site, mac) <==> reply.Override? || reply.Menu?)
  {
    hide W.Run, W.StateOf, W.RefsOk, W.MacsOk, W.WildcardLast, D.SavesState, Consistent, Writable, Readable;
    hide WriteConfig, Flat;
    hide DistinctBy, Refers, OthersValid, V.StateValid, V.ServicesValid, LoadsMerged, Starts, Load, P.AllProper;
    hide D.AllNamed, ReplyTo, Boots, Run;
    W.LoadedStateOk(cfg);
    W.RunKeeps(W.StateOf(cfg), edits);
    var s := W.Run(W.StateOf(cfg), edits);
    SavedStartsExactly(s, out, dir, cwd, file, before, after);
    StateBeside(s, out, before + after);
    var files := AfterWrite(before, out, file, after, dir, cwd);
    if Starts(files, dir, cwd) {
      StartedSiteAnswers(files, dir, cwd, ops, serverIP, httpPort, mac);
    }
  }

  lemma StateBeside(s: W.State, out: FullConfig, others: seq<FileResult>)
    requires W.RefsOk(s) && D.SavesState(s, out)
    ensures D.Beside(out.menus, out.clients, others) <==>
              && Flat(others, ServersOf) == []
              && DistinctBy(out.menus + Flat(others, MenusOf), NameOf)
              && DistinctBy(out.clients + Flat(others, ClientsOf), MacOf)
              && Refers(out.menus + Flat(others, MenusOf), Flat(others, ClientsOf))
  {
    hide W.RefsOk, Flat, DistinctBy, Refers;
    W.StateRefers(s);
    D.OwnRefer(out.menus, Flat(others, MenusOf), out.clients, Flat(others, ClientsOf));
  }

  /** The session that takes a default away leaves a directory on which serve
      refuses to start, whatever else is in it. */
  lemma SkippedDefaultStops(cfg: FullConfig, out: FullConfig, dir: string, cwd: seq<string>, file: string,
                            before: seq<FileResult>, after: seq<FileResult>)
    requires W.StateOf(cfg) == W.DefaultState() && D.SavesState(W.Run(W.StateOf(cfg), W.TAKES_DEFAULT), out)
    requires P.AllProper(cwd) && dir != "" && file != "" && D.AllNamed(before + after)
    ensures Readable(WriteConfig(out, dir, P.Absolute(cwd)), file)
    ensures !Starts(AfterWrite(before, out, file, after, dir, cwd), dir, cwd)
  {
    hide W.Run, W.StateOf, W.RefsOk, W.MacsOk, W.DefaultsOk, W.WildcardLast, Readable, WriteConfig, Starts, Load;
    hide V.StateValid, V.ServicesValid, OthersValid, D.Beside, W.DefaultState;
    W.SkipTakesDefault(cfg);
    W.DefaultStateOk();
    W.RunKeeps(W.StateOf(cfg), W.TAKES_DEFAULT);
    var s := W.Run(W.StateOf(cfg), W.TAKES_DEFAULT);
    V.ValidDefaults(s);
    SavedStartsExactly(s, out, dir, cwd, file, before, after);
  }

  // ---------------------------------------------------------------- saving changes no boot

  predicate MenuKept(m: MenuEntry) { m.kind.Exit? || m.kind.Chain? || m.boot.chain == "" }

  predicate DirectKept(m: MenuEntry) {
    match m.kind
    case Exit => m.boot.loader != "wimboot" && m.boot.(loader := "", cmdline := "", files := []) == NO_BOOT
    case Chain => m.boot.loader != "wimboot"
    case _ => m.boot.loader == "wimboot" || m.boot.chain == ""
  }

  /** Which valid entries, booted directly, ask for the same actions once saved;
      SaveKeepsMenuBoot says it for the menu. */
  lemma SaveKeepsDirectBoot(m: MenuEntry, path: string, vars: Vars)
    requires m.Valid()
    ensures G.BootActions(NormalMenu(m, path), vars) == G.BootActions(m, vars) <==> DirectKept(m)
  {
    hide G.FileTemplate;
    var n := NormalMenu(m, path);
    forall f ensures G.FileTemplate(n, f, vars) == G.FileTemplate(m, f, vars) { SameTemplate(n, m, f, vars); }
    var a, b := G.BootActions(n, vars), G.BootActions(m, vars);
    match m.kind
    case Exit =>
      assert a == [G.BootNow];
      assert DirectKept(m) ==> b == a;
      assert m.boot.loader == "wimboot" ==> b[0].LoadKernel?;
      assert m.boot.kernel != "" && m.boot.loader != "wimboot" && m.boot.chain == m.boot.binary == "" ==>
          b[0].LoadKernel?;
    case Chain =>
      assert a == [G.ChainTo(m.boot.chain)];
      assert m.boot.loader == "wimboot" ==> b[0].LoadKernel?;
    case OtherType(_) =>
    case _ =>
      SameLoads(n, m, vars);
      if m.boot.loader != "wimboot" && m.boot.chain != "" {
        assert b[0].ChainTo? && !a[0].ChainTo?;
      }
  }

  lemma SameLoads(n: MenuEntry, m: MenuEntry, vars: Vars)
    requires n.boot.files == m.boot.files
    requires forall f :: G.FileTemplate(n, f, vars) == G.FileTemplate(m, f, vars)
    ensures G.LoadFiles(n, n.boot.files, vars) == G.LoadFiles(m, m.boot.files, vars)
  {
    hide G.FileTemplate;
  }

  /** The entry shows the same and asks for the same actions: directly, or from
      its menu. */
  ghost predicate SameEntry(e: MenuEntry, f: MenuEntry, direct: bool, v: Vars) {
    && e.name == f.name && e.labelText == f.labelText && e.kind == f.kind
    && if direct then G.BootActions(e, v) == G.BootActions(f, v) else G.MenuActions(e, v) == G.MenuActions(f, v)
  }

  /** Two replies that show the same and ask for the same actions. */
  ghost predicate SameReply(a: Reply, b: Reply) {
    match (a, b)
    case (NotFound, NotFound) => true
    case (Forbidden, Forbidden) => true
    case (Failure, Failure) => true
    case (Override(e, v), Override(f, w)) => v == w && SameEntry(e, f, true, v)
    case (Menu(es, mc, v), Menu(fs, nc, w)) =>
      && v == w && mc == nc && |es| == |fs|
      && forall i :: 0 <= i < |es| ==> SameEntry(es[i], fs[i], G.IsDirect(es), v)
    case _ => false
  }

  predicate EntryKept(m: MenuEntry, direct: bool) { if direct then DirectKept(m) else MenuKept(m) }

  /** No entry that this reply boots carries a parameter that saving drops. */
  predicate ReplyKept(r: Reply) {
    match r
    case Override(e, _) => EntryKept(e, true)
    case Menu(es, _, _) => forall i :: 0 <= i < |es| ==> EntryKept(es[i], G.IsDirect(es))
    case _ => true
  }

  function NormalMenus(ms: seq<MenuEntry>, path: string): (r: seq<MenuEntry>)
    ensures |r| == |ms| && forall i :: 0 <= i < |ms| ==> r[i] == NormalMenu(ms[i], path)
  {
    seq(|ms|, i requires 0 <= i < |ms| => NormalMenu(ms[i], path))
  }

  function NormalClients(cs: seq<Client>, path: string): (r: seq<Client>)
    ensures |r| == |cs| && forall i :: 0 <= i < |cs| ==> r[i] == NormalClient(cs[i], path)
  {
    seq(|cs|, i requires 0 <= i < |cs| => NormalClient(cs[i], path))
  }

  function NormalFound(c: Option<Client>, path: string): Option<Client> {
    if c.None? then None else Some(NormalClient(c.value, path))
  }

  lemma {:induction false} ScanNormal(cs: seq<Client>, path: string, mac: MAC)
    ensures LastNamed(NormalClients(cs, path), mac) == NormalFound(LastNamed(cs, mac), path)
    ensures LastWildcard(NormalClients(cs, path)) == NormalFound(LastWildcard(cs), path)
  {
    if cs != [] {
      var k := |cs| - 1;
      assert NormalClients(cs, path)[..k] == NormalClients(cs[..k], path);
      ScanNormal(cs[..k], path, mac);
    }
  }

  lemma FoundNormal(cs: seq<Client>, path: string, mac: MAC)
    ensures Find(Index(NormalClients(cs, path)), LastWildcard(NormalClients(cs, path)), mac)
            == NormalFound(Find(Index(cs), LastWildcard(cs), mac), path)
  {
    hide LastNamed, LastWildcard, Index, Find;
    IndexIsScan(cs, mac);
    IndexIsScan(NormalClients(cs, path), mac);
    ScanNormal(cs, path, mac);
  }

  lemma {:induction false} MenusNormal(ms: seq<MenuEntry>, path: string)
    ensures forall n :: n in MenuIndex(NormalMenus(ms, path)) <==> n in MenuIndex(ms)
    ensures forall n :: n in MenuIndex(ms) ==> MenuIndex(NormalMenus(ms, path))[n] == NormalMenu(MenuIndex(ms)[n], path)
  {
    hide NormalMenu;
    if ms != [] {
      var k := |ms| - 1;
      assert NormalMenus(ms, path)[..k] == NormalMenus(ms[..k], path);
      MenusNormal(ms[..k], path);
      assert NormalMenu(ms[k], path).name == ms[k].name by { NormalMenuName(ms[k], path); }
    }
  }

  lemma NormalMenuName(m: MenuEntry, path: string)
    ensures NormalMenu(m, path).name == m.name && NormalMenu(m, path).labelText == m.labelText
    ensures NormalMenu(m, path).kind == m.kind
  {
  }

  lemma ResolvedNormal(ms: seq<MenuEntry>, path: string, names: seq<string>)
    ensures var a, b := Resolve(MenuIndex(ms), names), Resolve(MenuIndex(NormalMenus(ms, path)), names);
            && (a.Resolved? <==> b.Resolved?)
            && (a.Resolved? ==>
                  && |b.entries| == |a.entries|
                  && forall i :: 0 <= i < |a.entries| ==>
                      a.entries[i] in ms && b.entries[i] == NormalMenu(a.entries[i], path))
  {
    hide NormalMenu, MenuIndex, Resolve;
    MenusNormal(ms, path);
    MenuIndexHolds(ms);
    var a, b := Resolve(MenuIndex(ms), names), Resolve(MenuIndex(NormalMenus(ms, path)), names);
    assert ResolvesTo(MenuIndex(ms), names, a) && ResolvesTo(MenuIndex(NormalMenus(ms, path)), names, b);
  }

  lemma SavedLists(cfg: FullConfig, path: string)
    ensures Normal(cfg, path).clients == NormalClients(cfg.clients, path)
    ensures Normal(cfg, path).menus == NormalMenus(cfg.menus, path)
  {
    hide NormalMenu, NormalClient;
  }

  lemma ClientKept(site: Site, saved: Site, path: string, mac: MAC)
    requires saved.clients == NormalClients(site.clients, path)
    ensures var a, b := ClientFor(site, mac), ClientFor(saved, mac);
            && (a.Some? <==> b.Some?)
            && (a.Some? ==>
                b.value.enabled == a.value.enabled && b.value.menu == a.value.menu && b.value.vars == a.value.vars)
  {
    hide Find, Index, LastWildcard, MacString;
    FoundNormal(site.clients, path, mac);
  }

  function NormalReply(r: Reply, path: string): Reply {
    match r
    case Override(e, v) => Reply.Override(NormalMenu(e, path), v)
    case Menu(es, mc, v) => Reply.Menu(NormalMenus(es, path), mc, v)
    case _ => r
  }

  lemma NormalSiteReply(cfg: FullConfig, path: string, site: Site, serverIP: string, httpPort: int, mac: MAC)
    requires site.clients == cfg.clients && site.menus == cfg.menus
    ensures var saved := site.(clients := Normal(cfg, path).clients, menus := Normal(cfg, path).menus);
            ReplyTo(saved, serverIP, httpPort, mac) == NormalReply(ReplyTo(site, serverIP, httpPort, mac), path)
  {
    hide ClientFor, MenuIndex, Resolve, MacString, NormalMenu, Normal;
    SavedLists(cfg, path);
    var saved := site.(clients := Normal(cfg, path).clients, menus := Normal(cfg, path).menus);
    ClientKept(site, saved, path, mac);
    MenusNormal(cfg.menus, path);
    if Boots(site, mac) {
      var names := ClientFor(site, mac).value.menu.entries;
      ResolvedNormal(cfg.menus, path, names);
      var a, b := Resolve(MenuIndex(cfg.menus), names), Resolve(MenuIndex(NormalMenus(cfg.menus, path)), names);
      assert a.Resolved? ==> b.entries == NormalMenus(a.entries, path);
    }
  }

  /** The site after saving and loading again what was loaded. It is accepted
      exactly when the other files give no server section, no menu and no client;
      then it gives the replies of the site before, with each entry as it was
      saved. */
  lemma SavedReply(cfg: FullConfig, path: string, before: seq<FileResult>, old': seq<FileResult>,
                   after: seq<FileResult>, site: Site, serverIP: string, httpPort: int, mac: MAC)
    requires |old'| <= 1 && Mergeable(before + old' + after) && path != "" && D.AllNamed(before + after)
    requires Writable(cfg)
    requires cfg.menus == Merged(before + old' + after).menus && cfg.clients == Merged(before + old' + after).clients
    requires site.clients == cfg.clients && site.menus == cfg.menus
    ensures Readable(RawOf(cfg), path)
    ensures Mergeable(D.Saved(before, cfg, path, after)) <==> D.OnlyServices(before + after)
    ensures Mergeable(D.Saved(before, cfg, path, after)) ==>
              ReplyTo(Reloaded(site, before, cfg, path, after), serverIP, httpPort, mac)
              == NormalReply(ReplyTo(site, serverIP, httpPort, mac), path)
  {
    hide Merged, Mergeable, Readable, RawOf, Writable, Normal, ReplyTo, NormalReply, D.Saved, D.OnlyServices;
    D.UneditedSaves(before, old', after, cfg, cfg, path);
    if D.OnlyServices(before + after) {
      D.LoadsOwnLists(before, cfg, path, after);
      NormalSiteReply(cfg, path, site, serverIP, httpPort, mac);
    }
  }

  /** The site with the lists that are loaded after a save. */
  function Reloaded(site: Site, before: seq<FileResult>, cfg: FullConfig, path: string, after: seq<FileResult>): Site
    requires Readable(RawOf(cfg), path)
  {
    var loaded := Merged(D.Saved(before, cfg, path, after));
    site.(clients := loaded.clients, menus := loaded.menus)
  }

  /** What a reply boots are menus of the site. */
  lemma ReplyIsListed(site: Site, serverIP: string, httpPort: int, mac: MAC)
    ensures var r := ReplyTo(site, serverIP, httpPort, mac);
            && (r.Override? ==> r.entry in site.menus)
            && (r.Menu? ==> forall i :: 0 <= i < |r.entries| ==> r.entries[i] in site.menus)
  {
    hide ClientFor, MenuIndex, Resolve, MacString;
    MenuIndexHolds(site.menus);
    if Boots(site, mac) {
      var names := ClientFor(site, mac).value.menu.entries;
      assert ResolvesTo(MenuIndex(site.menus), names, Resolve(MenuIndex(site.menus), names));
    }
  }

  lemma EntryKeptExactly(m: MenuEntry, path: string, direct: bool, vars: Vars)
    requires m.Valid()
    ensures SameEntry(m, NormalMenu(m, path), direct, vars) <==> EntryKept(m, direct)
  {
    hide G.BootActions, G.MenuActions, DirectKept, NormalMenu;
    NormalMenuName(m, path);
    SaveKeepsMenuBoot(m, path, vars);
    SaveKeepsDirectBoot(m, path, vars);
  }

  lemma NormalKeepsReplyExactly(cfg: FullConfig, path: string, site: Site, serverIP: string, httpPort: int, mac: MAC)
    requires cfg.Valid() && site.clients == cfg.clients && site.menus == cfg.menus
    ensures var saved := site.(clients := Normal(cfg, path).clients, menus := Normal(cfg, path).menus);
            var before := ReplyTo(site, serverIP, httpPort, mac);
            SameReply(before, ReplyTo(saved, serverIP, httpPort, mac)) <==> ReplyKept(before)
  {
    hide ReplyTo, NormalMenu, Normal, EntryKept, SameEntry, G.IsDirect;
    NormalSiteReply(cfg, path, site, serverIP, httpPort, mac);
    ReplyIsListed(site, serverIP, httpPort, mac);
    var before := ReplyTo(site, serverIP, httpPort, mac);
    match before
    case Override(e, v) => EntryKeptExactly(e, path, true, v);
    case Menu(es, mc, v) =>
      var direct := G.IsDirect(es);
      forall i | 0 <= i < |es|
        ensures SameEntry(es[i], NormalMenu(es[i], path), direct, v) <==> EntryKept(es[i], direct)
      {
        assert es[i] in cfg.menus;
        EntryKeptExactly(es[i], path, direct, v);
      }
    case _ =>
  }

  /** Writing a valid loaded configuration, once the directory is accepted again,
      leaves the answer to a boot request the same, asking for the same actions,
      exactly when no entry that the answer boots carries a parameter foreign to
      its type. */
  lemma SavingKeepsReplyExactly(cfg: FullConfig, path: string, before: seq<FileResult>, old': seq<FileResult>,
                                after: seq<FileResult>, site: Site, serverIP: string, httpPort: int, mac: MAC)
    requires |old'| <= 1 && Mergeable(before + old' + after) && path != "" && D.AllNamed(before + after)
    requires cfg.Valid() && Writable(cfg)
    requires cfg.menus == Merged(before + old' + after).menus && cfg.clients == Merged(before + old' + after).clients
    requires site.clients == cfg.clients && site.menus == cfg.menus
    ensures Readable(RawOf(cfg), path)
    ensures Mergeable(D.Saved(before, cfg, path, after)) <==> D.OnlyServices(before + after)
    ensures var was := ReplyTo(site, serverIP, httpPort, mac);
            Mergeable(D.Saved(before, cfg, path, after)) ==>
              (SameReply(was, ReplyTo(Reloaded(site, before, cfg, path, after), serverIP, httpPort, mac)) <==>
                  ReplyKept(was))
  {
    hide Merged, Mergeable, Readable, RawOf, Writable, Normal, ReplyTo, SameReply, ReplyKept, D.Saved, D.OnlyServices;
    D.UneditedSaves(before, old', after, cfg, cfg, path);
    if D.OnlyServices(before + after) {
      D.LoadsOwnLists(before, cfg, path, after);
      NormalKeepsReplyExactly(cfg, path, site, serverIP, httpPort, mac);
    }
  }

  /** The same reply is answered with the same scripts. */
  lemma SameReplySameScripts(a: Reply, b: Reply, r: HTTPReply)
    requires SameReply(a, b)
    ensures Answers(a, r) <==> Answers(b, r)
  {
    hide G.BootActions, G.MenuActions, G.CompilesAll, Listing, MenuScript;
    match (a, b)
    case (Override(e, v), Override(f, _)) =>
      assert forall t, block :: G.OverrideScript(e, v, t, block) <==> G.OverrideScript(f, v, t, block);
    case (Menu(es, mc, v), Menu(fs, _, _)) =>
      assert G.IsDirect(es) <==> G.IsDirect(fs) by { SameKinds(es, fs, v); }
      if G.IsDirect(es) {
        assert SameEntry(es[0], fs[0], true, v);
        assert forall t, block :: G.DirectScript(es[0], v, t, block) <==> G.DirectScript(fs[0], v, t, block);
      } else {
        assert G.Names(es) == G.Names(fs) && G.Labels(es) == G.Labels(fs) by { SameKinds(es, fs, v); }
        forall t, blocks ensures G.MenuText(es, mc, v, t, blocks) <==> G.MenuText(fs, mc, v, t, blocks) {
          assert G.MenuBlocks(es, v, blocks) <==> G.MenuBlocks(fs, v, blocks);
        }
      }
    case _ =>
  }

  lemma SameKinds(es: seq<MenuEntry>, fs: seq<MenuEntry>, v: Vars)
    requires |es| == |fs| && forall i :: 0 <= i < |es| ==> SameEntry(es[i], fs[i], G.IsDirect(es), v)
    ensures (G.IsDirect(es) <==> G.IsDirect(fs)) && G.Names(es) == G.Names(fs) && G.Labels(es) == G.Labels(fs)
  {
    hide G.BootActions, G.MenuActions;
  }

  // ---------------------------------------------------------------- what the machine runs

  /** The text of a menu reply, its entries' compiled blocks, and that each
      piece stays on its line, as CleanFits promises for clean fields. */
  ghost predicate MenuReply(reply: Reply, text: string, blocks: seq<seq<Cmd>>) {
    && reply.Menu? && G.MenuText(reply.entries, reply.config, reply.vars, text, blocks)
    && CleanScripts.Fits(reply.entries, reply.config, blocks)
  }

  /** A menu that is served, once read and run by the machine, is the menu of
      the client's own entries, exactly when none of them is called start or
      failed. */
  lemma ServedMenuMeans(site: Site, serverIP: string, httpPort: int, mac: MAC, text: string, blocks: seq<seq<Cmd>>)
    requires Sound(site)
    ensures MenuReply(ReplyTo(site, serverIP, httpPort, mac), text, blocks) ==>
              var c := ClientFor(site, mac).value;
              && |blocks| == |c.menu.entries|
              && (MeansMenu(ParseScript(text), c.menu.entries, blocks, c.menu.default, G.Millis(c.menu)) <==>
                  SafeNames(c.menu.entries))
  {
    hide Sound, MeansMenu, ParseScript, SafeNames, G.Millis, CleanScripts.Fits, ClientFor, G.MenuBlocks;
    var reply := ReplyTo(site, serverIP, httpPort, mac);
    if MenuReply(reply, text, blocks) {
      var c := ClientFor(site, mac).value;
      SoundAnswers(site, serverIP, httpPort, mac);
      assert G.Names(reply.entries) == c.menu.entries;
      G.BlocksSized(reply.entries, reply.vars, blocks);
      GeneratedMenuExactly(reply.entries, c.menu, reply.vars, text, blocks);
    }
  }

  /** A machine left alone at a served menu boots the default entry, once as many
      seconds have passed as its client's timeout says. */
  lemma UnattendedBoots(site: Site, serverIP: string, httpPort: int, mac: MAC, text: string, blocks: seq<seq<Cmd>>,
                        oks: seq<bool>)
    requires Sound(site)
    ensures MenuReply(ReplyTo(site, serverIP, httpPort, mac), text, blocks) ==>
              var mc := ClientFor(site, mac).value.menu;
              && |blocks| == |mc.entries|
              && (SafeNames(mc.entries) && mc.timeout > 0 && mc.default in mc.entries ==>
                    var r := RunBlock(blocks[IndexOf(mc.entries, mc.default)], [], [], oks);
                    Yields(ParseScript(text), Init([Idle(1000 * mc.timeout)], oks),
                           Final(if r.status == Running then AwaitChoice else r.status, r.trace, [], r.oks)))
  {
    hide Sound, ParseScript, SafeNames, G.Millis, CleanScripts.Fits, ClientFor, G.MenuBlocks, Yields, RunBlock, RunMenu;
    var reply := ReplyTo(site, serverIP, httpPort, mac);
    if MenuReply(reply, text, blocks) {
      var mc := ClientFor(site, mac).value.menu;
      SoundAnswers(site, serverIP, httpPort, mac);
      assert G.Names(reply.entries) == mc.entries;
      G.BlocksSized(reply.entries, reply.vars, blocks);
      GeneratedMenuExactly(reply.entries, mc, reply.vars, text, blocks);
      if SafeNames(mc.entries) && mc.timeout > 0 && mc.default in mc.entries {
        assert Blocks(blocks) by { ReadBack(reply.entries, mc, reply.vars, text, blocks); }
        assert G.Millis(mc) == 1000 * mc.timeout by { Thousandfold(mc); }
        Unattended(mc.entries, blocks, mc.default, G.Millis(mc), 1000 * mc.timeout, oks);
      }
    }
  }

  lemma Thousandfold(mc: MenuConfig)
    ensures mc.timeout > 0 ==> G.Millis(mc) == 1000 * mc.timeout
  {
  }

  /** Such a menu's script is closed, and no run of it is ever lost: every jump
      and every item has a label, also with entries called start or failed; so has
      a validated client's default. */
  lemma ServedMenuIsClosed(site: Site, serverIP: string, httpPort: int, mac: MAC, text: string, blocks: seq<seq<Cmd>>,
                           choices: seq<Choice>, oks: seq<bool>, n: nat)
    requires Sound(site)
    ensures var reply, p := ReplyTo(site, serverIP, httpPort, mac), ParseScript(text);
            MenuReply(reply, text, blocks) ==>
              && ClosedIn(p, p)
              && !Steps(p, Init(choices, oks), n).status.NoLabel? && !Steps(p, Init(choices, oks), n).status.Ended?
              && (reply.config.Valid() && reply.config.default != "" ==> HasLabel(p, reply.config.default))
  {
    hide Sound, ParseScript, ClosedIn, Steps, ReplyTo, G.MenuText, HasLabel, CleanScripts.Fits;
    var reply := ReplyTo(site, serverIP, httpPort, mac);
    if MenuReply(reply, text, blocks) {
      ServedNames(site, serverIP, httpPort, mac);
      TextIsClosed(reply.entries, reply.config, reply.vars, text, blocks, choices, oks, n);
    }
  }

  lemma ServedNames(site: Site, serverIP: string, httpPort: int, mac: MAC)
    requires Sound(site)
    ensures var reply := ReplyTo(site, serverIP, httpPort, mac);
            reply.Menu? ==> G.Names(reply.entries) == reply.config.entries
  {
    hide Sound, ClientFor;
    SoundAnswers(site, serverIP, httpPort, mac);
  }

  lemma TextIsClosed(entries: seq<MenuEntry>, mc: MenuConfig, vars: Vars, text: string, blocks: seq<seq<Cmd>>,
                     choices: seq<Choice>, oks: seq<bool>, n: nat)
    requires G.MenuText(entries, mc, vars, text, blocks) && CleanScripts.Fits(entries, mc, blocks)
    ensures var p := ParseScript(text);
            && ClosedIn(p, p) && (mc.default in G.Names(entries) ==> HasLabel(p, mc.default))
            && !Steps(p, Init(choices, oks), n).status.NoLabel? && !Steps(p, Init(choices, oks), n).status.Ended?
  {
    hide ParseScript, MenuScript, G.Millis, CleanScripts.Fits, G.MenuBlocks, ClosedIn, Steps, Blocks, Listing, HasLabel;
    ReadBack(entries, mc, vars, text, blocks);
    MenuIsClosed(G.Names(entries), G.Labels(entries), mc.default, G.Millis(mc), blocks);
    MenuScriptNeverLost(G.Names(entries), G.Labels(entries), mc.default, G.Millis(mc), blocks, choices, oks, n);
  }

  /** A menu reply whose names may have spaces, as the first words that iPXE reads
      and what follows them. */
  ghost predicate SpacedReply(reply: Reply, text: string, blocks: seq<seq<Cmd>>, words: seq<string>,
                              rests: seq<string>) {
    && reply.Menu? && G.MenuText(reply.entries, reply.config, reply.vars, text, blocks)
    && FirstWords.SplitItems(reply.entries, words, rests)
    && FirstWords.Framed(G.Names(reply.entries), reply.config, blocks)
  }

  /** Some session of a served menu is lost exactly when some first word is no
      label; and the menu is that of the client's own entries exactly when none is
      called start or failed and each first word leads to a block that does what
      the entry's own does. */
  lemma ServedSpacedMenu(site: Site, serverIP: string, httpPort: int, mac: MAC, text: string, blocks: seq<seq<Cmd>>,
                         words: seq<string>, rests: seq<string>)
    requires Sound(site) && SpacedReply(ReplyTo(site, serverIP, httpPort, mac), text, blocks, words, rests)
    ensures var c, p := ClientFor(site, mac).value, ParseScript(text);
            var names := c.menu.entries;
            && |blocks| == |names| == |words|
            && ((exists choices, oks, n :: Steps(p, Init(choices, oks), n).status.NoLabel?)
                <==> exists w :: w in words && !Labelled(names, w))
            && (MeansMenu(p, names, blocks, c.menu.default, G.Millis(c.menu))
                <==> SafeNames(names) && FirstWords.RunsItself(words, names, blocks))
  {
    hide Sound, MeansMenu, ParseScript, SafeNames, G.Millis, ClientFor, G.MenuText, Steps, Labelled;
    hide FirstWords.SplitItems, FirstWords.Framed, FirstWords.RunsItself;
    var c, reply := ClientFor(site, mac).value, ReplyTo(site, serverIP, httpPort, mac);
    SoundAnswers(site, serverIP, httpPort, mac);
    assert G.Names(reply.entries) == c.menu.entries;
    FirstWords.SplitSizes(reply.entries, reply.config, blocks, words, rests);
    SpacedNames.SpacedNamesLostExactly(reply.entries, reply.config, reply.vars, text, blocks, words, rests);
    SpacedNames.SpacedMeaningExactly(reply.entries, reply.config, reply.vars, text, blocks, words, rests);
  }

  /** When the entries' and variables' texts are clean, a menu reply's text is
      such a reply. */
  lemma CleanMenuReply(site: Site, serverIP: string, httpPort: int, mac: MAC, text: string)
    returns (blocks: seq<seq<Cmd>>)
    requires Sound(site) && ReplyTo(site, serverIP, httpPort, mac).Menu? && ClientFor(site, mac).value.menu.Valid()
    requires forall m :: m in site.menus ==> CleanEntry(m) && OneWord(m.name)
    requires var reply := ReplyTo(site, serverIP, httpPort, mac);
             && CleanVars(reply.vars) && G.Generated(reply.entries, reply.config, reply.vars, text)
             && !G.IsDirect(reply.entries)
    ensures MenuReply(ReplyTo(site, serverIP, httpPort, mac), text, blocks)
  {
    hide Sound, CleanEntry, CleanVars, CleanScripts.Fits, ClientFor, G.MenuBlocks;
    var c, reply := ClientFor(site, mac).value, ReplyTo(site, serverIP, httpPort, mac);
    SoundAnswers(site, serverIP, httpPort, mac);
    assert G.Names(reply.entries) == c.menu.entries;
    blocks :| G.MenuText(reply.entries, c.menu, reply.vars, text, blocks);
    DefaultClean(reply.entries, c.menu);
    CleanFits(reply.entries, c.menu, reply.vars, blocks);
  }

  lemma DefaultClean(entries: seq<MenuEntry>, mc: MenuConfig)
    requires mc.Valid() && G.Names(entries) == mc.entries
    requires forall e :: e in entries ==> CleanEntry(e) && OneWord(e.name)
    ensures Clean(mc.default) && ' ' !in mc.default
  {
    if mc.default != "" {
      var i :| 0 <= i < |mc.entries| && mc.entries[i] == mc.default;
      assert entries[i] in entries && entries[i].name == mc.default;
    }
  }
}
