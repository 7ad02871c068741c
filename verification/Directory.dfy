/** Saving into a directory of several files: the writer replaces one of them,
    and loading merges it with all the others. */
module Directory {
  import opened Domain
  import opened Mac
  import opened MergeRules
  import opened MergeOrder
  import opened SaveLoad
  import opened Wizard

  predicate AllNamed(files: seq<FileResult>) { forall f :: f in files ==> f.filename != "" }

  /** The directory with one file in its place in reading order. */
  function Around(before: seq<FileResult>, f: FileResult, after: seq<FileResult>): seq<FileResult> {
    before + [f] + after
  }

  /** The directory after a save: the written file, and the others as they were. */
  function Saved(before: seq<FileResult>, out: FullConfig, path: string, after: seq<FileResult>): seq<FileResult>
    requires Readable(RawOf(out), path)
  {
    Around(before, Parsed(RawOf(out), path), after)
  }

  // ---------------------------------------------------------------- what a directory holds

  lemma FlatAround<T>(before: seq<FileResult>, f: FileResult, after: seq<FileResult>, part: FileResult -> seq<T>)
    ensures Flat(Around(before, f, after), part) == Flat(before, part) + part(f) + Flat(after, part)
    ensures Flat(before + after, part) == Flat(before, part) + Flat(after, part)
  {
    FlatAppend(before + [f], after, part);
    FlatAppend(before, [f], part);
    FlatAppend(before, after, part);
    OneFlat(f, part);
  }

  /** The last of the files that has a section gives it. */
  function LastOf<T>(files: seq<FileResult>, part: FileResult -> Option<T>): Option<T> {
    if files == [] then None
    else if part(files[|files| - 1]).Some? then part(files[|files| - 1])
    else LastOf(files[..|files| - 1], part)
  }

  lemma {:induction false} LastAppend<T>(a: seq<FileResult>, b: seq<FileResult>, part: FileResult -> Option<T>)
    ensures LastOf(a + b, part) == if LastOf(b, part).Some? then LastOf(b, part) else LastOf(a, part)
    decreases |b|
  {
    if b == [] {
      assert a + b == a;
    } else {
      assert (a + b)[..|a + b| - 1] == a + b[..|b| - 1];
      LastAppend(a, b[..|b| - 1], part);
    }
  }

  lemma {:induction false} GivenIsLast<T>(files: seq<FileResult>, part: FileResult -> Option<T>, otherwise: T)
    ensures LastGiven(files, part, otherwise) == LastOf(files, part).GetOr(otherwise)
  {
    if files != [] {
      GivenIsLast(files[..|files| - 1], part, otherwise);
    }
  }

  /** A later file's section wins over the file's own, that over an earlier one's. */
  function Section<T>(before: seq<FileResult>, own: Option<T>, after: seq<FileResult>, part: FileResult -> Option<T>,
                      otherwise: T): T {
    if LastOf(after, part).Some? then LastOf(after, part).value
    else if own.Some? then own.value
    else LastOf(before, part).GetOr(otherwise)
  }

  lemma SectionAround<T>(before: seq<FileResult>, f: FileResult, after: seq<FileResult>, part: FileResult -> Option<T>,
                         otherwise: T)
    ensures LastGiven(Around(before, f, after), part, otherwise) == Section(before, part(f), after, part, otherwise)
  {
    hide LastGiven;
    GivenIsLast(Around(before, f, after), part, otherwise);
    LastAppend(before + [f], after, part);
    LastAppend(before, [f], part);
    assert [f][..0] == [];
  }

  /** What loading gives: the menus and clients of all files, and of each section
      the last one. */
  lemma LoadedAround(before: seq<FileResult>, f: FileResult, after: seq<FileResult>)
    ensures Merged(Around(before, f, after)) == FullConfig(
              Section(before, f.server, after, ServerOf, NO_SERVER),
              Section(before, f.dhcpProxy, after, DHCPOf, NO_DHCP),
              Section(before, f.tftp, after, TFTPOf, NO_TFTP), Section(before, f.http, after, HTTPOf, NO_WEB),
              Section(before, f.health, after, HealthOf, NO_HEALTH),
              Section(before, f.bootloader, after, BootloaderOf, NO_BOOTLOADER),
              Flat(before, MenusOf) + f.menus + Flat(after, MenusOf),
              Flat(before, ClientsOf) + f.clients + Flat(after, ClientsOf))
  {
    hide Flat, LastGiven, Section, Around;
    SectionAround(before, f, after, ServerOf, NO_SERVER);
    SectionAround(before, f, after, DHCPOf, NO_DHCP);
    SectionAround(before, f, after, TFTPOf, NO_TFTP);
    SectionAround(before, f, after, HTTPOf, NO_WEB);
    SectionAround(before, f, after, HealthOf, NO_HEALTH);
    SectionAround(before, f, after, BootloaderOf, NO_BOOTLOADER);
    FlatAround(before, f, after, MenusOf);
    FlatAround(before, f, after, ClientsOf);
  }

  // ---------------------------------------------------------------- acceptance

  /** Menus and clients that fit together with those of the other files. */
  ghost predicate Beside(menus: seq<MenuEntry>, clients: seq<Client>, others: seq<FileResult>) {
    && Flat(others, ServersOf) == []
    && DistinctBy(menus + Flat(others, MenusOf), NameOf)
    && DistinctBy(clients + Flat(others, ClientsOf), MacOf)
    && Refers(menus + Flat(others, MenusOf), clients + Flat(others, ClientsOf))
  }

  /** A file with a server section is accepted among others exactly when they
      have none and menus and clients fit together. */
  lemma BesideExactly(before: seq<FileResult>, f: FileResult, after: seq<FileResult>)
    requires AllNamed(before + [f] + after) && f.server.Some?
    ensures Mergeable(Around(before, f, after)) <==> Beside(f.menus, f.clients, before + after)
  {
    hide Flat, ServerSource, DistinctBy, Refers;
    var files, others := Around(before, f, after), before + after;
    FlatAround(before, f, after, ServersOf);
    FlatAround(before, f, after, MenusOf);
    FlatAround(before, f, after, ClientsOf);
    OneServerSection(files);
    Rotated(Flat(before, MenusOf), f.menus, Flat(after, MenusOf), NameOf);
    Rotated(Flat(before, ClientsOf), f.clients, Flat(after, ClientsOf), MacOf);
    RefersRotated(Flat(files, MenusOf), f.menus + Flat(others, MenusOf), Flat(files, ClientsOf),
                  f.clients + Flat(others, ClientsOf));
  }

  lemma Rotated<T, K>(a: seq<T>, b: seq<T>, c: seq<T>, key: T -> K)
    ensures DistinctBy(a + b + c, key) <==> DistinctBy(b + (a + c), key)
    ensures forall x :: x in a + b + c <==> x in b + (a + c)
  {
    hide DistinctBy;
    assert multiset(a + b + c) == multiset(b + (a + c));
    if DistinctBy(a + b + c, key) { DistinctPermutes(a + b + c, b + (a + c), key); }
    if DistinctBy(b + (a + c), key) { DistinctPermutes(b + (a + c), a + b + c, key); }
  }

  lemma RefersRotated(ma: seq<MenuEntry>, mb: seq<MenuEntry>, ca: seq<Client>, cb: seq<Client>)
    requires (forall m :: m in ma <==> m in mb) && forall c :: c in ca <==> c in cb
    ensures Refers(ma, ca) <==> Refers(mb, cb)
  {
    hide Refers;
    if Refers(ma, ca) { RefersPermutes(ma, mb, ca, cb); }
    if Refers(mb, cb) { RefersPermutes(mb, ma, cb, ca); }
  }

  /** The same names, MACs and references: nothing that acceptance looks at. */
  ghost predicate SameOutline(ma: seq<MenuEntry>, ca: seq<Client>, mb: seq<MenuEntry>, cb: seq<Client>) {
    && |ma| == |mb| && (forall i :: 0 <= i < |ma| ==> ma[i].name == mb[i].name)
    && |ca| == |cb|
    && (forall i :: 0 <= i < |ca| ==> ca[i].mac == cb[i].mac && ca[i].menu.entries == cb[i].menu.entries)
  }

  lemma NamedAlike(a: seq<MenuEntry>, b: seq<MenuEntry>, e: string)
    requires |a| == |b| && (forall i :: 0 <= i < |a| ==> a[i].name == b[i].name) && Named(a, e)
    ensures Named(b, e)
  {
    var i :| 0 <= i < |a| && a[i].name == e;
    assert b[i] in b;
  }

  lemma RefersAlike(ma: seq<MenuEntry>, ca: seq<Client>, mb: seq<MenuEntry>, cb: seq<Client>)
    requires SameOutline(ma, ca, mb, cb) && Refers(ma, ca)
    ensures Refers(mb, cb)
  {
    hide Named;
    forall c, e | c in cb && e in c.menu.entries ensures Named(mb, e) {
      var i :| 0 <= i < |cb| && cb[i] == c;
      assert ca[i] in ca && e in ca[i].menu.entries;
      NamedAlike(ma, mb, e);
    }
  }

  lemma OutlineDecides(ma: seq<MenuEntry>, ca: seq<Client>, mb: seq<MenuEntry>, cb: seq<Client>,
                       others: seq<FileResult>)
    requires SameOutline(ma, ca, mb, cb)
    ensures Beside(ma, ca, others) <==> Beside(mb, cb, others)
  {
    hide Flat, DistinctBy, Refers;
    var m, c := Flat(others, MenusOf), Flat(others, ClientsOf);
    OutlineMore(ma, ca, mb, cb, m, c);
    SameKeys(ma + m, mb + m, NameOf);
    SameKeys(ca + c, cb + c, MacOf);
    if Refers(ma + m, ca + c) { RefersAlike(ma + m, ca + c, mb + m, cb + c); }
    if Refers(mb + m, cb + c) { RefersAlike(mb + m, cb + c, ma + m, ca + c); }
  }

  lemma OutlineMore(ma: seq<MenuEntry>, ca: seq<Client>, mb: seq<MenuEntry>, cb: seq<Client>, m: seq<MenuEntry>,
                    c: seq<Client>)
    requires SameOutline(ma, ca, mb, cb)
    ensures SameOutline(ma + m, ca + c, mb + m, cb + c) && SameOutline(mb + m, cb + c, ma + m, ca + c)
    ensures |ma + m| == |mb + m| && forall i :: 0 <= i < |ma + m| ==> NameOf((ma + m)[i]) == NameOf((mb + m)[i])
    ensures |ca + c| == |cb + c| && forall i :: 0 <= i < |ca + c| ==> MacOf((ca + c)[i]) == MacOf((cb + c)[i])
  {
  }

  lemma NormalOutline(out: FullConfig, path: string)
    ensures SameOutline(Normal(out, path).menus, Normal(out, path).clients, out.menus, out.clients)
  {
    hide Normal;
    NormalNames(out, path);
    NormalSizes(out, path);
  }

  lemma SavedFile(out: FullConfig, path: string)
    requires Writable(out)
    ensures Readable(RawOf(out), path)
    ensures var f := Parsed(RawOf(out), path);
            && f.server == Some(out.server) && f.filename == path
            && f.menus == Normal(out, path).menus && f.clients == Normal(out, path).clients
  {
    hide RawMenus, RawClients, Normal, Merged, ConvertMenu, ConvertClient, Writable;
    SaveThenLoad(out, path);
    OneFile(Parsed(RawOf(out), path));
  }

  /** When the directory of a saved configuration is accepted. */
  lemma SavedExactly(before: seq<FileResult>, out: FullConfig, path: string, after: seq<FileResult>)
    requires Writable(out) && path != "" && AllNamed(before + after)
    ensures Readable(RawOf(out), path)
    ensures Mergeable(Saved(before, out, path, after)) <==> Beside(out.menus, out.clients, before + after)
  {
    hide RawOf, Parsed, Readable, Normal, Writable, Mergeable, Beside, Around;
    SavedFile(out, path);
    NormalOutline(out, path);
    BesideExactly(before, Parsed(RawOf(out), path), after);
    OutlineDecides(Normal(out, path).menus, Normal(out, path).clients, out.menus, out.clients, before + after);
  }

  // ---------------------------------------------------------------- what wizard sessions save

  /** The wizard's menus and clients, turned into a configuration. */
  ghost predicate SavesState(s: State, out: FullConfig) {
    out.menus == EntriesOf(s.menus) && out.clients == ClientsFrom(s.clients)
  }

  /** When what a state saves loads again: the other files have no server section
      and share no menu name and no MAC with it, and their own clients' entries
      still name menus. The state's own clients' entries always do. */
  lemma StateSaves(s: State, out: FullConfig, path: string, before: seq<FileResult>, after: seq<FileResult>)
    requires RefsOk(s) && MacsOk(s) && SavesState(s, out) && path != "" && AllNamed(before + after)
    ensures Readable(RawOf(out), path)
    ensures var others := before + after;
            Mergeable(Saved(before, out, path, after)) <==>
              && Flat(others, ServersOf) == []
              && DistinctBy(out.menus + Flat(others, MenusOf), NameOf)
              && DistinctBy(out.clients + Flat(others, ClientsOf), MacOf)
              && Refers(out.menus + Flat(others, MenusOf), Flat(others, ClientsOf))
  {
    hide RefsOk, MacsOk, RawOf, Parsed, Readable, Writable, Mergeable, Flat, DistinctBy, Refers, Around, Saved;
    StateRefers(s);
    StateWritable(s, out);
    SavedExactly(before, out, path, after);
    OwnRefer(out.menus, Flat(before + after, MenusOf), out.clients, Flat(before + after, ClientsOf));
  }

  lemma OwnRefer(menus: seq<MenuEntry>, more: seq<MenuEntry>, clients: seq<Client>, others: seq<Client>)
    requires Refers(menus, clients)
    ensures Refers(menus + more, clients + others) <==> Refers(menus + more, others)
  {
    if Refers(menus + more, others) {
      forall c, e | c in clients + others && e in c.menu.entries ensures Named(menus + more, e) {
        if c in clients {
          assert Named(menus, e);
        }
      }
    }
  }

  /** The reference check fails exactly on a client of another file with an entry
      that is neither the session's menu any more nor another file's. */
  lemma DanglingExactly(s: State, out: FullConfig, path: string, before: seq<FileResult>, after: seq<FileResult>,
                        c: Client, e: string, hint: string)
    requires RefsOk(s) && MacsOk(s) && SavesState(s, out)
    ensures Readable(RawOf(out), path)
    ensures var others := before + after;
            Explains(Saved(before, out, path, after), UnknownEntry(c, e, hint)) <==>
              c in Flat(others, ClientsOf) && e in c.menu.entries && !Named(out.menus + Flat(others, MenusOf), e)
  {
    hide RefsOk, MacsOk, RawOf, Parsed, Readable, Normal, Writable, Mergeable, Flat, Named, Around;
    StateRefers(s);
    StateWritable(s, out);
    SavedFile(out, path);
    NormalOutline(out, path);
    var f := Parsed(RawOf(out), path);
    FlatAround(before, f, after, MenusOf);
    FlatAround(before, f, after, ClientsOf);
    var menus, more := Flat(Saved(before, out, path, after), MenusOf), Flat(before + after, MenusOf);
    assert Named(menus, e) <==> Named(out.menus + more, e) by {
      NamedSomewhere(Flat(before, MenusOf), f.menus, Flat(after, MenusOf), e);
      NamedSomewhere([], out.menus, more, e);
      NamedSomewhere(Flat(before, MenusOf), [], Flat(after, MenusOf), e);
      assert [] + out.menus + more == out.menus + more && Flat(before, MenusOf) + [] + Flat(after, MenusOf) == more;
      NormalNames(out, path);
    }
    if c in f.clients && e in c.menu.entries {
      var i :| 0 <= i < |f.clients| && f.clients[i] == c;
      assert out.clients[i] in out.clients && e in out.clients[i].menu.entries;
      assert Named(out.menus, e);
      NamedSomewhere([], out.menus, more, e);
      assert [] + out.menus + more == out.menus + more;
    }
  }

  lemma NamedSomewhere(a: seq<MenuEntry>, b: seq<MenuEntry>, c: seq<MenuEntry>, e: string)
    ensures Named(a + b + c, e) <==> Named(a, e) || Named(b, e) || Named(c, e)
    ensures !Named([], e)
  {
  }

  /** Loading after a wizard session, from a configuration that merge accepted and
      however the session went. */
  lemma WizardSaves(cfg: FullConfig, edits: seq<Edit>, out: FullConfig, path: string,
                    before: seq<FileResult>, after: seq<FileResult>)
    requires Consistent(cfg) && Writable(cfg) && path != "" && AllNamed(before + after)
    requires SavesState(Run(StateOf(cfg), edits), out)
    ensures Readable(RawOf(out), path)
    ensures var others := before + after;
            Mergeable(Saved(before, out, path, after)) <==>
              && Flat(others, ServersOf) == []
              && DistinctBy(out.menus + Flat(others, MenusOf), NameOf)
              && DistinctBy(out.clients + Flat(others, ClientsOf), MacOf)
              && Refers(out.menus + Flat(others, MenusOf), Flat(others, ClientsOf))
    ensures forall c, e, hint :: Explains(Saved(before, out, path, after), UnknownEntry(c, e, hint)) <==>
              && c in Flat(before + after, ClientsOf) && e in c.menu.entries
              && !Named(out.menus + Flat(before + after, MenusOf), e)
  {
    hide RefsOk, MacsOk, WildcardLast, Run, SavesState, Readable, RawOf, Saved, Mergeable, Explains, Flat, DistinctBy;
    hide Refers, Named;
    hide Consistent, Writable, AllNamed;
    LoadedStateOk(cfg);
    RunKeeps(StateOf(cfg), edits);
    var s := Run(StateOf(cfg), edits);
    StateSaves(s, out, path, before, after);
    forall c, e, hint
      ensures Explains(Saved(before, out, path, after), UnknownEntry(c, e, hint)) <==>
                && c in Flat(before + after, ClientsOf) && e in c.menu.entries
                && !Named(out.menus + Flat(before + after, MenusOf), e)
    {
      DanglingExactly(s, out, path, before, after, c, e, hint);
    }
  }

  // ---------------------------------------------------------------- sessions that keep the outline

  /** The other files say nothing that the loaded configuration repeats. */
  predicate OnlyServices(others: seq<FileResult>) {
    Flat(others, ServersOf) == [] && Flat(others, MenusOf) == [] && Flat(others, ClientsOf) == []
  }

  lemma RepeatsKey<T, K>(a: seq<T>, b: seq<T>, c: seq<T>, key: T -> K)
    requires a + c != []
    ensures !DistinctBy(a + b + c + (a + c), key)
  {
    var all, x := a + b + c + (a + c), (a + c)[0];
    var i := if a != [] then 0 else |b|;
    var j := |a + b + c|;
    assert all[i] == x && all[j] == x && key(all[i]) == key(all[j]);
  }

  /** Saving a configuration with the names, MACs and references that were
      loaded: loading again is accepted exactly when no other file gives a server
      section, a menu or a client. */
  lemma UneditedSaves(before: seq<FileResult>, old': seq<FileResult>, after: seq<FileResult>, cfg: FullConfig,
                      out: FullConfig, path: string)
    requires |old'| <= 1 && Mergeable(before + old' + after) && path != "" && AllNamed(before + after)
    requires cfg.menus == Merged(before + old' + after).menus && cfg.clients == Merged(before + old' + after).clients
    requires SameOutline(cfg.menus, cfg.clients, out.menus, out.clients) && Writable(out)
    ensures Readable(RawOf(out), path)
    ensures Mergeable(Saved(before, out, path, after)) <==> OnlyServices(before + after)
  {
    hide RawOf, Parsed, Readable, Writable, Flat, DistinctBy, Refers, Saved, ServerSource, SameOutline;
    var others := before + after;
    SavedExactly(before, out, path, after);
    OutlineDecides(cfg.menus, cfg.clients, out.menus, out.clients, others);
    var files := before + old' + after;
    FlatThree(before, old', after, MenusOf);
    FlatThree(before, old', after, ClientsOf);
    FlatAppend(before, after, MenusOf);
    FlatAppend(before, after, ClientsOf);
    if Flat(others, MenusOf) != [] {
      RepeatsKey(Flat(before, MenusOf), Flat(old', MenusOf), Flat(after, MenusOf), NameOf);
    }
    if Flat(others, ClientsOf) != [] {
      RepeatsKey(Flat(before, ClientsOf), Flat(old', ClientsOf), Flat(after, ClientsOf), MacOf);
    }
    assert cfg.menus + [] == cfg.menus && cfg.clients + [] == cfg.clients;
  }

  lemma FlatThree<T>(a: seq<FileResult>, b: seq<FileResult>, c: seq<FileResult>, part: FileResult -> seq<T>)
    ensures Flat(a + b + c, part) == Flat(a, part) + Flat(b, part) + Flat(c, part)
  {
    FlatAppend(a + b, c, part);
    FlatAppend(a, b, part);
  }

  /** A session without edits keeps the outline. */
  lemma UntouchedOutline(cfg: FullConfig, out: FullConfig)
    requires Writable(cfg) && SavesState(StateOf(cfg), out)
    ensures SameOutline(cfg.menus, cfg.clients, out.menus, out.clients) && Writable(out)
  {
    hide ParsedMAC, MacString, ParseMenuType, TypeName;
    WildcardParses();
    forall i | 0 <= i < |cfg.clients| ensures out.clients[i].mac == cfg.clients[i].mac {
      assert cfg.clients[i] in cfg.clients;
      MacRoundTrip(cfg.clients[i].mac);
    }
    forall c | c in out.clients ensures KnownLength(c.mac) {
      var i :| 0 <= i < |out.clients| && out.clients[i] == c;
      assert cfg.clients[i] in cfg.clients;
    }
    forall m | m in out.menus ensures !m.kind.OtherType? {
      var i :| 0 <= i < |out.menus| && out.menus[i] == m;
      assert cfg.menus[i] in cfg.menus;
      MenuTypeRoundTrip(cfg.menus[i].kind);
    }
  }

  /** A session without edits, on what was loaded from the directory. */
  lemma UntouchedSaves(before: seq<FileResult>, old': seq<FileResult>, after: seq<FileResult>, cfg: FullConfig,
                       out: FullConfig, path: string)
    requires |old'| <= 1 && Mergeable(before + old' + after) && path != "" && AllNamed(before + after)
    requires cfg.menus == Merged(before + old' + after).menus && cfg.clients == Merged(before + old' + after).clients
    requires Writable(cfg) && SavesState(Run(StateOf(cfg), []), out)
    ensures Readable(RawOf(out), path)
    ensures Mergeable(Saved(before, out, path, after)) <==> OnlyServices(before + after)
  {
    hide RawOf, Parsed, Readable, Writable, Merged, Mergeable, Saved, SameOutline, StateOf, SavesState;
    UntouchedOutline(cfg, out);
    UneditedSaves(before, old', after, cfg, out, path);
  }

  /** A first run may find other files too, as it only looks for the file that it
      writes. */
  lemma FirstRunSaves(mode: NetbootMode, menus: seq<MenuState>, wildcard: seq<string>, clients: seq<ClientInput>,
                      out: FullConfig, path: string, before: seq<FileResult>, after: seq<FileResult>)
    requires path != "" && AllNamed(before + after)
    requires SavesState(Run(DefaultState(), FirstRun(mode, menus, wildcard, clients)), out)
    ensures Readable(RawOf(out), path)
    ensures var others := before + after;
            Mergeable(Saved(before, out, path, after)) <==>
              && Flat(others, ServersOf) == []
              && DistinctBy(out.menus + Flat(others, MenusOf), NameOf)
              && DistinctBy(out.clients + Flat(others, ClientsOf), MacOf)
              && Refers(out.menus + Flat(others, MenusOf), Flat(others, ClientsOf))
  {
    hide RefsOk, MacsOk, Run, FirstRun, DefaultState, SavesState, Readable, RawOf, Saved, Mergeable, Flat, DistinctBy;
    hide Refers, DefaultsOkThroughout, WildcardLast;
    FirstRunKeeps(mode, menus, wildcard, clients);
    StateSaves(Run(DefaultState(), FirstRun(mode, menus, wildcard, clients)), out, path, before, after);
  }

  /** A menu removed in the wizard that a client of another file still names:
      the session is allowed, and the directory it leaves behind is refused, for
      this one reason. */
  lemma RemovedMenuIsMissed(server: ServerConfig, m: MenuEntry, c: Client, out: FullConfig)
    requires m.name != LOCAL && !m.kind.OtherType? && KnownLength(c.mac) && !c.IsWildcard()
    requires c.menu.entries == [m.name]
    requires var cfg := Merged([MainFile(server, m), ClientFile(c)]);
             SavesState(Run(StateOf(cfg), [DoRemoveClient(0), DoRemoveMenu(0)]), out)
    ensures Mergeable([MainFile(server, m), ClientFile(c)])
    ensures Readable(RawOf(out), "bootforge.toml")
    ensures forall err :: Explains(Saved([], out, "bootforge.toml", [ClientFile(c)]), err) <==>
              err.UnknownEntry? && err.client == c && err.entry == m.name
  {
    hide RawOf, Parsed, Readable, Explains, ParsedMAC, MacString, StateOf, Run, Possible;
    var main, other := MainFile(server, m), ClientFile(c);
    TwoFiles(server, m, c);
    var cfg := Merged([main, other]);
    BothRemoved(cfg, m, c);
    assert out.menus == [] && out.clients == [];
    var s := State([], []);
    assert RefsOk(s) && MacsOk(s);
    assert Writable(out);
    SavedFile(out, "bootforge.toml");
    var f := Parsed(RawOf(out), "bootforge.toml");
    assert Saved([], out, "bootforge.toml", [other]) == [f, other];
    OnlyDangles(f, m, c);
  }

  function MainFile(server: ServerConfig, m: MenuEntry): FileResult {
    FileResult("bootforge.toml", Some(server), None, None, None, None, None, [m], [])
  }

  function ClientFile(c: Client): FileResult {
    FileResult("clients.toml", None, None, None, None, None, None, [], [c])
  }

  lemma TwoFiles(server: ServerConfig, m: MenuEntry, c: Client)
    requires c.menu.entries == [m.name]
    ensures var cfg := Merged([MainFile(server, m), ClientFile(c)]); cfg.menus == [m] && cfg.clients == [c]
    ensures Mergeable([MainFile(server, m), ClientFile(c)])
  {
    var a, b := MainFile(server, m), ClientFile(c);
    FlatPair(a, b, MenusOf);
    FlatPair(a, b, ClientsOf);
    FlatPair(a, b, ServersOf);
    OneServerSection([a, b]);
    assert Named([m], m.name);
  }

  lemma FlatPair<T>(a: FileResult, b: FileResult, part: FileResult -> seq<T>)
    ensures Flat([a, b], part) == part(a) + part(b)
  {
    assert [a, b] == [a] + [b];
    FlatAppend([a], [b], part);
    OneFlat(a, part);
    OneFlat(b, part);
  }

  lemma BothRemoved(cfg: FullConfig, m: MenuEntry, c: Client)
    requires cfg.menus == [m] && cfg.clients == [c] && m.name != LOCAL && KnownLength(c.mac) && !c.IsWildcard()
    ensures Run(StateOf(cfg), [DoRemoveClient(0), DoRemoveMenu(0)]) == State([], [])
  {
    hide ParsedMAC, MacString, TypeName;
    MacRoundTrip(c.mac);
    WildcardParses();
    var s := StateOf(cfg);
    assert s.clients[0].mac != "*";
    var edits := [DoRemoveClient(0), DoRemoveMenu(0)];
    assert edits[1..] == [DoRemoveMenu(0)] && [DoRemoveMenu(0)][1..] == [];
    var t := Apply(s, edits[0]);
    assert t == State(s.menus, []);
    assert Apply(t, edits[1]) == State([], []);
    assert Run(s, edits) == Run(t, [DoRemoveMenu(0)]);
    assert Run(t, [DoRemoveMenu(0)]) == Run(State([], []), []);
  }

  lemma OnlyDangles(f: FileResult, m: MenuEntry, c: Client)
    requires f.server.Some? && f.filename != "" && f.menus == [] && f.clients == [] && c.menu.entries == [m.name]
    ensures forall err :: Explains([f, ClientFile(c)], err) <==>
              err.UnknownEntry? && err.client == c && err.entry == m.name
  {
    hide Flat;
    var o := ClientFile(c);
    FlatPair(f, o, MenusOf);
    FlatPair(f, o, ClientsOf);
    FlatPair(f, o, ServersOf);
    OneServerSection([f, o]);
    assert [f, o][..1] == [f] && [f][..0] == [];
  }

  // ---------------------------------------------------------------- what is loaded then

  /** A section comes back as written: it is not given again in a later file, nor
      left unwritten while an earlier one gives it. */
  predicate Undisturbed<T(==)>(before: seq<FileResult>, own: Option<T>, after: seq<FileResult>,
                               part: FileResult -> Option<T>, otherwise: T)
  {
    if LastOf(after, part).Some? then LastOf(after, part).value == own.GetOr(otherwise)
    else own.None? ==> LastOf(before, part).GetOr(otherwise) == otherwise
  }

  predicate ServicesUndisturbed(before: seq<FileResult>, f: FileResult, after: seq<FileResult>) {
    && Undisturbed(before, f.dhcpProxy, after, DHCPOf, NO_DHCP)
    && Undisturbed(before, f.tftp, after, TFTPOf, NO_TFTP)
    && Undisturbed(before, f.http, after, HTTPOf, NO_WEB)
    && Undisturbed(before, f.health, after, HealthOf, NO_HEALTH)
    && Undisturbed(before, f.bootloader, after, BootloaderOf, NO_BOOTLOADER)
  }

  lemma {:induction false} NoServers(files: seq<FileResult>)
    requires Flat(files, ServersOf) == []
    ensures LastOf(files, ServerOf).None?
  {
    if files != [] {
      NoServers(files[..|files| - 1]);
    }
  }

  /** A directory that is accepted after a save loads as the normal form of what
      was saved exactly when the other files have no menus and clients and leave
      the service sections alone. */
  lemma LoadsNormalExactly(before: seq<FileResult>, out: FullConfig, path: string, after: seq<FileResult>)
    requires Writable(out) && path != "" && AllNamed(before + after)
    ensures Readable(RawOf(out), path)
    ensures Mergeable(Saved(before, out, path, after)) ==>
              (Merged(Saved(before, out, path, after)) == Normal(out, path) <==>
               OnlyServices(before + after) && ServicesUndisturbed(before, Parsed(RawOf(out), path), after))
  {
    hide RawOf, Parsed, Readable, Writable, Mergeable, Flat, LastGiven, Normal, Merged, Around, DistinctBy, Refers;
    SaveThenLoad(out, path);
    SavedExactly(before, out, path, after);
    var f := Parsed(RawOf(out), path);
    OneFile(f);
    LoadedAround(before, f, after);
    FlatAround(before, f, after, MenusOf);
    FlatAround(before, f, after, ClientsOf);
    FlatAround(before, f, after, ServersOf);
    SavedFile(out, path);
    if Mergeable(Saved(before, out, path, after)) {
      NoServers(after);
      PaddedIsSame(Flat(before, MenusOf), f.menus, Flat(after, MenusOf));
      PaddedIsSame(Flat(before, ClientsOf), f.clients, Flat(after, ClientsOf));
    }
  }

  lemma PaddedIsSame<T>(a: seq<T>, b: seq<T>, c: seq<T>)
    ensures a + b + c == b <==> a + c == []
  {
    if a + b + c == b {
      assert |a + b + c| == |a| + |b| + |c|;
    }
  }

  /** The server section of an accepted directory is the saved one. */
  lemma LoadsServer(before: seq<FileResult>, f: FileResult, after: seq<FileResult>)
    requires f.server.Some? && AllNamed(before + [f] + after) && Mergeable(Around(before, f, after))
    ensures Merged(Around(before, f, after)).server == f.server.value
  {
    hide Flat, LastGiven, Mergeable, Merged, DistinctBy, Refers, Around;
    BesideExactly(before, f, after);
    FlatAround(before, f, after, ServersOf);
    NoServers(after);
    LoadedAround(before, f, after);
  }

  /** Beside files without menus and clients, exactly the saved ones are loaded. */
  lemma LoadsOwnLists(before: seq<FileResult>, out: FullConfig, path: string, after: seq<FileResult>)
    requires Writable(out) && OnlyServices(before + after)
    ensures Readable(RawOf(out), path)
    ensures var loaded := Merged(Saved(before, out, path, after));
            loaded.menus == Normal(out, path).menus && loaded.clients == Normal(out, path).clients
  {
    hide RawOf, Parsed, Readable, Writable, Flat, LastGiven, Normal, Merged, Around;
    SavedFile(out, path);
    var f := Parsed(RawOf(out), path);
    LoadedAround(before, f, after);
    FlatAround(before, f, after, MenusOf);
    FlatAround(before, f, after, ClientsOf);
    PaddedIsSame(Flat(before, MenusOf), f.menus, Flat(after, MenusOf));
    PaddedIsSame(Flat(before, ClientsOf), f.clients, Flat(after, ClientsOf));
  }

  // ---------------------------------------------------------------- what the parser lets through

  ghost predicate FromParser(f: FileResult) {
    exists raw, path :: Readable(raw, path) && f == Parsed(raw, path)
  }

  lemma {:induction false} FlatMember<T>(files: seq<FileResult>, part: FileResult -> seq<T>, x: T)
    requires x in Flat(files, part)
    ensures exists f :: f in files && x in part(f)
  {
    var init, last := files[..|files| - 1], files[|files| - 1];
    if x in part(last) {
      assert last in files;
    } else {
      FlatMember(init, part, x);
      var f :| f in init && x in part(f);
      assert f in files;
    }
  }

  lemma ParsedKnown(f: FileResult)
    requires FromParser(f)
    ensures (forall m :: m in f.menus ==> !m.kind.OtherType?) && forall c :: c in f.clients ==> KnownLength(c.mac)
  {
    hide ParsedMAC, ParseMenuType;
    var raw, path :| Readable(raw, path) && f == Parsed(raw, path);
    forall m | m in f.menus ensures !m.kind.OtherType? {
      var i :| 0 <= i < |f.menus| && f.menus[i] == m;
      ParsedType(raw.menu[i].kind);
      assert ConvertMenu(raw.menu[i], path) == Some(m);
    }
    forall c | c in f.clients ensures KnownLength(c.mac) {
      var i :| 0 <= i < |f.clients| && f.clients[i] == c;
      ParsedLength(raw.client[i].mac);
      assert ConvertClient(raw.client[i], path) == Some(c);
    }
  }

  lemma ParsedType(s: string)
    ensures ParseMenuType(s).Some? ==> !ParseMenuType(s).value.OtherType?
  {
  }

  /** What was loaded from files can be written and read back: the parser lets
      only known types and MACs through. */
  lemma LoadedIsWritable(files: seq<FileResult>)
    requires forall f :: f in files ==> FromParser(f)
    ensures Writable(Merged(files))
  {
    hide FromParser, Flat, LastGiven;
    forall m | m in Flat(files, MenusOf) ensures !m.kind.OtherType? {
      FlatMember(files, MenusOf, m);
      var f :| f in files && m in MenusOf(f);
      ParsedKnown(f);
    }
    forall c | c in Flat(files, ClientsOf) ensures KnownLength(c.mac) {
      FlatMember(files, ClientsOf, c);
      var f :| f in files && c in ClientsOf(f);
      ParsedKnown(f);
    }
  }
}
