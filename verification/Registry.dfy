/** Client and menu lookup, one-time overrides and reloads. */
module Registry {
  import opened Domain
  import opened Mac
  import opened Loader
  import opened MergeRules

  // ---------------------------------------------------------------- indexes on values

  /** The map of the named clients: of several with one MAC, the last. */
  function Index(cs: seq<Client>): map<string, Client> {
    if cs == [] then map[]
    else
      var c := cs[|cs| - 1];
      var m := Index(cs[..|cs| - 1]);
      if c.IsWildcard() then m else m[MacString(c.mac) := c]
  }

  function LastWildcard(cs: seq<Client>): Option<Client> {
    if cs == [] then None
    else if cs[|cs| - 1].IsWildcard() then Some(cs[|cs| - 1])
    else LastWildcard(cs[..|cs| - 1])
  }

  function Find(index: map<string, Client>, wildcard: Option<Client>, mac: MAC): Option<Client> {
    if MacString(mac) in index then Some(index[MacString(mac)]) else wildcard
  }

  /** The last client that is configured for this very address. */
  function LastNamed(cs: seq<Client>, mac: MAC): Option<Client> {
    if cs == [] then None
    else if cs[|cs| - 1].mac == mac && !cs[|cs| - 1].IsWildcard() then Some(cs[|cs| - 1])
    else LastNamed(cs[..|cs| - 1], mac)
  }

  /** Looking through the list: the last exact match, else the last wildcard. */
  function Scan(cs: seq<Client>, mac: MAC): Option<Client> {
    if LastNamed(cs, mac).Some? then LastNamed(cs, mac) else LastWildcard(cs)
  }

  lemma {:induction false} IndexHolds(cs: seq<Client>, mac: MAC)
    ensures LastNamed(cs, mac) == if MacString(mac) in Index(cs) then Some(Index(cs)[MacString(mac)]) else None
  {
    if cs != [] {
      var c := cs[|cs| - 1];
      IndexHolds(cs[..|cs| - 1], mac);
      if MacString(c.mac) == MacString(mac) {
        MacStringInjective(c.mac, mac);
      }
    }
  }

  /** The index finds what a scan of the client list finds. */
  lemma IndexIsScan(cs: seq<Client>, mac: MAC)
    ensures Find(Index(cs), LastWildcard(cs), mac) == Scan(cs, mac)
  {
    IndexHolds(cs, mac);
  }

  lemma {:induction false} ScanIsListed(cs: seq<Client>, mac: MAC)
    ensures LastNamed(cs, mac).Some? ==> LastNamed(cs, mac).value in cs && LastNamed(cs, mac).value.mac == mac
    ensures LastWildcard(cs).Some? ==> LastWildcard(cs).value in cs && LastWildcard(cs).value.IsWildcard()
  {
    if cs != [] {
      ScanIsListed(cs[..|cs| - 1], mac);
    }
  }

  lemma {:induction false} ScanMisses(cs: seq<Client>, mac: MAC)
    ensures LastNamed(cs, mac).None? <==> forall c :: c in cs && c.mac == mac ==> c.IsWildcard()
    ensures LastWildcard(cs).None? <==> forall c :: c in cs ==> !c.IsWildcard()
  {
    if cs != [] {
      var init, last := cs[..|cs| - 1], cs[|cs| - 1];
      ScanMisses(init, mac);
      assert forall c :: c in cs <==> c in init || c == last;
    }
  }

  /** A client is found exactly when one is configured for the address or one is
      the wildcard; what is found is one of them. */
  lemma FindsExactly(cs: seq<Client>, mac: MAC)
    ensures var r := Find(Index(cs), LastWildcard(cs), mac);
            && (r.Some? <==> exists c :: c in cs && (c.mac == mac || c.IsWildcard()))
            && (r.Some? ==> r.value in cs && (r.value.mac == mac || r.value.IsWildcard()))
  {
    IndexIsScan(cs, mac);
    ScanIsListed(cs, mac);
    ScanMisses(cs, mac);
  }

  function MenuIndex(ms: seq<MenuEntry>): map<string, MenuEntry> {
    if ms == [] then map[] else MenuIndex(ms[..|ms| - 1])[ms[|ms| - 1].name := ms[|ms| - 1]]
  }

  lemma {:induction false} MenuIndexHolds(ms: seq<MenuEntry>)
    ensures forall n :: n in MenuIndex(ms) <==> Named(ms, n)
    ensures forall n :: n in MenuIndex(ms) ==> MenuIndex(ms)[n] in ms && MenuIndex(ms)[n].name == n
  {
    if ms != [] {
      var init, last := ms[..|ms| - 1], ms[|ms| - 1];
      MenuIndexHolds(init);
      assert forall m :: m in ms <==> m in init || m == last;
      forall n ensures n in MenuIndex(ms) <==> Named(ms, n) {
        if n in MenuIndex(init) { assert Named(init, n); }
        if Named(ms, n) && n != last.name {
          var m :| m in ms && m.name == n;
          assert Named(init, n);
        }
      }
    }
  }

  ghost predicate LastOfName(ms: seq<MenuEntry>, i: int, name: string) {
    0 <= i < |ms| && ms[i].name == name && forall j :: i < j < |ms| ==> ms[j].name != name
  }

  lemma {:induction false} MenuIndexLast(ms: seq<MenuEntry>, name: string)
    ensures name in MenuIndex(ms) ==> exists i :: LastOfName(ms, i, name) && MenuIndex(ms)[name] == ms[i]
  {
    if name in MenuIndex(ms) {
      var n := |ms| - 1;
      if ms[n].name == name {
        assert LastOfName(ms, n, name);
      } else {
        MenuIndexLast(ms[..n], name);
        var i :| LastOfName(ms[..n], i, name) && MenuIndex(ms[..n])[name] == ms[..n][i];
        assert LastOfName(ms, i, name);
      }
    }
  }

  datatype Resolution = NoEntries | Missing(name: string) | Resolved(entries: seq<MenuEntry>)

  ghost predicate ResolvesTo(index: map<string, MenuEntry>, names: seq<string>, r: Resolution) {
    match r
    case NoEntries => names == []
    case Missing(n) =>
      exists i :: 0 <= i < |names| && names[i] == n && n !in index && forall j :: 0 <= j < i ==> names[j] in index
    case Resolved(es) =>
      && names != [] && |es| == |names|
      && forall i :: 0 <= i < |names| ==> names[i] in index && es[i] == index[names[i]]
  }

  function Resolve(index: map<string, MenuEntry>, names: seq<string>): (r: Resolution)
    ensures ResolvesTo(index, names, r)
  {
    if names == [] then NoEntries
    else if names[0] !in index then Missing(names[0])
    else
      match Resolve(index, names[1..])
      case NoEntries => Resolved([index[names[0]]])
      case Missing(n) =>
        var i :| 0 <= i < |names[1..]| && names[1..][i] == n && n !in index
                 && forall j :: 0 <= j < i ==> names[1..][j] in index;
        assert names[i + 1] == n && forall j :: 0 <= j < i + 1 ==> names[j] in index;
        Missing(n)
      case Resolved(es) => Resolved([index[names[0]]] + es)
  }

  // ---------------------------------------------------------------- the objects

  class ClientRegistry {
    var clients: map<string, Client>
    var wildcard: Option<Client>
    var overrides: map<string, string>

    constructor (cs: seq<Client>)
      ensures clients == Index(cs) && wildcard == LastWildcard(cs) && overrides == map[]
    {
      clients, wildcard, overrides := map[], None, map[];
      new;
      LoadClients(cs);
    }

    method LoadClients(cs: seq<Client>)
      modifies `clients, `wildcard
      ensures clients == Index(cs) && wildcard == LastWildcard(cs)
    {
      clients := map[];
      wildcard := None;
      for i := 0 to |cs|
        invariant clients == Index(cs[..i]) && wildcard == LastWildcard(cs[..i])
      {
        assert cs[..i + 1][..i] == cs[..i];
        if cs[i].IsWildcard() {
          wildcard := Some(cs[i]);
        } else {
          clients := clients[MacString(cs[i].mac) := cs[i]];
        }
      }
      assert cs[..|cs|] == cs;
    }

    method FindClient(mac: MAC) returns (r: Option<Client>)
      ensures r == Find(clients, wildcard, mac)
    {
      var key := MacString(mac);
      if key in clients {
        return Some(clients[key]);
      }
      if wildcard.Some? {
        return wildcard;
      }
      return None;
    }

    method SetBootOverride(mac: MAC, entryName: string)
      modifies `overrides
      ensures overrides == old(overrides)[MacString(mac) := entryName]
    {
      overrides := overrides[MacString(mac) := entryName];
    }

    method ConsumeBootOverride(mac: MAC) returns (entry: string)
      modifies `overrides
      ensures entry == if MacString(mac) in old(overrides) then old(overrides)[MacString(mac)] else ""
      ensures overrides == old(overrides) - {MacString(mac)}
    {
      var key := MacString(mac);
      if key !in overrides {
        assert overrides - {key} == overrides;
        return "";
      }
      entry := overrides[key];
      overrides := overrides - {key};
    }

    method Reload(cs: seq<Client>)
      modifies `clients, `wildcard
      ensures clients == Index(cs) && wildcard == LastWildcard(cs)
    {
      LoadClients(cs);
    }
  }

  class MenuResolver {
    var menus: map<string, MenuEntry>

    constructor (ms: seq<MenuEntry>)
      ensures menus == MenuIndex(ms)
    {
      menus := map[];
      new;
      Reload(ms);
    }

    method Reload(ms: seq<MenuEntry>)
      modifies this
      ensures menus == MenuIndex(ms)
    {
      menus := map[];
      for i := 0 to |ms|
        invariant menus == MenuIndex(ms[..i])
      {
        assert ms[..i + 1][..i] == ms[..i];
        menus := menus[ms[i].name := ms[i]];
      }
      assert ms[..|ms|] == ms;
    }

    /** The entries in the order asked for, or the first name that is missing. */
    method ResolveEntries(names: seq<string>) returns (r: Resolution)
      ensures ResolvesTo(menus, names, r)
    {
      if names == [] {
        return NoEntries;
      }
      var result: seq<MenuEntry> := [];
      for i := 0 to |names|
        invariant |result| == i
        invariant forall j :: 0 <= j < i ==> names[j] in menus && result[j] == menus[names[j]]
      {
        if names[i] !in menus {
          return Missing(names[i]);
        }
        result := result + [menus[names[i]]];
      }
      return Resolved(result);
    }

    /** Of the loaded menus, the last one of that name, exactly when there is
        one. */
    method FindByName(name: string, ghost ms: seq<MenuEntry>) returns (r: Option<MenuEntry>)
      requires menus == MenuIndex(ms)
      ensures r.Some? <==> Named(ms, name)
      ensures r.Some? ==> exists i :: LastOfName(ms, i, name) && r.value == ms[i]
      ensures r == if name in MenuIndex(ms) then Some(MenuIndex(ms)[name]) else None
    {
      MenuIndexHolds(ms);
      MenuIndexLast(ms, name);
      return if name in menus then Some(menus[name]) else None;
    }
  }

  /** A resolution is determined by index and names. */
  lemma {:induction false} ResolutionUnique(index: map<string, MenuEntry>, names: seq<string>, r: Resolution)
    requires ResolvesTo(index, names, r)
    ensures r == Resolve(index, names)
  {
    var q := Resolve(index, names);
    if r.Missing? && q.Missing? {
      var i :| 0 <= i < |names| && names[i] == r.name && names[i] !in index
               && forall j :: 0 <= j < i ==> names[j] in index;
      var k :| 0 <= k < |names| && names[k] == q.name && names[k] !in index
               && forall j :: 0 <= j < k ==> names[j] in index;
      assert i == k;
    } else if r.Resolved? && q.Resolved? {
      assert r.entries == q.entries;
    }
  }

  /** Holds the configuration; a load or reload that fails changes nothing. The
      loader's result, which depends on the disk, is an argument. */
  class ConfigManager {
    var config: Option<FullConfig>
    var dir: string

    constructor ()
      ensures config == None && dir == ""
    {
      config, dir := None, "";
    }

    method Load(dir: string, loaded: Result<FullConfig, MergeError>) returns (ok: bool)
      modifies this
      ensures ok <==> loaded.Ok? && loaded.value.Valid()
      ensures if ok then config == Some(loaded.value) && this.dir == dir
              else config == old(config) && this.dir == old(this.dir)
    {
      if loaded.Err? {
        return false;
      }
      var valid := ValidateConfig(loaded.value);
      if !valid {
        return false;
      }
      config, this.dir := Some(loaded.value), dir;
      return true;
    }

    method Reload(loaded: Result<FullConfig, MergeError>) returns (r: Option<FullConfig>)
      modifies `config
      ensures r.Some? <==> dir != "" && loaded.Ok? && loaded.value.Valid()
      ensures if r.Some? then r == config == Some(loaded.value) else config == old(config)
    {
      if dir == "" {
        return None;
      }
      if loaded.Err? {
        return None;
      }
      var valid := ValidateConfig(loaded.value);
      if !valid {
        return None;
      }
      config := Some(loaded.value);
      return config;
    }
  }

  /** Server.Reload: first the registry, then the menus. */
  method ReloadServer(manager: ConfigManager, registry: ClientRegistry, menus: MenuResolver,
                      loaded: Result<FullConfig, MergeError>)
    returns (ok: bool)
    modifies manager`config, registry`clients, registry`wildcard, menus
    ensures ok <==> manager.dir != "" && loaded.Ok? && loaded.value.Valid()
    ensures ok ==>
              registry.clients == Index(loaded.value.clients) && registry.wildcard == LastWildcard(loaded.value.clients)
                   && menus.menus == MenuIndex(loaded.value.menus) && manager.config == Some(loaded.value)
    ensures !ok ==> registry.clients == old(registry.clients) && registry.wildcard == old(registry.wildcard)
                    && menus.menus == old(menus.menus) && manager.config == old(manager.config)
  {
    var cfg := manager.Reload(loaded);
    if cfg.None? {
      return false;
    }
    registry.Reload(cfg.value.clients);
    menus.Reload(cfg.value.menus);
    return true;
  }
}
