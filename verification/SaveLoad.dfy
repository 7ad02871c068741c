/** The configuration writer and the file parser, which undo each other up to a
    normal form. Raw structs stand for the TOML text; durations are values. */
module SaveLoad {
  import opened Text
  import opened Domain
  import opened Mac
  import opened MergeRules
  import opened Rewriting
  import G = Generator

  // ---------------------------------------------------------------- raw structs

  datatype RawDHCP = RawDHCP(enabled: Option<bool>, port: int, proxyPort: int, vendorClass: string)
  datatype RawTFTP = RawTFTP(enabled: Option<bool>, port: int, blockSize: int, timeout: Option<int>, retries: int)
  datatype RawHTTP = RawHTTP(enabled: Option<bool>, port: int, readTimeout: Option<int>, tls: Option<TLSConfig>)
  datatype RawHealth = RawHealth(enabled: Option<bool>, interval: Option<int>, startupCheck: Option<bool>)
  datatype RawMenu = RawMenu(name: string, labelText: string, description: string, kind: string,
                             http: Option<MenuHTTP>, boot: Option<BootParams>)
  datatype RawClient = RawClient(mac: string, name: string, enabled: Option<bool>, menu: MenuConfig,
                                 bootloader: Option<BootFiles>, vars: map<string, string>)
  datatype RawFile = RawFile(server: Option<ServerConfig>, dhcpProxy: Option<RawDHCP>, tftp: Option<RawTFTP>,
                             http: Option<RawHTTP>, health: Option<RawHealth>, bootloader: Option<BootloaderConfig>,
                             menu: seq<RawMenu>, client: seq<RawClient>)

  // ---------------------------------------------------------------- menu types as text

  function TypeName(t: MenuType): string {
    match t
    case Install => "install"
    case Live => "live"
    case Tool => "tool"
    case Exit => "exit"
    case Chain => "chain"
    case OtherType(n) => "MenuType(" + Decimal(n) + ")"
  }

  function ParseMenuType(s: string): Option<MenuType> {
    var l := Lower(s);
    if l == "install" then Some(Install)
    else if l == "live" then Some(Live)
    else if l == "tool" then Some(Tool)
    else if l == "exit" then Some(Exit)
    else if l == "chain" then Some(Chain)
    else None
  }

  lemma MenuTypeRoundTrip(t: MenuType)
    ensures ParseMenuType(TypeName(t)) == if t.OtherType? then None else Some(t)
    ensures TypeName(t) != ""
  {
    if t.OtherType? {
      assert TypeName(t)[0] == 'M' && Lower(TypeName(t))[0] == 'm';
    } else {
      assert Lower(TypeName(t)) == TypeName(t);
    }
  }

  // ---------------------------------------------------------------- the writer

  function Positive(d: int): Option<int> { if d > 0 then Some(d) else None }

  function RawMenuOf(m: MenuEntry): RawMenu {
    RawMenu(m.name, m.labelText, m.description, TypeName(m.kind),
            if m.http != NO_HTTP then Some(m.http) else None,
            match m.kind
            case Exit => None
            case Chain => Some(NO_BOOT.(chain := m.boot.chain))
            case _ => Some(m.boot.(chain := "")))
  }

  function RawClientOf(c: Client): RawClient {
    RawClient(if c.IsWildcard() then "*" else MacString(c.mac), c.name, Some(c.enabled), c.menu, None, c.vars)
  }

  function RawMenus(ms: seq<MenuEntry>): (r: seq<RawMenu>)
    ensures |r| == |ms| && forall i :: 0 <= i < |ms| ==> r[i] == RawMenuOf(ms[i])
  {
    seq(|ms|, i requires 0 <= i < |ms| => RawMenuOf(ms[i]))
  }

  function RawClients(cs: seq<Client>): (r: seq<RawClient>)
    ensures |r| == |cs| && forall i :: 0 <= i < |cs| ==> r[i] == RawClientOf(cs[i])
  {
    seq(|cs|, i requires 0 <= i < |cs| => RawClientOf(cs[i]))
  }

  function RawDHCPOf(d: DHCPProxyConfig): Option<RawDHCP> {
    if d.port > 0 || d.enabled then Some(RawDHCP(Some(d.enabled), d.port, d.proxyPort, d.vendorClass)) else None
  }

  function RawTFTPOf(t: TFTPConfig): Option<RawTFTP> {
    if t.port > 0 || t.enabled
    then Some(RawTFTP(Some(t.enabled), t.port, t.blockSize, Positive(t.timeout), t.retries)) else None
  }

  function RawHTTPOf(h: HTTPConfig): Option<RawHTTP> {
    if h.port > 0 || h.enabled
    then Some(RawHTTP(Some(h.enabled), h.port, Positive(h.readTimeout), if h.tls.enabled then Some(h.tls) else None))
    else None
  }

  function RawHealthOf(h: HealthConfig): Option<RawHealth> {
    if h.enabled || h.interval > 0
    then Some(RawHealth(Some(h.enabled), Positive(h.interval), Some(h.startupCheck))) else None
  }

  function RawOf(cfg: FullConfig): RawFile {
    RawFile(Some(cfg.server), RawDHCPOf(cfg.dhcpProxy), RawTFTPOf(cfg.tftp), RawHTTPOf(cfg.http),
            RawHealthOf(cfg.health),
            Some(cfg.bootloader), RawMenus(cfg.menus), RawClients(cfg.clients))
  }

  method ServicesToRaw(cfg: FullConfig)
    returns (dhcp: Option<RawDHCP>, tftp: Option<RawTFTP>, http: Option<RawHTTP>, health: Option<RawHealth>)
    ensures dhcp == RawDHCPOf(cfg.dhcpProxy) && tftp == RawTFTPOf(cfg.tftp)
    ensures http == RawHTTPOf(cfg.http) && health == RawHealthOf(cfg.health)
  {
    dhcp, tftp, http, health := None, None, None, None;
    if cfg.dhcpProxy.port > 0 || cfg.dhcpProxy.enabled {
      dhcp := Some(RawDHCP(Some(cfg.dhcpProxy.enabled), cfg.dhcpProxy.port, cfg.dhcpProxy.proxyPort,
                           cfg.dhcpProxy.vendorClass));
    }
    if cfg.tftp.port > 0 || cfg.tftp.enabled {
      var t := RawTFTP(Some(cfg.tftp.enabled), cfg.tftp.port, cfg.tftp.blockSize, None, cfg.tftp.retries);
      if cfg.tftp.timeout > 0 {
        t := t.(timeout := Some(cfg.tftp.timeout));
      }
      tftp := Some(t);
    }
    if cfg.http.port > 0 || cfg.http.enabled {
      var h := RawHTTP(Some(cfg.http.enabled), cfg.http.port, None, None);
      if cfg.http.readTimeout > 0 {
        h := h.(readTimeout := Some(cfg.http.readTimeout));
      }
      if cfg.http.tls.enabled {
        h := h.(tls := Some(cfg.http.tls));
      }
      http := Some(h);
    }
    if cfg.health.enabled || cfg.health.interval > 0 {
      var h := RawHealth(Some(cfg.health.enabled), None, Some(cfg.health.startupCheck));
      if cfg.health.interval > 0 {
        h := h.(interval := Some(cfg.health.interval));
      }
      health := Some(h);
    }
  }

  method ConfigToRaw(cfg: FullConfig) returns (raw: RawFile)
    ensures raw == RawOf(cfg)
  {
    var dhcp, tftp, http, health := ServicesToRaw(cfg);
    var menus := MenusToRaw(cfg.menus);
    var clients := ClientsToRaw(cfg.clients);
    raw := RawFile(Some(cfg.server), dhcp, tftp, http, health, Some(cfg.bootloader), menus, clients);
  }

  method MenusToRaw(ms: seq<MenuEntry>) returns (menus: seq<RawMenu>)
    ensures menus == RawMenus(ms)
  {
    menus := [];
    for i := 0 to |ms|
      invariant menus == RawMenus(ms)[..i]
    {
      var m := ms[i];
      var rm := RawMenu(m.name, m.labelText, m.description, TypeName(m.kind), None, None);
      if m.http.path != "" || m.http.files != "" || m.http.upstream != "" {
        rm := rm.(http := Some(m.http));
      }
      match m.kind {
        case Exit =>
        case Chain => rm := rm.(boot := Some(NO_BOOT.(chain := m.boot.chain)));
        case _ => rm := rm.(boot := Some(m.boot.(chain := "")));
      }
      menus := menus + [rm];
    }
  }

  method ClientsToRaw(cs: seq<Client>) returns (clients: seq<RawClient>)
    ensures clients == RawClients(cs)
  {
    clients := [];
    for i := 0 to |cs|
      invariant clients == RawClients(cs)[..i]
    {
      var c := cs[i];
      var mac := MacString(c.mac);
      if c.IsWildcard() {
        mac := "*";
      }
      clients := clients + [RawClient(mac, c.name, Some(c.enabled), c.menu, None, c.vars)];
    }
  }

  // ---------------------------------------------------------------- the parser

  datatype ParseError = UnknownMenuType(index: nat) | BadMAC(index: nat)

  function ConvertDHCP(r: RawDHCP): DHCPProxyConfig {
    DHCPProxyConfig(r.enabled.GetOr(true), r.port, r.proxyPort, r.vendorClass)
  }

  function ConvertTFTP(r: RawTFTP): TFTPConfig {
    TFTPConfig(r.enabled.GetOr(true), r.port, r.blockSize, r.timeout.GetOr(0), r.retries)
  }

  function ConvertHTTP(r: RawHTTP): HTTPConfig {
    HTTPConfig(r.enabled.GetOr(true), r.port, r.readTimeout.GetOr(0), r.tls.GetOr(NO_TLS))
  }

  function ConvertHealth(r: RawHealth): HealthConfig {
    HealthConfig(r.enabled.GetOr(true), r.interval.GetOr(0), r.startupCheck.GetOr(true))
  }

  /** An absent type means install, the zero value. */
  function ConvertMenu(r: RawMenu, sourceFile: string): Option<MenuEntry> {
    var kind := if r.kind == "" then Some(Install) else ParseMenuType(r.kind);
    if kind.None? then None
    else Some(MenuEntry(r.name, r.labelText, r.description, kind.value, r.http.GetOr(NO_HTTP), r.boot.GetOr(NO_BOOT),
                        sourceFile))
  }

  function ConvertClient(r: RawClient, sourceFile: string): Option<Client> {
    var mac := ParsedMAC(r.mac);
    if mac.None? then None
    else Some(Client(mac.value, r.name, r.menu, r.bootloader, r.vars, r.enabled.GetOr(true), sourceFile))
  }

  predicate Readable(raw: RawFile, path: string) {
    && (forall i :: 0 <= i < |raw.menu| ==> ConvertMenu(raw.menu[i], path).Some?)
    && (forall i :: 0 <= i < |raw.client| ==> ConvertClient(raw.client[i], path).Some?)
  }

  function Parsed(raw: RawFile, path: string): FileResult
    requires Readable(raw, path)
  {
    FileResult(
      path, raw.server,
      if raw.dhcpProxy.Some? then Some(ConvertDHCP(raw.dhcpProxy.value)) else None,
      if raw.tftp.Some? then Some(ConvertTFTP(raw.tftp.value)) else None,
      if raw.http.Some? then Some(ConvertHTTP(raw.http.value)) else None,
      if raw.health.Some? then Some(ConvertHealth(raw.health.value)) else None,
      raw.bootloader,
      seq(|raw.menu|, i requires 0 <= i < |raw.menu| => ConvertMenu(raw.menu[i], path).value),
      seq(|raw.client|, i requires 0 <= i < |raw.client| => ConvertClient(raw.client[i], path).value))
  }

  /** The first entry that cannot be converted is reported. */
  method ParseFile(raw: RawFile, path: string) returns (r: Result<FileResult, ParseError>)
    ensures r.Ok? <==> Readable(raw, path)
    ensures r.Ok? ==> r.value == Parsed(raw, path)
    ensures r.Err? ==>
              match r.error
              case UnknownMenuType(i) => i < |raw.menu| && ConvertMenu(raw.menu[i], path).None?
                                         && forall j :: 0 <= j < i ==> ConvertMenu(raw.menu[j], path).Some?
              case BadMAC(i) => i < |raw.client| && ParsedMAC(raw.client[i].mac).None?
                                && (forall j :: 0 <= j < |raw.menu| ==> ConvertMenu(raw.menu[j], path).Some?)
                                && forall j :: 0 <= j < i ==> ConvertClient(raw.client[j], path).Some?
  {
    hide ParseMenuType, ParsedMAC;
    var f := FileResult(path, raw.server, None, None, None, None, raw.bootloader, [], []);
    if raw.dhcpProxy.Some? { f := f.(dhcpProxy := Some(ConvertDHCP(raw.dhcpProxy.value))); }
    if raw.tftp.Some? { f := f.(tftp := Some(ConvertTFTP(raw.tftp.value))); }
    if raw.http.Some? { f := f.(http := Some(ConvertHTTP(raw.http.value))); }
    if raw.health.Some? { f := f.(health := Some(ConvertHealth(raw.health.value))); }
    var menus: seq<MenuEntry> := [];
    for i := 0 to |raw.menu|
      invariant |menus| == i
      invariant forall j :: 0 <= j < i ==> ConvertMenu(raw.menu[j], path) == Some(menus[j])
    {
      var m := ConvertMenu(raw.menu[i], path);
      if m.None? {
        return Err(UnknownMenuType(i));
      }
      menus := menus + [m.value];
    }
    var clients: seq<Client> := [];
    for i := 0 to |raw.client|
      invariant |clients| == i
      invariant forall j :: 0 <= j < i ==> ConvertClient(raw.client[j], path) == Some(clients[j])
    {
      var c := ConvertClient(raw.client[i], path);
      if c.None? {
        return Err(BadMAC(i));
      }
      clients := clients + [c.value];
    }
    assert Readable(raw, path);
    assert menus == Parsed(raw, path).menus && clients == Parsed(raw, path).clients;
    r := Ok(f.(menus := menus, clients := clients));
  }

  // ---------------------------------------------------------------- normal form

  function AtLeastZero(d: int): int { if d > 0 then d else 0 }

  function NormalMenu(m: MenuEntry, path: string): MenuEntry {
    m.(sourceFile := path,
       boot := match m.kind
               case Exit => NO_BOOT
               case Chain => NO_BOOT.(chain := m.boot.chain)
               case _ => m.boot.(chain := ""))
  }

  function NormalClient(c: Client, path: string): Client {
    c.(sourceFile := path, bootloader := None)
  }

  /** What saving keeps: sections that are off lose their settings, entries keep
      the parameters of their type, clients lose their bootloader files. */
  function Normal(cfg: FullConfig, path: string): FullConfig {
    FullConfig(
      cfg.server,
      if cfg.dhcpProxy.port > 0 || cfg.dhcpProxy.enabled then cfg.dhcpProxy else NO_DHCP,
      if cfg.tftp.port > 0 || cfg.tftp.enabled then cfg.tftp.(timeout := AtLeastZero(cfg.tftp.timeout)) else NO_TFTP,
      if cfg.http.port > 0 || cfg.http.enabled
      then cfg.http.(readTimeout := AtLeastZero(cfg.http.readTimeout),
                     tls := if cfg.http.tls.enabled then cfg.http.tls else NO_TLS)
      else NO_WEB,
      if cfg.health.enabled || cfg.health.interval > 0
      then cfg.health.(interval := AtLeastZero(cfg.health.interval)) else NO_HEALTH,
      cfg.bootloader,
      seq(|cfg.menus|, i requires 0 <= i < |cfg.menus| => NormalMenu(cfg.menus[i], path)),
      seq(|cfg.clients|, i requires 0 <= i < |cfg.clients| => NormalClient(cfg.clients[i], path)))
  }

  predicate Writable(cfg: FullConfig) {
    && (forall m :: m in cfg.menus ==> !m.kind.OtherType?)
    && (forall c :: c in cfg.clients ==> KnownLength(c.mac))
  }

  lemma MenuSaved(m: MenuEntry, path: string)
    ensures ConvertMenu(RawMenuOf(m), path) == if m.kind.OtherType? then None else Some(NormalMenu(m, path))
  {
    hide ParseMenuType, TypeName;
    MenuTypeRoundTrip(m.kind);
  }

  lemma ClientSaved(c: Client, path: string)
    ensures ConvertClient(RawClientOf(c), path) == if KnownLength(c.mac) then Some(NormalClient(c, path)) else None
  {
    hide ParsedMAC, MacString;
    MacRoundTrip(c.mac);
    WildcardParses();
  }

  /** A saved configuration can be read back exactly when its menu types and
      MACs are known; then merging the one file gives the normal form. */
  lemma SaveThenLoad(cfg: FullConfig, path: string)
    ensures Readable(RawOf(cfg), path) <==> Writable(cfg)
    ensures Writable(cfg) ==> Merged([Parsed(RawOf(cfg), path)]) == Normal(cfg, path)
  {
    hide ConvertMenu, ConvertClient, RawMenuOf, RawClientOf, NormalMenu, NormalClient;
    var raw := RawOf(cfg);
    forall i | 0 <= i < |cfg.menus|
      ensures ConvertMenu(raw.menu[i], path)
              == if cfg.menus[i].kind.OtherType? then None else Some(NormalMenu(cfg.menus[i], path))
    {
      MenuSaved(cfg.menus[i], path);
    }
    forall i | 0 <= i < |cfg.clients|
      ensures ConvertClient(raw.client[i], path)
              == if KnownLength(cfg.clients[i].mac) then Some(NormalClient(cfg.clients[i], path)) else None
    {
      ClientSaved(cfg.clients[i], path);
    }
    if Writable(cfg) {
      var f := Parsed(raw, path);
      assert f.menus == Normal(cfg, path).menus && f.clients == Normal(cfg, path).clients;
      OneFile(f);
    }
  }

  lemma OneFile(f: FileResult)
    ensures Merged([f]) == FullConfig(
              f.server.GetOr(NO_SERVER), f.dhcpProxy.GetOr(NO_DHCP), f.tftp.GetOr(NO_TFTP), f.http.GetOr(NO_WEB),
              f.health.GetOr(NO_HEALTH), f.bootloader.GetOr(NO_BOOTLOADER), f.menus, f.clients)
    ensures f.server.Some? ==> ServerSource([f]) == From(f.filename)
  {
    hide Flat, LastGiven;
    OneLast(f, ServerOf, NO_SERVER);
    OneLast(f, DHCPOf, NO_DHCP);
    OneLast(f, TFTPOf, NO_TFTP);
    OneLast(f, HTTPOf, NO_WEB);
    OneLast(f, HealthOf, NO_HEALTH);
    OneLast(f, BootloaderOf, NO_BOOTLOADER);
    OneFlat(f, MenusOf);
    OneFlat(f, ClientsOf);
    assert [f][..0] == [];
  }

  lemma OneLast<T>(f: FileResult, part: FileResult -> Option<T>, otherwise: T)
    ensures LastGiven([f], part, otherwise) == part(f).GetOr(otherwise)
  {
    assert [f][..0] == [];
  }

  lemma OneFlat<T>(f: FileResult, part: FileResult -> seq<T>)
    ensures Flat([f], part) == part(f)
  {
    assert [f][..0] == [];
    assert [] + part(f) == part(f);
  }

  /** The conditions that merge puts on menus and clients. */
  ghost predicate Consistent(cfg: FullConfig) {
    DistinctBy(cfg.menus, NameOf) && DistinctBy(cfg.clients, MacOf) && Refers(cfg.menus, cfg.clients)
  }

  lemma NormalNames(cfg: FullConfig, path: string)
    ensures var n := Normal(cfg, path);
            && (forall i :: 0 <= i < |cfg.menus| ==> n.menus[i].name == cfg.menus[i].name)
            && (forall i :: 0 <= i < |cfg.clients| ==>
                n.clients[i].mac == cfg.clients[i].mac && n.clients[i].menu == cfg.clients[i].menu)
            && (forall e :: Named(n.menus, e) <==> Named(cfg.menus, e))
  {
    var n := Normal(cfg, path);
    forall e ensures Named(n.menus, e) <==> Named(cfg.menus, e) {
      if Named(n.menus, e) {
        var i :| 0 <= i < |n.menus| && n.menus[i].name == e;
        assert cfg.menus[i] in cfg.menus;
      }
      if Named(cfg.menus, e) {
        var i :| 0 <= i < |cfg.menus| && cfg.menus[i].name == e;
        assert n.menus[i] in n.menus;
      }
    }
  }

  /** The normal form is merged if and only if the original was. */
  lemma NormalConsistent(cfg: FullConfig, path: string)
    ensures Consistent(Normal(cfg, path)) <==> Consistent(cfg)
    ensures Refers(Normal(cfg, path).menus, Normal(cfg, path).clients) <==> Refers(cfg.menus, cfg.clients)
  {
    hide Named, Normal;
    var n := Normal(cfg, path);
    NormalNames(cfg, path);
    assert |n.menus| == |cfg.menus| && |n.clients| == |cfg.clients| by { NormalSizes(cfg, path); }
    forall i | 0 <= i < |cfg.menus| ensures NameOf(n.menus[i]) == NameOf(cfg.menus[i]) {}
    forall i | 0 <= i < |cfg.clients| ensures MacOf(n.clients[i]) == MacOf(cfg.clients[i]) {}
    SameKeys(n.menus, cfg.menus, NameOf);
    SameKeys(n.clients, cfg.clients, MacOf);
    SameReferences(n.menus, cfg.menus, n.clients, cfg.clients);
    SameReferences(cfg.menus, n.menus, cfg.clients, n.clients);
  }

  lemma NormalSizes(cfg: FullConfig, path: string)
    ensures |Normal(cfg, path).menus| == |cfg.menus| && |Normal(cfg, path).clients| == |cfg.clients|
  {
  }

  lemma SameKeys<T, K>(a: seq<T>, b: seq<T>, key: T -> K)
    requires |a| == |b| && forall i :: 0 <= i < |a| ==> key(a[i]) == key(b[i])
    ensures DistinctBy(a, key) <==> DistinctBy(b, key)
  {
  }

  lemma SameReferences(ma: seq<MenuEntry>, mb: seq<MenuEntry>, ca: seq<Client>, cb: seq<Client>)
    requires (forall e :: Named(ma, e) <==> Named(mb, e)) && |ca| == |cb|
    requires forall i :: 0 <= i < |ca| ==> ca[i].menu == cb[i].menu
    ensures Refers(ma, ca) ==> Refers(mb, cb)
  {
    hide Named;
    if Refers(ma, ca) {
      forall c, e | c in cb && e in c.menu.entries ensures Named(mb, e) {
        var i :| 0 <= i < |cb| && cb[i] == c;
        assert ca[i] in ca && e in ca[i].menu.entries;
      }
    }
  }

  lemma NormalTwice(cfg: FullConfig, path: string)
    ensures Normal(Normal(cfg, path), path) == Normal(cfg, path)
  {
    hide NormalMenu, NormalClient;
    var n := Normal(cfg, path);
    forall i | 0 <= i < |cfg.menus| ensures NormalMenu(n.menus[i], path) == n.menus[i] {
      NormalMenuSettles(cfg.menus[i], path);
    }
    forall i | 0 <= i < |cfg.clients| ensures NormalClient(n.clients[i], path) == n.clients[i] {
      NormalClientSettles(cfg.clients[i], path);
    }
  }

  lemma NormalTruth(cfg: FullConfig, path: string)
    ensures Normal(cfg, path).Valid() <==> cfg.Valid()
    ensures Writable(Normal(cfg, path)) <==> Writable(cfg)
  {
    hide NormalMenu, NormalClient, Writable;
    var n := Normal(cfg, path);
    forall i | 0 <= i < |cfg.menus|
      ensures (n.menus[i].Valid() <==> cfg.menus[i].Valid()) && n.menus[i].kind == cfg.menus[i].kind
    {
      NormalMenuSettles(cfg.menus[i], path);
    }
    forall i | 0 <= i < |cfg.clients|
      ensures (n.clients[i].Valid() <==> cfg.clients[i].Valid()) && n.clients[i].mac == cfg.clients[i].mac
    {
      NormalClientSettles(cfg.clients[i], path);
    }
    SameTruth(cfg, n);
    ByKind(cfg);
    ByKind(n);
  }

  /** Saving again changes nothing more, and saving neither repairs nor breaks a
      configuration. */
  lemma NormalSettles(cfg: FullConfig, path: string)
    ensures Normal(Normal(cfg, path), path) == Normal(cfg, path)
    ensures Normal(cfg, path).Valid() <==> cfg.Valid()
    ensures Writable(Normal(cfg, path)) <==> Writable(cfg)
    ensures Consistent(Normal(cfg, path)) <==> Consistent(cfg)
  {
    hide Normal, Writable, Consistent;
    NormalTwice(cfg, path);
    NormalTruth(cfg, path);
    NormalConsistent(cfg, path);
  }

  lemma NormalMenuSettles(m: MenuEntry, path: string)
    ensures var n := NormalMenu(m, path); NormalMenu(n, path) == n && (n.Valid() <==> m.Valid()) && n.kind == m.kind
  {
  }

  lemma NormalClientSettles(c: Client, path: string)
    ensures var n := NormalClient(c, path); NormalClient(n, path) == n && (n.Valid() <==> c.Valid()) && n.mac == c.mac
  {
  }

  lemma AllAlike<T>(a: seq<T>, b: seq<T>, p: T -> bool)
    requires |a| == |b| && forall i :: 0 <= i < |a| ==> (p(a[i]) <==> p(b[i]))
    ensures (forall x :: x in a ==> p(x)) <==> (forall x :: x in b ==> p(x))
  {
    if forall x :: x in a ==> p(x) {
      forall x | x in b ensures p(x) {
        var i :| 0 <= i < |b| && b[i] == x;
        assert a[i] in a;
      }
    }
    if forall x :: x in b ==> p(x) {
      forall x | x in a ensures p(x) {
        var i :| 0 <= i < |a| && a[i] == x;
        assert b[i] in b;
      }
    }
  }

  predicate KnownKind(m: MenuEntry) { !m.kind.OtherType? }
  predicate KnownMAC(c: Client) { KnownLength(c.mac) }
  predicate ValidMenu(m: MenuEntry) { m.Valid() }
  predicate ValidClient(c: Client) { c.Valid() }

  lemma SameTruth(a: FullConfig, b: FullConfig)
    requires |a.menus| == |b.menus| && |a.clients| == |b.clients|
    requires forall i :: 0 <= i < |a.menus| ==>
              (b.menus[i].Valid() <==> a.menus[i].Valid()) && b.menus[i].kind == a.menus[i].kind
    requires forall i :: 0 <= i < |a.clients| ==>
              (b.clients[i].Valid() <==> a.clients[i].Valid()) && b.clients[i].mac == a.clients[i].mac
    ensures (forall m :: m in a.menus ==> ValidMenu(m)) <==> (forall m :: m in b.menus ==> ValidMenu(m))
    ensures (forall c :: c in a.clients ==> ValidClient(c)) <==> (forall c :: c in b.clients ==> ValidClient(c))
    ensures Writable(a) <==> Writable(b)
  {
    AllAlike(a.menus, b.menus, ValidMenu);
    AllAlike(a.clients, b.clients, ValidClient);
    AllAlike(a.menus, b.menus, KnownKind);
    AllAlike(a.clients, b.clients, KnownMAC);
    ByKind(a);
    ByKind(b);
  }

  lemma ByKind(a: FullConfig)
    ensures Writable(a) <==> (forall m :: m in a.menus ==> KnownKind(m)) && (forall c :: c in a.clients ==> KnownMAC(c))
    ensures (forall m :: m in a.menus ==> m.Valid()) <==> (forall m :: m in a.menus ==> ValidMenu(m))
    ensures (forall c :: c in a.clients ==> c.Valid()) <==> (forall c :: c in a.clients ==> ValidClient(c))
  {
    assert forall m :: ValidMenu(m) <==> m.Valid();
    assert forall c :: ValidClient(c) <==> c.Valid();
    assert forall m :: KnownKind(m) <==> !m.kind.OtherType?;
    assert forall c :: KnownMAC(c) <==> KnownLength(c.mac);
  }

  /** A saved valid entry asks a menu for the same actions, before substitution,
      unless it is an install, live or tool entry with a chain URL, which the
      writer drops. */
  lemma SaveKeepsMenuBoot(m: MenuEntry, path: string, vars: Vars)
    requires m.Valid()
    ensures G.MenuActions(NormalMenu(m, path), vars) == G.MenuActions(m, vars)
            <==> m.kind.Exit? || m.kind.Chain? || m.boot.chain == ""
  {
    hide G.FileTemplate;
    var n := NormalMenu(m, path);
    forall f ensures G.FileTemplate(n, f, vars) == G.FileTemplate(m, f, vars) { SameTemplate(n, m, f, vars); }
    if m.kind.Exit? || m.kind.Chain? {
    } else if m.boot.chain == "" {
      assert G.LoadFiles(n, n.boot.files, vars) == G.LoadFiles(m, m.boot.files, vars);
    } else {
      assert G.MenuActions(m, vars)[0].ChainTo? && !G.MenuActions(n, vars)[0].ChainTo?;
    }
  }

  lemma SameTemplate(n: MenuEntry, m: MenuEntry, f: string, vars: Vars)
    requires n.http == m.http && n.name == m.name
    ensures G.FileTemplate(n, f, vars) == G.FileTemplate(m, f, vars)
  {
  }

  // ---------------------------------------------------------------- what saving leaves alone

  /** Settings that are in force are saved; a section that is off is lost unless
      there is nothing in it. */
  predicate ServicesKept(cfg: FullConfig) {
    && (cfg.dhcpProxy.enabled || cfg.dhcpProxy.port > 0 || cfg.dhcpProxy == NO_DHCP)
    && (if cfg.tftp.enabled || cfg.tftp.port > 0 then cfg.tftp.timeout >= 0 else cfg.tftp == NO_TFTP)
    && (if cfg.http.enabled || cfg.http.port > 0
        then cfg.http.readTimeout >= 0 && (cfg.http.tls.enabled || cfg.http.tls == NO_TLS)
        else cfg.http == NO_WEB)
    && (if cfg.health.enabled || cfg.health.interval > 0 then cfg.health.interval >= 0 else cfg.health == NO_HEALTH)
  }

  /** No parameter but those of its type. */
  predicate OwnParameters(m: MenuEntry) {
    match m.kind
    case Exit => m.boot == NO_BOOT
    case Chain => m.boot == BootParams("", "", "", "", [], "", "", m.boot.chain)
    case _ => m.boot.chain == ""
  }

  /** A configuration comes back from its file as it was exactly when it has
      nothing that is not saved. */
  lemma UnchangedExactly(cfg: FullConfig, path: string)
    ensures Normal(cfg, path) == cfg <==>
              && ServicesKept(cfg)
              && (forall i :: 0 <= i < |cfg.menus| ==> OwnParameters(cfg.menus[i]) && cfg.menus[i].sourceFile == path)
              && (forall i :: 0 <= i < |cfg.clients| ==>
                    cfg.clients[i].bootloader.None? && cfg.clients[i].sourceFile == path)
  {
    hide NormalMenu, NormalClient, OwnParameters;
    var n := Normal(cfg, path);
    forall i | 0 <= i < |cfg.menus|
      ensures n.menus[i] == cfg.menus[i] <==> OwnParameters(cfg.menus[i]) && cfg.menus[i].sourceFile == path
    {
      MenuUnchanged(cfg.menus[i], path);
    }
    forall i | 0 <= i < |cfg.clients|
      ensures n.clients[i] == cfg.clients[i] <==>
              cfg.clients[i].bootloader.None? && cfg.clients[i].sourceFile == path
    {
      ClientUnchanged(cfg.clients[i], path);
    }
    SameElements(n.menus, cfg.menus);
    SameElements(n.clients, cfg.clients);
    ServicesUnchanged(cfg, path);
  }

  lemma SameElements<T>(a: seq<T>, b: seq<T>)
    ensures a == b <==> |a| == |b| && forall i :: 0 <= i < |a| ==> a[i] == b[i]
  {
  }

  lemma MenuUnchanged(m: MenuEntry, path: string)
    ensures NormalMenu(m, path) == m <==> OwnParameters(m) && m.sourceFile == path
  {
  }

  lemma ClientUnchanged(c: Client, path: string)
    ensures NormalClient(c, path) == c <==> c.bootloader.None? && c.sourceFile == path
  {
  }

  lemma ServicesUnchanged(cfg: FullConfig, path: string)
    ensures var n := Normal(cfg, path);
            && n.server == cfg.server && n.bootloader == cfg.bootloader
            && (n.dhcpProxy == cfg.dhcpProxy && n.tftp == cfg.tftp && n.http == cfg.http && n.health == cfg.health
                <==> ServicesKept(cfg))
  {
    hide NormalMenu, NormalClient;
  }

  /** Menu types are read in either case. */
  lemma TypesIgnoreCase(s: string, t: string)
    ensures Lower(s) == Lower(t) ==> ParseMenuType(s) == ParseMenuType(t)
    ensures ParseMenuType("Install") == Some(Install) && ParseMenuType("LIVE") == Some(Live)
  {
    assert Lower("Install") == "install" && Lower("LIVE") == "live";
  }
}
