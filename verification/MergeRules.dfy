/** What makes configuration files acceptable together and what they merge to:
    the sections and lists that they give, when names and addresses are distinct,
    which entries refer to menus, which fault an error names, and how names are
    compared when one that is spelled alike is suggested. */
module MergeRules {
  import opened Text
  import opened Domain
  import opened Mac

  datatype FileResult = FileResult(
    filename: string, server: Option<ServerConfig>, dhcpProxy: Option<DHCPProxyConfig>,
    tftp: Option<TFTPConfig>, http: Option<HTTPConfig>, health: Option<HealthConfig>,
    bootloader: Option<BootloaderConfig>, menus: seq<MenuEntry>, clients: seq<Client>)

  datatype MergeError =
    | ServerTwice(first: string, second: string)
    | DuplicateMenu(name: string, first: string, second: string)
    | DuplicateMAC(mac: string, first: string, second: string)
    | ManyWildcards(first: string, second: string)
    | NoServer
    | UnknownEntry(client: Client, entry: string, suggestion: string)

  // ---------------------------------------------------------------- what the files say together

  function Flat<T>(files: seq<FileResult>, part: FileResult -> seq<T>): seq<T> {
    if files == [] then [] else Flat(files[..|files| - 1], part) + part(files[|files| - 1])
  }

  function LastGiven<T>(files: seq<FileResult>, part: FileResult -> Option<T>, otherwise: T): T {
    if files == [] then otherwise
    else part(files[|files| - 1]).GetOr(LastGiven(files[..|files| - 1], part, otherwise))
  }

  function ServerOf(r: FileResult): Option<ServerConfig> { r.server }

  function DHCPOf(r: FileResult): Option<DHCPProxyConfig> { r.dhcpProxy }

  function TFTPOf(r: FileResult): Option<TFTPConfig> { r.tftp }

  function HTTPOf(r: FileResult): Option<HTTPConfig> { r.http }

  function HealthOf(r: FileResult): Option<HealthConfig> { r.health }

  function BootloaderOf(r: FileResult): Option<BootloaderConfig> { r.bootloader }

  function MenusOf(r: FileResult): seq<MenuEntry> { r.menus }

  function ClientsOf(r: FileResult): seq<Client> { r.clients }

  function ServersOf(r: FileResult): seq<ServerConfig> { if r.server.Some? then [r.server.value] else [] }

  function Merged(files: seq<FileResult>): FullConfig {
    FullConfig(
      LastGiven(files, ServerOf, NO_SERVER), LastGiven(files, DHCPOf, NO_DHCP),
      LastGiven(files, TFTPOf, NO_TFTP), LastGiven(files, HTTPOf, NO_WEB),
      LastGiven(files, HealthOf, NO_HEALTH), LastGiven(files, BootloaderOf, NO_BOOTLOADER),
      Flat(files, MenusOf), Flat(files, ClientsOf))
  }

  /** The file that gave the server section; none while it is empty. An empty
      file name would not be noticed. */
  datatype Source = Clash(first: string, second: string) | From(filename: string)

  function ServerSource(files: seq<FileResult>): Source {
    if files == [] then From("")
    else
      var last := files[|files| - 1];
      match ServerSource(files[..|files| - 1])
      case Clash(a, b) => Clash(a, b)
      case From(f) =>
        if last.server.None? then From(f) else if f != "" then Clash(f, last.filename) else From(last.filename)
  }

  ghost predicate DistinctBy<T, K>(s: seq<T>, key: T -> K) {
    forall i, j :: 0 <= i < j < |s| ==> key(s[i]) != key(s[j])
  }

  function NameOf(m: MenuEntry): string { m.name }

  function MacOf(c: Client): MAC { c.mac }

  predicate Named(menus: seq<MenuEntry>, name: string) {
    exists m :: m in menus && m.name == name
  }

  ghost predicate Refers(menus: seq<MenuEntry>, clients: seq<Client>) {
    forall c, e :: c in clients && e in c.menu.entries ==> Named(menus, e)
  }

  /** What merge accepts. Distinct MACs cover the wildcard: it has one. */
  ghost predicate Mergeable(files: seq<FileResult>) {
    && ServerSource(files).From? && ServerSource(files).filename != ""
    && DistinctBy(Flat(files, MenusOf), NameOf)
    && DistinctBy(Flat(files, ClientsOf), MacOf)
    && Refers(Flat(files, MenusOf), Flat(files, ClientsOf))
  }

  /** An error names something wrong with the files. */
  ghost predicate Explains(files: seq<FileResult>, e: MergeError) {
    var menus, clients := Flat(files, MenusOf), Flat(files, ClientsOf);
    match e
    case ServerTwice(f, g) => ServerSource(files) == Clash(f, g)
    case NoServer => ServerSource(files) == From("")
    case DuplicateMenu(n, _, _) => exists i, j :: 0 <= i < j < |menus| && menus[i].name == menus[j].name == n
    case DuplicateMAC(m, _, _) =>
      exists i, j ::
        && 0 <= i < j < |clients| && clients[i].mac == clients[j].mac
        && MacString(clients[j].mac) == m && !clients[j].IsWildcard()
    case ManyWildcards(_, _) =>
      exists i, j :: 0 <= i < j < |clients| && clients[i].IsWildcard() && clients[j].IsWildcard()
    case UnknownEntry(c, n, _) => c in clients && n in c.menu.entries && !Named(menus, n)
  }

  // ---------------------------------------------------------------- prefixes

  lemma TakeOne(files: seq<FileResult>, i: nat)
    requires i < |files|
    ensures files[..i + 1][..i] == files[..i] && files[..i + 1][i] == files[i]
  {
  }

  lemma {:induction false} FlatPrefix<T>(files: seq<FileResult>, i: nat, part: FileResult -> seq<T>)
    requires i <= |files|
    ensures Flat(files[..i], part) <= Flat(files, part)
    decreases |files|
  {
    if i == |files| {
      assert files[..i] == files;
    } else {
      var init := files[..|files| - 1];
      assert init[..i] == files[..i];
      FlatPrefix(init, i, part);
    }
  }

  lemma FlatStep<T>(files: seq<FileResult>, i: nat, part: FileResult -> seq<T>)
    requires i < |files|
    ensures Flat(files[..i + 1], part) == Flat(files[..i], part) + part(files[i])
  {
    TakeOne(files, i);
  }

  /** A prefix of a file's part, after the earlier files' parts, is a prefix of
      the whole. */
  lemma PartPrefix<T>(files: seq<FileResult>, i: nat, j: nat, part: FileResult -> seq<T>)
    requires i < |files| && j <= |part(files[i])|
    ensures Flat(files[..i], part) + part(files[i])[..j] <= Flat(files, part)
  {
    FlatStep(files, i, part);
    FlatPrefix(files, i + 1, part);
  }

  lemma SourceStep(files: seq<FileResult>, i: nat)
    requires i < |files| && ServerSource(files[..i]).From?
    ensures files[i].server.None? ==> ServerSource(files[..i + 1]) == ServerSource(files[..i])
    ensures files[i].server.Some? && ServerSource(files[..i]).filename == "" ==>
              ServerSource(files[..i + 1]) == From(files[i].filename)
    ensures files[i].server.Some? && ServerSource(files[..i]).filename != "" ==>
              ServerSource(files[..i + 1]) == Clash(ServerSource(files[..i]).filename, files[i].filename)
  {
    TakeOne(files, i);
  }

  lemma {:induction false} ClashStays(files: seq<FileResult>, i: nat)
    requires i <= |files| && ServerSource(files[..i]).Clash?
    ensures ServerSource(files) == ServerSource(files[..i])
    decreases |files|
  {
    if i == |files| {
      assert files[..i] == files;
    } else {
      var init := files[..|files| - 1];
      assert init[..i] == files[..i];
      ClashStays(init, i);
    }
  }

  // ---------------------------------------------------------------- did you mean

  function LowerChar(c: char): char {
    if 'A' <= c <= 'Z' then c - 'A' + 'a' else c
  }

  function Lower(s: string): (r: string)
    ensures |r| == |s|
  {
    seq(|s|, i requires 0 <= i < |s| => LowerChar(s[i]))
  }

  function CommonPrefix(a: string, b: string): nat {
    if a == "" || b == "" || a[0] != b[0] then 0 else 1 + CommonPrefix(a[1..], b[1..])
  }

  ghost function Score(target: string, name: string): nat {
    CommonPrefix(Lower(target), Lower(name))
    + if Occurs(Lower(target), Lower(name)) || Occurs(Lower(name), Lower(target)) then 3 else 0
  }

  lemma {:induction false} PrefixCounts(a: string, b: string, k: nat)
    requires k <= |a| && k <= |b| && a[..k] == b[..k]
    ensures k == |a| || k == |b| || a[k] != b[k] ==> CommonPrefix(a, b) == k
  {
    if k > 0 {
      assert a[0] == a[..k][0] == b[..k][0] == b[0];
      assert a[1..][..k - 1] == a[..k][1..] && b[1..][..k - 1] == b[..k][1..];
      PrefixCounts(a[1..], b[1..], k - 1);
    }
  }

  // ---------------------------------------------------------------- merge

  function Names(menus: seq<MenuEntry>): set<string> { set m | m in menus :: m.name }

  /** The MACs that the duplicate check has seen: those of the named clients. */
  function SeenMACs(clients: seq<Client>): set<string> {
    set c | c in clients && !c.IsWildcard() :: MacString(c.mac)
  }

  function WildcardCount(clients: seq<Client>): nat {
    if clients == [] then 0
    else WildcardCount(clients[..|clients| - 1]) + if clients[|clients| - 1].IsWildcard() then 1 else 0
  }

  lemma OneMoreClient(clients: seq<Client>, c: Client)
    ensures WildcardCount(clients + [c]) == WildcardCount(clients) + if c.IsWildcard() then 1 else 0
    ensures SeenMACs(clients + [c]) == SeenMACs(clients) + if c.IsWildcard() then {} else {MacString(c.mac)}
  {
    assert (clients + [c])[..|clients|] == clients;
  }

  lemma {:induction false} SomeWildcard(clients: seq<Client>)
    ensures WildcardCount(clients) > 0 <==> exists i :: 0 <= i < |clients| && clients[i].IsWildcard()
  {
    if clients != [] {
      var n := |clients| - 1;
      SomeWildcard(clients[..n]);
      if WildcardCount(clients[..n]) > 0 {
        var i :| 0 <= i < n && clients[..n][i].IsWildcard();
        assert clients[i].IsWildcard();
      }
      if i :| 0 <= i < |clients| && clients[i].IsWildcard() {
        assert i == n || clients[..n][i].IsWildcard();
      }
    }
  }

  lemma SecondWildcard(files: seq<FileResult>, clients: seq<Client>, c: Client, f: string, g: string)
    requires clients + [c] <= Flat(files, ClientsOf) && c.IsWildcard() && WildcardCount(clients) > 0
    ensures Explains(files, ManyWildcards(f, g))
  {
    SomeWildcard(clients);
    var all := Flat(files, ClientsOf);
    var k :| 0 <= k < |clients| && clients[k].IsWildcard();
    assert all[k] == (clients + [c])[k] && all[|clients|] == (clients + [c])[|clients|];
  }

  lemma SecondMAC(files: seq<FileResult>, clients: seq<Client>, c: Client, f: string, g: string)
    requires clients + [c] <= Flat(files, ClientsOf) && !c.IsWildcard() && MacString(c.mac) in SeenMACs(clients)
    ensures Explains(files, DuplicateMAC(MacString(c.mac), f, g))
  {
    var all := Flat(files, ClientsOf);
    var k :| 0 <= k < |clients| && !clients[k].IsWildcard() && MacString(clients[k].mac) == MacString(c.mac);
    MacStringInjective(clients[k].mac, c.mac);
    assert all[k] == (clients + [c])[k] && all[|clients|] == (clients + [c])[|clients|];
  }

  lemma NewMAC(clients: seq<Client>, c: Client)
    requires DistinctBy(clients, MacOf)
    requires if c.IsWildcard() then WildcardCount(clients) == 0 else MacString(c.mac) !in SeenMACs(clients)
    ensures DistinctBy(clients + [c], MacOf)
  {
    SomeWildcard(clients);
    forall k | 0 <= k < |clients| ensures MacOf(clients[k]) != MacOf(c) {
      assert clients[k] in clients;
    }
  }

  lemma Nothing(files: seq<FileResult>)
    ensures files[..0] == [] && Merged([]) == EMPTY_CONFIG && ServerSource([]) == From("")
    ensures Names([]) == {} && SeenMACs([]) == {} && WildcardCount([]) == 0 && DistinctBy([], NameOf)
    ensures DistinctBy([], MacOf)
  {
  }

  lemma MergedStep(files: seq<FileResult>, i: nat)
    requires i < |files|
    ensures var f, c := files[i], Merged(files[..i]);
            Merged(files[..i + 1]) == FullConfig(
              f.server.GetOr(c.server), f.dhcpProxy.GetOr(c.dhcpProxy), f.tftp.GetOr(c.tftp), f.http.GetOr(c.http),
              f.health.GetOr(c.health), f.bootloader.GetOr(c.bootloader), c.menus + f.menus, c.clients + f.clients)
    ensures Merged(files[..i + 1]).menus == Flat(files[..i + 1], MenusOf)
    ensures Merged(files[..i + 1]).clients == Flat(files[..i + 1], ClientsOf)
  {
    TakeOne(files, i);
  }

  lemma ClashExplains(files: seq<FileResult>, i: nat, f: string, g: string)
    requires i <= |files| && ServerSource(files[..i]) == Clash(f, g)
    ensures Explains(files, ServerTwice(f, g))
  {
    ClashStays(files, i);
  }

  lemma NoServerExplains(files: seq<FileResult>)
    requires ServerSource(files) == From("")
    ensures Explains(files, NoServer)
  {
  }

  lemma UnknownExplains(files: seq<FileResult>, e: MergeError)
    requires e.UnknownEntry? && e.client in Merged(files).clients && e.entry in e.client.menu.entries
    requires !Named(Merged(files).menus, e.entry)
    ensures Explains(files, e)
  {
  }

  lemma Accepted(files: seq<FileResult>)
    requires ServerSource(files).From? && ServerSource(files).filename != ""
    requires DistinctBy(Merged(files).menus, NameOf) && DistinctBy(Merged(files).clients, MacOf)
    requires Refers(Merged(files).menus, Merged(files).clients)
    ensures Mergeable(files)
  {
  }

  // ---------------------------------------------------------------- what is similar

  lemma {:induction false} ThreeInCommon(a: string, b: string, k: nat)
    ensures CommonPrefix(a, b) >= k <==> |a| >= k && |b| >= k && a[..k] == b[..k]
    decreases k
  {
    if k > 0 && a != "" && b != "" {
      ThreeInCommon(a[1..], b[1..], k - 1);
      if |a| >= k && |b| >= k {
        assert a[..k] == [a[0]] + a[1..][..k - 1] && b[..k] == [b[0]] + b[1..][..k - 1];
        assert a[..k][0] == a[0] && b[..k][0] == b[0];
        assert a[..k][1..] == a[1..][..k - 1] && b[..k][1..] == b[1..][..k - 1];
      }
    }
  }
}
