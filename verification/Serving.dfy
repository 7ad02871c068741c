/** The boot menu handler over registry, menus and variables, and runs of
    override settings, reloads and boot requests. */
module Serving {
  import opened Domain
  import opened Mac
  import opened MergeRules
  import opened Rewriting
  import opened Registry
  import G = Generator

  // ---------------------------------------------------------------- one request

  /** What the handler works from: the client and menu lists last loaded, the
      pending overrides, and the shared variable map, which serve leaves nil. */
  datatype Site = Site(clients: seq<Client>, menus: seq<MenuEntry>, overrides: map<string, string>,
                       custom: Option<map<string, string>>)

  datatype Reply =
    | NotFound
    | Forbidden
    | Failure
    | Override(entry: MenuEntry, vars: Vars)
    | Menu(entries: seq<MenuEntry>, config: MenuConfig, vars: Vars)

  function ClientFor(site: Site, mac: MAC): Option<Client> {
    Find(Index(site.clients), LastWildcard(site.clients), mac)
  }

  function RequestVars(serverIP: string, httpPort: int, custom: Option<map<string, string>>, c: Client,
                       mac: MAC): Vars {
    Vars(serverIP, httpPort, MacString(mac), custom.GetOr(map[]) + c.vars)
  }

  function PendingName(site: Site, mac: MAC): string {
    if MacString(mac) in site.overrides then site.overrides[MacString(mac)] else ""
  }

  function ReplyTo(site: Site, serverIP: string, httpPort: int, mac: MAC): Reply {
    match ClientFor(site, mac)
    case None => NotFound
    case Some(c) =>
      if !c.enabled then Forbidden
      else
        var vars := RequestVars(serverIP, httpPort, site.custom, c, mac);
        var name := PendingName(site, mac);
        if name != "" && name in MenuIndex(site.menus) then Override(MenuIndex(site.menus)[name], vars)
        else
          match Resolve(MenuIndex(site.menus), c.menu.entries)
          case Resolved(es) => Menu(es, c.menu, vars)
          case _ => Failure
  }

  predicate Boots(site: Site, mac: MAC) {
    ClientFor(site, mac).Some? && ClientFor(site, mac).value.enabled
  }

  /** An enabled client's request takes its override; with a shared variable map
      its variables stay in it. */
  function AfterRequest(site: Site, mac: MAC): Site {
    if !Boots(site, mac) then site
    else site.(overrides := site.overrides - {MacString(mac)},
               custom := if site.custom.None? then None else Some(site.custom.value + ClientFor(site, mac).value.vars))
  }

  class VarMap {
    var m: map<string, string>
    constructor (m: map<string, string>)
      ensures this.m == m
    {
      this.m := m;
    }
  }

  datatype HTTPReply = Status(code: nat) | Script(text: string)

  ghost predicate Answers(reply: Reply, r: HTTPReply) {
    match reply
    case NotFound => r == Status(404)
    case Forbidden => r == Status(403)
    case Failure => r == Status(500)
    case Override(e, vars) => r.Script? && exists block :: G.OverrideScript(e, vars, r.text, block)
    case Menu(es, mc, vars) => r.Script? && G.Generated(es, mc, vars, r.text)
  }

  class MenuScriptHandler {
    var registry: ClientRegistry
    var menus: MenuResolver
    const serverIP: string
    const httpPort: int
    const custom: VarMap?

    constructor (registry: ClientRegistry, menus: MenuResolver, serverIP: string, httpPort: int, custom: VarMap?)
      ensures this.registry == registry && this.menus == menus
      ensures this.serverIP == serverIP && this.httpPort == httpPort && this.custom == custom
    {
      this.registry, this.menus := registry, menus;
      this.serverIP, this.httpPort, this.custom := serverIP, httpPort, custom;
    }

    ghost predicate Holds(site: Site)
      reads this, registry, menus, custom
    {
      && registry.clients == Index(site.clients) && registry.wildcard == LastWildcard(site.clients)
      && registry.overrides == site.overrides && menus.menus == MenuIndex(site.menus)
      && site.custom == (if custom == null then None else Some(custom.m))
    }

    method ServeHTTP(macText: string, ghost site: Site) returns (r: HTTPReply)
      requires Holds(site)
      modifies registry`overrides, custom
      ensures NetParseMAC(macText).None? ==> r == Status(400) && Holds(site)
      ensures NetParseMAC(macText).Some? ==> Holds(AfterRequest(site, NetParseMAC(macText).value))
      ensures NetParseMAC(macText).Some? ==> Answers(ReplyTo(site, serverIP, httpPort, NetParseMAC(macText).value), r)
    {
      hide MacString, NetParseMAC, Index, LastWildcard, MenuIndex, Resolve, ResolvesTo, G.Generated, G.OverrideScript;
      var parsed := NetParseMAC(macText);
      if parsed.None? {
        return Status(400);
      }
      var mac := parsed.value;
      var found := registry.FindClient(mac);
      if found.None? {
        return Status(404);
      }
      var client := found.value;
      if !client.enabled {
        return Status(403);
      }
      var vars := Vars(serverIP, httpPort, MacString(mac), map[]);
      if custom == null {
        var own := new VarMap(map[]);
        own.m := own.m + client.vars;
        vars := vars.(custom := own.m);
      } else {
        custom.m := custom.m + client.vars;
        vars := vars.(custom := custom.m);
      }
      assert vars == RequestVars(serverIP, httpPort, site.custom, client, mac);
      var overrideName := registry.ConsumeBootOverride(mac);
      if overrideName != "" {
        var entry := menus.FindByName(overrideName, site.menus);
        if entry.Some? {
          var script := G.GenerateOverride(entry.value, vars);
          return Script(script);
        }
      }
      var resolution := menus.ResolveEntries(client.menu.entries);
      ResolutionUnique(menus.menus, client.menu.entries, resolution);
      if !resolution.Resolved? {
        return Status(500);
      }
      var script := G.Generate(resolution.entries, client.menu, vars);
      return Script(script);
    }
  }

  /** What a script is generated with: the server, the machine's own address, and
      the client's variables, over those of the base map. */
  lemma ScriptVars(site: Site, serverIP: string, httpPort: int, mac: MAC)
    ensures var r := ReplyTo(site, serverIP, httpPort, mac);
            r.Override? || r.Menu? ==>
              && ClientFor(site, mac).Some? && ClientFor(site, mac).value.enabled
              && r.vars.serverIP == serverIP && r.vars.httpPort == httpPort && r.vars.mac == MacString(mac)
              && (var own, base := ClientFor(site, mac).value.vars, site.custom.GetOr(map[]);
                  && (forall k :: k in own ==> k in r.vars.custom && r.vars.custom[k] == own[k])
                  && (forall k :: k in base && k !in own ==> k in r.vars.custom && r.vars.custom[k] == base[k])
                  && forall k :: k in r.vars.custom ==> k in own || k in base)
  {
    hide ClientFor, MacString, MenuIndex, Resolve;
  }

  // ---------------------------------------------------------------- when a request fails

  /** Clients and menus as a loaded and validated configuration has them. */
  ghost predicate Sound(site: Site) {
    && Refers(site.menus, site.clients)
    && forall c :: c in site.clients ==> c.menu.entries != []
  }

  lemma LoadedIsSound(cfg: FullConfig, site: Site)
    requires Refers(cfg.menus, cfg.clients) && cfg.Valid() && site.menus == cfg.menus && site.clients == cfg.clients
    ensures Sound(site)
  {
  }

  /** An internal error comes exactly from an enabled client without entries or
      with an entry that has no menu, unless a usable override hides it. */
  lemma FailsExactly(site: Site, serverIP: string, httpPort: int, mac: MAC)
    ensures ReplyTo(site, serverIP, httpPort, mac).Failure? <==>
            && Boots(site, mac) && (PendingName(site, mac) == "" || !Named(site.menus, PendingName(site, mac)))
            && (var es := ClientFor(site, mac).value.menu.entries;
                es == [] || exists e :: e in es && !Named(site.menus, e))
  {
    hide Find, Index, LastWildcard, MacString;
    MenuIndexHolds(site.menus);
    if Boots(site, mac) {
      var es, index := ClientFor(site, mac).value.menu.entries, MenuIndex(site.menus);
      var r := Resolve(index, es);
      assert r.Resolved? <==> es != [] && forall e :: e in es ==> e in index by {
        if r.Missing? { assert r.name in es && r.name !in index; }
      }
    }
  }

  /** For a loaded configuration every request of a configured, enabled client
      gets its override or all its entries, in order. */
  lemma SoundAnswers(site: Site, serverIP: string, httpPort: int, mac: MAC)
    requires Sound(site)
    ensures var reply := ReplyTo(site, serverIP, httpPort, mac);
            && !reply.Failure?
            && (reply.Menu? ==> var c := ClientFor(site, mac).value;
                  && reply.config == c.menu && |reply.entries| == |c.menu.entries| > 0
                  && forall i :: 0 <= i < |reply.entries| ==>
                      reply.entries[i] in site.menus && reply.entries[i].name == c.menu.entries[i])
  {
    hide MacString, Index, LastWildcard, Find;
    FailsExactly(site, serverIP, httpPort, mac);
    MenuIndexHolds(site.menus);
    if Boots(site, mac) {
      FindsExactly(site.clients, mac);
      var c := ClientFor(site, mac).value;
      assert c in site.clients;
      assert forall e :: e in c.menu.entries ==> Named(site.menus, e);
    }
  }

  // ---------------------------------------------------------------- runs

  /** A reload brings the result of loading the directory, or nothing. A request
      changes the site twice: at the client's lookup, which leaves its variables
      in a shared map, and when it takes its override; Request is both at once.
      Runs with more consumptions than lookups are more than can happen. */
  datatype Op =
    | SetOverride(mac: MAC, name: string)
    | Reload(loaded: Option<FullConfig>)
    | Lookup(mac: MAC)
    | Consume(mac: MAC)
    | Request(mac: MAC)

  function Do(site: Site, op: Op): Site {
    match op
    case SetOverride(mac, name) => site.(overrides := site.overrides[MacString(mac) := name])
    case Reload(loaded) =>
      if loaded.Some? && loaded.value.Valid()
      then site.(clients := loaded.value.clients, menus := loaded.value.menus) else site
    case Lookup(mac) => AfterLookup(site, mac)
    case Consume(mac) => site.(overrides := site.overrides - {MacString(mac)})
    case Request(mac) => AfterRequest(site, mac)
  }

  function AfterLookup(site: Site, mac: MAC): Site {
    if !Boots(site, mac) || site.custom.None? then site
    else site.(custom := Some(site.custom.value + ClientFor(site, mac).value.vars))
  }

  /** A whole request is its lookup and, if a script comes of it, the taking of
      its override. */
  lemma RequestIsBoth(site: Site, mac: MAC)
    ensures Do(site, Request(mac))
            == if Boots(site, mac) then Do(Do(site, Lookup(mac)), Consume(mac)) else Do(site, Lookup(mac))
  {
    hide MacString, Boots, ClientFor;
  }

  function Run(site: Site, ops: seq<Op>): Site {
    if ops == [] then site else Do(Run(site, ops[..|ops| - 1]), ops[|ops| - 1])
  }

  /** Only what merge accepted is loaded. */
  ghost predicate LoadsMerged(ops: seq<Op>) {
    forall i :: 0 <= i < |ops| && ops[i].Reload? && ops[i].loaded.Some? ==>
      Refers(ops[i].loaded.value.menus, ops[i].loaded.value.clients)
  }

  /** After any run of overrides, reloads and requests, whole or in pieces, and
      with failed reloads, no request ends in an internal error. */
  lemma {:induction false} RunStaysSound(site: Site, ops: seq<Op>)
    requires Sound(site) && LoadsMerged(ops)
    ensures Sound(Run(site, ops))
  {
    if ops != [] {
      var n := |ops| - 1;
      assert LoadsMerged(ops[..n]) by { assert forall i :: 0 <= i < n ==> ops[..n][i] == ops[i]; }
      RunStaysSound(site, ops[..n]);
      if ops[n].Reload? && ops[n].loaded.Some? && ops[n].loaded.value.Valid() {
        LoadedIsSound(ops[n].loaded.value, Run(site, ops));
      }
    }
  }

  /** Between the registry's update and the menus' update of one reload a
      request for a client of a newly named menu fails, although the site was
      sound before and is sound after. */
  lemma HalfReloadCanFail(site: Site, m: MenuEntry, c: Client, serverIP: string, httpPort: int, mac: MAC)
    requires Sound(site) && !Named(site.menus, m.name) && c.IsWildcard() && c.enabled && c.menu.entries == [m.name]
    requires MacString(mac) !in site.overrides
    ensures ReplyTo(site.(clients := [c]), serverIP, httpPort, mac).Failure?
    ensures Sound(site.(clients := [c], menus := [m]))
  {
    hide MacString;
    var half := site.(clients := [c]);
    FailsExactly(half, serverIP, httpPort, mac);
    assert [c][..0] == [];
    assert Index([c]) == map[] && LastWildcard([c]) == Some(c);
    assert m.name in c.menu.entries;
    assert m in [m] && Named([m], m.name);
  }

  // ---------------------------------------------------------------- a request in pieces

  /** ServeHTTP reads the registry and the menus several times; these are the
      sites it finds: at the client's lookup, when the override is taken, when
      the override's entry is looked up, and when the entries are resolved. */
  datatype Seen = Seen(find: Site, consume: Site, look: Site, resolve: Site)

  function SplitReply(seen: Seen, serverIP: string, httpPort: int, mac: MAC): Reply {
    match ClientFor(seen.find, mac)
    case None => NotFound
    case Some(c) =>
      if !c.enabled then Forbidden
      else
        var vars := RequestVars(serverIP, httpPort, seen.find.custom, c, mac);
        var name := PendingName(seen.consume, mac);
        if name != "" && name in MenuIndex(seen.look.menus) then Override(MenuIndex(seen.look.menus)[name], vars)
        else
          match Resolve(MenuIndex(seen.resolve.menus), c.menu.entries)
          case Resolved(es) => Menu(es, c.menu, vars)
          case _ => Failure
  }

  predicate OverrideUsed(seen: Seen, mac: MAC) {
    PendingName(seen.consume, mac) != "" && Named(seen.look.menus, PendingName(seen.consume, mac))
  }

  /** The site that one atomic request would have had to find. */
  function Mixed(seen: Seen, mac: MAC): Site {
    Site(seen.find.clients,
         if OverrideUsed(seen, mac) then seen.look.menus else seen.resolve.menus,
         if OverrideUsed(seen, mac) then seen.consume.overrides else map[],
         seen.find.custom)
  }

  /** A request in pieces is answered like one atomic request with the clients
      of its lookup and the menus of its resolution. */
  lemma SplitIsReply(seen: Seen, serverIP: string, httpPort: int, mac: MAC)
    ensures SplitReply(seen, serverIP, httpPort, mac) == ReplyTo(Mixed(seen, mac), serverIP, httpPort, mac)
  {
    hide Find, Index, LastWildcard, MacString, MenuIndex, Resolve;
    MenuIndexHolds(seen.look.menus);
  }

  /** So it fails exactly when the client found is enabled and an entry of it,
      if it has any, has no menu by the time of the resolution. */
  lemma SplitFailsExactly(seen: Seen, serverIP: string, httpPort: int, mac: MAC)
    ensures SplitReply(seen, serverIP, httpPort, mac).Failure? <==>
            && Boots(seen.find, mac) && !OverrideUsed(seen, mac)
            && (var es := ClientFor(seen.find, mac).value.menu.entries;
                es == [] || exists e :: e in es && !Named(seen.resolve.menus, e))
  {
    hide Find, Index, LastWildcard, MacString, SplitReply, ReplyTo;
    SplitIsReply(seen, serverIP, httpPort, mac);
    FailsExactly(Mixed(seen, mac), serverIP, httpPort, mac);
    if OverrideUsed(seen, mac) {
      MenuIndexHolds(seen.look.menus);
    }
  }

  /** The sites that one request finds along a run: a happens between its lookup
      and the taking of its override, b and c around the override's lookup. */
  function SeenAlong(site: Site, a: seq<Op>, b: seq<Op>, c: seq<Op>, mac: MAC): Seen {
    var s1 := Run(Do(site, Lookup(mac)), a);
    var s2 := Run(Do(s1, Consume(mac)), b);
    Seen(site, s1, s2, Run(s2, c))
  }

  /** When nothing comes between, it is the request as a whole. */
  lemma UninterruptedIsRequest(site: Site, serverIP: string, httpPort: int, mac: MAC)
    ensures SplitReply(SeenAlong(site, [], [], [], mac), serverIP, httpPort, mac)
              == ReplyTo(site, serverIP, httpPort, mac)
    ensures Boots(site, mac) ==> SeenAlong(site, [], [], [], mac).resolve == AfterRequest(site, mac)
  {
    hide Find, Index, LastWildcard, MacString, MenuIndex, Resolve;
  }

  /** What happens between the pieces of a request that starts in a sound
      site: as long as no reload is among it, the request does not fail. */
  lemma UndisturbedAnswers(site: Site, a: seq<Op>, b: seq<Op>, c: seq<Op>, serverIP: string, httpPort: int, mac: MAC)
    requires Sound(site) && forall op :: op in a + b + c ==> !op.Reload?
    ensures !SplitReply(SeenAlong(site, a, b, c, mac), serverIP, httpPort, mac).Failure?
  {
    hide Find, Index, LastWildcard, MacString, SplitReply, Run;
    var s0 := Do(site, Lookup(mac));
    var s1 := Run(s0, a);
    var t1 := Do(s1, Consume(mac));
    var s2 := Run(t1, b);
    NoReloadKeepsLists(s0, a);
    NoReloadKeepsLists(t1, b);
    NoReloadKeepsLists(s2, c);
    SplitFailsExactly(SeenAlong(site, a, b, c, mac), serverIP, httpPort, mac);
    if Boots(site, mac) {
      FindsExactly(site.clients, mac);
      var found := ClientFor(site, mac).value;
      assert found in site.clients;
      assert forall e :: e in found.menu.entries ==> Named(site.menus, e);
    }
  }

  lemma {:induction false} NoReloadKeepsLists(site: Site, ops: seq<Op>)
    requires forall op :: op in ops ==> !op.Reload?
    ensures Run(site, ops).menus == site.menus && Run(site, ops).clients == site.clients
  {
    hide Boots, MacString;
    if ops != [] {
      assert ops[|ops| - 1] in ops;
      NoReloadKeepsLists(site, ops[..|ops| - 1]);
    }
  }

  /** A whole reload between the lookup and the resolution can make a request
      fail, although the site is sound before and after. */
  lemma ReloadBetweenCanFail(site: Site, cfg: FullConfig, serverIP: string, httpPort: int, mac: MAC)
    requires Sound(site) && Boots(site, mac) && cfg.Valid() && Refers(cfg.menus, cfg.clients)
    requires MacString(mac) !in site.overrides
    requires exists e :: e in ClientFor(site, mac).value.menu.entries && !Named(cfg.menus, e)
    ensures var seen := SeenAlong(site, [], [], [Reload(Some(cfg))], mac);
            Sound(seen.resolve) && SplitReply(seen, serverIP, httpPort, mac).Failure?
  {
    hide Find, Index, LastWildcard, MacString, SplitReply, AfterLookup;
    var ops := [Reload(Some(cfg))];
    var seen := SeenAlong(site, [], [], ops, mac);
    assert ops[..0] == [] && ops[0] == Reload(Some(cfg));
    assert seen.resolve == Do(Run(seen.look, ops[..0]), ops[0]);
    LookupKeepsRest(site, mac);
    LoadedIsSound(cfg, seen.resolve);
    SplitFailsExactly(seen, serverIP, httpPort, mac);
  }

  lemma LookupKeepsRest(site: Site, mac: MAC)
    ensures AfterLookup(site, mac) == site.(custom := AfterLookup(site, mac).custom)
  {
    hide Boots, ClientFor;
  }

  // ---------------------------------------------------------------- overrides

  /** The override of a MAC that the history leaves pending: the last one set
      since the MAC's machine last took one. */
  function Pending(site: Site, ops: seq<Op>, mac: MAC): Option<string> {
    if ops == [] then if MacString(mac) in site.overrides then Some(site.overrides[MacString(mac)]) else None
    else
      var init, last := ops[..|ops| - 1], ops[|ops| - 1];
      match last
      case SetOverride(m, name) => if m == mac then Some(name) else Pending(site, init, mac)
      case Request(m) => if m == mac && Boots(Run(site, init), m) then None else Pending(site, init, mac)
      case Consume(m) => if m == mac then None else Pending(site, init, mac)
      case Lookup(_) => Pending(site, init, mac)
      case Reload(_) => Pending(site, init, mac)
  }

  /** What a request takes is what the history leaves pending for its own MAC. */
  lemma {:induction false} OverrideIsPending(site: Site, ops: seq<Op>, mac: MAC)
    ensures var t := Run(site, ops);
            (if MacString(mac) in t.overrides then Some(t.overrides[MacString(mac)]) else None)
                == Pending(site, ops, mac)
  {
    hide MacString, Boots;
    if ops != [] {
      var init, last := ops[..|ops| - 1], ops[|ops| - 1];
      OverrideIsPending(site, init, mac);
      if last.SetOverride? && MacString(last.mac) == MacString(mac) { MacStringInjective(last.mac, mac); }
      if (last.Request? || last.Consume?) && MacString(last.mac) == MacString(mac) {
        MacStringInjective(last.mac, mac);
      }
    }
  }

  /** An override is served to its own machine, with the menu of that name, and
      once: the next request is answered without it; and no other machine's answer
      changes. */
  lemma ServedOnce(site: Site, mac: MAC, name: string, other: MAC, serverIP: string, httpPort: int)
    requires Boots(site, mac) && name != "" && Named(site.menus, name) && other != mac
    ensures var pending := Do(site, SetOverride(mac, name));
            var r := ReplyTo(pending, serverIP, httpPort, mac);
            && r.Override? && r.entry in site.menus && r.entry.name == name
            && !ReplyTo(Do(pending, Request(mac)), serverIP, httpPort, mac).Override?
            && ReplyTo(pending, serverIP, httpPort, other) == ReplyTo(site, serverIP, httpPort, other)
  {
    hide Find, Index, LastWildcard, MacString, MenuIndex, Resolve;
    MenuIndexHolds(site.menus);
    if MacString(mac) == MacString(other) { MacStringInjective(mac, other); }
  }

  /** Whether the registry holds an override for this MAC. */
  function Held(site: Site, mac: MAC): nat { if MacString(mac) in site.overrides then 1 else 0 }

  function Sets(ops: seq<Op>, mac: MAC): nat {
    if ops == [] then 0
    else Sets(ops[..|ops| - 1], mac) + if ops[|ops| - 1].SetOverride? && ops[|ops| - 1].mac == mac then 1 else 0
  }

  predicate Takes(site: Site, op: Op, mac: MAC) {
    (op.Request? && op.mac == mac && Boots(site, mac)) || (op.Consume? && op.mac == mac)
  }

  /** Requests of this MAC's machine that took an override out of the registry. */
  function Taken(site: Site, ops: seq<Op>, mac: MAC): nat {
    if ops == [] then 0
    else
      var init, last := ops[..|ops| - 1], ops[|ops| - 1];
      var before := Run(site, init);
      Taken(site, init, mac) + if Takes(before, last, mac) then Held(before, mac) else 0
  }

  /** Settings for this MAC that found one in the registry already. */
  function Replaced(site: Site, ops: seq<Op>, mac: MAC): nat {
    if ops == [] then 0
    else
      var init, last := ops[..|ops| - 1], ops[|ops| - 1];
      Replaced(site, init, mac) + if last.SetOverride? && last.mac == mac then Held(Run(site, init), mac) else 0
  }

  /** Every override set for a MAC leaves the registry with a request of that
      very MAC, is replaced there, or is there at the end; settings, requests
      and reloads of others neither add nor take one. */
  lemma {:induction false} OverridesConserved(site: Site, ops: seq<Op>, mac: MAC)
    ensures Sets(ops, mac) + Held(site, mac)
              == Taken(site, ops, mac) + Replaced(site, ops, mac) + Held(Run(site, ops), mac)
  {
    hide Boots, MacString;
    if ops != [] {
      var init, last := ops[..|ops| - 1], ops[|ops| - 1];
      OverridesConserved(site, init, mac);
      if !last.Reload? && MacString(last.mac) == MacString(mac) { MacStringInjective(last.mac, mac); }
    }
  }

  // ---------------------------------------------------------------- variables

  /** With a nil base map, as serve builds it, no run leaves anything behind. */
  lemma {:induction false} NilMapStaysNil(site: Site, ops: seq<Op>)
    requires site.custom.None?
    ensures Run(site, ops).custom.None?
    ensures forall ip, port, c, mac ::
              RequestVars(ip, port, Run(site, ops).custom, c, mac) == Vars(ip, port, MacString(mac), c.vars)
  {
    hide MacString, Boots;
    if ops != [] {
      NilMapStaysNil(site, ops[..|ops| - 1]);
    }
    forall c: Client ensures map[] + c.vars == c.vars {}
  }

  lemma SharedVarsAgree(base: map<string, string>, earlier: map<string, string>, later: map<string, string>)
    ensures base + earlier + later == base + later
            <==> forall k :: k in earlier && k !in later ==> k in base && base[k] == earlier[k]
  {
    var after, before := base + earlier + later, base + later;
    if forall k :: k in earlier && k !in later ==> k in base && base[k] == earlier[k] {
      assert after.Keys == before.Keys;
      assert forall k :: k in after ==> after[k] == before[k];
    } else {
      var k :| k in earlier && k !in later && !(k in base && base[k] == earlier[k]);
      assert k in after && after[k] == earlier[k];
      assert k in before ==> before[k] == base[k];
    }
  }

  /** Whether a request of one machine changes what another machine's request
      hands to the generator: exactly when the variable map is shared, both get
      scripts, and the first client has a variable that the other one neither sets
      itself nor had there before. */
  lemma SharedMapLeaksExactly(site: Site, ip: string, port: int, first: MAC, second: MAC)
    requires first != second
    ensures var alone, after := ReplyTo(site, ip, port, second), ReplyTo(AfterRequest(site, first), ip, port, second);
            after == alone <==>
              (site.custom.Some? && Boots(site, first) && (alone.Menu? || alone.Override?) ==>
                forall k :: k in ClientFor(site, first).value.vars && k !in ClientFor(site, second).value.vars ==>
                  k in site.custom.value && site.custom.value[k] == ClientFor(site, first).value.vars[k])
  {
    hide MacString, Find, Index, LastWildcard, MenuIndex, Resolve;
    if MacString(first) == MacString(second) { MacStringInjective(first, second); }
    if site.custom.Some? && Boots(site, first) && ClientFor(site, second).Some? {
      SharedVarsAgree(site.custom.value, ClientFor(site, first).value.vars, ClientFor(site, second).value.vars);
    }
  }

  // ---------------------------------------------------------------- the first stage

  /** bootfileForClient: a client's own file for the architecture, else the
      global one. */
  function BootFile(client: Option<Client>, global: BootFiles, arch: ClientArch): string {
    if client.Some? && client.value.bootloader.Some? && client.value.bootloader.value.FileForArch(arch) != ""
    then client.value.bootloader.value.FileForArch(arch)
    else global.FileForArch(arch)
  }

  function Registered(registry: ClientRegistry?, mac: MAC): Option<Client>
    reads registry
  {
    if registry == null then None else Find(registry.clients, registry.wildcard, mac)
  }

  method BootfileForClient(registry: ClientRegistry?, global: BootFiles, mac: MAC, arch: ClientArch)
    returns (file: string)
    ensures file == BootFile(Registered(registry, mac), global, arch)
  {
    if registry != null {
      var client := registry.FindClient(mac);
      if client.Some? {
        if client.value.bootloader.Some? {
          var f := client.value.bootloader.value.FileForArch(arch);
          if f != "" {
            return f;
          }
        }
      }
    }
    return global.FileForArch(arch);
  }

  /** Saving drops a client's boot files: the served file stays the same exactly
      when the client had none of its own for the architecture or the global
      one. */
  lemma SaveKeepsBootFile(c: Client, global: BootFiles, arch: ClientArch)
    ensures BootFile(Some(c.(bootloader := None)), global, arch) == BootFile(Some(c), global, arch)
            <==> c.bootloader.None? || c.bootloader.value.FileForArch(arch) in ["", global.FileForArch(arch)]
  {
    var own := ["", global.FileForArch(arch)];
    assert own[0] == "" && own[1] == global.FileForArch(arch);
  }
}
