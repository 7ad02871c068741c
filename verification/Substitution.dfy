/** The three placeholder rewriters: substituteVars of the script generator,
    resolveChainURL of the DHCP proxy and the autoexec script of the TFTP server. */
module Substitution {
  import opened Text
  import opened Rewriting

  // ---------------------------------------------------------------- the rewriter

  method SubstituteVars(s: string, vars: Vars) returns (r: string)
    ensures Outcome(s, vars, r)
  {
    r := ReplaceAll(s, "${server_ip}", vars.serverIP);
    r := ReplaceAll(r, "${http_port}", Decimal(vars.httpPort));
    r := ReplaceAll(r, "${mac}", vars.mac);
    ghost var start := r;
    assert start == Rewrite(s, BUILTINS, BuiltinValues(vars)) by { BuiltinsSpelled(s, BuiltinValues(vars)); }
    var todo := vars.custom.Keys;
    ghost var order: seq<string> := [];
    while todo != {}
      invariant todo <= vars.custom.Keys
      invariant IsOrder(order, vars.custom.Keys - todo)
      invariant r == Rewrite(start, order, vars.custom)
    {
      var k :| k in todo;
      r := ReplaceAll(r, "${" + k + "}", vars.custom[k]);
      RewriteAppend(start, order, [k], vars.custom);
      RewriteOne(Rewrite(start, order, vars.custom), k, vars.custom);
      order := order + [k];
      todo := todo - {k};
    }
    assert vars.custom.Keys - todo == vars.custom.Keys;
    assert r == Sequential(s, vars, order);
  }

  // ---------------------------------------------------------------- templates

  /** One ReplaceAll fills exactly the holes of its key, as long as the key's
      placeholder cannot arise across the text already there. */
  lemma {:induction false} ReplaceIsPut(t: seq<Piece>, k: string, v: string)
    requires SimpleKey(k) && SimpleHoles(t) && (v == Placeholder(k) || TextsClear(t, k))
    ensures ReplaceAll(Render(t), Placeholder(k), v) == Render(Put(t, map[k := v]))
  {
    var q := Placeholder(k);
    if t != [] {
      var rest := Render(t[1..]);
      ReplaceIsPut(t[1..], k, v);
      assert Put(t, map[k := v])[1..] == Put(t[1..], map[k := v]);
      if v == q {
        ReplaceBySelf(Render(t), q);
        ReplaceBySelf(rest, q);
      } else if t[0].Txt? {
        ReplaceSkips(t[0].text, rest, q, v);
      } else if t[0].name == k {
        ReplaceHits(rest, q, v);
      } else {
        PlaceholdersClear(t[0].name, k);
        ReplaceSkips(Placeholder(t[0].name), rest, q, v);
      }
    }
  }

  /** Rewriting with dollar-free values is simultaneous, in any order. */
  lemma {:induction false} DollarFreeRewrite(t: seq<Piece>, keys: seq<string>, value: map<string, string>)
    requires WellFormed(t) && forall k :: k in keys ==> k in value && SimpleKey(k) && '$' !in value[k]
    ensures WellFormed(Put(t, Restrict(value, keys)))
    ensures Rewrite(Render(t), keys, value) == Fill(t, Restrict(value, keys))
    decreases |keys|
  {
    if keys == [] {
      assert Put(t, Restrict(value, keys)) == t;
    } else {
      var k := keys[0];
      WellFormedIsClear(t, k);
      ReplaceIsPut(t, k, value[k]);
      var t' := Put(t, map[k := value[k]]);
      assert WellFormed(t');
      DollarFreeRewrite(t', keys[1..], value);
      PutTwice(t, map[k := value[k]], Restrict(value, keys[1..]));
      assert Restrict(value, keys[1..]) + map[k := value[k]] == Restrict(value, keys);
    }
  }

  // ---------------------------------------------------------------- when order does not matter

  /** The built-in replacements: still a template, and without built-in holes. */
  lemma BuiltinsFill(t: seq<Piece>, vars: Vars)
    requires WellFormed(t) && SimpleVars(vars)
    ensures var t' := Put(t, BuiltinValues(vars));
            && WellFormed(t')
            && (forall p :: p in t' && p.Hole? ==> p.name !in BUILTINS)
            && Rewrite(Render(t), BUILTINS, BuiltinValues(vars)) == Render(t')
            && Put(t', vars.custom) == Put(t, Env(vars))
  {
    BuiltinsAreSimple(vars);
    DollarFreeRewrite(t, BUILTINS, BuiltinValues(vars));
    PutTwice(t, BuiltinValues(vars), vars.custom);
  }

  /** The custom loop, seen from any point on. */
  lemma {:induction false} CustomLoopFills(t: seq<Piece>, vars: Vars, order: seq<string>, todo: map<string, string>)
    requires SimpleVars(vars) && Independent(vars)
    requires IsOrder(order, todo.Keys) && forall k :: k in todo ==> k in vars.custom && todo[k] == vars.custom[k]
    requires SimpleHoles(t) && forall p :: p in t && p.Hole? ==> p.name !in BUILTINS
    requires forall p :: p in t && p.Txt? ==> Visited(p.text, vars, todo)
    ensures Rewrite(Render(t), order, vars.custom) == Fill(t, todo)
    decreases |order|
  {
    hide Independent, Visited, Clear, TextsClear, ReplaceAll, Render;
    if order == [] {
      assert Put(t, todo) == t;
    } else {
      var k := order[0];
      var one := map[k := vars.custom[k]];
      VisitedIsClear(t, vars, todo, k);
      ReplaceIsPut(t, k, vars.custom[k]);
      VisitedStep(t, vars, todo, k);
      OrderTail(order, todo.Keys);
      assert (todo - {k}).Keys == todo.Keys - {k};
      CustomLoopFills(Put(t, one), vars, order[1..], todo - {k});
      PutTwice(t, one, todo - {k});
      assert (todo - {k}) + one == todo;
    }
  }

  lemma SequentialIsFill(t: seq<Piece>, vars: Vars, order: seq<string>)
    requires WellFormed(t) && SimpleVars(vars) && Independent(vars) && IsOrder(order, vars.custom.Keys)
    ensures Sequential(Render(t), vars, order) == Fill(t, Env(vars))
  {
    hide ReplaceAll, Render, Clear, Independent;
    BuiltinsFill(t, vars);
    CustomLoopFills(Put(t, BuiltinValues(vars)), vars, order, vars.custom);
  }

  /** Rewriting keys a template does not mention leaves it alone. */
  lemma {:induction false} RewriteUnmentioned(t: seq<Piece>, keys: seq<string>, value: map<string, string>)
    requires WellFormed(t) && forall k :: k in keys ==> k in value && SimpleKey(k) && !Mentions(t, k)
    ensures Rewrite(Render(t), keys, value) == Render(t)
    decreases |keys|
  {
    if keys != [] {
      var k := keys[0];
      WellFormedIsClear(t, k);
      ReplaceIsPut(t, k, value[k]);
      assert Put(t, map[k := value[k]]) == t;
      RewriteUnmentioned(t, keys[1..], value);
    }
  }

  lemma LastTwo(a: string, b: string, more: string, vars: Vars, others: seq<string>)
    requires SimpleVars(vars) && a in vars.custom && b in vars.custom && a != b && a !in BUILTINS
    requires '$' !in more && IsOrder(others, vars.custom.Keys - {a, b})
    ensures forall k :: k in others + [a, b] ==> k in vars.custom
    ensures Sequential(Render([Hole(a), Txt(more)]), vars, others + [a, b]) ==
            ReplaceAll(vars.custom[a] + more, Placeholder(b), vars.custom[b])
  {
    hide ReplaceAll, Clear, TextsClear, Render, Rewrite;
    var t, custom := [Hole(a), Txt(more)], vars.custom;
    BuiltinsAreSimple(vars);
    RewriteUnmentioned(t, BUILTINS, BuiltinValues(vars));
    RewriteUnmentioned(t, others, custom);
    RewriteAppend(Render(t), others, [a, b], custom);
    RewriteAppend(Render(t), [a], [b], custom);
    assert [a] + [b] == [a, b];
    RewriteOne(Render(t), a, custom);
    WellFormedIsClear(t, a);
    ReplaceIsPut(t, a, custom[a]);
    FillHole(a, more, map[a := custom[a]]);
    RewriteOne(custom[a] + more, b, custom);
  }

  /** Visited the other way round, b is gone before a's value comes in. */
  lemma LastTwoSwapped(a: string, b: string, more: string, vars: Vars, others: seq<string>)
    requires SimpleVars(vars) && a in vars.custom && b in vars.custom && a != b && a !in BUILTINS
    requires '$' !in more && IsOrder(others, vars.custom.Keys - {a, b})
    ensures forall k :: k in others + [b, a] ==> k in vars.custom
    ensures Sequential(Render([Hole(a), Txt(more)]), vars, others + [b, a]) == vars.custom[a] + more
  {
    hide ReplaceAll, Clear, TextsClear, Render, Rewrite;
    var t, custom := [Hole(a), Txt(more)], vars.custom;
    BuiltinsAreSimple(vars);
    RewriteUnmentioned(t, BUILTINS, BuiltinValues(vars));
    RewriteUnmentioned(t, others + [b], custom);
    assert others + [b] + [a] == others + [b, a];
    RewriteAppend(Render(t), others + [b], [a], custom);
    RewriteOne(Render(t), a, custom);
    WellFormedIsClear(t, a);
    ReplaceIsPut(t, a, custom[a]);
    FillHole(a, more, map[a := custom[a]]);
  }

  /** If some value can complete another key's placeholder, a two-piece
      template has different results in two orders, one of them the
      simultaneous one. */
  lemma DependenceShows(vars: Vars, a: string, b: string)
    returns (t: seq<Piece>, first: seq<string>, second: seq<string>)
    requires SimpleVars(vars) && a in vars.custom && b in vars.custom && a != b && a !in BUILTINS
    requires vars.custom[b] != Placeholder(b) && !Clear(vars.custom[a], Placeholder(b))
    ensures WellFormed(t) && IsOrder(first, vars.custom.Keys) && IsOrder(second, vars.custom.Keys)
    ensures Sequential(Render(t), vars, first) != Sequential(Render(t), vars, second) == Fill(t, Env(vars))
  {
    hide ReplaceAll, Render, Sequential;
    var more := Completion(vars.custom[a], Placeholder(b));
    assert '$' !in Placeholder(b)[1..];
    var others := SetToOrder(vars.custom.Keys - {a, b});
    t, first, second := [Hole(a), Txt(more)], others + [a, b], others + [b, a];
    LastTwo(a, b, more, vars, others);
    LastTwoSwapped(a, b, more, vars, others);
    OrderWithLast(others, a, b, vars.custom.Keys);
    assert {b, a} == {a, b};
    OrderWithLast(others, b, a, vars.custom.Keys);
    FillHole(a, more, Env(vars));
    ReplaceChanges(vars.custom[a] + more, Placeholder(b), vars.custom[b]);
  }

  /** Whatever order the map loop takes, the sequential rewriter is
      simultaneous substitution on every template: exactly when the custom
      values are independent. */
  lemma OrderIndependentExactly(vars: Vars)
    requires SimpleVars(vars)
    ensures (forall t, order :: WellFormed(t) && IsOrder(order, vars.custom.Keys) ==>
               Sequential(Render(t), vars, order) == Fill(t, Env(vars)))
            <==> Independent(vars)
    ensures (forall t, o1, o2 :: WellFormed(t) && IsOrder(o1, vars.custom.Keys) && IsOrder(o2, vars.custom.Keys) ==>
               Sequential(Render(t), vars, o1) == Sequential(Render(t), vars, o2))
            <==> Independent(vars)
  {
    hide Sequential, Render, Clear;
    if Independent(vars) {
      forall t, order | WellFormed(t) && IsOrder(order, vars.custom.Keys)
        ensures Sequential(Render(t), vars, order) == Fill(t, Env(vars))
      {
        SequentialIsFill(t, vars, order);
      }
    } else {
      var a, b :| a in vars.custom && b in vars.custom && a != b && a !in BUILTINS
                  && vars.custom[b] != Placeholder(b) && !Clear(vars.custom[a], Placeholder(b));
      var t, first, second := DependenceShows(vars, a, b);
    }
  }

  /** Independent values leave one possible result, whatever the loop order. */
  lemma OutcomeDecided(t: seq<Piece>, vars: Vars, r: string)
    requires WellFormed(t) && SimpleVars(vars) && Independent(vars)
    ensures Outcome(Render(t), vars, r) <==> r == Fill(t, Env(vars))
  {
    var some := SetToOrder(vars.custom.Keys);
    SequentialIsFill(t, vars, some);
    if Outcome(Render(t), vars, r) {
      var order :| IsOrder(order, vars.custom.Keys) && r == Sequential(Render(t), vars, order);
      SequentialIsFill(t, vars, order);
    }
  }

  lemma DollarFreeIndependent(vars: Vars)
    requires DollarFreeValues(vars)
    ensures Independent(vars)
  {
    forall a, b | a in vars.custom && b in vars.custom ensures Clear(vars.custom[a], Placeholder(b)) {
      FreeIsClear(vars.custom[a], Placeholder(b));
    }
  }

  /** A template contains a simple key's placeholder only as a hole. */
  lemma OnlyHolesOccur(t: seq<Piece>, k: string)
    requires WellFormed(t) && SimpleKey(k) && !Mentions(t, k)
    ensures !Occurs(Placeholder(k), Render(t))
  {
    RewriteUnmentioned(t, [k], map[k := ""]);
    RewriteOne(Render(t), k, map[k := ""]);
    if Occurs(Placeholder(k), Render(t)) {
      ReplaceChanges(Render(t), Placeholder(k), "");
    }
  }

  /** No defined placeholder survives, and substituting again changes nothing. */
  lemma SubstitutionSettles(t: seq<Piece>, vars: Vars, once: string, twice: string)
    requires WellFormed(t) && SimpleVars(vars) && DollarFreeValues(vars)
    requires Outcome(Render(t), vars, once) && Outcome(once, vars, twice)
    ensures forall k :: k in Env(vars) ==> !Occurs(Placeholder(k), once)
    ensures twice == once
  {
    hide ReplaceAll, Render, Clear, Occurs, Independent, Outcome;
    var env := Env(vars);
    DollarFreeIndependent(vars);
    BuiltinsAreSimple(vars);
    OutcomeDecided(t, vars, once);
    var t' := Put(t, env);
    assert WellFormed(t');
    OutcomeDecided(t', vars, twice);
    assert Put(t', env) == t';
    forall k | k in env ensures !Occurs(Placeholder(k), once) {
      OnlyHolesOccur(t', k);
    }
  }

  /** The built-in values win over custom ones of the same name. */
  lemma BuiltinsWin(vars: Vars, order: seq<string>)
    requires SimpleVars(vars) && IsOrder(order, vars.custom.Keys)
    ensures Sequential("${server_ip}", vars, order) == vars.serverIP
    ensures Sequential("${http_port}", vars, order) == Decimal(vars.httpPort)
    ensures Sequential("${mac}", vars, order) == vars.mac
  {
    hide Sequential, Render, Decimal;
    assert Placeholder("server_ip") == "${server_ip}";
    assert Placeholder("http_port") == "${http_port}";
    assert Placeholder("mac") == "${mac}";
    LoneHole("server_ip", vars, order);
    LoneHole("http_port", vars, order);
    LoneHole("mac", vars, order);
  }

  lemma LoneHole(k: string, vars: Vars, order: seq<string>)
    requires SimpleVars(vars) && IsOrder(order, vars.custom.Keys) && k in BUILTINS
    ensures Sequential(Placeholder(k), vars, order) == BuiltinValues(vars)[k]
  {
    hide ReplaceAll, Decimal;
    var t := [Hole(k)];
    BuiltinsAreSimple(vars);
    BuiltinsFill(t, vars);
    var v := BuiltinValues(vars)[k];
    assert Put(t, BuiltinValues(vars)) == [Txt(v)];
    assert t[1..] == [] && [Txt(v)][1..] == [];
    assert Render(t) == Placeholder(k) && Render([Txt(v)]) == v;
    RewriteUnmentioned([Txt(v)], order, vars.custom);
  }

  // ---------------------------------------------------------------- nested placeholders

  lemma {:induction false} OpenBraceRewrite(t: seq<Piece>, keys: seq<string>, value: map<string, string>)
    requires WellFormed(t) && t != [] && t[0].Hole?
    requires forall k :: k in keys ==> k in value && SimpleKey(k) && !Mentions(t, k)
    ensures Rewrite("${" + Render(t), keys, value) == "${" + Render(t)
    decreases |keys|
  {
    if keys != [] {
      OpenBraceSkips(Render(t), keys[0], value[keys[0]]);
      RewriteUnmentioned(t, keys[..1], value);
      RewriteOne(Render(t), keys[0], value);
      OpenBraceRewrite(t, keys[1..], value);
    }
  }

  /** Outside the template grammar the order shows even with dollar-free
      values: ${${a}} with a = b and b = x gives x or ${b}. */
  lemma NestedPlaceholdersDepend(vars: Vars, a: string, b: string, x: string)
    requires SimpleVars(vars) && vars.custom == map[a := b, b := x] && a != b
    requires a !in BUILTINS && b !in BUILTINS
    ensures Outcome("${" + Placeholder(a) + "}", vars, x)
    ensures Outcome("${" + Placeholder(a) + "}", vars, Placeholder(b))
  {
    hide ReplaceAll, Render, Rewrite;
    var t := [Hole(a), Txt("}")];
    RenderTwo(Hole(a), "}");
    assert "${" + Render(t) == "${" + Placeholder(a) + "}";
    BuiltinsAreSimple(vars);
    OpenBraceRewrite(t, BUILTINS, BuiltinValues(vars));
    NestedOrders(t, vars.custom, a, b, x);
    assert IsOrder([a, b], vars.custom.Keys) && IsOrder([b, a], vars.custom.Keys);
  }

  lemma NestedOrders(t: seq<Piece>, custom: map<string, string>, a: string, b: string, x: string)
    requires t == [Hole(a), Txt("}")] && SimpleKey(a) && SimpleKey(b) && a != b && custom == map[a := b, b := x]
    ensures Rewrite("${" + Render(t), [a, b], custom) == x
    ensures Rewrite("${" + Render(t), [b, a], custom) == Placeholder(b)
  {
    hide Render, Clear;
    var s := "${" + Render(t);
    NestedStep(a, b);
    RewriteOne(s, a, custom);
    assert [a, b] == [a] + [b] && [b, a] == [b] + [a];
    RewriteAppend(s, [a], [b], custom);
    RewriteOne(Placeholder(b), b, custom);
    ReplaceHits("", Placeholder(b), x);
    assert Placeholder(b) + "" == Placeholder(b) && x + "" == x;
    OpenBraceRewrite(t, [b], custom);
    RewriteAppend(s, [b], [a], custom);
  }

  lemma NestedStep(a: string, b: string)
    requires SimpleKey(a)
    ensures ReplaceAll("${" + Render([Hole(a), Txt("}")]), Placeholder(a), b) == Placeholder(b)
  {
    var t := [Hole(a), Txt("}")];
    RenderTwo(Hole(a), "}");
    OpenBraceSkips(Render(t), a, b);
    WellFormedIsClear(t, a);
    ReplaceIsPut(t, a, b);
    FillHole(a, "}", map[a := b]);
    assert "${" + (b + "}") == Placeholder(b);
  }

  // ---------------------------------------------------------------- the two routes to the menu

  /** The URL the DHCP proxy sends to a client that already runs iPXE. */
  method ResolveChainURL(template: string, serverIP: string, httpPort: int, mac: string) returns (url: string)
    ensures url == ChainURL(template, serverIP, httpPort, mac)
  {
    url := template;
    url := ReplaceAll(url, "${server_ip}", serverIP);
    url := ReplaceAll(url, "${http_port}", Decimal(httpPort));
    url := ReplaceAll(url, "${mac}", mac);
    BuiltinsSpelled(template, BuiltinValues(Vars(serverIP, httpPort, mac, map[])));
  }

  /** The autoexec.ipxe the TFTP server makes up; it does not know the MAC and
      leaves iPXE's own setting in its place. */
  method ServeAutoexec(template: string, serverIP: string, httpPort: int) returns (script: string)
    ensures script == "#!ipxe\nchain --autofree " + ChainURL(template, serverIP, httpPort, "${net0/mac}") + "\n"
  {
    var url := template;
    url := ReplaceAll(url, "${server_ip}", serverIP);
    url := ReplaceAll(url, "${http_port}", Decimal(httpPort));
    url := ReplaceAll(url, "${mac}", "${net0/mac}");
    BuiltinsSpelled(template, BuiltinValues(Vars(serverIP, httpPort, Placeholder(NET0), map[])));
    assert Placeholder(NET0) == "${net0/mac}";
    script := "#!ipxe\nchain --autofree " + url + "\n";
  }

  /** Both routes lead a client to the same URL, once iPXE has put its MAC in the
      place of its setting. */
  lemma RoutesAgree(t: seq<Piece>, serverIP: string, httpPort: int, mac: string)
    requires WellFormed(t) && '$' !in serverIP && '$' !in mac
    ensures ReplaceAll(ChainURL(Render(t), serverIP, httpPort, mac), "${net0/mac}", mac)
            == ReplaceAll(ChainURL(Render(t), serverIP, httpPort, "${net0/mac}"), "${net0/mac}", mac)
            == Fill(t, BuiltinValues(Vars(serverIP, httpPort, mac, map[]))[NET0 := mac])
  {
    hide ReplaceAll, Render, Clear, ChainURL, Decimal;
    assert Placeholder(NET0) == "${net0/mac}";
    var one := map["server_ip" := serverIP, "http_port" := Decimal(httpPort)];
    var t2 := Put(t, one);
    assert WellFormed(t2) by { AddressStaysWellFormed(t, serverIP, httpPort); }
    LastBuiltin(t, serverIP, httpPort, mac);
    LastBuiltin(t, serverIP, httpPort, Placeholder(NET0));
    hide WellFormed;
    RenamedExpands(t2, "mac", NET0, mac);
    PutTwice(t, one, map["mac" := mac, NET0 := mac]);
    RouteEnv(serverIP, httpPort, mac);
  }

  lemma AddressStaysWellFormed(t: seq<Piece>, serverIP: string, httpPort: int)
    requires WellFormed(t) && '$' !in serverIP
    ensures WellFormed(Put(t, map["server_ip" := serverIP, "http_port" := Decimal(httpPort)]))
  {
    hide Decimal;
    BuiltinsAreSimple(Vars(serverIP, httpPort, "", map[]));
    assert Decimal(httpPort) == BuiltinValues(Vars(serverIP, httpPort, "", map[]))["http_port"];
    assert "http_port" in BUILTINS;
  }

  /** Leaving one placeholder for another and filling that later is the same
      as filling both. */
  lemma RenamedExpands(t: seq<Piece>, k: string, n: string, v: string)
    requires WellFormed(t) && '$' !in v && SimpleKey(n) && k != n
    ensures ReplaceAll(Render(Put(t, map[k := v])), Placeholder(n), v) == Fill(t, map[k := v, n := v])
    ensures ReplaceAll(Render(Put(t, map[k := Placeholder(n)])), Placeholder(n), v) == Fill(t, map[k := v, n := v])
  {
    hide ReplaceAll, Render, Clear;
    PutTwice(t, map[k := v], map[n := v]);
    assert map[n := v] + map[k := v] == map[k := v, n := v];
    ExpandsTo(t, Put(t, map[k := v]), n, v);
    RenderSpelled(Put(t, map[k := Placeholder(n)]), Rename(t, k, n));
    ExpandsTo(t, Rename(t, k, n), n, v);
    assert Put(Rename(t, k, n), map[n := v]) == Put(t, map[k := v, n := v]);
  }

  lemma ExpandsTo(t: seq<Piece>, u: seq<Piece>, n: string, v: string)
    requires WellFormed(t) && '$' !in v && SimpleKey(n) && |u| == |t|
    requires forall i :: 0 <= i < |t| ==> u[i] == t[i] || u[i] == Hole(n) || u[i] == Txt(v)
    ensures ReplaceAll(Render(u), Placeholder(n), v) == Fill(u, map[n := v])
  {
    forall p | p in u ensures p in t || p == Hole(n) || p == Txt(v) {
      var i :| 0 <= i < |u| && u[i] == p;
      assert t[i] in t;
    }
    WellFormedIsClear(u, n);
    ReplaceIsPut(u, n, v);
  }

  lemma LastBuiltin(t: seq<Piece>, serverIP: string, httpPort: int, m: string)
    requires WellFormed(t) && '$' !in serverIP
    ensures ChainURL(Render(t), serverIP, httpPort, m) ==
            Render(Put(Put(t, map["server_ip" := serverIP, "http_port" := Decimal(httpPort)]), map["mac" := m]))
  {
    hide ReplaceAll, Render, Clear, TextsClear;
    var value := BuiltinValues(Vars(serverIP, httpPort, m, map[]));
    var two := ["server_ip", "http_port"];
    BuiltinsAreSimple(Vars(serverIP, httpPort, "", map[]));
    assert BUILTINS == two + ["mac"];
    RewriteAppend(Render(t), two, ["mac"], value);
    assert value["server_ip"] == serverIP
        && value["http_port"] == BuiltinValues(Vars(serverIP, httpPort, "", map[]))["http_port"];
    assert "server_ip" in BUILTINS && "http_port" in BUILTINS && "mac" in BUILTINS;
    DollarFreeRewrite(t, two, value);
    assert Restrict(value, two) == map["server_ip" := serverIP, "http_port" := Decimal(httpPort)];
    var t2 := Put(t, Restrict(value, two));
    RewriteOne(Render(t2), "mac", value);
    WellFormedIsClear(t2, "mac");
    ReplaceIsPut(t2, "mac", m);
  }
}
