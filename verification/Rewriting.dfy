/** Placeholders, the loop that rewrites them one key after the other, and
    templates as pieces of text and holes: what a single replacement does to a
    rendered template, where placeholders can occur at all, and how visiting
    orders of a map are put together. */
module Rewriting {
  import opened Text

  datatype Vars = Vars(serverIP: string, httpPort: int, mac: string, custom: map<string, string>)

  function Placeholder(key: string): (p: string)
    ensures |p| == |key| + 3
  {
    "${" + key + "}"
  }

  // ---------------------------------------------------------------- the rewriter

  /** One ReplaceAll per key, in order. */
  function Rewrite(s: string, keys: seq<string>, value: map<string, string>): string
    requires forall k :: k in keys ==> k in value
    decreases |keys|
  {
    if keys == [] then s
    else Rewrite(ReplaceAll(s, Placeholder(keys[0]), value[keys[0]]), keys[1..], value)
  }

  const BUILTINS: seq<string> := ["server_ip", "http_port", "mac"]

  function BuiltinValues(vars: Vars): (m: map<string, string>)
    ensures forall k :: k in m <==> k in BUILTINS
  {
    map["server_ip" := vars.serverIP, "http_port" := Decimal(vars.httpPort), "mac" := vars.mac]
  }

  /** An order in which a loop over a Go map may visit these keys. */
  ghost predicate IsOrder(order: seq<string>, keys: set<string>) {
    && (forall k :: k in order <==> k in keys)
    && (forall i, j :: 0 <= i < j < |order| ==> order[i] != order[j])
  }

  /** What substituteVars computes when its map loop runs in this order. */
  function Sequential(s: string, vars: Vars, order: seq<string>): string
    requires forall k :: k in order ==> k in vars.custom
  {
    Rewrite(Rewrite(s, BUILTINS, BuiltinValues(vars)), order, vars.custom)
  }

  /** r is a result substituteVars may return: Go leaves the loop order open. */
  ghost predicate Outcome(s: string, vars: Vars, r: string) {
    exists order :: IsOrder(order, vars.custom.Keys) && r == Sequential(s, vars, order)
  }

  lemma {:induction false} RewriteAppend(s: string, a: seq<string>, b: seq<string>, value: map<string, string>)
    requires forall x :: x in a || x in b ==> x in value
    ensures Rewrite(s, a + b, value) == Rewrite(Rewrite(s, a, value), b, value)
    decreases |a|
  {
    if a == [] {
      assert a + b == b;
    } else {
      assert (a + b)[1..] == a[1..] + b;
      RewriteAppend(ReplaceAll(s, Placeholder(a[0]), value[a[0]]), a[1..], b, value);
    }
  }

  lemma RewriteOne(s: string, k: string, value: map<string, string>)
    requires k in value
    ensures Rewrite(s, [k], value) == ReplaceAll(s, Placeholder(k), value[k])
  {
    assert [k][1..] == [];
  }

  lemma RewriteThree(s: string, a: string, b: string, c: string, value: map<string, string>)
    requires a in value && b in value && c in value
    ensures Rewrite(s, [a, b, c], value) ==
            ReplaceAll(ReplaceAll(ReplaceAll(s, Placeholder(a), value[a]), Placeholder(b), value[b]), Placeholder(c),
                       value[c])
  {
    assert [a, b, c][1..] == [b, c] && [b, c][1..] == [c];
    RewriteOne(ReplaceAll(ReplaceAll(s, Placeholder(a), value[a]), Placeholder(b), value[b]), c, value);
  }

  lemma BuiltinsSpelled(s: string, value: map<string, string>)
    requires "server_ip" in value && "http_port" in value && "mac" in value
    ensures Rewrite(s, BUILTINS, value) ==
            ReplaceAll(ReplaceAll(ReplaceAll(s, "${server_ip}", value["server_ip"]),
                                  "${http_port}", value["http_port"]), "${mac}", value["mac"])
  {
    assert Placeholder("server_ip") == "${server_ip}";
    assert Placeholder("http_port") == "${http_port}";
    assert Placeholder("mac") == "${mac}";
    RewriteThree(s, "server_ip", "http_port", "mac", value);
  }

  // ---------------------------------------------------------------- templates

  datatype Piece = Txt(text: string) | Hole(name: string)

  function Render(t: seq<Piece>): string {
    if t == [] then ""
    else (match t[0] case Txt(s) => s case Hole(k) => Placeholder(k)) + Render(t[1..])
  }

  predicate SimpleKey(k: string) { '$' !in k && '}' !in k }

  predicate SimpleHoles(t: seq<Piece>) {
    forall p :: p in t && p.Hole? ==> SimpleKey(p.name)
  }

  /** Dollar-free text and placeholders with simple names. */
  predicate WellFormed(t: seq<Piece>) {
    SimpleHoles(t) && forall p :: p in t && p.Txt? ==> '$' !in p.text
  }

  /** Put an environment's values in its holes; the other pieces stay. */
  function Put(t: seq<Piece>, env: map<string, string>): (r: seq<Piece>)
    ensures |r| == |t|
    ensures forall i :: 0 <= i < |t| ==>
              r[i] == if t[i].Hole? && t[i].name in env then Txt(env[t[i].name]) else t[i]
  {
    seq(|t|, i requires 0 <= i < |t| => if t[i].Hole? && t[i].name in env then Txt(env[t[i].name]) else t[i])
  }

  /** Simultaneous substitution: every placeholder the environment defines is
      replaced once, and what is put in is never looked at again. */
  function Fill(t: seq<Piece>, env: map<string, string>): string {
    Render(Put(t, env))
  }

  /** server_ip, http_port and mac win over custom keys of the same name. */
  function Env(vars: Vars): map<string, string> {
    vars.custom + BuiltinValues(vars)
  }

  lemma PutTwice(t: seq<Piece>, one: map<string, string>, two: map<string, string>)
    ensures Put(Put(t, one), two) == Put(t, two + one)
  {
  }

  /** Two placeholders with simple names never overlap unless they are equal. */
  lemma PlaceholdersClear(a: string, b: string)
    requires SimpleKey(a) && SimpleKey(b) && a != b
    ensures Clear(Placeholder(a), Placeholder(b))
  {
    var pa, pb := Placeholder(a), Placeholder(b);
    forall i | 0 <= i < |pa| ensures !(pb <= pa[i..]) && !(pa[i..] <= pb) {
      if i > 0 {
        assert pa[i..][0] == pa[i] != '$';
      } else {
        assert pa[0..] == pa;
        PlaceholderNoPrefix(a, b);
        PlaceholderNoPrefix(b, a);
      }
    }
  }

  lemma PlaceholderNoPrefix(a: string, b: string)
    requires SimpleKey(a) && SimpleKey(b) && a != b
    ensures !(Placeholder(a) <= Placeholder(b))
  {
    var pa, pb := Placeholder(a), Placeholder(b);
    if |a| < |b| {
      assert pa[|a| + 2] == '}' && pb[|a| + 2] == b[|a|];
    } else if |a| == |b| {
      assert pa[2..|a| + 2] == a && pb[2..|b| + 2] == b;
    }
  }

  predicate Mentions(t: seq<Piece>, k: string) { Hole(k) in t }

  ghost predicate TextsClear(t: seq<Piece>, k: string) {
    forall p :: p in t && p.Txt? ==> Clear(p.text, Placeholder(k))
  }

  lemma WellFormedIsClear(t: seq<Piece>, k: string)
    requires WellFormed(t)
    ensures TextsClear(t, k)
  {
    forall p | p in t && p.Txt? ensures Clear(p.text, Placeholder(k)) {
      FreeIsClear(p.text, Placeholder(k));
    }
  }

  function Restrict(value: map<string, string>, keys: seq<string>): map<string, string>
    requires forall k :: k in keys ==> k in value
  {
    map k | k in keys :: value[k]
  }

  // ---------------------------------------------------------------- when order does not matter

  predicate SimpleVars(vars: Vars) {
    && '$' !in vars.serverIP && '$' !in vars.mac
    && forall k :: k in vars.custom ==> SimpleKey(k)
  }

  /** No value that can be put in makes another custom key's placeholder
      appear, alone or together with the text after it. */
  ghost predicate Independent(vars: Vars) {
    forall a, b :: a in vars.custom && b in vars.custom && a != b && a !in BUILTINS ==>
      vars.custom[b] == Placeholder(b) || Clear(vars.custom[a], Placeholder(b))
  }

  lemma BuiltinsAreSimple(vars: Vars)
    requires SimpleVars(vars)
    ensures forall k :: k in BUILTINS ==> SimpleKey(k) && '$' !in BuiltinValues(vars)[k]
    ensures Restrict(BuiltinValues(vars), BUILTINS) == BuiltinValues(vars)
  {
    assert '$' !in DIGITS;
    assert '$' !in Decimal(vars.httpPort);
  }

  /** Text that the map loop, with these keys still to visit, may meet. */
  ghost predicate Visited(text: string, vars: Vars, todo: map<string, string>) {
    '$' !in text || exists a :: a in vars.custom && a !in todo && a !in BUILTINS && text == vars.custom[a]
  }

  lemma VisitedIsClear(t: seq<Piece>, vars: Vars, todo: map<string, string>, k: string)
    requires Independent(vars) && k in vars.custom && k in todo
    requires forall p :: p in t && p.Txt? ==> Visited(p.text, vars, todo)
    ensures vars.custom[k] == Placeholder(k) || TextsClear(t, k)
  {
    forall p | p in t && p.Txt? && vars.custom[k] != Placeholder(k) ensures Clear(p.text, Placeholder(k)) {
      if '$' !in p.text {
        FreeIsClear(p.text, Placeholder(k));
      }
    }
  }

  lemma VisitedStep(t: seq<Piece>, vars: Vars, todo: map<string, string>, k: string)
    requires k in vars.custom && k in todo
    requires forall p :: p in t && p.Txt? ==> Visited(p.text, vars, todo)
    requires forall p :: p in t && p.Hole? ==> p.name !in BUILTINS
    ensures forall p :: p in Put(t, map[k := vars.custom[k]]) && p.Txt? ==> Visited(p.text, vars, todo - {k})
  {
    var t' := Put(t, map[k := vars.custom[k]]);
    forall p | p in t' && p.Txt? ensures Visited(p.text, vars, todo - {k}) {
      var i :| 0 <= i < |t'| && t'[i] == p;
      assert t[i] in t;
      if t[i].Txt? {
        assert Visited(t[i].text, vars, todo);
      }
    }
  }

  lemma OrderTail(order: seq<string>, keys: set<string>)
    requires order != [] && IsOrder(order, keys)
    ensures order[0] in keys && IsOrder(order[1..], keys - {order[0]})
  {
    assert order == [order[0]] + order[1..];
  }

  lemma SetToOrder(keys: set<string>) returns (order: seq<string>)
    ensures IsOrder(order, keys)
  {
    order := [];
    var todo := keys;
    while todo != {}
      invariant todo <= keys && IsOrder(order, keys - todo)
    {
      var k :| k in todo;
      order := order + [k];
      todo := todo - {k};
    }
  }

  lemma RenderTwo(p: Piece, text: string)
    ensures Render([p, Txt(text)]) == (match p case Txt(s) => s case Hole(k) => Placeholder(k)) + text
  {
    assert [p, Txt(text)][1..] == [Txt(text)] && [Txt(text)][1..] == [];
    assert Render([Txt(text)]) == text + "";
  }

  lemma FillHole(k: string, more: string, env: map<string, string>)
    requires k in env
    ensures Fill([Hole(k), Txt(more)], env) == env[k] + more
  {
    assert Put([Hole(k), Txt(more)], env) == [Txt(env[k]), Txt(more)];
    RenderTwo(Txt(env[k]), more);
  }

  lemma OrderWithLast(others: seq<string>, a: string, b: string, keys: set<string>)
    requires a in keys && b in keys && a != b && IsOrder(others, keys - {a, b})
    ensures IsOrder(others + [a, b], keys)
  {
  }

  /** A key's value, if not clear of q, can be continued to contain q. */
  lemma Completion(va: string, q: string) returns (more: string)
    requires q != "" && !Clear(va, q)
    ensures Occurs(q, va + more) && forall c :: c in more ==> c in q[1..]
  {
    var i :| 0 <= i < |va| && (q <= va[i..] || va[i..] <= q);
    more := if q <= va[i..] then "" else q[|va| - i..];
    assert (va + more)[i..] == va[i..] + more;
    assert q <= (va + more)[i..];
  }

  predicate DollarFreeValues(vars: Vars) {
    forall k :: k in vars.custom ==> '$' !in vars.custom[k]
  }

  // ---------------------------------------------------------------- nested placeholders

  /** No placeholder with a simple name can start in front of another one. */
  lemma OpenBraceSkips(s: string, k: string, v: string)
    requires SimpleKey(k) && s != "" && s[0] == '$'
    ensures ReplaceAll("${" + s, Placeholder(k), v) == "${" + ReplaceAll(s, Placeholder(k), v)
  {
    var q, w := Placeholder(k), "${" + s;
    assert w[1..][1..] == s;
    assert w[2] == '$' && q[2] != '$';
    assert w[1..][0] == '{';
  }

  // ---------------------------------------------------------------- the two routes to the menu

  function ChainURL(template: string, serverIP: string, httpPort: int, mac: string): string {
    Rewrite(template, BUILTINS, BuiltinValues(Vars(serverIP, httpPort, mac, map[])))
  }

  const NET0 := "net0/mac"

  lemma RouteEnv(serverIP: string, httpPort: int, mac: string)
    ensures map["mac" := mac, NET0 := mac] + map["server_ip" := serverIP, "http_port" := Decimal(httpPort)]
            == BuiltinValues(Vars(serverIP, httpPort, mac, map[]))[NET0 := mac]
  {
  }

  function Rename(t: seq<Piece>, k: string, n: string): (r: seq<Piece>)
    ensures |r| == |t| && forall i :: 0 <= i < |t| ==> r[i] == if t[i] == Hole(k) then Hole(n) else t[i]
  {
    seq(|t|, i requires 0 <= i < |t| => if t[i] == Hole(k) then Hole(n) else t[i])
  }

  /** A text piece that spells a placeholder renders like the hole. */
  lemma {:induction false} RenderSpelled(a: seq<Piece>, b: seq<Piece>)
    requires |a| == |b|
    requires forall i :: 0 <= i < |a| ==> a[i] == b[i] || (b[i].Hole? && a[i] == Txt(Placeholder(b[i].name)))
    ensures Render(a) == Render(b)
  {
    if a != [] {
      RenderSpelled(a[1..], b[1..]);
    }
  }
}
