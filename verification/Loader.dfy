/** Merging the parsed files of a configuration directory. */
module Loader {
  import opened Text
  import opened Domain
  import opened Mac
  import opened MergeRules

  // ---------------------------------------------------------------- what the files say together

  lemma ExplainedIsRefused(files: seq<FileResult>, e: MergeError)
    requires Explains(files, e)
    ensures !Mergeable(files)
  {
    var menus, clients := Flat(files, MenusOf), Flat(files, ClientsOf);
    match e
    case DuplicateMenu(n, _, _) =>
      var i, j :| 0 <= i < j < |menus| && menus[i].name == menus[j].name == n;
      assert NameOf(menus[i]) == NameOf(menus[j]);
    case DuplicateMAC(m, _, _) =>
      var i, j :| 0 <= i < j < |clients| && clients[i].mac == clients[j].mac;
      assert MacOf(clients[i]) == MacOf(clients[j]);
    case ManyWildcards(_, _) =>
      var i, j :| 0 <= i < j < |clients| && clients[i].IsWildcard() && clients[j].IsWildcard();
      assert MacOf(clients[i]) == MacOf(clients[j]);
    case _ =>
  }

  // ---------------------------------------------------------------- did you mean

  method Contains(s: string, p: string) returns (found: bool)
    ensures found <==> Occurs(p, s)
  {
    for i := 0 to |s| + 1
      invariant forall k :: 0 <= k < i ==> !(p <= s[k..])
    {
      if p <= s[i..] {
        return true;
      }
    }
    found := false;
  }

  /** A best match among the known names, or "" if none reaches three points. */
  method FindSimilar(target: string, available: set<string>) returns (best: string)
    ensures (best == "" && forall n :: n in available ==> Score(target, n) < 3)
            || (best in available && Score(target, best) >= 3
                && forall n :: n in available ==> Score(target, n) <= Score(target, best))
  {
    var lowTarget := Lower(target);
    best := "";
    var bestScore := 0;
    var todo := available;
    while todo != {}
      invariant todo <= available
      invariant bestScore == 0 ==> best == "" && forall n :: n in available - todo ==> Score(target, n) < 3
      invariant bestScore > 0 ==> bestScore >= 3 && best in available && Score(target, best) == bestScore
                                  && forall n :: n in available - todo ==> Score(target, n) <= bestScore
    {
      var name :| name in todo;
      var lower := Lower(name);
      var score := 0;
      while score < |lowTarget| && score < |lower| && lowTarget[score] == lower[score]
        invariant score <= |lowTarget| && score <= |lower| && lowTarget[..score] == lower[..score]
      {
        score := score + 1;
      }
      PrefixCounts(lowTarget, lower, score);
      var inside := Contains(lower, lowTarget);
      var around := Contains(lowTarget, lower);
      if inside || around {
        score := score + 3;
      }
      assert score == Score(target, name);
      if score > bestScore && score >= 3 {
        bestScore := score;
        best := name;
      }
      todo := todo - {name};
    }
  }

  // ---------------------------------------------------------------- merge

  /** The inner loop over one file's menus. */
  method MergeMenus(ghost files: seq<FileResult>, ghost i: nat, r: FileResult, before: seq<MenuEntry>,
                    seenBefore: map<string, string>)
    returns (err: Option<MergeError>, menus: seq<MenuEntry>, seen: map<string, string>)
    requires i < |files| && r == files[i] && before == Flat(files[..i], MenusOf)
    requires seenBefore.Keys == Names(before) && DistinctBy(before, NameOf)
    ensures err.Some? ==> Explains(files, err.value)
    ensures err.None? ==>
              menus == Flat(files[..i + 1], MenusOf) && seen.Keys == Names(menus) && DistinctBy(menus, NameOf)
  {
    menus, seen := before, seenBefore;
    for j := 0 to |r.menus|
      invariant menus == before + r.menus[..j] && seen.Keys == Names(menus) && DistinctBy(menus, NameOf)
    {
      var m := r.menus[j];
      PartPrefix(files, i, j + 1, MenusOf);
      assert before + r.menus[..j + 1] == menus + [m];
      if m.name in seen {
        ghost var all := Flat(files, MenusOf);
        var k :| 0 <= k < |menus| && menus[k].name == m.name;
        assert all[k] == menus[k] && all[|menus|] == m;
        return Some(DuplicateMenu(m.name, seen[m.name], r.filename)), menus, seen;
      }
      seen := seen[m.name := r.filename];
      menus := menus + [m];
    }
    err := None;
    FlatStep(files, i, MenusOf);
  }

  /** The inner loop over one file's clients. */
  method MergeClients(ghost files: seq<FileResult>, ghost i: nat, r: FileResult, before: seq<Client>,
                      seenBefore: map<string, string>, countBefore: nat, sourceBefore: string)
    returns (err: Option<MergeError>, clients: seq<Client>, seen: map<string, string>, count: nat, source: string)
    requires i < |files| && r == files[i] && before == Flat(files[..i], ClientsOf)
    requires seenBefore.Keys == SeenMACs(before) && countBefore == WildcardCount(before) <= 1
    requires DistinctBy(before, MacOf)
    ensures err.Some? ==> Explains(files, err.value)
    ensures err.None? ==> clients == Flat(files[..i + 1], ClientsOf) && seen.Keys == SeenMACs(clients)
                          && count == WildcardCount(clients) <= 1 && DistinctBy(clients, MacOf)
  {
    hide Explains, SeenMACs, WildcardCount, DistinctBy, MacString;
    clients, seen, count, source := before, seenBefore, countBefore, sourceBefore;
    for j := 0 to |r.clients|
      invariant clients == before + r.clients[..j] && seen.Keys == SeenMACs(clients)
      invariant count == WildcardCount(clients) <= 1 && DistinctBy(clients, MacOf)
    {
      var c := r.clients[j];
      PartPrefix(files, i, j + 1, ClientsOf);
      assert before + r.clients[..j + 1] == clients + [c];
      OneMoreClient(clients, c);
      var macKey := MacString(c.mac);
      if c.IsWildcard() {
        count := count + 1;
        if count > 1 {
          SecondWildcard(files, clients, c, source, r.filename);
          return Some(ManyWildcards(source, r.filename)), clients, seen, count, source;
        }
        source := r.filename;
      } else {
        if macKey in seen {
          SecondMAC(files, clients, c, seen[macKey], r.filename);
          return Some(DuplicateMAC(macKey, seen[macKey], r.filename)), clients, seen, count, source;
        }
        seen := seen[macKey := r.filename];
      }
      NewMAC(clients, c);
      clients := clients + [c];
    }
    err := None;
    FlatStep(files, i, ClientsOf);
  }

  method CheckReferences(menus: seq<MenuEntry>, clients: seq<Client>, seenMenus: map<string, string>)
    returns (err: Option<MergeError>)
    requires seenMenus.Keys == Names(menus)
    ensures err.None? ==> Refers(menus, clients)
    ensures err.Some? ==>
              err.value.UnknownEntry? && err.value.client in clients && err.value.entry in err.value.client.menu.entries
                          && !Named(menus, err.value.entry)
  {
    for i := 0 to |clients|
      invariant forall k, e :: 0 <= k < i && e in clients[k].menu.entries ==> Named(menus, e)
    {
      var c := clients[i];
      for j := 0 to |c.menu.entries|
        invariant forall k :: 0 <= k < j ==> Named(menus, c.menu.entries[k])
      {
        var name := c.menu.entries[j];
        if name !in seenMenus {
          var suggestion := FindSimilar(name, seenMenus.Keys);
          assert !Named(menus, name) by {
            assert forall m :: m in menus ==> m.name in Names(menus);
          }
          return Some(UnknownEntry(c, name, suggestion));
        }
        assert name in Names(menus);
      }
    }
    err := None;
  }

  method Merge(results: seq<FileResult>) returns (r: Result<FullConfig, MergeError>)
    ensures r.Ok? ==> Mergeable(results) && r.value == Merged(results)
    ensures r.Err? ==> Explains(results, r.error)
  {
    hide Mergeable, Explains, Flat, LastGiven, ServerSource, DistinctBy, Refers, Named, Names, SeenMACs, WildcardCount;
    var cfg := EMPTY_CONFIG;
    var serverSource := "";
    var seenMACs: map<string, string> := map[];
    var seenMenus: map<string, string> := map[];
    var wildcardCount, wildcardSource := 0, "";
    Nothing(results);
    for i := 0 to |results|
      invariant cfg == Merged(results[..i]) && ServerSource(results[..i]) == From(serverSource)
      invariant seenMenus.Keys == Names(cfg.menus) && DistinctBy(cfg.menus, NameOf)
      invariant seenMACs.Keys == SeenMACs(cfg.clients) && wildcardCount == WildcardCount(cfg.clients) <= 1
      invariant DistinctBy(cfg.clients, MacOf)
    {
      var f := results[i];
      SourceStep(results, i);
      if f.server.Some? {
        if serverSource != "" {
          ClashExplains(results, i + 1, serverSource, f.filename);
          return Err(ServerTwice(serverSource, f.filename));
        }
        cfg := cfg.(server := f.server.value);
        serverSource := f.filename;
      }
      if f.dhcpProxy.Some? { cfg := cfg.(dhcpProxy := f.dhcpProxy.value); }
      if f.tftp.Some? { cfg := cfg.(tftp := f.tftp.value); }
      if f.http.Some? { cfg := cfg.(http := f.http.value); }
      if f.health.Some? { cfg := cfg.(health := f.health.value); }
      if f.bootloader.Some? { cfg := cfg.(bootloader := f.bootloader.value); }
      var err, menus, seen := MergeMenus(results, i, f, cfg.menus, seenMenus);
      if err.Some? { return Err(err.value); }
      var err2, clients, seenC, count, source :=
        MergeClients(results, i, f, cfg.clients, seenMACs, wildcardCount, wildcardSource);
      if err2.Some? { return Err(err2.value); }
      cfg := cfg.(menus := menus, clients := clients);
      seenMenus, seenMACs, wildcardCount, wildcardSource := seen, seenC, count, source;
      MergedStep(results, i);
    }
    assert results[..|results|] == results;
    if serverSource == "" {
      NoServerExplains(results);
      return Err(NoServer);
    }
    var err := CheckReferences(cfg.menus, cfg.clients, seenMenus);
    if err.Some? {
      UnknownExplains(results, err.value);
      return Err(err.value);
    }
    Accepted(results);
    r := Ok(cfg);
  }

  // ---------------------------------------------------------------- what is similar

  /** A name is worth suggesting exactly when, upper and lower case aside, it
      starts with the same three letters, or one name is part of the other; a name
      that is the same but for its case scores highest. */
  lemma SimilarExactly(target: string, name: string)
    ensures var t, n := Lower(target), Lower(name);
            && (Score(target, name) >= 3 <==>
                (|t| >= 3 && |n| >= 3 && t[..3] == n[..3]) || Occurs(t, n) || Occurs(n, t))
            && Score(target, name) <= |target| + 3 && (t == n ==> Score(target, name) == |target| + 3)
  {
    var t, n := Lower(target), Lower(name);
    ThreeInCommon(t, n, 3);
    ThreeInCommon(t, n, CommonPrefix(t, n));
    if t == n {
      ThreeInCommon(t, n, |t|);
      assert t <= n[0..];
    }
  }
}
