/** Fields without line breaks and bars give scripts whose commands stay on their
    lines: substitution keeps texts clean, a clean entry asks for clean actions
    only, and clean actions are compiled to commands that are read back as they
    were written. This is what the meaning of a generated text rests on. */
module CleanScripts {
  import opened Text
  import opened Domain
  import opened Rewriting
  import opened Script
  import opened MenuLayout
  import opened Generator

  // ---------------------------------------------------------------- text that cannot break a line

  predicate Clean(s: string) { '\n' !in s && '|' !in s }

  predicate CleanEntry(e: MenuEntry) {
    && Clean(e.name) && Clean(e.labelText) && Clean(e.http.path)
    && Clean(e.boot.kernel) && Clean(e.boot.initrd) && Clean(e.boot.cmdline) && Clean(e.boot.binary)
    && Clean(e.boot.image) && Clean(e.boot.chain) && (forall f :: f in e.boot.files ==> Clean(f))
  }

  predicate OneWord(s: string) { s != "" && ' ' !in s }

  predicate CleanVars(vars: Vars) {
    Clean(vars.serverIP) && Clean(vars.mac) && forall k :: k in vars.custom ==> Clean(vars.custom[k])
  }

  lemma {:induction false} RewriteFree(s: string, keys: seq<string>, value: map<string, string>, c: char)
    requires c !in s && forall k :: k in keys ==> k in value && c !in value[k]
    ensures c !in Rewrite(s, keys, value)
    decreases |keys|
  {
    if keys != [] {
      ReplaceKeepsFree(s, Placeholder(keys[0]), value[keys[0]], c);
      RewriteFree(ReplaceAll(s, Placeholder(keys[0]), value[keys[0]]), keys[1..], value, c);
    }
  }

  lemma DecimalPlain(n: int)
    ensures Clean(Decimal(n))
  {
    assert '\n' !in DIGITS && '|' !in DIGITS;
  }

  lemma OutcomeOrder(s: string, vars: Vars, r: string)
    requires Outcome(s, vars, r)
    ensures exists order :: (forall k :: k in order ==> k in vars.custom) && r == Sequential(s, vars, order)
  {
    hide Sequential;
  }

  lemma OutcomeClean(s: string, vars: Vars, r: string)
    requires Outcome(s, vars, r) && Clean(s) && CleanVars(vars)
    ensures Clean(r)
  {
    hide ReplaceAll, Rewrite, IsOrder;
    OutcomeOrder(s, vars, r);
    var order :| (forall k :: k in order ==> k in vars.custom) && r == Sequential(s, vars, order);
    DecimalPlain(vars.httpPort);
    forall c | c in ['\n', '|'] ensures c !in r {
      RewriteFree(s, BUILTINS, BuiltinValues(vars), c);
      RewriteFree(Rewrite(s, BUILTINS, BuiltinValues(vars)), order, vars.custom, c);
    }
    assert ['\n', '|'][0] == '\n' && ['\n', '|'][1] == '|';
  }

  lemma {:induction false} RewriteKeepsFirst(s: string, keys: seq<string>, value: map<string, string>)
    requires s != "" && s[0] != '$' && forall k :: k in keys ==> k in value
    ensures Rewrite(s, keys, value) != "" && Rewrite(s, keys, value)[0] == s[0]
    decreases |keys|
  {
    if keys != [] {
      assert !(Placeholder(keys[0]) <= s);
      RewriteKeepsFirst(ReplaceAll(s, Placeholder(keys[0]), value[keys[0]]), keys[1..], value);
    }
  }

  lemma OutcomeKeepsFirst(s: string, vars: Vars, r: string)
    requires Outcome(s, vars, r) && s != "" && s[0] != '$'
    ensures r != "" && r[0] == s[0]
  {
    hide Rewrite;
    var order :| IsOrder(order, vars.custom.Keys) && r == Sequential(s, vars, order);
    RewriteKeepsFirst(s, BUILTINS, BuiltinValues(vars));
    RewriteKeepsFirst(Rewrite(s, BUILTINS, BuiltinValues(vars)), order, vars.custom);
  }

  predicate CleanAction(a: Action) {
    match a
    case LeaveMenu => true
    case ChainTo(u) => Clean(u)
    case RunBinary(u) => Clean(u) && u != "" && u[0] == 'h'
    case LoadKernel(u, c) => Clean(u) && Clean(c)
    case LoadFile(u) => Clean(u)
    case BootNow => true
  }

  lemma FileTemplateClean(e: MenuEntry, file: string, vars: Vars)
    requires CleanEntry(e) && CleanVars(vars) && Clean(file)
    ensures Clean(FileTemplate(e, file, vars))
    ensures FileTemplate(e, file, vars) != "" && FileTemplate(e, file, vars)[0] == 'h'
  {
    hide Decimal;
    DecimalPlain(vars.httpPort);
  }

  lemma LoadClean(e: MenuEntry, f: string, vars: Vars)
    requires CleanEntry(e) && CleanVars(vars) && Clean(f)
    ensures CleanAction(LoadFile(FileTemplate(e, f, vars))) && CleanAction(RunBinary(FileTemplate(e, f, vars)))
    ensures forall c :: Clean(c) ==> CleanAction(LoadKernel(FileTemplate(e, f, vars), c))
  {
    hide FileTemplate, CleanVars, CleanEntry;
    FileTemplateClean(e, f, vars);
  }

  lemma WimbootClean(e: MenuEntry, vars: Vars)
    requires CleanEntry(e) && CleanVars(vars) && e.boot.loader == "wimboot"
    ensures forall a :: a in BootActions(e, vars) ==> CleanAction(a)
  {
    hide FileTemplate, CleanVars, CleanAction, Clean;
    forall a | a in LoadFiles(e, e.boot.files, vars) ensures CleanAction(a) {
      var i :| 0 <= i < |e.boot.files| && a == LoadFile(FileTemplate(e, e.boot.files[i], vars));
      assert e.boot.files[i] in e.boot.files;
      LoadClean(e, e.boot.files[i], vars);
    }
    WimbootWord();
    LoadClean(e, "wimboot", vars);
  }

  lemma WimbootWord()
    ensures Clean("wimboot") && Clean("")
    ensures CleanAction(BootNow)
  {
  }

  lemma BootActionsClean(e: MenuEntry, vars: Vars)
    requires CleanEntry(e) && CleanVars(vars)
    ensures forall a :: a in BootActions(e, vars) ==> CleanAction(a)
    ensures forall a :: a in MenuActions(e, vars) ==> CleanAction(a)
  {
    if e.boot.loader == "wimboot" {
      WimbootClean(e, vars);
      ChainClean(e, vars);
    } else {
      PlainClean(e, vars);
      ChainClean(e, vars);
    }
  }

  lemma ChainClean(e: MenuEntry, vars: Vars)
    requires CleanEntry(e) && forall a :: a in BootActions(e, vars) ==> CleanAction(a)
    ensures forall a :: a in MenuActions(e, vars) ==> CleanAction(a)
  {
    hide BootActions;
  }

  lemma GivenClean(file: string, a: Action)
    requires CleanAction(a)
    ensures forall x :: x in Given(file, a) ==> CleanAction(x)
  {
    hide CleanAction;
  }

  lemma PlainClean(e: MenuEntry, vars: Vars)
    requires CleanEntry(e) && CleanVars(vars) && e.boot.loader != "wimboot"
    ensures forall a :: a in BootActions(e, vars) ==> CleanAction(a)
  {
    hide FileTemplate, CleanVars, LoadFiles, CleanAction, Given;
    LoadClean(e, e.boot.kernel, vars);
    LoadClean(e, e.boot.initrd, vars);
    LoadClean(e, e.boot.image, vars);
    LoadClean(e, e.boot.binary, vars);
    assert CleanAction(ChainTo(e.boot.chain)) && CleanAction(BootNow) by { ChainWordClean(e); }
    GivenClean(e.boot.kernel, LoadKernel(FileTemplate(e, e.boot.kernel, vars), e.boot.cmdline));
    GivenClean(e.boot.initrd, LoadFile(FileTemplate(e, e.boot.initrd, vars)));
    GivenClean(e.boot.image, LoadFile(FileTemplate(e, e.boot.image, vars)));
  }

  lemma ChainWordClean(e: MenuEntry)
    requires CleanEntry(e)
    ensures CleanAction(ChainTo(e.boot.chain)) && CleanAction(BootNow)
  {
  }

  lemma CleanIsOneLine(s: string)
    requires Clean(s)
    ensures OneLine(s)
  {
  }

  lemma CleanCompilesTidy(a: Action, vars: Vars, retry: string, c: Cmd)
    requires CleanAction(a) && CleanVars(vars) && Compiles(a, vars, retry, c) && '\n' !in retry
    ensures Tidy(c)
  {
    hide Outcome, CleanVars, OneLine;
    match a
    case LeaveMenu =>
    case BootNow =>
    case ChainTo(u) => OutcomeClean(u, vars, c.url); CleanIsOneLine(c.url);
    case LoadFile(u) => OutcomeClean(u, vars, c.url); CleanIsOneLine(c.url);
    case RunBinary(u) =>
      OutcomeClean(u, vars, c.url);
      CleanIsOneLine(c.url);
      OutcomeKeepsFirst(u, vars, c.url);
    case LoadKernel(u, l) =>
      if l == "" {
        OutcomeClean(u, vars, c.args);
      } else {
        var u', l' :| Outcome(u, vars, u') && Outcome(l, vars, l') && c.args == Line(u', l');
        OutcomeClean(u, vars, u');
        OutcomeClean(l, vars, l');
      }
      CleanIsOneLine(c.args);
  }

  ghost predicate TidyBlock(b: seq<Cmd>) { forall c :: c in b ==> Tidy(c) }

  lemma CleanBlockTidy(acts: seq<Action>, vars: Vars, retry: string, b: seq<Cmd>)
    requires CompilesAll(acts, vars, retry, b) && CleanVars(vars) && '\n' !in retry
    requires forall a :: a in acts ==> CleanAction(a)
    ensures TidyBlock(b)
  {
    hide Compiles, CleanVars, CleanAction, Tidy;
    forall c | c in b ensures Tidy(c) {
      var i :| 0 <= i < |b| && b[i] == c;
      assert acts[i] in acts;
      CleanCompilesTidy(acts[i], vars, retry, c);
    }
  }

  // ---------------------------------------------------------------- menus

  /** The pieces of a menu script fit on their lines. */
  ghost predicate Fits(entries: seq<MenuEntry>, mc: MenuConfig, blocks: seq<seq<Cmd>>) {
    && (forall e :: e in entries ==> Word(e.name) && OneLine(e.labelText))
    && (mc.default == "" || Word(mc.default))
    && (forall b :: b in blocks ==> TidyBlock(b))
  }

  lemma CleanBlocksTidy(entries: seq<MenuEntry>, vars: Vars, blocks: seq<seq<Cmd>>)
    requires MenuBlocks(entries, vars, blocks) && CleanVars(vars) && forall e :: e in entries ==> CleanEntry(e)
    ensures forall b :: b in blocks ==> TidyBlock(b)
  {
    hide CleanVars, CompilesAll, TidyBlock, MenuActions, BootActions, CleanAction;
    forall b | b in blocks ensures TidyBlock(b) {
      var i :| 0 <= i < |blocks| && blocks[i] == b;
      assert entries[i] in entries;
      BootActionsClean(entries[i], vars);
      CleanBlockTidy(MenuActions(entries[i], vars), vars, "start", b);
    }
  }

  lemma {:induction false} SectionsTidy(names: seq<string>, blocks: seq<seq<Cmd>>)
    requires |blocks| == |names| && (forall b :: b in blocks ==> TidyBlock(b))
    requires forall n :: n in names ==> '\n' !in n
    ensures TidyBlock(Sections(names, blocks))
  {
    if names != [] {
      SectionsTidy(names[1..], blocks[1..]);
      assert TidyBlock(blocks[0]) && '\n' !in names[0];
    }
  }

  lemma MenuScriptTidy(entries: seq<MenuEntry>, mc: MenuConfig, blocks: seq<seq<Cmd>>)
    requires |blocks| == |entries| && Fits(entries, mc, blocks)
    ensures TidyBlock(MenuScript(Names(entries), Labels(entries), mc.default, Millis(mc), blocks))
  {
    hide TidyBlock, OneLine, Sections;
    var names, texts := Names(entries), Labels(entries);
    forall n | n in names ensures Word(n) {
      var i :| 0 <= i < |names| && names[i] == n;
      assert entries[i] in entries;
    }
    assert TidyBlock(Sections(names, blocks)) by { WordsTidy(names); SectionsTidy(names, blocks); }
    assert TidyBlock(Items(names, texts)) by { ItemsTidy(entries); }
    FixedTidy(mc);
    TidyJoin([Comment("!ipxe"), Blank, Label("start"), Menu(TITLE)], Items(names, texts));
    TidyJoin([Comment("!ipxe"), Blank, Label("start"), Menu(TITLE)] + Items(names, texts),
             [Blank, Choose(mc.default, Millis(mc), "failed"), GotoSelected]);
    TidyJoin(Header(names, texts, mc.default, Millis(mc)), Sections(names, blocks));
    TidyJoin(Header(names, texts, mc.default, Millis(mc)) + Sections(names, blocks), HANDLER);
  }

  lemma WordsTidy(names: seq<string>)
    requires forall n :: n in names ==> Word(n)
    ensures forall n :: n in names ==> '\n' !in n
  {
  }

  lemma TidyJoin(a: seq<Cmd>, b: seq<Cmd>)
    requires TidyBlock(a) && TidyBlock(b)
    ensures TidyBlock(a + b)
  {
  }

  lemma ItemsTidy(entries: seq<MenuEntry>)
    requires forall e :: e in entries ==> Word(e.name) && OneLine(e.labelText)
    ensures TidyBlock(Items(Names(entries), Labels(entries)))
  {
    var items := Items(Names(entries), Labels(entries));
    forall c | c in items ensures Tidy(c) {
      var i :| 0 <= i < |items| && items[i] == c;
      assert entries[i] in entries;
    }
  }

  lemma FixedTextsClean()
    ensures OneLine(TITLE) && OneLine(RETRY_TEXT)
  {
    hide TITLE, RETRY_TEXT, OneLine;
    TitleClean();
    RetryTextClean();
    CleanIsOneLine(TITLE);
    CleanIsOneLine(RETRY_TEXT);
  }

  lemma TitleClean()
    ensures Clean(TITLE)
  {
  }

  lemma RetryTextClean()
    ensures Clean(RETRY_TEXT)
  {
  }

  lemma FixedTidy(mc: MenuConfig)
    requires mc.default == "" || Word(mc.default)
    ensures TidyBlock([Comment("!ipxe"), Blank, Label("start"), Menu(TITLE)])
    ensures TidyBlock([Blank, Choose(mc.default, Millis(mc), "failed"), GotoSelected])
    ensures TidyBlock(HANDLER)
  {
    hide TITLE, RETRY_TEXT, OneLine, Word, Millis;
    FixedTextsClean();
    CleanIsOneLine("5");
    CleanIsOneLine("start");
  }

  lemma ParseTidy(p: seq<Cmd>)
    requires TidyBlock(p)
    ensures ParseScript(Listing(p)) == p
  {
    ParseListing(p);
  }
}
