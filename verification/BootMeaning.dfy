/** Generated scripts, read back and run, do what the entries ask for. */
module BootMeaning {
  import opened Domain
  import opened Rewriting
  import opened Substitution
  import opened Script
  import opened Machine
  import opened MenuLayout
  import opened MenuRun
  import opened Generator
  import opened CleanScripts

  // ---------------------------------------------------------------- what a generated menu means

  lemma CleanFits(entries: seq<MenuEntry>, mc: MenuConfig, vars: Vars, blocks: seq<seq<Cmd>>)
    requires MenuBlocks(entries, vars, blocks) && CleanVars(vars)
    requires forall e :: e in entries ==> CleanEntry(e) && OneWord(e.name)
    requires Clean(mc.default) && ' ' !in mc.default
    ensures Fits(entries, mc, blocks)
  {
    hide CleanVars, MenuBlocks, TidyBlock;
    CleanBlocksTidy(entries, vars, blocks);
    forall e | e in entries ensures Word(e.name) && OneLine(e.labelText) {
      CleanIsOneLine(e.name);
      CleanIsOneLine(e.labelText);
    }
    CleanIsOneLine(mc.default);
  }

  lemma MenuBlockShape(e: MenuEntry, vars: Vars, b: seq<Cmd>)
    requires CompilesAll(MenuActions(e, vars), vars, "start", b)
    ensures IsBlock(b, "start")
  {
    hide Outcome, FileTemplate;
    BlockShape(MenuActions(e, vars), vars, "start", b);
  }

  /** Loads, then one action that leaves. */
  predicate EndsLeaving(acts: seq<Action>) {
    && acts != []
    && (forall i :: 0 <= i < |acts| - 1 ==> acts[i].LoadKernel? || acts[i].LoadFile?)
    && (var last := acts[|acts| - 1];
        last.LeaveMenu? || last.BootNow? || (|acts| == 1 && (last.ChainTo? || last.RunBinary?)))
  }

  lemma BlockShape(acts: seq<Action>, vars: Vars, retry: string, b: seq<Cmd>)
    requires CompilesAll(acts, vars, retry, b) && EndsLeaving(acts)
    ensures IsBlock(b, retry)
  {
    hide Outcome, KernelArgs;
    forall i | 0 <= i < |b| - 1 ensures b[i].Kernel? || b[i].Initrd? {
      assert Compiles(acts[i], vars, retry, b[i]);
    }
    assert Compiles(acts[|b| - 1], vars, retry, b[|b| - 1]);
  }

  /** The text of a generated menu, read and run as iPXE does, behaves like the
      menu of its entries under every user and every outcome of every load:
      exactly when no entry is called start or failed. */
  lemma GeneratedMenuExactly(entries: seq<MenuEntry>, mc: MenuConfig, vars: Vars, script: string, blocks: seq<seq<Cmd>>)
    requires MenuText(entries, mc, vars, script, blocks) && Fits(entries, mc, blocks)
    ensures MeansMenu(ParseScript(script), Names(entries), blocks, mc.default, Millis(mc)) <==>
              SafeNames(Names(entries))
  {
    hide CompilesAll, Blocks, MeansMenu, MenuActions, MenuScript, Listing, TidyBlock;
    ReadBack(entries, mc, vars, script, blocks);
    MenuMeaningExactly(Names(entries), Labels(entries), mc.default, Millis(mc), blocks);
  }

  /** The text reads back as the labelled script of the blocks. */
  lemma ReadBack(entries: seq<MenuEntry>, mc: MenuConfig, vars: Vars, script: string, blocks: seq<seq<Cmd>>)
    requires MenuText(entries, mc, vars, script, blocks) && Fits(entries, mc, blocks)
    ensures |blocks| == |entries| && Blocks(blocks)
    ensures ParseScript(script) == MenuScript(Names(entries), Labels(entries), mc.default, Millis(mc), blocks)
  {
    hide CompilesAll, IsBlock, MenuActions, MenuScript, Listing, TidyBlock;
    MenuScriptTidy(entries, mc, blocks);
    ParseTidy(MenuScript(Names(entries), Labels(entries), mc.default, Millis(mc), blocks));
    forall b | b in blocks ensures IsBlock(b, "start") {
      var i :| 0 <= i < |blocks| && blocks[i] == b;
      MenuBlockShape(entries[i], vars, b);
    }
  }

  /** What is on the screen: the title, and the label of every entry behind its
      name, in order. */
  lemma MenuShows(entries: seq<MenuEntry>, mc: MenuConfig, vars: Vars, script: string, blocks: seq<seq<Cmd>>)
    requires MenuText(entries, mc, vars, script, blocks) && Fits(entries, mc, blocks)
    ensures var p := ParseScript(script);
            && |p| > |entries| + 6 && p[3] == Menu("Bootforge Boot Menu")
            && (forall i :: 0 <= i < |entries| ==> p[4 + i] == Cmd.Item(entries[i].name, entries[i].labelText))
            && p[5 + |entries|] == Choose(mc.default, if mc.timeout > 0 then 1000 * mc.timeout else 0, "failed")
  {
    hide ParseScript, Sections, HANDLER, CompilesAll, MenuActions, Listing, TidyBlock, IsBlock;
    ReadBack(entries, mc, vars, script, blocks);
  }

  // ---------------------------------------------------------------- direct boots

  /** How a direct script ends: a chain that fails jumps to a label that the
      script does not have. */
  function DirectEnd(r: BlockEnd, choices: seq<Choice>): Final {
    Final(if r.status == Running then NoLabel(r.back) else r.status, r.trace, choices, r.oks)
  }

  lemma BootBlockShape(e: MenuEntry, vars: Vars, b: seq<Cmd>)
    requires CompilesAll(BootActions(e, vars), vars, "failed", b)
    ensures IsBlock(b, "failed") && NoLabels(b)
  {
    hide Outcome, FileTemplate, KernelArgs;
    BlockShape(BootActions(e, vars), vars, "failed", b);
    forall i | 0 <= i < |b| ensures !b[i].Label? {
      assert Compiles(BootActions(e, vars)[i], vars, "failed", b[i]);
    }
  }

  lemma DirectRuns(head: seq<Cmd>, b: seq<Cmd>, choices: seq<Choice>, oks: seq<bool>)
    requires IsBlock(b, "failed") && NoLabels(head + b)
    requires head == SHEBANG || head == SHEBANG + [Comment(" One-time boot override")]
    ensures Yields(head + b, Init(choices, oks), DirectEnd(RunBlock(b, [], [], oks), choices))
  {
    hide Leads, Yields, IsBlock, RunBlock;
    var p, st := head + b, Init(choices, oks);
    var at := st.(pc := |head|);
    HeadSkips(p, st, head);
    BlockInFront(head, b, []);
    assert head + b + [] == p;
    BlockRuns(p, at, b, "failed");
    var r := RunBlock(b, [], [], oks);
    LabelFree(p, "failed");
    if r.status == Running {
      var gone := Jump(p, at.(oks := r.oks, trace := r.trace), "failed");
      LeadsThen(p, st, at, gone);
      StopYields(p, st, gone);
    } else {
      LeadsYields(p, st, at, DirectEnd(r, choices));
    }
  }

  lemma HeadSkips(p: seq<Cmd>, st: State, head: seq<Cmd>)
    requires head == SHEBANG || head == SHEBANG + [Comment(" One-time boot override")]
    requires head <= p && st.pc == 0 && st.status == Running
    ensures Leads(p, st, st.(pc := |head|))
  {
    hide Leads;
    var st1 := Step(p, st);
    var st2 := Step(p, st1);
    LeadsStep(p, st);
    LeadsStep(p, st1);
    LeadsThen(p, st, st1, st2);
    if head != SHEBANG {
      LeadsStep(p, st2);
      LeadsThen(p, st, st2, Step(p, st2));
    }
  }

  /** A direct script, and an override, runs exactly its entry's block; the
      jump to the missing label happens exactly when a chain entry's chain
      fails. */
  lemma DirectScriptRuns(e: MenuEntry, vars: Vars, script: string, b: seq<Cmd>, choices: seq<Choice>, oks: seq<bool>)
    requires (DirectScript(e, vars, script, b) || OverrideScript(e, vars, script, b)) && TidyBlock(b)
    ensures var f := DirectEnd(RunBlock(b, [], [], oks), choices);
            && Yields(ParseScript(script), Init(choices, oks), f)
            && (f.status.NoLabel? <==> e.boot.loader != "wimboot" && e.boot.chain != "" && oks != [] && !oks[0])
  {
    hide Yields, Listing, Outcome, FileTemplate, TidyBlock, CompilesAll;
    var head := if script == Listing(SHEBANG + b) then SHEBANG else SHEBANG + [Comment(" One-time boot override")];
    BootBlockShape(e, vars, b);
    assert NoLabels(head + b);
    HeadTidy();
    TidyJoin(head, b);
    ParseTidy(head + b);
    DirectRuns(head, b, choices, oks);
    assert RunBlock(b, [], [], oks).status == Running <==>
           e.boot.loader != "wimboot" && e.boot.chain != "" && oks != [] && !oks[0] by {
      ChainFails(e, vars, b, oks);
    }
    assert !RunBlock(b, [], [], oks).status.NoLabel? by { BlockNeverLost(b, [], [], oks); }
  }

  lemma HeadTidy()
    ensures TidyBlock(SHEBANG) && TidyBlock(SHEBANG + [Comment(" One-time boot override")])
  {
    var first, note := Comment("!ipxe"), Comment(" One-time boot override");
    assert Tidy(first) && Tidy(note) && Tidy(Blank);
    hide Tidy;
    assert SHEBANG == [first, Blank] && SHEBANG + [note] == [first, Blank, note];
  }

  lemma {:induction false} BlockNeverLost(b: seq<Cmd>, images: seq<Cmd>, trace: seq<Try>, oks: seq<bool>)
    ensures !RunBlock(b, images, trace, oks).status.NoLabel?
    decreases |b|
  {
    if b != [] && oks != [] {
      BlockNeverLost(b[1..], images + [b[0]], trace + [Try(b[0], oks[0])], oks[1..]);
    }
  }

  lemma ChainFails(e: MenuEntry, vars: Vars, b: seq<Cmd>, oks: seq<bool>)
    requires CompilesAll(BootActions(e, vars), vars, "failed", b)
    ensures RunBlock(b, [], [], oks).status == Running <==>
            e.boot.loader != "wimboot" && e.boot.chain != "" && oks != [] && !oks[0]
  {
    hide Outcome, FileTemplate, KernelArgs;
    BootBlockShape(e, vars, b);
    assert Compiles(BootActions(e, vars)[0], vars, "failed", b[0]);
    if RunBlock(b, [], [], oks).status == Running {
      OnlyChainsReturn(b, "failed", [], [], oks);
    }
  }

  // ---------------------------------------------------------------- one entry, from a menu and directly

  /** A command without the label it goes to on failure. */
  function Bare(c: Cmd): Cmd { if c.Chain? then c.(orElse := "") else c }

  function BareTry(t: Try): Try { Try(Bare(t.cmd), t.ok) }

  ghost predicate SameCommands(m: seq<Cmd>, d: seq<Cmd>) {
    |m| == |d| && forall i :: 0 <= i < |m| ==> Bare(m[i]) == Bare(d[i])
  }

  ghost predicate SameTries(a: seq<Try>, b: seq<Try>) {
    |a| == |b| && forall i :: 0 <= i < |a| ==> BareTry(a[i]) == BareTry(b[i])
  }

  /** The same tries with the same results, the same images booted, the same
      way out; where one goes back to a label the other goes to its own. */
  ghost predicate SameEnd(a: BlockEnd, b: BlockEnd) {
    && a.status == b.status && a.oks == b.oks && SameTries(a.trace, b.trace)
    && if a.status == Running then a.back == "start" && b.back == "failed" else a.back == b.back
  }

  ghost predicate SameRuns(m: seq<Cmd>, d: seq<Cmd>) {
    forall oks :: SameEnd(RunBlock(m, [], [], oks), RunBlock(d, [], [], oks))
  }

  /** The texts an action substitutes in. */
  function Templates(a: Action): seq<string> {
    match a
    case ChainTo(u) => [u]
    case RunBinary(u) => [u]
    case LoadKernel(u, c) => [u, c]
    case LoadFile(u) => [u]
    case _ => []
  }

  ghost predicate Decided(s: string, vars: Vars) {
    forall r, q :: Outcome(s, vars, r) && Outcome(s, vars, q) ==> r == q
  }

  ghost predicate AllDecided(acts: seq<Action>, vars: Vars) {
    forall a, s :: a in acts && s in Templates(a) ==> Decided(s, vars)
  }

  /** Templates with dollar-free text and independent values are decided. */
  lemma WellFormedDecided(t: seq<Piece>, vars: Vars)
    requires WellFormed(t) && SimpleVars(vars) && Independent(vars)
    ensures Decided(Render(t), vars)
  {
    hide Outcome;
    forall r, q | Outcome(Render(t), vars, r) && Outcome(Render(t), vars, q) ensures r == q {
      OutcomeDecided(t, vars, r);
      OutcomeDecided(t, vars, q);
    }
  }

  lemma CompilesAlike(a: Action, vars: Vars, r: string, q: string, c: Cmd, d: Cmd)
    requires Compiles(a, vars, r, c) && Compiles(a, vars, q, d)
    requires forall s :: s in Templates(a) ==> Decided(s, vars)
    ensures Bare(c) == Bare(d)
  {
    hide Outcome;
    match a
    case LeaveMenu =>
    case BootNow =>
    case LoadKernel(u, l) =>
      assert Templates(a)[0] == u && Templates(a)[1] == l;
      assert Decided(u, vars) && Decided(l, vars);
      if l != "" {
        var u1, l1 :| Outcome(u, vars, u1) && Outcome(l, vars, l1) && c.args == Line(u1, l1);
        var u2, l2 :| Outcome(u, vars, u2) && Outcome(l, vars, l2) && d.args == Line(u2, l2);
        assert u1 == u2 && l1 == l2;
      }
    case _ =>
      assert Templates(a)[0] == a.url;
      assert Decided(a.url, vars);
  }

  lemma BlocksAlike(acts: seq<Action>, vars: Vars, m: seq<Cmd>, d: seq<Cmd>)
    requires CompilesAll(acts, vars, "start", m) && CompilesAll(acts, vars, "failed", d) && AllDecided(acts, vars)
    ensures SameCommands(m, d)
    ensures forall i :: 0 <= i < |m| && m[i].Chain? ==>
              (m[i].orElse == d[i].orElse == "") || (m[i].orElse == "start" && d[i].orElse == "failed")
  {
    hide Compiles, Decided, Templates;
    forall i | 0 <= i < |m|
      ensures Bare(m[i]) == Bare(d[i])
      ensures m[i].Chain? ==> (m[i].orElse == d[i].orElse == "") || (m[i].orElse == "start" && d[i].orElse == "failed")
    {
      assert acts[i] in acts;
      CompilesAlike(acts[i], vars, "start", "failed", m[i], d[i]);
      RetryOf(acts[i], vars, "start", m[i]);
      RetryOf(acts[i], vars, "failed", d[i]);
    }
  }

  lemma RetryOf(a: Action, vars: Vars, retry: string, c: Cmd)
    requires Compiles(a, vars, retry, c)
    ensures c.Chain? ==> c.orElse == (if a.ChainTo? then retry else "")
  {
    hide Outcome, KernelArgs;
  }

  lemma {:induction false} RunsAlike(m: seq<Cmd>, d: seq<Cmd>, images: seq<Cmd>, s: seq<Try>, t: seq<Try>,
                                     oks: seq<bool>)
    requires SameCommands(m, d) && SameTries(s, t)
    requires forall i :: 0 <= i < |m| && m[i].Chain? ==>
              (m[i].orElse == d[i].orElse == "") || (m[i].orElse == "start" && d[i].orElse == "failed")
    ensures SameEnd(RunBlock(m, images, s, oks), RunBlock(d, images, t, oks))
    decreases |m|
  {
    if m != [] && oks != [] && oks[0] && !m[0].Exit? && !m[0].Chain? && !m[0].Boot? {
      RunsAlike(m[1..], d[1..], images + [m[0]], s + [Try(m[0], true)], t + [Try(d[0], true)], oks[1..]);
    }
  }

  /** An entry's block in a menu and its direct or override script have the same
      commands, and do the same whatever loads: exactly when the entry is no
      exit and does not combine wimboot with a chain URL. Only a chain that
      fails goes elsewhere, back to the menu or to the label failed. */
  lemma SameBootExactly(e: MenuEntry, vars: Vars, m: seq<Cmd>, d: seq<Cmd>)
    requires CompilesAll(MenuActions(e, vars), vars, "start", m) && CompilesAll(BootActions(e, vars), vars, "failed", d)
    requires AllDecided(BootActions(e, vars), vars)
    ensures SameCommands(m, d) <==> !e.kind.Exit? && !(e.boot.loader == "wimboot" && e.boot.chain != "")
    ensures SameRuns(m, d) <==> !e.kind.Exit? && !(e.boot.loader == "wimboot" && e.boot.chain != "")
  {
    hide Compiles, CompilesAll, FileTemplate, AllDecided, RunBlock;
    if e.kind.Exit? || (e.boot.loader == "wimboot" && e.boot.chain != "") {
      StartsDiffer(e, vars, m, d);
      var oks := if e.kind.Exit? then [] else [true];
      assert !SameEnd(RunBlock(m, [], [], oks), RunBlock(d, [], [], oks));
    } else {
      assert MenuActions(e, vars) == BootActions(e, vars);
      BlocksAlike(BootActions(e, vars), vars, m, d);
      forall oks ensures SameEnd(RunBlock(m, [], [], oks), RunBlock(d, [], [], oks)) {
        RunsAlike(m, d, [], [], [], oks);
      }
    }
  }

  lemma StartsDiffer(e: MenuEntry, vars: Vars, m: seq<Cmd>, d: seq<Cmd>)
    requires CompilesAll(MenuActions(e, vars), vars, "start", m) && CompilesAll(BootActions(e, vars), vars, "failed", d)
    requires e.kind.Exit? || (e.boot.loader == "wimboot" && e.boot.chain != "")
    ensures !SameCommands(m, d)
    ensures var oks := if e.kind.Exit? then [] else [true];
            RunBlock(m, [], [], oks).status != RunBlock(d, [], [], oks).status
  {
    hide Outcome, KernelArgs, FileTemplate;
    assert Compiles(MenuActions(e, vars)[0], vars, "start", m[0]);
    assert Compiles(BootActions(e, vars)[0], vars, "failed", d[0]);
    if e.kind.Exit? {
      assert !d[0].Exit?;
    } else {
      assert m[0].Chain? && d[0].Kernel? && |d| > 1;
      assert Compiles(BootActions(e, vars)[1], vars, "failed", d[1]);
      assert !d[1].Exit?;
      assert [true][1..] == [];
      assert RunBlock(d[1..], [d[0]], [Try(d[0], true)], []).status == AwaitResult;
    }
  }
}
