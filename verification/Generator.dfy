/** IPXEGenerator: from menu entries to the text of a boot script.

    The methods write into a builder as the program does; what they write is
    stated as a listing of commands compiled from an entry's actions. */
module Generator {
  import opened Text
  import opened Domain
  import opened Rewriting
  import opened Substitution
  import opened Script
  import opened MenuLayout

  // ---------------------------------------------------------------- what an entry asks for

  /** The steps of booting an entry, before placeholders are replaced. */
  datatype Action =
    | LeaveMenu
    | ChainTo(url: string)
    | RunBinary(url: string)
    | LoadKernel(url: string, cmdline: string)
    | LoadFile(url: string)
    | BootNow

  function FileTemplate(e: MenuEntry, filename: string, vars: Vars): string {
    var server := "http://" + vars.serverIP + ":" + Decimal(vars.httpPort);
    if e.http.path == "" then server + "/" + e.name + "/" + filename
    else if e.http.path[|e.http.path| - 1] == '/' then server + e.http.path + filename
    else server + (e.http.path + "/") + filename
  }

  function LoadFiles(e: MenuEntry, files: seq<string>, vars: Vars): (r: seq<Action>)
    ensures |r| == |files| && forall i :: 0 <= i < |r| ==> r[i] == LoadFile(FileTemplate(e, files[i], vars))
  {
    seq(|files|, i requires 0 <= i < |files| => LoadFile(FileTemplate(e, files[i], vars)))
  }

  function Given(file: string, a: Action): seq<Action> {
    if file == "" then [] else [a]
  }

  /** Booting an entry directly, as the single entry of a client or as an override. */
  function BootActions(e: MenuEntry, vars: Vars): seq<Action> {
    if e.boot.loader == "wimboot" then
      [LoadKernel(FileTemplate(e, "wimboot", vars), "")] + LoadFiles(e, e.boot.files, vars) + [BootNow]
    else if e.boot.chain != "" then [ChainTo(e.boot.chain)]
    else if e.boot.binary != "" then [RunBinary(FileTemplate(e, e.boot.binary, vars))]
    else
      Given(e.boot.kernel, LoadKernel(FileTemplate(e, e.boot.kernel, vars), e.boot.cmdline))
      + Given(e.boot.initrd, LoadFile(FileTemplate(e, e.boot.initrd, vars)))
      + Given(e.boot.image, LoadFile(FileTemplate(e, e.boot.image, vars)))
      + [BootNow]
  }

  /** Booting an entry picked from a menu. */
  function MenuActions(e: MenuEntry, vars: Vars): seq<Action> {
    if e.kind.Exit? then [LeaveMenu]
    else if e.boot.chain != "" then [ChainTo(e.boot.chain)]
    else BootActions(e, vars)
  }

  // ---------------------------------------------------------------- actions as commands

  ghost predicate KernelArgs(a: Action, vars: Vars, args: string)
    requires a.LoadKernel?
  {
    if a.cmdline == "" then Outcome(a.url, vars, args)
    else exists u, c :: Outcome(a.url, vars, u) && Outcome(a.cmdline, vars, c) && args == Line(u, c)
  }

  ghost predicate Compiles(a: Action, vars: Vars, retry: string, c: Cmd) {
    match a
    case LeaveMenu => c == Cmd.Exit
    case ChainTo(u) => c.Chain? && c.autofree && c.orElse == retry && Outcome(u, vars, c.url)
    case RunBinary(u) => c.Chain? && !c.autofree && c.orElse == "" && Outcome(u, vars, c.url)
    case LoadKernel(_, _) => c.Kernel? && KernelArgs(a, vars, c.args)
    case LoadFile(u) => c.Initrd? && Outcome(u, vars, c.url)
    case BootNow => c == Boot
  }

  ghost predicate CompilesAll(acts: seq<Action>, vars: Vars, retry: string, cmds: seq<Cmd>) {
    && |cmds| == |acts|
    && forall i :: 0 <= i < |acts| ==> Compiles(acts[i], vars, retry, cmds[i])
  }

  /** One more line is on the page. */
  lemma PutLine(text: string, start: string, line: string, p: seq<Cmd>, c: Cmd)
    requires text == start + Listing(p) + line && line == Print(c) + "\n"
    ensures text == start + Listing(p + [c])
  {
    hide Print;
    ListingAppend(p, [c]);
    assert [c][1..] == [] && Listing([c][1..]) == "";
    assert Listing([c]) == line + "";
    assert start + Listing(p) + line == start + (Listing(p) + line);
  }

  lemma PutPage(text: string, start: string, p: seq<Cmd>, q: seq<Cmd>)
    requires text == start + Listing(p) + Listing(q)
    ensures text == start + Listing(p + q)
  {
    hide Listing;
    ListingAppend(p, q);
    assert start + Listing(p) + Listing(q) == start + (Listing(p) + Listing(q));
  }

  lemma LineDone(text: string, start: string, line: string, acts: seq<Action>, cmds: seq<Cmd>, a: Action, c: Cmd,
                 vars: Vars, retry: string)
    requires text == start + Listing(cmds) + line && line == Print(c) + "\n"
    requires CompilesAll(acts, vars, retry, cmds) && Compiles(a, vars, retry, c)
    ensures text == start + Listing(cmds + [c])
    ensures CompilesAll(acts + [a], vars, retry, cmds + [c])
  {
    hide Compiles, Print, Listing;
    PutLine(text, start, line, cmds, c);
  }

  // ---------------------------------------------------------------- the generator

  class Builder {
    var text: string

    constructor ()
      ensures text == ""
    {
      text := "";
    }

    method WriteString(s: string)
      modifies this
      ensures text == old(text) + s
    {
      text := text + s;
    }
  }

  method FileURL(e: MenuEntry, filename: string, vars: Vars) returns (url: string)
    ensures Outcome(FileTemplate(e, filename, vars), vars, url)
  {
    hide Outcome, Decimal;
    var template;
    if e.http.path != "" {
      var path := e.http.path;
      if path[|path| - 1] != '/' {
        path := path + "/";
      }
      template := "http://" + vars.serverIP + ":" + Decimal(vars.httpPort) + path + filename;
      assert template == FileTemplate(e, filename, vars);
    } else {
      template := "http://" + vars.serverIP + ":" + Decimal(vars.httpPort) + "/" + e.name + "/" + filename;
      assert template == FileTemplate(e, filename, vars);
    }
    url := SubstituteVars(template, vars);
  }

  method WriteWimboot(b: Builder, e: MenuEntry, vars: Vars) returns (ghost cmds: seq<Cmd>)
    requires e.boot.loader == "wimboot"
    modifies b
    ensures CompilesAll(BootActions(e, vars), vars, "failed", cmds)
    ensures b.text == old(b.text) + Listing(cmds)
  {
    hide Outcome, CompilesAll, FileTemplate, Listing;
    ghost var start := b.text;
    cmds := [];
    NothingWritten(vars, "failed");
    var url := FileURL(e, "wimboot", vars);
    b.WriteString("kernel " + url + "\n");
    ghost var first := LoadKernel(FileTemplate(e, "wimboot", vars), "");
    LineDone(b.text, start, "kernel " + url + "\n", [], [], first, Kernel(url), vars, "failed");
    cmds := [Kernel(url)];
    assert [] + cmds == cmds && [] + [first] == [first] + LoadFiles(e, e.boot.files[..0], vars);
    for i := 0 to |e.boot.files|
      invariant b.text == start + Listing(cmds)
      invariant CompilesAll([first] + LoadFiles(e, e.boot.files[..i], vars), vars, "failed", cmds)
    {
      var furl := FileURL(e, e.boot.files[i], vars);
      b.WriteString("initrd " + furl + "\n");
      ghost var a := LoadFile(FileTemplate(e, e.boot.files[i], vars));
      ghost var done := [first] + LoadFiles(e, e.boot.files[..i], vars);
      LineDone(b.text, start, "initrd " + furl + "\n", done, cmds, a, Initrd(furl), vars, "failed");
      assert done + [a] == [first] + LoadFiles(e, e.boot.files[..i + 1], vars);
      cmds := cmds + [Initrd(furl)];
    }
    b.WriteString("boot\n");
    assert e.boot.files[..|e.boot.files|] == e.boot.files;
    LineDone(b.text, start, "boot\n", [first] + LoadFiles(e, e.boot.files, vars), cmds, BootNow, Boot, vars, "failed");
    cmds := cmds + [Boot];
  }

  lemma NothingWritten(vars: Vars, retry: string)
    ensures CompilesAll([], vars, retry, []) && Listing([]) == ""
  {
  }

  method WriteChain(b: Builder, e: MenuEntry, vars: Vars, retry: string) returns (ghost cmds: seq<Cmd>)
    requires e.boot.chain != "" && retry != ""
    modifies b
    ensures CompilesAll([ChainTo(e.boot.chain)], vars, retry, cmds)
    ensures b.text == old(b.text) + Listing(cmds)
  {
    hide Outcome, CompilesAll;
    ghost var start := b.text;
    NothingWritten(vars, retry);
    var url := SubstituteVars(e.boot.chain, vars);
    var line := "chain --autofree " + url + " || goto " + retry + "\n";
    b.WriteString(line);
    ghost var c := Cmd.Chain(url, true, retry);
    assert line == Print(c) + "\n" by {
      assert line == "chain" + " " + ("--autofree" + " " + url) + (" || goto " + retry) + "\n";
    }
    LineDone(b.text, start, line, [], [], ChainTo(e.boot.chain), c, vars, retry);
    assert [] + [ChainTo(e.boot.chain)] == [ChainTo(e.boot.chain)];
    cmds := [] + [c];
  }

  method WriteBinary(b: Builder, e: MenuEntry, vars: Vars) returns (ghost cmds: seq<Cmd>)
    modifies b
    ensures CompilesAll([RunBinary(FileTemplate(e, e.boot.binary, vars))], vars, "failed", cmds)
    ensures b.text == old(b.text) + Listing(cmds)
  {
    hide Outcome, CompilesAll, FileTemplate;
    ghost var start := b.text;
    NothingWritten(vars, "failed");
    var url := FileURL(e, e.boot.binary, vars);
    b.WriteString("chain " + url + "\n");
    ghost var a, c := RunBinary(FileTemplate(e, e.boot.binary, vars)), Cmd.Chain(url, false, "");
    assert "chain " + url + "\n" == Print(c) + "\n" by { assert "chain" + " " + url + "" == "chain " + url; }
    LineDone(b.text, start, "chain " + url + "\n", [], [], a, c, vars, "failed");
    assert [] + [a] == [a];
    cmds := [] + [c];
  }

  method WriteKernel(b: Builder, e: MenuEntry, vars: Vars) returns (ghost cmds: seq<Cmd>)
    modifies b
    ensures CompilesAll(Given(e.boot.kernel, LoadKernel(FileTemplate(e, e.boot.kernel, vars), e.boot.cmdline)), vars,
              "failed", cmds)
    ensures b.text == old(b.text) + Listing(cmds)
  {
    hide Outcome, CompilesAll, FileTemplate;
    ghost var start := b.text;
    cmds := [];
    NothingWritten(vars, "failed");
    if e.boot.kernel != "" {
      var url := FileURL(e, e.boot.kernel, vars);
      b.WriteString("kernel " + url);
      ghost var args, line := url, "kernel " + url;
      ghost var a := LoadKernel(FileTemplate(e, e.boot.kernel, vars), e.boot.cmdline);
      if e.boot.cmdline != "" {
        var cmdline := SubstituteVars(e.boot.cmdline, vars);
        b.WriteString(" " + cmdline);
        args, line := Line(url, cmdline), line + (" " + cmdline);
      }
      b.WriteString("\n");
      assert line == "kernel" + " " + args;
      LineDone(b.text, start, line + "\n", [], [], a, Kernel(args), vars, "failed");
      assert [] + [a] == [a];
      cmds := [] + [Kernel(args)];
    }
  }

  method WriteInitrd(b: Builder, e: MenuEntry, file: string, vars: Vars) returns (ghost cmds: seq<Cmd>)
    modifies b
    ensures CompilesAll(Given(file, LoadFile(FileTemplate(e, file, vars))), vars, "failed", cmds)
    ensures b.text == old(b.text) + Listing(cmds)
  {
    hide Outcome, CompilesAll, FileTemplate;
    ghost var start := b.text;
    cmds := [];
    NothingWritten(vars, "failed");
    if file != "" {
      var url := FileURL(e, file, vars);
      b.WriteString("initrd " + url + "\n");
      ghost var a := LoadFile(FileTemplate(e, file, vars));
      LineDone(b.text, start, "initrd " + url + "\n", [], [], a, Initrd(url), vars, "failed");
      assert [] + [a] == [a];
      cmds := [] + [Initrd(url)];
    }
  }

  lemma CompilesAppend(a: seq<Action>, b: seq<Action>, vars: Vars, retry: string, c: seq<Cmd>, d: seq<Cmd>)
    requires CompilesAll(a, vars, retry, c) && CompilesAll(b, vars, retry, d)
    ensures CompilesAll(a + b, vars, retry, c + d)
    ensures Listing(c) + Listing(d) == Listing(c + d)
  {
    hide Compiles, Listing;
    ListingAppend(c, d);
    forall i | 0 <= i < |a + b| ensures Compiles((a + b)[i], vars, retry, (c + d)[i]) {
      if i >= |a| {
        assert (a + b)[i] == b[i - |a|] && (c + d)[i] == d[i - |a|];
      }
    }
  }

  lemma Joined(a: string, b: string, c: string, d: string)
    ensures a + b + c + d == a + (b + c + d)
  {
  }

  lemma BootCompiles(vars: Vars)
    ensures Compiles(BootNow, vars, "failed", Boot) && "boot\n" == Print(Boot) + "\n"
  {
  }

  /** The direct script of an entry, without its first line. */
  method WriteBootEntry(b: Builder, e: MenuEntry, vars: Vars) returns (ghost cmds: seq<Cmd>)
    modifies b
    ensures CompilesAll(BootActions(e, vars), vars, "failed", cmds)
    ensures b.text == old(b.text) + Listing(cmds)
  {
    hide Outcome, CompilesAll, FileTemplate, Listing, Given, LoadFiles, Compiles;
    if e.boot.loader == "wimboot" {
      cmds := WriteWimboot(b, e, vars);
      return;
    }
    if e.boot.chain != "" {
      cmds := WriteChain(b, e, vars, "failed");
      return;
    }
    if e.boot.binary != "" {
      cmds := WriteBinary(b, e, vars);
      return;
    }
    ghost var start := b.text;
    ghost var k := WriteKernel(b, e, vars);
    ghost var i := WriteInitrd(b, e, e.boot.initrd, vars);
    ghost var m := WriteInitrd(b, e, e.boot.image, vars);
    ghost var ak := Given(e.boot.kernel, LoadKernel(FileTemplate(e, e.boot.kernel, vars), e.boot.cmdline));
    ghost var ai := Given(e.boot.initrd, LoadFile(FileTemplate(e, e.boot.initrd, vars)));
    ghost var am := Given(e.boot.image, LoadFile(FileTemplate(e, e.boot.image, vars)));
    CompilesAppend(ak, ai, vars, "failed", k, i);
    CompilesAppend(ak + ai, am, vars, "failed", k + i, m);
    Joined(start, Listing(k), Listing(i), Listing(m));
    b.WriteString("boot\n");
    BootCompiles(vars);
    LineDone(b.text, start, "boot\n", ak + ai + am, k + i + m, BootNow, Boot, vars, "failed");
    cmds := k + i + m + [Boot];
  }

  // ---------------------------------------------------------------- menus

  function Names(entries: seq<MenuEntry>): (r: seq<string>)
    ensures |r| == |entries| && forall i :: 0 <= i < |r| ==> r[i] == entries[i].name
  {
    seq(|entries|, i requires 0 <= i < |entries| => entries[i].name)
  }

  function Labels(entries: seq<MenuEntry>): (r: seq<string>)
    ensures |r| == |entries| && forall i :: 0 <= i < |r| ==> r[i] == entries[i].labelText
  {
    seq(|entries|, i requires 0 <= i < |entries| => entries[i].labelText)
  }

  /** The menu timeout in milliseconds; zero waits forever. */
  function Millis(mc: MenuConfig): nat {
    if mc.timeout > 0 then 1000 * mc.timeout else 0
  }

  ghost predicate MenuBlocks(entries: seq<MenuEntry>, vars: Vars, blocks: seq<seq<Cmd>>) {
    && |blocks| == |entries|
    && forall i :: 0 <= i < |entries| ==> CompilesAll(MenuActions(entries[i], vars), vars, "start", blocks[i])
  }

  /** A menu script below its first two lines. */
  function MenuBody(entries: seq<MenuEntry>, mc: MenuConfig, blocks: seq<seq<Cmd>>): seq<Cmd>
    requires |blocks| == |entries|
  {
    [Label("start"), Menu(TITLE)] + Items(Names(entries), Labels(entries))
    + [Blank, Choose(mc.default, Millis(mc), "failed"), GotoSelected]
    + Sections(Names(entries), blocks) + HANDLER
  }

  lemma MenuBodyIsScript(entries: seq<MenuEntry>, mc: MenuConfig, blocks: seq<seq<Cmd>>)
    requires |blocks| == |entries|
    ensures MenuScript(Names(entries), Labels(entries), mc.default, Millis(mc), blocks)
            == [Comment("!ipxe"), Blank] + MenuBody(entries, mc, blocks)
  {
  }

  lemma {:induction false} SectionsOneMore(names: seq<string>, blocks: seq<seq<Cmd>>, n: string, b: seq<Cmd>)
    requires |blocks| == |names|
    ensures Sections(names + [n], blocks + [b]) == Sections(names, blocks) + ([Blank, Label(n)] + b)
  {
    if names == [] {
      assert names + [n] == [n] && blocks + [b] == [b];
      assert Sections([n][1..], [b][1..]) == [];
    } else {
      assert (names + [n])[1..] == names[1..] + [n] && (blocks + [b])[1..] == blocks[1..] + [b];
      SectionsOneMore(names[1..], blocks[1..], n, b);
    }
  }

  /** The words of the choose line, as the source glues them. */
  method ChooseLine(mc: MenuConfig) returns (line: string)
    ensures line == Print(Choose(mc.default, Millis(mc), "failed")) + "\n"
  {
    var choose := "choose";
    if mc.default != "" {
      choose := choose + (" --default " + mc.default);
    }
    if mc.timeout > 0 {
      choose := choose + (" --timeout " + Decimal(mc.timeout) + "000");
      DigitsTimesThousand(mc.timeout);
    }
    line := choose + " selected || goto failed\n";
    ChooseSpelled(mc, choose);
  }

  lemma TimeoutSpelled(ms: nat, t: string)
    requires t == if ms > 0 then " --timeout " + Digits(ms) else ""
    ensures t + " selected" == " " + TimeoutWords(ms)
  {
    hide Digits;
  }

  lemma ChooseSpelled(mc: MenuConfig, choose: string)
    requires choose == "choose" + (if mc.default != "" then " --default " + mc.default else "")
                       + (if mc.timeout > 0 then " --timeout " + Digits(Millis(mc)) else "")
    ensures choose + " selected || goto failed\n" == Print(Choose(mc.default, Millis(mc), "failed")) + "\n"
  {
    hide Digits, TimeoutWords, Millis;
    var t := if mc.timeout > 0 then " --timeout " + Digits(Millis(mc)) else "";
    assert Millis(mc) > 0 <==> mc.timeout > 0 by { MillisSign(mc); }
    TimeoutSpelled(Millis(mc), t);
    ChooseGlued(mc.default, Millis(mc), t);
    OrElseGlued("choose" + " " + ChooseWords(mc.default, Millis(mc)), choose);
  }

  lemma MillisSign(mc: MenuConfig)
    ensures Millis(mc) > 0 <==> mc.timeout > 0
  {
  }

  lemma ChooseGlued(d: string, ms: nat, t: string)
    requires t + " selected" == " " + TimeoutWords(ms)
    ensures "choose" + (if d != "" then " --default " + d else "") + t + " selected"
              == "choose" + " " + ChooseWords(d, ms)
  {
    hide TimeoutWords;
    var f := "choose" + (if d != "" then " --default " + d else "");
    assert f + t + " selected" == f + (t + " selected");
    if d != "" {
      assert f + (" " + TimeoutWords(ms)) == "choose" + " " + ("--default " + d + " " + TimeoutWords(ms));
    }
  }

  lemma OrElseGlued(line: string, front: string)
    requires front + " selected" == line
    ensures front + " selected || goto failed\n" == line + OrElse("failed") + "\n"
  {
    assert " selected || goto failed\n" == " selected" + (" || goto failed" + "\n");
    assert front + (" selected" + (" || goto failed" + "\n")) == (front + " selected") + " || goto failed" + "\n";
  }

  method WriteTitle(b: Builder) returns (ghost p: seq<Cmd>)
    modifies b
    ensures p == [Label("start"), Menu(TITLE)]
    ensures b.text == old(b.text) + Listing(p)
  {
    hide Listing, TITLE;
    ghost var start := b.text;
    NothingWritten(Vars("", 0, "", map[]), "");
    b.WriteString(":start\n");
    PutLine(b.text, start, ":start\n", [], Label("start"));
    b.WriteString("menu " + TITLE + "\n");
    PutLine(b.text, start, "menu " + TITLE + "\n", [] + [Label("start")], Menu(TITLE));
    p := [] + [Label("start")] + [Menu(TITLE)];
  }

  method WriteItems(b: Builder, entries: seq<MenuEntry>)
    modifies b
    ensures b.text == old(b.text) + Listing(Items(Names(entries), Labels(entries)))
  {
    hide Listing;
    ghost var start, all := b.text, Items(Names(entries), Labels(entries));
    NothingWritten(Vars("", 0, "", map[]), "");
    for i := 0 to |entries|
      invariant b.text == start + Listing(all[..i])
    {
      var line := "item " + entries[i].name + " " + entries[i].labelText + "\n";
      b.WriteString(line);
      ItemSpelled(entries[i].name, entries[i].labelText);
      PutLine(b.text, start, line, all[..i], all[i]);
      assert all[..i + 1] == all[..i] + [all[i]];
    }
    assert all[..|entries|] == all;
  }

  lemma ItemSpelled(n: string, t: string)
    ensures "item " + n + " " + t + "\n" == Print(Cmd.Item(n, t)) + "\n"
  {
    assert "item " + n + " " + t == "item" + " " + (n + " " + t);
  }

  method WriteMenuHead(b: Builder, entries: seq<MenuEntry>, mc: MenuConfig) returns (ghost p: seq<Cmd>)
    modifies b
    ensures p == [Label("start"), Menu(TITLE)] + Items(Names(entries), Labels(entries))
                 + [Blank, Choose(mc.default, Millis(mc), "failed"), GotoSelected]
    ensures b.text == old(b.text) + Listing(p)
  {
    hide Listing, ChooseWords, Items, Millis;
    ghost var start := b.text;
    p := WriteTitle(b);
    WriteItems(b, entries);
    ghost var c1, c2, c3 := Blank, Choose(mc.default, Millis(mc), "failed"), GotoSelected;
    PutPage(b.text, start, p, Items(Names(entries), Labels(entries)));
    p := p + Items(Names(entries), Labels(entries));
    b.WriteString("\n");
    var choose := ChooseLine(mc);
    b.WriteString(choose);
    b.WriteString("goto ${selected}\n");
    PutThree(start, p, c1, c2, c3);
    p := p + [c1, c2, c3];
  }

  method WriteEntry(b: Builder, e: MenuEntry, vars: Vars) returns (ghost block: seq<Cmd>)
    modifies b
    ensures CompilesAll(MenuActions(e, vars), vars, "start", block)
    ensures b.text == old(b.text) + Listing(block)
  {
    hide Outcome, FileTemplate, CompilesAll, Listing;
    if e.kind.Exit? {
      b.WriteString("exit 0\n");
      ExitWritten(vars);
      block := [Cmd.Exit];
    } else if e.boot.chain != "" {
      block := WriteChain(b, e, vars, "start");
    } else {
      block := WriteBootEntry(b, e, vars);
      NoChainNoRetry(BootActions(e, vars), vars, "failed", "start", block);
    }
  }

  lemma ExitWritten(vars: Vars)
    ensures CompilesAll([LeaveMenu], vars, "start", [Cmd.Exit])
    ensures Listing([Cmd.Exit]) == "exit 0\n"
  {
    assert [Cmd.Exit][1..] == [];
  }

  method WriteSection(b: Builder, e: MenuEntry, vars: Vars) returns (ghost block: seq<Cmd>)
    modifies b
    ensures CompilesAll(MenuActions(e, vars), vars, "start", block)
    ensures b.text == old(b.text) + Listing([Blank, Label(e.name)] + block)
  {
    hide MenuActions, CompilesAll, Listing;
    b.WriteString("\n:" + e.name + "\n");
    HeadSpelled(e.name);
    block := WriteEntry(b, e, vars);
    PutPage(b.text, old(b.text), [Blank, Label(e.name)], block);
  }

  lemma HeadSpelled(name: string)
    ensures Listing([Blank, Label(name)]) == "\n:" + name + "\n"
  {
    assert [Blank, Label(name)][1..] == [Label(name)] && [Label(name)][1..] == [];
    assert Listing([Label(name)]) == ":" + name + "\n" + "";
  }

  lemma NoChainNoRetry(acts: seq<Action>, vars: Vars, r1: string, r2: string, cmds: seq<Cmd>)
    requires CompilesAll(acts, vars, r1, cmds) && forall i :: 0 <= i < |acts| ==> !acts[i].ChainTo?
    ensures CompilesAll(acts, vars, r2, cmds)
  {
    forall i | 0 <= i < |acts| ensures Compiles(acts[i], vars, r2, cmds[i]) {
      assert Compiles(acts[i], vars, r1, cmds[i]);
    }
  }

  method WriteHandler(b: Builder)
    modifies b
    ensures b.text == old(b.text) + Listing(HANDLER)
  {
    b.WriteString("\n:failed\n");
    b.WriteString("echo " + RETRY_TEXT + "\n");
    b.WriteString("sleep 5\n");
    b.WriteString("goto start\n");
    HandlerSpelled(old(b.text));
  }

  lemma PutThree(t: string, p: seq<Cmd>, c1: Cmd, c2: Cmd, c3: Cmd)
    ensures t + Listing(p) + (Print(c1) + "\n") + (Print(c2) + "\n") + (Print(c3) + "\n")
              == t + Listing(p + [c1, c2, c3])
  {
    hide Listing, Print;
    var t1 := t + Listing(p) + (Print(c1) + "\n");
    var t2 := t1 + (Print(c2) + "\n");
    PutLine(t1, t, Print(c1) + "\n", p, c1);
    PutLine(t2, t, Print(c2) + "\n", p + [c1], c2);
    PutLine(t2 + (Print(c3) + "\n"), t, Print(c3) + "\n", p + [c1] + [c2], c3);
    assert p + [c1] + [c2] + [c3] == p + [c1, c2, c3];
  }

  lemma HandlerSpelled(t: string)
    ensures t + "\n:failed\n" + ("echo " + RETRY_TEXT + "\n") + "sleep 5\n" + "goto start\n" == t + Listing(HANDLER)
  {
    hide Listing, RETRY_TEXT, Print;
    PrintLines();
    var p := [Blank, Label("failed")];
    PutThree(t, p, Echo(RETRY_TEXT), Sleep("5"), Goto("start"));
    assert HANDLER == p + [Echo(RETRY_TEXT), Sleep("5"), Goto("start")];
    HeadSpelled("failed");
    FailedSpelled();
    LineSpelled("echo", RETRY_TEXT, "echo " + RETRY_TEXT + "\n");
    LineSpelled("sleep", "5", "sleep 5\n");
    LineSpelled("goto", "start", "goto start\n");
  }

  lemma PrintLines()
    ensures Print(Echo(RETRY_TEXT)) == Line("echo", RETRY_TEXT)
    ensures Print(Sleep("5")) == Line("sleep", "5") && Print(Goto("start")) == Line("goto", "start")
  {
    hide RETRY_TEXT, Line;
  }

  lemma FailedSpelled()
    ensures "\n:" + "failed" + "\n" == "\n:failed\n"
  {
  }

  lemma LineSpelled(verb: string, rest: string, line: string)
    requires line == verb + " " + rest + "\n"
    ensures Line(verb, rest) + "\n" == line
  {
  }

  method WriteMenu(b: Builder, entries: seq<MenuEntry>, mc: MenuConfig, vars: Vars)
    returns (ghost blocks: seq<seq<Cmd>>)
    modifies b
    ensures MenuBlocks(entries, vars, blocks)
    ensures b.text == old(b.text) + Listing(MenuBody(entries, mc, blocks))
  {
    hide Listing, CompilesAll, MenuActions, Items, HANDLER;
    ghost var start := b.text;
    ghost var head := WriteMenuHead(b, entries, mc);
    blocks := [];
    ghost var names := Names(entries);
    assert head + Sections(names[..0], blocks) == head;
    for i := 0 to |entries|
      invariant |blocks| == i
      invariant forall j :: 0 <= j < i ==> CompilesAll(MenuActions(entries[j], vars), vars, "start", blocks[j])
      invariant b.text == start + Listing(head + Sections(names[..i], blocks))
    {
      ghost var block := WriteSection(b, entries[i], vars);
      ghost var section := [Blank, Label(names[i])] + block;
      PutPage(b.text, start, head + Sections(names[..i], blocks), section);
      SectionsOneMore(names[..i], blocks, names[i], block);
      assert names[..i + 1] == names[..i] + [names[i]];
      assert head + Sections(names[..i], blocks) + section == head + Sections(names[..i + 1], blocks + [block]);
      blocks := blocks + [block];
    }
    assert names[..|entries|] == names;
    WriteHandler(b);
    PutPage(b.text, start, head + Sections(names, blocks), HANDLER);
  }

  // ---------------------------------------------------------------- whole scripts

  const SHEBANG: seq<Cmd> := [Comment("!ipxe"), Blank]

  /** A single entry that is not an exit boots without a menu. */
  predicate IsDirect(entries: seq<MenuEntry>) {
    |entries| == 1 && !entries[0].kind.Exit?
  }

  ghost predicate DirectScript(e: MenuEntry, vars: Vars, script: string, block: seq<Cmd>) {
    CompilesAll(BootActions(e, vars), vars, "failed", block) && script == Listing(SHEBANG + block)
  }

  ghost predicate OverrideScript(e: MenuEntry, vars: Vars, script: string, block: seq<Cmd>) {
    && CompilesAll(BootActions(e, vars), vars, "failed", block)
    && script == Listing(SHEBANG + [Comment(" One-time boot override")] + block)
  }

  ghost predicate MenuText(entries: seq<MenuEntry>, mc: MenuConfig, vars: Vars, script: string, blocks: seq<seq<Cmd>>) {
    && MenuBlocks(entries, vars, blocks)
    && script == Listing(MenuScript(Names(entries), Labels(entries), mc.default, Millis(mc), blocks))
  }

  ghost predicate Generated(entries: seq<MenuEntry>, mc: MenuConfig, vars: Vars, script: string) {
    if IsDirect(entries) then exists block :: DirectScript(entries[0], vars, script, block)
    else exists blocks :: MenuText(entries, mc, vars, script, blocks)
  }

  lemma ShebangSpelled()
    ensures Listing(SHEBANG) == "#!ipxe\n\n"
  {
    assert SHEBANG[1..] == [Blank] && [Blank][1..] == [];
    assert Listing([Blank]) == "\n";
  }

  method Generate(entries: seq<MenuEntry>, mc: MenuConfig, vars: Vars) returns (script: string)
    ensures Generated(entries, mc, vars, script)
  {
    hide Listing, CompilesAll, MenuActions, BootActions, MenuBlocks, MenuScript, MenuBody;
    var b := new Builder();
    b.WriteString("#!ipxe\n\n");
    ShebangSpelled();
    assert b.text == Listing(SHEBANG);
    if |entries| == 1 && !entries[0].kind.Exit? {
      ghost var block := WriteBootEntry(b, entries[0], vars);
      ListingAppend(SHEBANG, block);
      assert DirectScript(entries[0], vars, b.text, block);
      return b.text;
    }
    ghost var blocks := WriteMenu(b, entries, mc, vars);
    assert |blocks| == |entries| by { BlocksSized(entries, vars, blocks); }
    ListingAppend(SHEBANG, MenuBody(entries, mc, blocks));
    MenuBodyIsScript(entries, mc, blocks);
    assert MenuText(entries, mc, vars, b.text, blocks);
    return b.text;
  }

  lemma BlocksSized(entries: seq<MenuEntry>, vars: Vars, blocks: seq<seq<Cmd>>)
    requires MenuBlocks(entries, vars, blocks)
    ensures |blocks| == |entries|
  {
  }

  method GenerateOverride(e: MenuEntry, vars: Vars) returns (script: string)
    ensures exists block :: OverrideScript(e, vars, script, block)
  {
    hide Listing, CompilesAll, BootActions;
    var b := new Builder();
    b.WriteString("#!ipxe\n\n");
    ShebangSpelled();
    b.WriteString("# One-time boot override\n");
    PutLine(b.text, "", "# One-time boot override\n", SHEBANG, Comment(" One-time boot override"));
    ghost var block := WriteBootEntry(b, e, vars);
    ListingAppend(SHEBANG + [Comment(" One-time boot override")], block);
    assert OverrideScript(e, vars, b.text, block);
    return b.text;
  }
}
