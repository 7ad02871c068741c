/** The URLs in a boot script, spelled out, and the files that the HTTP server
    answers them with. */
module BootURLs {
  import opened Text
  import opened Domain
  import opened Rewriting
  import opened Script
  import opened Machine
  import opened MenuLayout
  import opened Generator
  import opened Paths

  // ---------------------------------------------------------------- a file's URL

  /** Without placeholders there is nothing to substitute. */
  lemma {:induction false} DollarFreeRewritten(s: string, keys: seq<string>, value: map<string, string>)
    requires '$' !in s && forall k :: k in keys ==> k in value
    ensures Rewrite(s, keys, value) == s
    decreases |keys|
  {
    if keys != [] {
      var p := Placeholder(keys[0]);
      forall i | 0 <= i <= |s| ensures !(p <= s[i..]) {
        assert p[0] == '$' && forall c :: c in s[i..] ==> c in s;
      }
      ReplaceAbsent(s, p, value[keys[0]]);
      DollarFreeRewritten(s, keys[1..], value);
    }
  }

  lemma DollarFreeOutcome(s: string, vars: Vars, r: string)
    requires '$' !in s
    ensures Outcome(s, vars, r) <==> r == s
  {
    hide Rewrite;
    SetOrdered(vars.custom.Keys);
    forall order | IsOrder(order, vars.custom.Keys) ensures Sequential(s, vars, order) == s {
      DollarFreeRewritten(s, BUILTINS, BuiltinValues(vars));
      DollarFreeRewritten(s, order, vars.custom);
    }
  }

  lemma SetOrdered(keys: set<string>)
    ensures exists order :: IsOrder(order, keys)
  {
    var order := SetToOrder(keys);
  }

  predicate DollarFree(s: string) { '$' !in s }

  /** What a script loads for a file of an entry with a path: the server, the
      path with one slash at its end, the file. The entry's name is not in it. */
  lemma PathURL(e: MenuEntry, file: string, vars: Vars, url: string)
    requires e.http.path != "" && Outcome(FileTemplate(e, file, vars), vars, url)
    requires DollarFree(e.http.path) && DollarFree(file) && DollarFree(vars.serverIP)
    ensures e.http.path[|e.http.path| - 1] == '/' ==>
              url == "http://" + vars.serverIP + ":" + Decimal(vars.httpPort) + e.http.path + file
    ensures e.http.path[|e.http.path| - 1] != '/' ==>
              url == "http://" + vars.serverIP + ":" + Decimal(vars.httpPort) + e.http.path + "/" + file
  {
    hide Outcome, Decimal;
    PortIsPlain(vars.httpPort);
    DollarFreeOutcome(FileTemplate(e, file, vars), vars, url);
    assert e.http.path + "/" + file == (e.http.path + "/") + file;
  }

  lemma PortIsPlain(n: int)
    ensures DollarFree(Decimal(n)) && '/' !in Decimal(n)
  {
    assert '$' !in DIGITS && '/' !in DIGITS;
  }

  /** The name of an entry with a path does not matter; without a path its name
      is the path. */
  lemma NameIsFallback(e: MenuEntry, file: string, vars: Vars, name: string)
    ensures e.http.path != "" ==> FileTemplate(e.(name := name), file, vars) == FileTemplate(e, file, vars)
    ensures e.http.path == "" ==>
              FileTemplate(e, file, vars)
              == FileTemplate(e.(http := e.http.(path := "/" + e.name + "/"), name := name), file, vars)
  {
    hide Decimal;
    var server := "http://" + vars.serverIP + ":" + Decimal(vars.httpPort);
    assert server + "/" + e.name + "/" + file == server + ("/" + e.name + "/") + file;
  }

  // ---------------------------------------------------------------- what a booting machine loads

  function AllOk(n: nat): (oks: seq<bool>)
    ensures |oks| == n && forall i :: 0 <= i < n ==> oks[i]
  {
    seq(n, _ => true)
  }

  lemma {:induction false} LoadsBoot(b: seq<Cmd>, images: seq<Cmd>, trace: seq<Try>, oks: seq<bool>)
    requires b != [] && b[|b| - 1].Boot? && |oks| == |b| && forall i :: 0 <= i < |b| ==> oks[i]
    requires forall i :: 0 <= i < |b| - 1 ==> b[i].Kernel? || b[i].Initrd?
    ensures RunBlock(b, images, trace, oks).status == Booted(images + b[..|b| - 1])
    decreases |b|
  {
    if |b| == 1 {
      assert images + [] == images;
    } else {
      LoadsBoot(b[1..], images + [b[0]], trace + [Try(b[0], oks[0])], oks[1..]);
      assert images + [b[0]] + b[1..][..|b[1..]| - 1] == images + b[..|b| - 1];
    }
  }

  /** The texts of an entry, without placeholders, and a folder as its path. */
  predicate Plain(e: MenuEntry, vars: Vars) {
    && DollarFree(vars.serverIP) && DollarFree(e.http.path)
    && e.http.path != "" && e.http.path[|e.http.path| - 1] == '/'
    && DollarFree(e.boot.kernel) && DollarFree(e.boot.initrd) && DollarFree(e.boot.cmdline)
    && DollarFree(e.boot.binary) && DollarFree(e.boot.image) && DollarFree(e.boot.chain)
    && forall f :: f in e.boot.files ==> DollarFree(f)
  }

  /** Where an entry's files are. */
  function Folder(e: MenuEntry, vars: Vars): string {
    "http://" + vars.serverIP + ":" + Decimal(vars.httpPort) + e.http.path
  }

  lemma CompiledLoads(e: MenuEntry, vars: Vars, file: string, cmdline: string, retry: string, c: Cmd)
    requires Plain(e, vars) && DollarFree(file) && DollarFree(cmdline)
    ensures var url := Folder(e, vars) + file;
            && (Compiles(LoadFile(FileTemplate(e, file, vars)), vars, retry, c) ==> c == Initrd(url))
            && (Compiles(RunBinary(FileTemplate(e, file, vars)), vars, retry, c) ==> c == Cmd.Chain(url, false, ""))
            && (Compiles(LoadKernel(FileTemplate(e, file, vars), cmdline), vars, retry, c) ==>
                  c == Kernel(if cmdline == "" then url else url + " " + cmdline))
  {
    hide Outcome, Decimal;
    var t := FileTemplate(e, file, vars);
    PortIsPlain(vars.httpPort);
    assert t == Folder(e, vars) + file;
    forall r ensures (Outcome(t, vars, r) <==> r == t) && (Outcome(cmdline, vars, r) <==> r == cmdline) {
      DollarFreeOutcome(t, vars, r);
      DollarFreeOutcome(cmdline, vars, r);
    }
  }

  /** The kernel with its command line, the initrd, the image. */
  function Images(boot: BootParams, folder: string): seq<Cmd> {
    (if boot.kernel == "" then []
     else if boot.cmdline == "" then [Kernel(folder + boot.kernel)]
     else [Kernel(folder + boot.kernel + " " + boot.cmdline)])
    + (if boot.initrd == "" then [] else [Initrd(folder + boot.initrd)])
    + (if boot.image == "" then [] else [Initrd(folder + boot.image)])
  }

  /** What a machine holds when it boots an entry and everything loads: the
      kernel with its command line, then the initrd, then the image, each from
      the entry's folder; or wimboot and the listed files; or it is somewhere
      else altogether. */
  lemma WhatBoots(e: MenuEntry, vars: Vars, retry: string, b: seq<Cmd>)
    requires CompilesAll(BootActions(e, vars), vars, retry, b) && Plain(e, vars)
    ensures var folder := "http://" + vars.serverIP + ":" + Decimal(vars.httpPort) + e.http.path;
            var end := RunBlock(b, [], [], AllOk(|b|)).status;
            && (e.boot.loader == "wimboot" ==>
                  && end.Booted? && |end.images| == 1 + |e.boot.files| && end.images[0] == Kernel(folder + "wimboot")
                  && forall i :: 0 <= i < |e.boot.files| ==> end.images[i + 1] == Initrd(folder + e.boot.files[i]))
            && (e.boot.loader != "wimboot" && e.boot.chain != "" ==> end == Chained(e.boot.chain))
            && (e.boot.loader != "wimboot" && e.boot.chain == "" && e.boot.binary != "" ==>
                  end == Chained(folder + e.boot.binary))
            && (e.boot.loader != "wimboot" && e.boot.chain == e.boot.binary == "" ==>
                  end == Booted(Images(e.boot, folder)))
  {
    hide Outcome, Decimal, Compiles, FileTemplate, RunBlock;
    if e.boot.loader == "wimboot" {
      WimbootBoots(e, vars, retry, b);
    } else if e.boot.chain != "" || e.boot.binary != "" {
      ChainBoots(e, vars, retry, b);
    } else {
      KernelBoots(e, vars, retry, b);
    }
  }

  lemma WimbootBoots(e: MenuEntry, vars: Vars, retry: string, b: seq<Cmd>)
    requires CompilesAll(BootActions(e, vars), vars, retry, b) && Plain(e, vars) && e.boot.loader == "wimboot"
    ensures var end := RunBlock(b, [], [], AllOk(|b|)).status;
            && end.Booted? && |end.images| == 1 + |e.boot.files| && end.images[0] == Kernel(Folder(e, vars) + "wimboot")
            && forall i :: 0 <= i < |e.boot.files| ==> end.images[i + 1] == Initrd(Folder(e, vars) + e.boot.files[i])
  {
    hide Folder, RunBlock, CompilesAll, BootActions, Plain;
    WimbootCompiled(e, vars, retry, b);
    LoadsBoot(b, [], [], AllOk(|b|));
    assert [] + b[..|b| - 1] == b[..|b| - 1];
  }

  lemma WimbootCompiled(e: MenuEntry, vars: Vars, retry: string, b: seq<Cmd>)
    requires CompilesAll(BootActions(e, vars), vars, retry, b) && Plain(e, vars) && e.boot.loader == "wimboot"
    ensures |b| == |e.boot.files| + 2 && b[0] == Kernel(Folder(e, vars) + "wimboot") && b[|b| - 1] == Boot
    ensures forall i :: 0 <= i < |e.boot.files| ==> b[i + 1] == Initrd(Folder(e, vars) + e.boot.files[i])
    ensures forall i :: 0 <= i < |b| - 1 ==> b[i].Kernel? || b[i].Initrd?
  {
    hide Compiles, Folder, FileTemplate, Plain, DollarFree;
    var acts, n := BootActions(e, vars), |e.boot.files|;
    FilesPlain(e, vars);
    assert acts[0] == LoadKernel(FileTemplate(e, "wimboot", vars), "") && acts[n + 1] == BootNow;
    assert Compiles(acts[0], vars, retry, b[0]) && Compiles(acts[n + 1], vars, retry, b[n + 1]);
    CompiledLoads(e, vars, "wimboot", "", retry, b[0]);
    BootCompiled(vars, retry, b[n + 1]);
    forall j | 1 <= j < n + 1 ensures b[j] == Initrd(Folder(e, vars) + e.boot.files[j - 1]) {
      assert acts[j] == LoadFile(FileTemplate(e, e.boot.files[j - 1], vars));
      assert Compiles(acts[j], vars, retry, b[j]);
      CompiledLoads(e, vars, e.boot.files[j - 1], "", retry, b[j]);
    }
  }

  lemma FilesPlain(e: MenuEntry, vars: Vars)
    requires Plain(e, vars)
    ensures DollarFree("wimboot") && DollarFree("") && forall f :: f in e.boot.files ==> DollarFree(f)
  {
  }

  lemma BootCompiled(vars: Vars, retry: string, c: Cmd)
    requires Compiles(BootNow, vars, retry, c)
    ensures c == Boot
  {
  }

  lemma ChainBoots(e: MenuEntry, vars: Vars, retry: string, b: seq<Cmd>)
    requires CompilesAll(BootActions(e, vars), vars, retry, b) && Plain(e, vars)
    requires e.boot.loader != "wimboot" && (e.boot.chain != "" || e.boot.binary != "")
    ensures RunBlock(b, [], [], AllOk(|b|)).status
            == Chained(if e.boot.chain != "" then e.boot.chain else Folder(e, vars) + e.boot.binary)
  {
    hide Outcome, Decimal, FileTemplate;
    assert Compiles(BootActions(e, vars)[0], vars, retry, b[0]);
    if e.boot.chain != "" {
      DollarFreeOutcome(e.boot.chain, vars, b[0].url);
    } else {
      CompiledLoads(e, vars, e.boot.binary, "", retry, b[0]);
    }
  }

  lemma CompilesParts(x: seq<Action>, y: seq<Action>, vars: Vars, retry: string, b: seq<Cmd>)
    requires CompilesAll(x + y, vars, retry, b)
    ensures |b| == |x| + |y| && CompilesAll(x, vars, retry, b[..|x|]) && CompilesAll(y, vars, retry, b[|x|..])
  {
    hide Compiles;
    forall i | 0 <= i < |x| ensures Compiles(x[i], vars, retry, b[..|x|][i]) {
      assert (x + y)[i] == x[i];
    }
    forall i | 0 <= i < |y| ensures Compiles(y[i], vars, retry, b[|x|..][i]) {
      assert (x + y)[|x| + i] == y[i];
    }
  }

  lemma GivenLoads(e: MenuEntry, vars: Vars, file: string, cmdline: string, retry: string, b: seq<Cmd>)
    requires Plain(e, vars) && DollarFree(file) && DollarFree(cmdline)
    ensures var url := Folder(e, vars) + file;
            && (CompilesAll(Given(file, LoadFile(FileTemplate(e, file, vars))), vars, retry, b) ==>
                  b == if file == "" then [] else [Initrd(url)])
            && (CompilesAll(Given(file, LoadKernel(FileTemplate(e, file, vars), cmdline)), vars, retry, b) ==>
                  b == if file == "" then []
                       else [Kernel(if cmdline == "" then url else url + " " + cmdline)])
  {
    hide Compiles, Plain, FileTemplate, Decimal;
    if |b| == 1 {
      CompiledLoads(e, vars, file, cmdline, retry, b[0]);
    }
  }

  lemma KernelBoots(e: MenuEntry, vars: Vars, retry: string, b: seq<Cmd>)
    requires CompilesAll(BootActions(e, vars), vars, retry, b) && Plain(e, vars)
    requires e.boot.loader != "wimboot" && e.boot.chain == e.boot.binary == ""
    ensures RunBlock(b, [], [], AllOk(|b|)).status == Booted(Images(e.boot, Folder(e, vars)))
  {
    hide CompilesAll, Folder, RunBlock, Plain, Images, BootActions;
    KernelCompiled(e, vars, retry, b);
    var loads := Images(e.boot, Folder(e, vars));
    OnlyLoads(e.boot, Folder(e, vars));
    assert b[..|b| - 1] == loads;
    LoadsBoot(b, [], [], AllOk(|b|));
    assert [] + loads == loads;
  }

  lemma OnlyLoads(boot: BootParams, folder: string)
    ensures forall i :: 0 <= i < |Images(boot, folder)| ==>
              Images(boot, folder)[i].Kernel? || Images(boot, folder)[i].Initrd?
  {
  }

  lemma KernelCompiled(e: MenuEntry, vars: Vars, retry: string, b: seq<Cmd>)
    requires CompilesAll(BootActions(e, vars), vars, retry, b) && Plain(e, vars)
    requires e.boot.loader != "wimboot" && e.boot.chain == e.boot.binary == ""
    ensures b == Images(e.boot, Folder(e, vars)) + [Boot]
  {
    hide CompilesAll, FileTemplate, Given, Plain, BootActions, Images, Folder;
    PlainParts(e, vars);
    var x := Given(e.boot.kernel, LoadKernel(FileTemplate(e, e.boot.kernel, vars), e.boot.cmdline));
    var y := Given(e.boot.initrd, LoadFile(FileTemplate(e, e.boot.initrd, vars)));
    var z := Given(e.boot.image, LoadFile(FileTemplate(e, e.boot.image, vars)));
    KernelActions(e, vars);
    var k, i, g := FourParts(x, y, z, vars, retry, b);
    GivenLoads(e, vars, e.boot.kernel, e.boot.cmdline, retry, k);
    GivenLoads(e, vars, e.boot.initrd, "", retry, i);
    GivenLoads(e, vars, e.boot.image, "", retry, g);
    ImagesAre(e.boot, Folder(e, vars), k, i, g);
  }

  lemma KernelActions(e: MenuEntry, vars: Vars)
    requires e.boot.loader != "wimboot" && e.boot.chain == e.boot.binary == ""
    ensures BootActions(e, vars) ==
            Given(e.boot.kernel, LoadKernel(FileTemplate(e, e.boot.kernel, vars), e.boot.cmdline))
            + Given(e.boot.initrd, LoadFile(FileTemplate(e, e.boot.initrd, vars)))
            + Given(e.boot.image, LoadFile(FileTemplate(e, e.boot.image, vars))) + [BootNow]
  {
    hide FileTemplate, Given;
  }

  lemma ImagesAre(boot: BootParams, folder: string, k: seq<Cmd>, i: seq<Cmd>, g: seq<Cmd>)
    requires k == if boot.kernel == "" then []
                  else [Kernel(if boot.cmdline == "" then folder + boot.kernel
                               else folder + boot.kernel + " " + boot.cmdline)]
    requires i == if boot.initrd == "" then [] else [Initrd(folder + boot.initrd)]
    requires g == if boot.image == "" then [] else [Initrd(folder + boot.image)]
    ensures k + i + g == Images(boot, folder)
  {
  }

  lemma FourParts(x: seq<Action>, y: seq<Action>, z: seq<Action>, vars: Vars, retry: string, b: seq<Cmd>)
    returns (k: seq<Cmd>, i: seq<Cmd>, g: seq<Cmd>)
    requires CompilesAll(x + y + z + [BootNow], vars, retry, b)
    ensures b == k + i + g + [Boot]
    ensures CompilesAll(x, vars, retry, k) && CompilesAll(y, vars, retry, i) && CompilesAll(z, vars, retry, g)
  {
    hide CompilesAll;
    CompilesParts(x + y + z, [BootNow], vars, retry, b);
    LastIsBoot(b[|x + y + z|..], vars, retry);
    var loads := b[..|x + y + z|];
    CompilesParts(x + y, z, vars, retry, loads);
    CompilesParts(x, y, vars, retry, loads[..|x + y|]);
    k, i, g := loads[..|x + y|][..|x|], loads[..|x + y|][|x|..], loads[|x + y|..];
    assert loads[..|x + y|] == k + i && loads == loads[..|x + y|] + g && b == loads + [Boot];
  }

  lemma LastIsBoot(b: seq<Cmd>, vars: Vars, retry: string)
    requires CompilesAll([BootNow], vars, retry, b)
    ensures b == [Boot]
  {
  }

  lemma PlainParts(e: MenuEntry, vars: Vars)
    requires Plain(e, vars)
    ensures DollarFree(e.boot.kernel) && DollarFree(e.boot.cmdline)
    ensures DollarFree(e.boot.initrd) && DollarFree(e.boot.image)
  {
  }

  // ---------------------------------------------------------------- what the server answers

  /** The path of an http URL: what follows the host. */
  function PathOf(url: string): string
    requires "http://" <= url
  {
    UptoIsPrefix(url[7..], '/');
    url[7..][|Upto(url[7..], '/')|..]
  }

  /** The routes of the HTTP server for a path that is clean already: a file below
      /data/, a client's script, or neither. */
  datatype Route = Data(rest: string) | Scripts(mac: string) | Elsewhere

  function RouteOf(path: string): Route {
    if "/data/" <= path then Data(path[6..])
    else if "/boot/" <= path && |path| > 16 && path[|path| - 10..] == "/menu.ipxe" && '/' !in path[6..|path| - 10]
    then Scripts(path[6..|path| - 10])
    else Elsewhere
  }

  /** The file that is opened for the rest of a path below /data/; none when two
      dots occur in it. */
  ghost function Opened(dataDir: string, rest: string): Option<string> {
    if Occurs("..", Clean(rest)) then None else Some(Join(dataDir, Clean("/" + rest)))
  }

  lemma PathAfterHost(host: string, path: string)
    requires '/' !in host && path != "" && path[0] == '/'
    ensures PathOf("http://" + host + path) == path
  {
    var url := "http://" + host + path;
    assert url[7..] == host + ['/'] + path[1..];
    UptoFinds(host, '/', path[1..]);
  }

  /** The path that a script asks the server for, of an entry with an absolute
      path. */
  lemma AsksFor(e: MenuEntry, file: string, vars: Vars, url: string)
    requires e.http.path != "" && e.http.path[0] == '/' && '/' !in vars.serverIP
    requires Outcome(FileTemplate(e, file, vars), vars, url)
    requires DollarFree(e.http.path) && DollarFree(file) && DollarFree(vars.serverIP)
    ensures "http://" <= url
    ensures PathOf(url) == e.http.path + (if e.http.path[|e.http.path| - 1] == '/' then "" else "/") + file
  {
    hide Outcome, Decimal, FileTemplate, PathOf;
    PathURL(e, file, vars, url);
    PortIsPlain(vars.httpPort);
    var host := vars.serverIP + ":" + Decimal(vars.httpPort);
    var slash := if e.http.path[|e.http.path| - 1] == '/' then "" else "/";
    assert url == "http://" + host + (e.http.path + slash + file);
    PathAfterHost(host, e.http.path + slash + file);
  }

  /** An entry's files are served exactly when its path is below /data/. */
  lemma ServedExactly(e: MenuEntry, file: string, vars: Vars, url: string)
    requires e.http.path != "" && e.http.path[0] == '/' && '/' !in vars.serverIP
    requires Outcome(FileTemplate(e, file, vars), vars, url)
    requires DollarFree(e.http.path) && DollarFree(file) && DollarFree(vars.serverIP) && '/' !in file
    ensures "http://" <= url
    ensures RouteOf(PathOf(url)).Data? <==> e.http.path == "/data" || "/data/" <= e.http.path
  {
    hide Outcome, FileTemplate, PathOf;
    AsksFor(e, file, vars, url);
    var path := PathOf(url);
    if "/data/" <= path {
      assert path[5] == '/' && path[..5] == "/data";
      assert |e.http.path| >= 5 ==> e.http.path[..5] == path[..5];
      assert forall i :: 0 <= i < |e.http.path| ==> e.http.path[i] == path[i];
      assert e.http.path[|e.http.path| - 1] != '/' ==> path[|e.http.path|] == '/';
    }
  }

  /** A path below /data/ and a file name lead to that file of that directory in
      the data directory. */
  lemma FolderIsServed(e: MenuEntry, ds: seq<string>, fs: seq<string>, base: seq<string>, vars: Vars, url: string)
    requires AllProper(ds) && AllProper(fs) && AllProper(base) && ds != [] && fs != [] && '/' !in vars.serverIP
    requires e.http.path == "/data" + Slashed(ds) + "/" && !Occurs("..", Relative(ds + fs))
    requires DollarFree(e.http.path) && DollarFree(Relative(fs)) && DollarFree(vars.serverIP)
    requires Outcome(FileTemplate(e, Relative(fs), vars), vars, url)
    ensures "http://" <= url && RouteOf(PathOf(url)) == Data(Relative(ds) + "/" + Relative(fs))
    ensures Opened(Absolute(base), Relative(ds) + "/" + Relative(fs)) == Some(Absolute(base + ds + fs))
    ensures Join(Join(Absolute(base), Relative(ds)), Relative(fs)) == Absolute(base + ds + fs)
  {
    hide Outcome, FileTemplate, PathOf, Slashed, Relative, Join, Opened, Occurs, Absolute;
    AsksFor(e, Relative(fs), vars, url);
    SlashedStarts(ds);
    var rest := Relative(ds) + "/" + Relative(fs);
    assert "/data" + Slashed(ds) + "/" + Relative(fs) == "/data/" + rest;
    assert ("/data/" + rest)[6..] == rest;
    SlashedJoin(ds, fs);
    OpensFile(base, ds + fs);
    assert base + (ds + fs) == base + ds + fs;
    JoinRelative(base, ds);
    JoinRelative(base + ds, fs);
  }

  lemma OpensFile(base: seq<string>, cs: seq<string>)
    requires AllProper(base) && AllProper(cs) && cs != [] && !Occurs("..", Relative(cs))
    ensures Opened(Absolute(base), Relative(cs)) == Some(Absolute(base + cs))
  {
    hide Split, Walk, Occurs, Slashed;
    SlashedStarts(cs);
    RestIsClean(cs);
    AbsoluteComponents(cs);
    JoinAbsolute(base, Absolute(cs));
    FromAbsolute(base, cs);
  }

  lemma SlashedStarts(cs: seq<string>)
    requires cs != []
    ensures Slashed(cs) != "" && Slashed(cs)[0] == '/' && Slashed(cs) == "/" + Relative(cs)
  {
  }

  lemma {:induction false} SlashedAppend(a: seq<string>, b: seq<string>)
    ensures Slashed(a + b) == Slashed(a) + Slashed(b)
  {
    if a == [] {
      assert a + b == b;
    } else {
      assert (a + b)[1..] == a[1..] + b;
      SlashedAppend(a[1..], b);
    }
  }

  lemma SlashedJoin(a: seq<string>, b: seq<string>)
    requires a != [] && b != []
    ensures Relative(a + b) == Relative(a) + "/" + Relative(b)
  {
    hide Slashed;
    SlashedAppend(a, b);
    SlashedStarts(a);
    SlashedStarts(b);
    SlashedStarts(a + b);
    assert Slashed(a + b) == "/" + (Relative(a) + "/" + Relative(b));
  }

  lemma RestIsClean(cs: seq<string>)
    requires AllProper(cs) && cs != []
    ensures Clean(Relative(cs)) == Relative(cs)
  {
    hide Split;
    SplitSlashed(cs);
    assert Proper(cs[0]);
    assert Relative(cs)[0] == cs[0][0];
    WalkFree([], cs);
    assert [] + cs == cs;
  }

  lemma {:induction false} WalkFree(at: seq<string>, cs: seq<string>)
    requires AllProper(cs)
    ensures Walk(false, at, cs) == at + cs
    decreases |cs|
  {
    if cs == [] {
      assert at + cs == at;
    } else {
      assert AllProper(cs[1..]) && Proper(cs[0]);
      WalkFree(at + [cs[0]], cs[1..]);
      assert at + [cs[0]] + cs[1..] == at + cs;
    }
  }

  lemma JoinRelative(base: seq<string>, cs: seq<string>)
    requires AllProper(base) && AllProper(cs) && cs != []
    ensures Join(Absolute(base), Relative(cs)) == Absolute(base + cs)
  {
    hide Split;
    assert Proper(cs[0]);
    JoinAbsolute(base, Relative(cs));
    SplitSlashed(cs);
    WalkProper(base, cs);
  }

  // ---------------------------------------------------------------- what validation is for

  /** A valid entry that is no exit loads something or goes somewhere. */
  lemma ValidEntryBoots(e: MenuEntry, vars: Vars)
    requires e.Valid() && !e.kind.Exit?
    ensures BootActions(e, vars) != [BootNow] && MenuActions(e, vars) != [BootNow]
  {
    hide FileTemplate;
  }

  /** One parameter is enough, if it is the right one: a kernel for what is
      installed, run or used as a tool, a binary for a tool, a URL for a chain. */
  lemma OneParameterIsEnough(e: MenuEntry, x: string)
    requires e.name != "" && e.labelText != "" && x != ""
    ensures e.(boot := NO_BOOT.(kernel := x)).Valid() <==> e.kind in {Install, Live, Tool, MenuType.Exit}
    ensures e.(boot := NO_BOOT.(binary := x)).Valid() <==> e.kind in {Tool, MenuType.Exit}
    ensures e.(boot := NO_BOOT.(chain := x)).Valid() <==> e.kind in {MenuType.Chain, MenuType.Exit}
    ensures e.(boot := NO_BOOT).Valid() <==> e.kind == MenuType.Exit
  {
  }
}
