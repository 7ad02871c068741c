/** File paths: the data directory's way through save and load, and the TFTP
    server's check that a request stays inside the bootloader directory. */
module Paths {
  import opened Text
  import opened Domain

  // ---------------------------------------------------------------- path/filepath on Unix

  /** A real path component. */
  predicate Proper(c: string) { c != "" && c != "." && c != ".." && '/' !in c }

  predicate AllProper(cs: seq<string>) { forall c :: c in cs ==> Proper(c) }

  /** Follow components from a position: the loop of filepath.Clean. */
  function Walk(rooted: bool, at: seq<string>, cs: seq<string>): seq<string>
    decreases |cs|
  {
    if cs == [] then at
    else Walk(rooted, Go(rooted, at, cs[0]), cs[1..])
  }

  function Go(rooted: bool, at: seq<string>, c: string): seq<string> {
    if c == "" || c == "." then at
    else if c == ".." then
      if at != [] && at[|at| - 1] != ".." then at[..|at| - 1]
      else if rooted then at
      else at + [".."]
    else at + [c]
  }

  predicate IsAbs(p: string) { p != "" && p[0] == '/' }

  function Slashed(cs: seq<string>): string {
    if cs == [] then "" else "/" + cs[0] + Slashed(cs[1..])
  }

  function Absolute(cs: seq<string>): string {
    if cs == [] then "/" else Slashed(cs)
  }

  function Relative(cs: seq<string>): string {
    if cs == [] then "." else Slashed(cs)[1..]
  }

  function Clean(p: string): string {
    if IsAbs(p) then Absolute(Walk(true, [], Split(p, '/'))) else Relative(Walk(false, [], Split(p, '/')))
  }

  /** filepath.Join of two parts, either of which may be empty. */
  function Join(a: string, b: string): string {
    if a == "" && b == "" then ""
    else if a == "" then Clean(b)
    else if b == "" then Clean(a)
    else Clean(a + "/" + b)
  }

  /** filepath.Abs in a process whose working directory is cwd. */
  function Abs(p: string, cwd: string): string {
    if IsAbs(p) then Clean(p) else Join(cwd, p)
  }

  function Common(a: seq<string>, b: seq<string>): (k: nat)
    ensures k <= |a| && k <= |b| && a[..k] == b[..k]
    ensures k < |a| && k < |b| ==> a[k] != b[k]
  {
    if a == [] || b == [] || a[0] != b[0] then 0
    else
      var k := Common(a[1..], b[1..]);
      assert a[..k + 1] == [a[0]] + a[1..][..k] && b[..k + 1] == [b[0]] + b[1..][..k];
      k + 1
  }

  function Ups(n: nat): (r: seq<string>)
    ensures |r| == n && forall i :: 0 <= i < n ==> r[i] == ".."
  {
    seq(n, _ => "..")
  }

  /** filepath.Rel for two absolute paths, given by their components. */
  function Rel(base: seq<string>, target: seq<string>): string {
    var k := Common(base, target);
    Relative(Ups(|base| - k) + target[k..])
  }

  function Components(p: string): seq<string> {
    Walk(true, [], Split(p, '/'))
  }

  // ---------------------------------------------------------------- laws of walking

  lemma {:induction false} WalkAppend(rooted: bool, at: seq<string>, a: seq<string>, b: seq<string>)
    ensures Walk(rooted, at, a + b) == Walk(rooted, Walk(rooted, at, a), b)
    decreases |a|
  {
    if a == [] {
      assert a + b == b;
    } else {
      assert (a + b)[1..] == a[1..] + b;
      WalkAppend(rooted, Go(rooted, at, a[0]), a[1..], b);
    }
  }

  lemma {:induction false} WalkProper(at: seq<string>, cs: seq<string>)
    requires AllProper(cs)
    ensures Walk(true, at, cs) == at + cs
    decreases |cs|
  {
    if cs == [] {
      assert at + cs == at;
    } else {
      assert AllProper(cs[1..]);
      assert Proper(cs[0]);
      WalkProper(at + [cs[0]], cs[1..]);
      assert at + [cs[0]] + cs[1..] == at + cs;
    }
  }

  lemma {:induction false} WalkStaysProper(at: seq<string>, cs: seq<string>)
    requires AllProper(at) && forall c :: c in cs ==> '/' !in c
    ensures AllProper(Walk(true, at, cs))
    decreases |cs|
  {
    if cs != [] {
      WalkStaysProper(Go(true, at, cs[0]), cs[1..]);
    }
  }

  lemma {:induction false} WalkUps(at: seq<string>, n: nat)
    requires AllProper(at) && n <= |at|
    ensures Walk(true, at, Ups(n)) == at[..|at| - n]
    decreases n
  {
    if n == 0 {
      assert at[..|at|] == at;
    } else {
      assert Ups(n)[1..] == Ups(n - 1);
      assert at[|at| - 1] in at;
      WalkUps(at[..|at| - 1], n - 1);
      assert at[..|at| - 1][..|at| - n] == at[..|at| - n];
    }
  }

  /** Cleaning a relative path first does not change where it leads. */
  lemma {:induction false} WalkCleaned(at: seq<string>, done: seq<string>, cs: seq<string>)
    requires forall c :: c in done ==> c == ".." || (c != "" && c != ".")
    ensures Walk(true, at, Walk(false, done, cs)) == Walk(true, Walk(true, at, done), cs)
    decreases |cs|
  {
    if cs != [] {
      var next := Go(false, done, cs[0]);
      WalkCleaned(at, next, cs[1..]);
      var c := cs[0];
      if c != "" && c != "." {
        if c == ".." && done != [] && done[|done| - 1] != ".." {
          var n := |done| - 1;
          assert done == done[..n] + [done[n]];
          WalkAppend(true, at, done[..n], [done[n]]);
          WalkOne(Walk(true, at, done[..n]), done[n]);
          var w := Walk(true, at, done[..n]);
          assert done[n] in done;
          assert Walk(true, at, done) == w + [done[n]];
          assert Go(true, w + [done[n]], "..") == (w + [done[n]])[..|w|] == w;
        } else {
          WalkAppend(true, at, done, [c]);
          WalkOne(Walk(true, at, done), c);
        }
      }
    }
  }

  lemma WalkOne(at: seq<string>, c: string)
    ensures Walk(true, at, [c]) == Go(true, at, c)
  {
    assert [c][1..] == [];
  }

  // ---------------------------------------------------------------- paths as text

  lemma {:induction false} SplitAppend(a: string, b: string)
    ensures Split(a + "/" + b, '/') == Split(a, '/') + Split(b, '/')
    decreases |a|
  {
    hide Split;
    var w := Upto(a, '/');
    UptoIsPrefix(a, '/');
    assert a + "/" + b == a + ['/'] + b;
    if |w| == |a| {
      SplitFinds(a, '/', b);
    } else {
      var rest := a[|w| + 1..];
      SplitAppend(rest, b);
      SplitFinds(w, '/', rest + "/" + b);
      SplitFinds(w, '/', rest);
      assert a == w + ['/'] + rest;
      assert a + "/" + b == w + ['/'] + (rest + "/" + b);
      assert [w] + (Split(rest, '/') + Split(b, '/')) == [w] + Split(rest, '/') + Split(b, '/');
    }
  }

  lemma {:induction false} SplitHasNoSlash(s: string)
    ensures forall c :: c in Split(s, '/') ==> '/' !in c
    decreases |s|
  {
    UptoIsPrefix(s, '/');
    var w := Upto(s, '/');
    if |w| < |s| {
      SplitHasNoSlash(s[|w| + 1..]);
    }
  }

  lemma {:induction false} SplitSlashed(cs: seq<string>)
    requires cs != [] && forall c :: c in cs ==> '/' !in c
    ensures Split(Slashed(cs), '/') == [""] + cs && Split(Slashed(cs)[1..], '/') == cs
  {
    hide Split;
    var t, s := Slashed(cs[1..]), Slashed(cs);
    assert cs == [cs[0]] + cs[1..] && s[1..] == cs[0] + t;
    assert cs[0] in cs;
    if |cs| == 1 {
      SplitFinds(cs[0], '/', "");
      assert s[1..] == cs[0] && [cs[0]] == cs;
    } else {
      SplitSlashed(cs[1..]);
      StartsSlashed(cs[1..]);
      assert s[1..] == cs[0] + ['/'] + t[1..];
      SplitFinds(cs[0], '/', t[1..]);
    }
    SplitFinds("", '/', s[1..]);
    assert s == "" + ['/'] + s[1..];
  }

  lemma AbsoluteComponents(cs: seq<string>)
    requires AllProper(cs)
    ensures Components(Absolute(cs)) == cs && IsAbs(Absolute(cs)) && Clean(Absolute(cs)) == Absolute(cs)
  {
    if cs == [] {
      SplitFinds("", '/', "");
      assert "" + ['/'] + "" == "/";
      SplitFinds("", '/', "");
      assert Split("/", '/') == ["", ""] && ["", ""][1..] == [""] && [""][1..] == [];
    } else {
      SplitSlashed(cs);
      WalkAppend(true, [], [""], cs);
      WalkOne([], "");
      WalkProper([], cs);
      assert [] + cs == cs;
    }
  }

  lemma JoinAbsolute(cs: seq<string>, p: string)
    requires AllProper(cs) && p != ""
    ensures Join(Absolute(cs), p) == Absolute(Walk(true, cs, Split(p, '/')))
  {
    hide Split;
    var a := Absolute(cs);
    AbsoluteComponents(cs);
    SplitAppend(a, p);
    WalkAppend(true, [], Split(a, '/'), Split(p, '/'));
    assert IsAbs(a + "/" + p);
  }

  lemma {:induction false} WalkFalseDone(at: seq<string>, cs: seq<string>)
    requires (forall c :: c in at ==> c != "" && c != "." && '/' !in c) && forall c :: c in cs ==> '/' !in c
    ensures forall c :: c in Walk(false, at, cs) ==> c != "" && c != "." && '/' !in c
    decreases |cs|
  {
    if cs != [] {
      WalkFalseDone(Go(false, at, cs[0]), cs[1..]);
    }
  }

  /** Where the text of a relative path leads. */
  lemma WalkRelative(at: seq<string>, cs: seq<string>)
    requires forall c :: c in cs ==> c != "" && c != "." && '/' !in c
    ensures Relative(cs) != "" && !IsAbs(Relative(cs))
    ensures Walk(true, at, Split(Relative(cs), '/')) == Walk(true, at, cs)
  {
    if cs == [] {
      SplitFinds(".", '/', "");
      WalkOne(at, ".");
    } else {
      assert cs[0] in cs;
      SplitSlashed(cs);
      assert Slashed(cs)[1..][0] == cs[0][0];
    }
  }

  /** A relative directory, taken from an absolute one, then followed by a
      relative path. */
  lemma AbsJoin(dir: string, p: string, cwd: seq<string>)
    requires AllProper(cwd) && dir != "" && p != "" && !IsAbs(p)
    ensures Abs(Join(dir, p), Absolute(cwd)) == Absolute(Walk(true, Components(Abs(dir, Absolute(cwd))), Split(p, '/')))
    ensures AllProper(Components(Abs(dir, Absolute(cwd))))
    ensures Abs(dir, Absolute(cwd)) == Absolute(Components(Abs(dir, Absolute(cwd))))
  {
    hide Split;
    SplitHasNoSlash(dir);
    SplitHasNoSlash(p);
    SplitAppend(dir, p);
    var d, q := Split(dir, '/'), Split(p, '/');
    if IsAbs(dir) {
      WalkStaysProper([], d);
      AbsoluteComponents(Walk(true, [], d));
      WalkAppend(true, [], d, q);
      WalkStaysProper([], d + q);
      AbsoluteComponents(Walk(true, [], d + q));
      assert IsAbs(dir + "/" + p);
    } else {
      JoinAbsolute(cwd, dir);
      WalkStaysProper(cwd, d);
      AbsoluteComponents(Walk(true, cwd, d));
      WalkAppend(true, cwd, d, q);
      var r := Walk(false, [], d + q);
      WalkFalseDone([], d + q);
      WalkRelative(cwd, r);
      assert Join(dir, p) == Relative(r);
      JoinAbsolute(cwd, Relative(r));
      WalkCleaned(cwd, [], d + q);
    }
  }

  // ---------------------------------------------------------------- the data directory

  /** Only absolute paths are changed; on Unix there is always a way from one
      absolute path to another. */
  function MakeRelative(path: string, baseDir: string, cwd: string): string {
    if path == "" || !IsAbs(path) then path
    else Rel(Components(Abs(baseDir, cwd)), Components(path))
  }

  /** resolvePaths on the data directory. */
  function ResolveDir(path: string, baseDir: string, cwd: string): string {
    if path != "" && !IsAbs(path) then Abs(Join(baseDir, path), cwd) else path
  }

  lemma UpsAndDown(base: seq<string>, target: seq<string>)
    requires AllProper(base) && AllProper(target)
    ensures Walk(true, base, Ups(|base| - Common(base, target)) + target[Common(base, target)..]) == target
  {
    var k := Common(base, target);
    WalkAppend(true, base, Ups(|base| - k), target[k..]);
    WalkUps(base, |base| - k);
    assert AllProper(target[k..]);
    WalkProper(base[..k], target[k..]);
    assert target[..k] + target[k..] == target;
  }

  lemma StepsPlain(n: nat, down: seq<string>)
    requires AllProper(down)
    ensures forall c :: c in Ups(n) + down ==> c != "" && c != "." && '/' !in c
  {
    var steps := Ups(n) + down;
    forall c | c in steps ensures c != "" && c != "." && '/' !in c {
      var i :| 0 <= i < |steps| && steps[i] == c;
      if i < n {
        assert c == "..";
      } else {
        assert c == down[i - n];
        assert Proper(c);
      }
    }
  }

  /** Whatever directory the configuration lives in, a data directory saved
      relative to it loads back as the same absolute path. */
  lemma DataDirRoundTrip(path: seq<string>, dir: string, cwd: seq<string>)
    requires AllProper(path) && AllProper(cwd) && dir != ""
    ensures ResolveDir(MakeRelative(Absolute(path), dir, Absolute(cwd)), dir, Absolute(cwd)) == Absolute(path)
  {
    hide Split, Abs, Join, Absolute, Components;
    AbsoluteComponents(path);
    AbsJoin(dir, ".", cwd) by { assert !IsAbs("."); }
    var base := Components(Abs(dir, Absolute(cwd)));
    assert AllProper(path[Common(base, path)..]);
    var steps := Ups(|base| - Common(base, path)) + path[Common(base, path)..];
    StepsPlain(|base| - Common(base, path), path[Common(base, path)..]);
    WalkRelative(base, steps);
    UpsAndDown(base, path);
    AbsJoin(dir, Relative(steps), cwd);
  }

  /** What a written data directory loads back as. */
  function Reloaded(dataDir: string, dir: string, cwd: string): string {
    if dataDir == "" then ""
    else if IsAbs(dataDir) then Clean(dataDir)
    else Abs(Join(dir, dataDir), cwd)
  }

  /** A data directory that was given is given again. */
  lemma ReloadedGiven(dataDir: string, dir: string, cwd: seq<string>)
    requires AllProper(cwd) && dir != ""
    ensures Reloaded(dataDir, dir, Absolute(cwd)) == "" <==> dataDir == ""
  {
    hide Walk, Split;
    if dataDir != "" && !IsAbs(dataDir) {
      AbsJoin(dir, dataDir, cwd);
    }
  }

  /** Any data directory: an absolute one comes back cleaned, a relative one is
      written as it is and comes back resolved. It is the same exactly when it
      was empty, or absolute and clean. */
  lemma AnyDataDirLoads(dataDir: string, dir: string, cwd: seq<string>)
    requires AllProper(cwd) && dir != ""
    ensures ResolveDir(MakeRelative(dataDir, dir, Absolute(cwd)), dir, Absolute(cwd))
              == Reloaded(dataDir, dir, Absolute(cwd))
    ensures Reloaded(dataDir, dir, Absolute(cwd)) == dataDir <==>
              dataDir == "" || (IsAbs(dataDir) && Clean(dataDir) == dataDir)
  {
    if IsAbs(dataDir) {
      var cs := Components(dataDir);
      SplitHasNoSlash(dataDir);
      WalkStaysProper([], Split(dataDir, '/'));
      AbsoluteComponents(cs);
      DataDirRoundTrip(cs, dir, cwd);
    } else if dataDir != "" {
      AbsJoin(dir, dataDir, cwd);
      AbsoluteIsAbs(Walk(true, Components(Abs(dir, Absolute(cwd))), Split(dataDir, '/')));
    }
  }

  lemma AbsoluteIsAbs(cs: seq<string>)
    ensures IsAbs(Absolute(cs))
  {
  }

  // ---------------------------------------------------------------- the TFTP directory check

  /** Where a request leads from the bootloader directory. */
  function Requested(base: seq<string>, filename: string): seq<string> {
    if IsAbs(filename) then Walk(true, base, Components(filename)) else Walk(true, base, Split(filename, '/'))
  }

  lemma CleanedRequest(base: seq<string>, filename: string, cwd: string)
    requires AllProper(base)
    ensures AllProper(Requested(base, filename))
    ensures Abs(Join(Absolute(base), Clean(filename)), cwd) == Absolute(Requested(base, filename))
  {
    hide Split;
    SplitHasNoSlash(filename);
    var cs := Split(filename, '/');
    if IsAbs(filename) {
      var f := Components(filename);
      WalkStaysProper([], cs);
      WalkProper(base, f);
      WalkStaysProper(base, f);
      JoinAbsolute(base, Absolute(f));
      assert Walk(true, base, Split(Absolute(f), '/')) == base + f by { FromAbsolute(base, f); }
    } else {
      var f := Walk(false, [], cs);
      WalkFalseDone([], cs);
      WalkRelative(base, f);
      JoinAbsolute(base, Relative(f));
      WalkCleaned(base, [], cs);
      WalkStaysProper(base, cs);
    }
    AbsoluteComponents(Requested(base, filename));
  }

  lemma FromAbsolute(base: seq<string>, f: seq<string>)
    requires AllProper(f)
    ensures Walk(true, base, Split(Absolute(f), '/')) == base + f
  {
    if f == [] {
      SplitFinds("", '/', "");
      assert "" + ['/'] + "" == "/";
      assert Split("/", '/') == ["", ""] && ["", ""][1..] == [""] && [""][1..] == [];
      assert base + f == base;
    } else {
      SplitSlashed(f);
      WalkAppend(true, base, [""], f);
      WalkOne(base, "");
      WalkProper(base, f);
    }
  }

  /** The string-prefix test with the separator is the component test. */
  lemma {:induction false} PrefixIsComponents(b: seq<string>, p: seq<string>)
    requires AllProper(b) && AllProper(p)
    ensures Slashed(b) + "/" <= Slashed(p) <==> b < p
    ensures Slashed(b) == Slashed(p) <==> b == p
  {
    if b == [] {
      if p != [] { assert Slashed(p)[0] == '/'; }
    } else if p == [] {
      assert Slashed(b) != "";
    } else {
      assert Proper(b[0]) && Proper(p[0]) && AllProper(b[1..]) && AllProper(p[1..]);
      PrefixIsComponents(b[1..], p[1..]);
      ComponentStep(b[0], b[1..], p[0], p[1..]);
      assert b == [b[0]] + b[1..] && p == [p[0]] + p[1..];
      ConsPrefix(b[0], b[1..], p[0], p[1..]);
    }
  }

  lemma ConsPrefix(x: string, b: seq<string>, y: string, p: seq<string>)
    ensures [x] + b < [y] + p <==> x == y && b < p
    ensures [x] + b == [y] + p <==> x == y && b == p
  {
    var l, r := [x] + b, [y] + p;
    assert l[0] == x && r[0] == y && l[1..] == b && r[1..] == p;
    assert l < r ==> r[1..][..|b|] == l[1..];
    assert x == y && b < p ==> r[..|l|] == l;
  }

  lemma ComponentStep(x: string, b: seq<string>, y: string, p: seq<string>)
    requires '/' !in x && '/' !in y
    ensures "/" + x + Slashed(b) + "/" <= "/" + y + Slashed(p) <==> x == y && Slashed(b) + "/" <= Slashed(p)
    ensures "/" + x + Slashed(b) == "/" + y + Slashed(p) <==> x == y && Slashed(b) == Slashed(p)
  {
    hide Slashed;
    var s, t := Slashed(b), Slashed(p);
    assert (s == "" || s[0] == '/') && (t == "" || t[0] == '/') by { StartsSlashed(b); StartsSlashed(p); }
    FirstComponent(x, s + "/", y, t);
    FirstComponent(x, s, y, t);
    assert "/" + x + s + "/" == "/" + (x + (s + "/")) && "/" + y + t == "/" + (y + t) && "/" + x + s == "/" + (x + s);
    PrefixTail("/", x + (s + "/"), y + t);
    assert ("/" + (x + s))[1..] == x + s && ("/" + (y + t))[1..] == y + t;
  }

  lemma StartsSlashed(b: seq<string>)
    ensures Slashed(b) == "" || Slashed(b)[0] == '/'
  {
  }

  lemma PrefixTail(h: string, a: string, b: string)
    ensures h + a <= h + b <==> a <= b
  {
    if h + a <= h + b {
      assert (h + a)[|h|..] == a && (h + b)[|h|..] == b;
    }
  }

  lemma FirstComponent(x: string, s: string, y: string, t: string)
    requires '/' !in x && '/' !in y && (s == "" || s[0] == '/') && (t == "" || t[0] == '/')
    ensures s != "" ==> (x + s <= y + t <==> x == y && s <= t)
    ensures x + s == y + t <==> x == y && s == t
  {
    var a, b := x + s, y + t;
    assert |x| < |y| ==> b[|x|] == y[|x|] != '/';
    assert |x| > |y| ==> a[|y|] == x[|y|] != '/';
    assert s != "" ==> a[|x|] == '/';
    assert t != "" ==> b[|y|] == '/';
    assert s != "" && a <= b ==> |x| == |y|;
    assert a == b ==> |x| == |y|;
    assert |x| == |y| && a <= b ==> x == a[..|x|] == b[..|x|] == y;
    PrefixTail(x, s, t);
  }

  /** A request is served exactly when it leads to the bootloader directory or
      below it, and what is served is where it leads. In the root directory
      nothing but the root itself passes the check. */
  lemma RequestsStayInside(base: seq<string>, filename: string, cwd: string)
    requires AllProper(base)
    ensures var absBase, absPath := Absolute(base), Absolute(Requested(base, filename));
            && absPath == Abs(Join(absBase, Clean(filename)), cwd)
            && (absBase + "/" <= absPath || absPath == absBase
                <==> if base == [] then Requested(base, filename) == [] else base <= Requested(base, filename))
  {
    hide Split, Requested, Abs, Join, Clean;
    CleanedRequest(base, filename, cwd);
    var p := Requested(base, filename);
    PrefixIsComponents(base, p);
    if base == [] {
      RootPrefix(p);
    } else if p == [] {
      assert |Slashed(base)| > 1 by { assert base[0] in base; }
    }
  }

  /** Requests that lead to the bootloader directory or below it; the root
      directory's separator test lets nothing through but the root. */
  predicate Inside(base: seq<string>, filename: string) {
    if base == [] then Requested(base, filename) == [] else base <= Requested(base, filename)
  }

  /** The bootloader directory has proper components wherever the server was
      started. */
  lemma BaseIsProper(dataDir: string, blDir: string, cwd: seq<string>) returns (base: seq<string>)
    requires AllProper(cwd)
    ensures AllProper(base) && Absolute(base) == Abs(Join(dataDir, blDir), Absolute(cwd))
  {
    var dir := Join(dataDir, blDir);
    if dir == "" {
      base := cwd;
      AbsoluteComponents(cwd);
    } else {
      AbsJoin(dir, ".", cwd);
      base := Components(Abs(dir, Absolute(cwd)));
    }
  }

  /** A request is resolved exactly when it leads inside, to where it leads. */
  method ResolvePath(dataDir: string, blDir: string, cwd: string, filename: string) returns (r: Option<string>)
    ensures forall base :: AllProper(base) && Absolute(base) == Abs(Join(dataDir, blDir), cwd) ==>
              r == if Inside(base, filename) then Some(Absolute(Requested(base, filename))) else None
  {
    hide Abs, Join, Clean, Requested, Absolute, AllProper;
    var baseDir := Join(dataDir, blDir);
    var absBase := Abs(baseDir, cwd);
    var cleaned := Clean(filename);
    var fullPath := Join(absBase, cleaned);
    var absPath := Abs(fullPath, cwd);
    forall base | AllProper(base) && Absolute(base) == absBase
      ensures absPath == Absolute(Requested(base, filename))
      ensures absBase + "/" <= absPath || absPath == absBase <==> Inside(base, filename)
    {
      RequestsStayInside(base, filename, cwd);
    }
    if !(absBase + "/" <= absPath) && absPath != absBase {
      return None;
    }
    return Some(absPath);
  }

  lemma RootPrefix(p: seq<string>)
    requires AllProper(p)
    ensures !("/" + "/" <= Absolute(p)) && (Absolute(p) == "/" <==> p == [])
  {
    if p != [] {
      assert p[0] in p;
      assert Slashed(p)[1] == p[0][0] != '/';
    }
  }

  /** A request with a leading slash never leaves the directory. */
  lemma SlashedRequestsStay(base: seq<string>, filename: string)
    requires AllProper(base) && IsAbs(filename)
    ensures base <= Requested(base, filename)
  {
    SplitHasNoSlash(filename);
    WalkStaysProper([], Split(filename, '/'));
    WalkProper(base, Components(filename));
  }
}
