/** An item whose name contains a space is read as its first word and the rest:
    the listing with such items, the sessions that get lost in it or do not, and
    how a menu whose items run other entries' blocks compares with the menu that
    was meant, one pick at a time. */
module FirstWords {
  import opened Text
  import opened Domain
  import opened Rewriting
  import opened Script
  import opened Machine
  import opened MenuLayout
  import opened MenuRun
  import opened JumpTargets
  import opened Generator
  import opened CleanScripts
  import opened BootMeaning

  /** The item lines of a menu as iPXE splits them: a word, and the rest. */
  ghost predicate SplitItems(entries: seq<MenuEntry>, words: seq<string>, rests: seq<string>) {
    && |words| == |rests| == |entries|
    && forall i :: 0 <= i < |entries| ==>
         Word(words[i]) && OneLine(rests[i]) && Line(entries[i].name, entries[i].labelText) == Line(words[i], rests[i])
  }

  lemma {:induction false} SamePrint(p: seq<Cmd>, q: seq<Cmd>)
    requires |p| == |q| && forall i :: 0 <= i < |p| ==> Print(p[i]) == Print(q[i])
    ensures Listing(p) == Listing(q)
  {
    hide Print;
    if p != [] {
      SamePrint(p[1..], q[1..]);
    }
  }

  lemma ItemsSplit(entries: seq<MenuEntry>, words: seq<string>, rests: seq<string>)
    requires SplitItems(entries, words, rests)
    ensures Listing(Items(Names(entries), Labels(entries))) == Listing(Items(words, rests))
    ensures TidyBlock(Items(words, rests))
  {
    hide Line, Word, OneLine;
    var p, q := Items(Names(entries), Labels(entries)), Items(words, rests);
    forall i | 0 <= i < |p| ensures Print(p[i]) == Print(q[i]) {}
    SamePrint(p, q);
    forall c | c in q ensures Tidy(c) {
      var i :| 0 <= i < |q| && q[i] == c;
    }
  }

  ghost predicate Framed(names: seq<string>, mc: MenuConfig, blocks: seq<seq<Cmd>>) {
    && |blocks| == |names| && (forall n :: n in names ==> '\n' !in n)
    && (mc.default == "" || Word(mc.default))
    && (forall b :: b in blocks ==> TidyBlock(b))
  }

  lemma FiveParts(a: seq<Cmd>, b: seq<Cmd>, c: seq<Cmd>, d: seq<Cmd>, e: seq<Cmd>)
    ensures Listing(a + b + c + d + e) == Listing(a) + Listing(b) + Listing(c) + Listing(d) + Listing(e)
  {
    hide Listing;
    ListingAppend(a, b);
    ListingAppend(a + b, c);
    ListingAppend(a + b + c, d);
    ListingAppend(a + b + c + d, e);
  }

  lemma NoSuchLabel(words: seq<string>, rests: seq<string>, names: seq<string>, default: string, ms: nat,
                    blocks: seq<seq<Cmd>>, w: string)
    requires |words| == |rests| && |names| == |blocks| && Blocks(blocks) && !Labelled(names, w)
    ensures var p := LaidOut(words, rests, names, default, ms, blocks); LabelAt(p, w) == |p|
  {
    hide LabelAt, Header, Sections, Blocks, HANDLER;
    HeaderSize(words, rests, default, ms);
    LaidOutLabels(words, rests, names, default, ms, blocks, w);
    SectionAt(names, blocks, w);
    LabelAtAppend(Sections(names, blocks), HANDLER, w);
    HandlerHasFailed(w);
  }

  lemma HandlerHasFailed(w: string)
    requires w != "failed"
    ensures LabelAt(HANDLER, w) == |HANDLER|
  {
    hide LabelAt;
    assert HANDLER == [Blank] + ([Label("failed")] + HANDLER[2..]);
    LabelAtAppend([Blank], [Label("failed")] + HANDLER[2..], w);
    LabelFree([Blank], w);
    LabelFirst("failed", HANDLER[2..], w);
    LabelFree(HANDLER[2..], w);
  }

  function FirstWord(e: MenuEntry): string { Upto(Line(e.name, e.labelText), ' ') }

  function AfterFirstWord(e: MenuEntry): string {
    var w := FirstWord(e);
    UptoIsPrefix(Line(e.name, e.labelText), ' ');
    if |w| < |Line(e.name, e.labelText)| then Line(e.name, e.labelText)[|w| + 1..] else ""
  }

  lemma FirstWordSplits(e: MenuEntry)
    requires CleanEntry(e) && e.name != "" && e.name[0] != ' '
    ensures Word(FirstWord(e)) && OneLine(AfterFirstWord(e)) && '\n' !in e.name
    ensures Line(e.name, e.labelText) == Line(FirstWord(e), AfterFirstWord(e))
  {
    var line, w := Line(e.name, e.labelText), FirstWord(e);
    UptoIsPrefix(line, ' ');
    assert line[|e.name|] == ' ';
    assert w == line[..|w|];
    assert forall i {:trigger line[i]} :: 0 <= i < |w| ==> w[i] == line[i] && w[i] != ' ';
    assert |w| <= |e.name|;
    assert line == w + " " + line[|w| + 1..];
    assert w[0] == e.name[0];
    assert Clean(line);
    CleanIsOneLine(w);
    CleanIsOneLine(line[|w| + 1..]);
  }

  // ---------------------------------------------------------------- when a session is lost

  lemma BlocksCompiled(entries: seq<MenuEntry>, mc: MenuConfig, vars: Vars, script: string, blocks: seq<seq<Cmd>>)
    requires MenuText(entries, mc, vars, script, blocks) && |blocks| == |entries|
    ensures Blocks(blocks)
  {
    hide IsBlock, MenuActions, Listing, MenuScript;
    forall b | b in blocks ensures IsBlock(b, "start") {
      var i :| 0 <= i < |blocks| && blocks[i] == b;
      MenuBlockShape(entries[i], vars, b);
    }
  }

  lemma SplitSizes(entries: seq<MenuEntry>, mc: MenuConfig, blocks: seq<seq<Cmd>>, words: seq<string>,
                   rests: seq<string>)
    requires SplitItems(entries, words, rests) && Framed(Names(entries), mc, blocks)
    ensures |words| == |rests| == |Names(entries)| == |entries| == |blocks|
  {
  }

  lemma YieldsSometime(p: seq<Cmd>, st: State, f: Final)
    requires Yields(p, st, f)
    ensures exists n :: Steps(p, st, n).status == f.status
  {
    hide Steps;
    var n: nat :| Steps(p, st, n).status != Running && Observe(Steps(p, st, n)) == f;
  }

  lemma LostPick(words: seq<string>, rests: seq<string>, names: seq<string>, default: string, ms: nat,
                 blocks: seq<seq<Cmd>>, k: nat)
    requires |words| == |rests| && |names| == |blocks| && Blocks(blocks)
    requires k < |words| && !Labelled(names, words[k])
    ensures var p := LaidOut(words, rests, names, default, ms, blocks);
            Yields(p, Init([Pick(k)], []), Final(NoLabel(words[k]), [], [], []))
  {
    hide Leads, Yields, LabelAt, LaidOut, Blocks, Labelled, BlockAt, HandlerAt;
    var p := LaidOut(words, rests, names, default, ms, blocks);
    LaidOutHasLayout(words, rests, names, default, ms, blocks);
    NoSuchLabel(words, rests, names, default, ms, blocks, words[k]);
    var st := Init([Pick(k)], []);
    var menu := st.(pc := |words| + 5, items := words);
    MenuComesUp(p, st, words, default, ms);
    var st1 := Step(p, menu);
    assert st1 == menu.(choices := [], selected := words[k], pc := |words| + 6) by { assert [Pick(k)][1..] == []; }
    var st2 := Step(p, st1);
    assert st2 == menu.(choices := [], selected := words[k], pc := |words| + 6, status := NoLabel(words[k]));
    LeadsStep(p, menu);
    LeadsStep(p, st1);
    LeadsThen(p, menu, st1, st2);
    LeadsThen(p, st, menu, st2);
    StopYields(p, st, st2);
  }

  // ---------------------------------------------------------------- which menu it is instead

  /** The blocks that the first words lead to. */
  function Redirected(words: seq<string>, names: seq<string>, blocks: seq<seq<Cmd>>): (r: seq<seq<Cmd>>)
    requires |blocks| == |names| && forall w :: w in words ==> w in names
    ensures |r| == |words| && forall i :: 0 <= i < |words| ==> r[i] == blocks[IndexOf(names, words[i])]
  {
    seq(|words|, i requires 0 <= i < |words| => assert words[i] in words; blocks[IndexOf(names, words[i])])
  }

  lemma RedirectedLayout(p: seq<Cmd>, words: seq<string>, names: seq<string>, blocks: seq<seq<Cmd>>,
                         default: string, ms: nat)
    requires |blocks| == |names| == |words| && HeaderAt(p, words, default, ms) && SafeNames(names)
    requires LabelAt(p, "start") == 2 && HandlerAt(p, LabelAt(p, "failed"))
    requires forall x :: x in names && x != "start" ==> BlockAt(p, LabelAt(p, x) + 1, blocks[IndexOf(names, x)])
    requires forall w :: w in words ==> w in names
    ensures Layout(p, words, Redirected(words, names, blocks), default, ms)
  {
    hide BlockAt, HandlerAt, LabelAt, HeaderAt, IndexOf;
    var r := Redirected(words, names, blocks);
    forall x | x in words ensures BlockAt(p, LabelAt(p, x) + 1, r[IndexOf(words, x)]) {
      assert words[IndexOf(words, x)] == x;
    }
  }

  lemma RedirectedBlocks(words: seq<string>, names: seq<string>, blocks: seq<seq<Cmd>>)
    requires |blocks| == |names| && Blocks(blocks) && forall w :: w in words ==> w in names
    ensures Blocks(Redirected(words, names, blocks))
  {
    hide IsBlock;
    var r := Redirected(words, names, blocks);
    forall b | b in r ensures IsBlock(b, "start") {
      var i :| 0 <= i < |r| && r[i] == b;
      assert b == blocks[IndexOf(names, words[i])] && b in blocks;
    }
  }

  /** Two blocks make the same tries and end alike under every outcome. */
  ghost predicate SameEnds(b: seq<Cmd>, c: seq<Cmd>) {
    forall oks :: RunBlock(b, [], [], oks) == RunBlock(c, [], [], oks)
  }

  lemma {:induction false} EarlierTries(b: seq<Cmd>, images: seq<Cmd>, before: seq<Try>, trace: seq<Try>,
                                        oks: seq<bool>)
    ensures var r := RunBlock(b, images, trace, oks);
            && RunBlock(b, images, before + trace, oks) == r.(trace := before + r.trace)
            && (r.status != Running ==> r.back == "")
    decreases |b|
  {
    if b != [] && oks != [] && !b[0].Exit? {
      var t := Try(b[0], oks[0]);
      assert before + trace + [t] == before + (trace + [t]);
      if !b[0].Chain? && !b[0].Boot? && oks[0] {
        EarlierTries(b[1..], images + [b[0]], before, trace + [t], oks[1..]);
      }
    }
  }

  lemma SameEndsLater(b: seq<Cmd>, c: seq<Cmd>, trace: seq<Try>, oks: seq<bool>)
    requires SameEnds(b, c)
    ensures RunBlock(b, [], trace, oks) == RunBlock(c, [], trace, oks)
  {
    hide RunBlock;
    EarlierTries(b, [], trace, [], oks);
    EarlierTries(c, [], trace, [], oks);
    assert trace + [] == trace;
  }

  /** The same choice runs alike blocks in both menus, or none in either. */
  ghost predicate SamePick(ns: seq<string>, bs: seq<seq<Cmd>>, ms: seq<string>, cs: seq<seq<Cmd>>,
                           default: string, wait: nat, c: Choice)
    requires |ns| == |bs| && |ms| == |cs|
  {
    var x, y := Chosen(ns, default, wait, c), Chosen(ms, default, wait, c);
    && (x.Item? <==> y.Item?)
    && (x.Item? ==> x.name in ns && y.name in ms && SameEnds(bs[IndexOf(ns, x.name)], cs[IndexOf(ms, y.name)]))
  }

  lemma {:induction false} SameSessions(ns: seq<string>, bs: seq<seq<Cmd>>, ms: seq<string>, cs: seq<seq<Cmd>>,
                                        default: string, wait: nat, choices: seq<Choice>, oks: seq<bool>,
                                        trace: seq<Try>)
    requires |ns| == |bs| && |ms| == |cs| && forall c :: SamePick(ns, bs, ms, cs, default, wait, c)
    ensures RunMenu(ns, bs, default, wait, choices, oks, trace) == RunMenu(ms, cs, default, wait, choices, oks, trace)
    decreases |choices|
  {
    hide RunBlock, SameEnds, Chosen;
    if choices != [] {
      var x, y := Chosen(ns, default, wait, choices[0]), Chosen(ms, default, wait, choices[0]);
      assert SamePick(ns, bs, ms, cs, default, wait, choices[0]);
      if x.Item? {
        SameEndsLater(bs[IndexOf(ns, x.name)], cs[IndexOf(ms, y.name)], trace, oks);
        var r := RunBlock(bs[IndexOf(ns, x.name)], [], trace, oks);
        SameSessions(ns, bs, ms, cs, default, wait, choices[1..], r.oks, r.trace);
      } else {
        SameSessions(ns, bs, ms, cs, default, wait, choices[1..], oks, trace);
      }
    }
  }

  /** A name without spaces is its own first word. */
  lemma SingleWord(name: string, text: string, word: string, rest: string)
    requires Line(name, text) == Line(word, rest) && ' ' !in name && ' ' !in word
    ensures word == name
  {
    UptoFinds(name, ' ', text);
    UptoFinds(word, ' ', rest);
    assert name + [' '] + text == Line(name, text) && word + [' '] + rest == Line(word, rest);
  }

  lemma DefaultIsItsWord(entries: seq<MenuEntry>, mc: MenuConfig, blocks: seq<seq<Cmd>>, words: seq<string>,
                         rests: seq<string>)
    requires SplitItems(entries, words, rests) && Framed(Names(entries), mc, blocks)
    requires forall w :: w in words ==> w in Names(entries)
    ensures forall i :: 0 <= i < |entries| && entries[i].name == mc.default ==> words[i] == mc.default
    ensures mc.default in words <==> mc.default in Names(entries)
  {
    hide Line, OneLine;
    var names := Names(entries);
    forall i | 0 <= i < |entries| && entries[i].name == mc.default ensures words[i] == mc.default {
      SingleWord(entries[i].name, entries[i].labelText, words[i], rests[i]);
    }
    if mc.default in names {
      var i :| 0 <= i < |names| && names[i] == mc.default;
      assert words[i] == mc.default;
    }
  }

  /** What each entry's item runs is what the entry's own block does. */
  ghost predicate RunsItself(words: seq<string>, names: seq<string>, blocks: seq<seq<Cmd>>)
    requires |blocks| == |names| == |words|
  {
    forall i :: 0 <= i < |words| ==>
      words[i] in names && SameEnds(blocks[IndexOf(names, words[i])], blocks[IndexOf(names, names[i])])
  }

  lemma AllSamePicks(entries: seq<MenuEntry>, mc: MenuConfig, blocks: seq<seq<Cmd>>, words: seq<string>,
                     rests: seq<string>, wait: nat)
    requires SplitItems(entries, words, rests) && Framed(Names(entries), mc, blocks)
    requires RunsItself(words, Names(entries), blocks) && forall w :: w in words ==> w in Names(entries)
    ensures forall c ::
              SamePick(words, Redirected(words, Names(entries), blocks), Names(entries), blocks, mc.default, wait, c)
  {
    hide SplitItems, Framed, SameEnds, SamePick, AlikeAt, RunsItself, Redirected, IndexOf, Names;
    var names := Names(entries);
    assert |words| == |names| == |blocks| by { SplitSizes(entries, mc, blocks, words, rests); }
    DefaultIsItsWord(entries, mc, blocks, words, rests);
    AlikePlaces(words, names, blocks);
    PairedPicks(words, Redirected(words, names, blocks), names, blocks, mc.default, wait);
  }

  /** The items in this place run alike blocks. */
  ghost predicate AlikeAt(ns: seq<string>, bs: seq<seq<Cmd>>, ms: seq<string>, cs: seq<seq<Cmd>>, i: nat)
    requires |ns| == |bs| == |ms| == |cs| && i < |ns|
  {
    SameEnds(bs[IndexOf(ns, ns[i])], cs[IndexOf(ms, ms[i])])
  }

  lemma AlikePlaces(words: seq<string>, names: seq<string>, blocks: seq<seq<Cmd>>)
    requires |words| == |names| == |blocks| && RunsItself(words, names, blocks)
    requires forall w :: w in words ==> w in names
    ensures forall i :: 0 <= i < |words| ==> AlikeAt(words, Redirected(words, names, blocks), names, blocks, i)
  {
    hide SameEnds, IndexOf;
    forall i | 0 <= i < |words| ensures AlikeAt(words, Redirected(words, names, blocks), names, blocks, i) {
      assert words[IndexOf(words, words[i])] == words[i];
    }
  }

  lemma PairedPick(ns: seq<string>, bs: seq<seq<Cmd>>, ms: seq<string>, cs: seq<seq<Cmd>>, default: string, wait: nat,
                   c: Choice)
    requires |ns| == |bs| == |ms| == |cs| && forall i :: 0 <= i < |ns| ==> AlikeAt(ns, bs, ms, cs, i)
    requires (default in ns <==> default in ms) && forall i :: 0 <= i < |ms| && ms[i] == default ==> ns[i] == default
    ensures SamePick(ns, bs, ms, cs, default, wait, c)
  {
    hide SameEnds;
    match c
    case Cancel =>
    case Pick(i) => if i < |ns| { assert AlikeAt(ns, bs, ms, cs, i); }
    case Idle(_) =>
      if default in ms {
        var j := IndexOf(ms, default);
        assert AlikeAt(ns, bs, ms, cs, j) && ns[j] == default;
      } else if ns != [] {
        assert AlikeAt(ns, bs, ms, cs, 0);
      }
  }

  lemma PairedPicks(ns: seq<string>, bs: seq<seq<Cmd>>, ms: seq<string>, cs: seq<seq<Cmd>>, default: string, wait: nat)
    requires |ns| == |bs| == |ms| == |cs| && forall i :: 0 <= i < |ns| ==> AlikeAt(ns, bs, ms, cs, i)
    requires (default in ns <==> default in ms) && forall i :: 0 <= i < |ms| && ms[i] == default ==> ns[i] == default
    ensures forall c :: SamePick(ns, bs, ms, cs, default, wait, c)
  {
    hide SamePick, AlikeAt;
    forall c ensures SamePick(ns, bs, ms, cs, default, wait, c) {
      PairedPick(ns, bs, ms, cs, default, wait, c);
    }
  }

  lemma OnePick(names: seq<string>, blocks: seq<seq<Cmd>>, default: string, wait: nat, i: nat, oks: seq<bool>)
    requires |blocks| == |names| && i < |names|
    ensures var r := RunBlock(blocks[IndexOf(names, names[i])], [], [], oks);
            RunMenu(names, blocks, default, wait, [Pick(i)], oks, [])
            == Final(if r.status == Running then AwaitChoice else r.status, r.trace, [], r.oks)
  {
    hide RunBlock;
    assert [Pick(i)][1..] == [];
  }

  lemma EndsFromSession(b: seq<Cmd>, c: seq<Cmd>, oks: seq<bool>)
    requires IsBlock(b, "start") && IsBlock(c, "start")
    requires var r, q := RunBlock(b, [], [], oks), RunBlock(c, [], [], oks);
             && (if r.status == Running then AwaitChoice else r.status)
                 == (if q.status == Running then AwaitChoice else q.status)
             && r.trace == q.trace && r.oks == q.oks
    ensures RunBlock(b, [], [], oks) == RunBlock(c, [], [], oks)
  {
    hide RunBlock, IsBlock;
    BlockStaysInside(b, [], [], oks);
    BlockStaysInside(c, [], [], oks);
    EarlierTries(b, [], [], [], oks);
    EarlierTries(c, [], [], [], oks);
    if RunBlock(b, [], [], oks).status == Running {
      OnlyChainsReturn(b, "start", [], [], oks);
      OnlyChainsReturn(c, "start", [], [], oks);
    }
  }

  /** A script that means both menus runs alike blocks for the same pick. */
  lemma BothMeanings(p: seq<Cmd>, ns: seq<string>, bs: seq<seq<Cmd>>, ms: seq<string>, cs: seq<seq<Cmd>>,
                     default: string, wait: nat, i: nat)
    requires |ns| == |bs| && |ms| == |cs| && Blocks(bs) && Blocks(cs) && i < |ns| && i < |ms|
    requires MeansMenu(p, ns, bs, default, wait) && MeansMenu(p, ms, cs, default, wait)
    ensures SameEnds(bs[IndexOf(ns, ns[i])], cs[IndexOf(ms, ms[i])])
  {
    hide RunBlock, RunMenu, Yields, IsBlock;
    var b, c := bs[IndexOf(ns, ns[i])], cs[IndexOf(ms, ms[i])];
    assert b in bs && c in cs;
    forall oks ensures RunBlock(b, [], [], oks) == RunBlock(c, [], [], oks) {
      OnePick(ns, bs, default, wait, i, oks);
      OnePick(ms, cs, default, wait, i, oks);
      YieldsOnce(p, Init([Pick(i)], oks), RunMenu(ns, bs, default, wait, [Pick(i)], oks, []),
                 RunMenu(ms, cs, default, wait, [Pick(i)], oks, []));
      EndsFromSession(b, c, oks);
    }
  }

  lemma NotItself(words: seq<string>, names: seq<string>, blocks: seq<seq<Cmd>>)
    requires |blocks| == |names| == |words|
    ensures RunsItself(words, names, blocks) ==> forall w :: w in words ==> w in names
  {
    hide SameEnds;
  }

  lemma OwnOrNot(entries: seq<MenuEntry>, mc: MenuConfig, blocks: seq<seq<Cmd>>, words: seq<string>, rests: seq<string>,
                 p: seq<Cmd>)
    requires SplitItems(entries, words, rests) && Framed(Names(entries), mc, blocks) && Blocks(blocks)
    requires forall w :: w in words ==> w in Names(entries)
    requires MeansMenu(p, words, Redirected(words, Names(entries), blocks), mc.default, Millis(mc))
    ensures MeansMenu(p, Names(entries), blocks, mc.default, Millis(mc)) <==> RunsItself(words, Names(entries), blocks)
  {
    hide Yields, RunMenu, SameEnds, Millis, Blocks, SamePick, MeansMenu, Framed, SplitItems;
    var names, ms := Names(entries), Millis(mc);
    assert |words| == |names| == |blocks| by { SplitSizes(entries, mc, blocks, words, rests); }
    var r := Redirected(words, names, blocks);
    if RunsItself(words, names, blocks) {
      AllSamePicks(entries, mc, blocks, words, rests, ms);
      MeaningMoves(p, words, r, names, blocks, mc.default, ms);
    }
    if MeansMenu(p, names, blocks, mc.default, ms) {
      RedirectedBlocks(words, names, blocks);
      forall i | 0 <= i < |words|
        ensures words[i] in names && SameEnds(blocks[IndexOf(names, words[i])], blocks[IndexOf(names, names[i])])
      {
        BothMeanings(p, words, r, names, blocks, mc.default, ms, i);
        assert words[IndexOf(words, words[i])] == words[i];
      }
    }
  }

  lemma MeaningMoves(p: seq<Cmd>, ns: seq<string>, bs: seq<seq<Cmd>>, ms: seq<string>, cs: seq<seq<Cmd>>,
                     default: string, wait: nat)
    requires |ns| == |bs| && |ms| == |cs| && MeansMenu(p, ns, bs, default, wait)
    requires forall c :: SamePick(ns, bs, ms, cs, default, wait, c)
    ensures MeansMenu(p, ms, cs, default, wait)
  {
    hide Yields, RunMenu, SamePick;
    forall choices, oks ensures Yields(p, Init(choices, oks), RunMenu(ms, cs, default, wait, choices, oks, [])) {
      SameSessions(ns, bs, ms, cs, default, wait, choices, oks, []);
    }
  }

  lemma UnsafeNames(entries: seq<MenuEntry>, mc: MenuConfig, blocks: seq<seq<Cmd>>, words: seq<string>,
                    rests: seq<string>)
    requires SplitItems(entries, words, rests) && Framed(Names(entries), mc, blocks) && Blocks(blocks)
    requires "start" in Names(entries) || "failed" in Names(entries)
    ensures var p := LaidOut(words, rests, Names(entries), mc.default, Millis(mc), blocks);
            !MeansMenu(p, Names(entries), blocks, mc.default, Millis(mc))
  {
    hide LaidOut, Millis, MeansMenu, BlockAt, HandlerAt, LabelAt, Yields, Line, OneLine, IsBlock;
    var names, ms := Names(entries), Millis(mc);
    var p := LaidOut(words, rests, names, mc.default, ms, blocks);
    LaidOutHasLayout(words, rests, names, mc.default, ms, blocks);
    if "start" in names {
      var i := IndexOf(names, "start");
      SingleWord(entries[i].name, entries[i].labelText, words[i], rests[i]);
      StartComesBack(p, words, mc.default, ms, i);
      PickDoesNothing(p, names, blocks, mc.default, ms, i);
    } else {
      var b := blocks[IndexOf(names, "failed")];
      assert b in blocks;
      CancelDoesSomething(p, words, names, blocks, mc.default, ms, b);
    }
  }

  /** A first word that names no entry: a missing label, or one of the two
      generated labels, from which only the menu comes back. */
  lemma StrayWord(words: seq<string>, rests: seq<string>, names: seq<string>, default: string, ms: nat,
                  blocks: seq<seq<Cmd>>, w: string)
    requires |words| == |rests| == |names| == |blocks| && Blocks(blocks) && w in words && w !in names
    ensures !MeansMenu(LaidOut(words, rests, names, default, ms, blocks), names, blocks, default, ms)
  {
    hide LaidOut, MeansMenu, BlockAt, HandlerAt, LabelAt, Yields, Blocks;
    var p := LaidOut(words, rests, names, default, ms, blocks);
    var k :| 0 <= k < |words| && words[k] == w;
    LaidOutHasLayout(words, rests, names, default, ms, blocks);
    if w == "start" {
      StartComesBack(p, words, default, ms, k);
      PickDoesNothing(p, names, blocks, default, ms, k);
    } else if w == "failed" {
      FailedComesBack(p, words, default, ms, k);
      PickDoesNothing(p, names, blocks, default, ms, k);
    } else {
      LostPick(words, rests, names, default, ms, blocks, k);
      PickEnds(p, names, blocks, default, ms, k, w);
    }
  }

  lemma FailedComesBack(p: seq<Cmd>, items: seq<string>, default: string, ms: nat, i: nat)
    requires HeaderAt(p, items, default, ms) && p[0].Comment? && p[1].Blank? && LabelAt(p, "start") == 2
    requires HandlerAt(p, LabelAt(p, "failed")) && i < |items| && items[i] == "failed"
    ensures Yields(p, Init([Pick(i)], []), Final(AwaitChoice, [], [], []))
  {
    hide Leads, Yields, LabelAt;
    var st := Init([Pick(i)], []);
    var menu := st.(pc := |items| + 5, items := items);
    MenuComesUp(p, st, items, default, ms);
    assert [Pick(i)][1..] == [];
    var picked := menu.(choices := [], selected := "failed");
    PickedFailed(p, menu, picked, items, default, ms);
    HandlerRetries(p, picked.(pc := LabelAt(p, "failed")), LabelAt(p, "failed"));
    MenuComesUp(p, picked.(pc := 2), items, default, ms);
    LeadsThen(p, menu, picked.(pc := LabelAt(p, "failed")), picked.(pc := 2));
    LeadsThen(p, menu, picked.(pc := 2), picked);
    LeadsThen(p, st, menu, picked);
    LeadsStep(p, picked);
    LeadsThen(p, st, picked, Step(p, picked));
    StopYields(p, st, Step(p, picked));
  }

  lemma PickedFailed(p: seq<Cmd>, menu: State, picked: State, items: seq<string>, default: string, ms: nat)
    requires HeaderAt(p, items, default, ms) && LabelAt(p, "failed") < |p| && AtMenu(menu, items)
    requires menu.choices != [] && Chosen(items, default, ms, menu.choices[0]) == Selection.Item("failed")
    requires picked == menu.(choices := menu.choices[1..], selected := "failed")
    ensures Leads(p, menu, picked.(pc := LabelAt(p, "failed")))
  {
    hide Leads, LabelAt, Chosen;
    var st1 := Step(p, menu);
    assert st1 == picked.(pc := |items| + 6);
    assert Step(p, st1) == picked.(pc := LabelAt(p, "failed"));
    LeadsStep(p, menu);
    LeadsStep(p, st1);
    LeadsThen(p, menu, st1, Step(p, st1));
  }

  lemma PickEnds(p: seq<Cmd>, names: seq<string>, blocks: seq<seq<Cmd>>, default: string, ms: nat, k: nat, w: string)
    requires |blocks| == |names| && Blocks(blocks)
    requires Yields(p, Init([Pick(k)], []), Final(NoLabel(w), [], [], []))
    ensures !MeansMenu(p, names, blocks, default, ms)
  {
    hide Yields, RunMenu;
    var g := RunMenu(names, blocks, default, ms, [Pick(k)], [], []);
    SessionNeverLost(names, blocks, default, ms, [Pick(k)], [], []);
    if MeansMenu(p, names, blocks, default, ms) {
      YieldsOnce(p, Init([Pick(k)], []), Final(NoLabel(w), [], [], []), g);
    }
  }
}
