/** Entry names with spaces, which the validator lets through: iPXE reads only
    the first word of an item, and looks for a label of that name. */
module SpacedNames {
  import opened Text
  import opened Domain
  import opened Rewriting
  import opened Script
  import opened Machine
  import opened MenuLayout
  import opened MenuRun
  import opened ClosedScripts
  import opened JumpTargets
  import opened Generator
  import opened CleanScripts
  import opened FirstWords

  /** What iPXE reads of such a menu's text: the items' first words, but the
      sections' full names. */
  lemma SplitReads(entries: seq<MenuEntry>, mc: MenuConfig, vars: Vars, script: string, blocks: seq<seq<Cmd>>,
                   words: seq<string>, rests: seq<string>)
    requires MenuText(entries, mc, vars, script, blocks) && SplitItems(entries, words, rests)
    requires Framed(Names(entries), mc, blocks)
    ensures ParseScript(script) == LaidOut(words, rests, Names(entries), mc.default, Millis(mc), blocks)
  {
    hide Listing, TidyBlock, Sections, MenuBlocks, HANDLER, Word, OneLine, Millis, Items;
    var names, ms := Names(entries), Millis(mc);
    var top := [Comment("!ipxe"), Blank, Label("start"), Menu(TITLE)];
    var low := [Blank, Choose(mc.default, ms, "failed"), GotoSelected];
    var read := LaidOut(words, rests, names, mc.default, ms, blocks);
    var s := Sections(names, blocks);
    ItemsSplit(entries, words, rests);
    FixedTidy(mc);
    SectionsTidy(names, blocks);
    TidyJoin(top, Items(words, rests));
    TidyJoin(top + Items(words, rests), low);
    TidyJoin(top + Items(words, rests) + low, s);
    TidyJoin(top + Items(words, rests) + low + s, HANDLER);
    FiveParts(top, Items(names, Labels(entries)), low, s, HANDLER);
    FiveParts(top, Items(words, rests), low, s, HANDLER);
    ParseTidy(read);
  }

  /** Clean fields give such a menu, when no name is empty or starts with a
      space and the default is one word. */
  lemma CleanSplits(entries: seq<MenuEntry>, mc: MenuConfig, vars: Vars, blocks: seq<seq<Cmd>>)
    returns (words: seq<string>, rests: seq<string>)
    requires MenuBlocks(entries, vars, blocks) && CleanVars(vars)
    requires forall e :: e in entries ==> CleanEntry(e) && e.name != "" && e.name[0] != ' '
    requires Clean(mc.default) && ' ' !in mc.default
    ensures SplitItems(entries, words, rests) && Framed(Names(entries), mc, blocks)
  {
    hide CleanVars, MenuBlocks, TidyBlock, Upto, Line, OneLine, Clean;
    assert |blocks| == |entries| by { BlocksSized(entries, vars, blocks); }
    CleanBlocksTidy(entries, vars, blocks);
    CleanIsOneLine(mc.default);
    words := seq(|entries|, i requires 0 <= i < |entries| => FirstWord(entries[i]));
    rests := seq(|entries|, i requires 0 <= i < |entries| => AfterFirstWord(entries[i]));
    forall i | 0 <= i < |entries|
      ensures Word(words[i]) && OneLine(rests[i]) && '\n' !in entries[i].name
      ensures Line(entries[i].name, entries[i].labelText) == Line(words[i], rests[i])
    {
      assert entries[i] in entries;
      FirstWordSplits(entries[i]);
    }
  }

  // ---------------------------------------------------------------- when a session is lost

  /** Some session ends at a missing label exactly when some entry's first word
      is no label of the script. */
  lemma SpacedNamesLostExactly(entries: seq<MenuEntry>, mc: MenuConfig, vars: Vars, script: string,
                               blocks: seq<seq<Cmd>>, words: seq<string>, rests: seq<string>)
    requires MenuText(entries, mc, vars, script, blocks) && SplitItems(entries, words, rests)
    requires Framed(Names(entries), mc, blocks)
    ensures (exists choices, oks, n :: Steps(ParseScript(script), Init(choices, oks), n).status.NoLabel?)
            <==> exists w :: w in words && !Labelled(Names(entries), w)
  {
    hide Steps, Yields, ParseScript, Framed, SplitItems, Blocks, Labelled, MenuText, Millis;
    var names, ms := Names(entries), Millis(mc);
    SplitReads(entries, mc, vars, script, blocks, words, rests);
    assert |words| == |rests| == |names| == |blocks| by { SplitSizes(entries, mc, blocks, words, rests); }
    BlocksCompiled(entries, mc, vars, script, blocks);
    var p := ParseScript(script);
    if w :| w in words && !Labelled(names, w) {
      var k :| 0 <= k < |words| && words[k] == w;
      LostPick(words, rests, names, mc.default, ms, blocks, k);
      YieldsSometime(p, Init([Pick(k)], []), Final(NoLabel(w), [], [], []));
    } else {
      forall choices, oks, n ensures !Steps(p, Init(choices, oks), n).status.NoLabel? {
        LaidOutNeverLost(words, rests, names, mc.default, ms, blocks, choices, oks, n);
      }
    }
  }

  // ---------------------------------------------------------------- which menu it is instead

  /** When every first word is an entry's name, the script is the menu in which
      each item runs the entry that its first word names. */
  lemma FirstWordsMean(entries: seq<MenuEntry>, mc: MenuConfig, vars: Vars, script: string, blocks: seq<seq<Cmd>>,
                       words: seq<string>, rests: seq<string>)
    requires MenuText(entries, mc, vars, script, blocks) && SplitItems(entries, words, rests)
    requires Framed(Names(entries), mc, blocks) && SafeNames(Names(entries))
    requires forall w :: w in words ==> w in Names(entries)
    ensures MeansMenu(ParseScript(script), words, Redirected(words, Names(entries), blocks), mc.default, Millis(mc))
  {
    hide ParseScript, Framed, SplitItems, Blocks, MenuText, Millis, MeansMenu, LaidOut, BlockAt, HandlerAt, LabelAt;
    var names, ms := Names(entries), Millis(mc);
    SplitReads(entries, mc, vars, script, blocks, words, rests);
    assert |words| == |rests| == |names| == |blocks| by { SplitSizes(entries, mc, blocks, words, rests); }
    BlocksCompiled(entries, mc, vars, script, blocks);
    LaidOutHasLayout(words, rests, names, mc.default, ms, blocks);
    var p, r := LaidOut(words, rests, names, mc.default, ms, blocks), Redirected(words, names, blocks);
    assert Blocks(r) by { RedirectedBlocks(words, names, blocks); }
    RedirectedLayout(p, words, names, blocks, mc.default, ms);
    LayoutMeans(p, words, r, mc.default, ms);
  }

  /** The script means the menu of its own entries exactly when none is called
      start or failed and the first word of each names an entry whose block does
      what the entry's own block does. */
  lemma SpacedMeaningExactly(entries: seq<MenuEntry>, mc: MenuConfig, vars: Vars, script: string, blocks: seq<seq<Cmd>>,
                             words: seq<string>, rests: seq<string>)
    requires MenuText(entries, mc, vars, script, blocks) && SplitItems(entries, words, rests)
    requires Framed(Names(entries), mc, blocks)
    ensures var names := Names(entries);
            MeansMenu(ParseScript(script), names, blocks, mc.default, Millis(mc))
            <==> SafeNames(names) && RunsItself(words, names, blocks)
  {
    hide ParseScript, Framed, SplitItems, Blocks, MenuText, Millis, MeansMenu, RunsItself, Redirected;
    var names, ms := Names(entries), Millis(mc);
    var p := ParseScript(script);
    assert |words| == |rests| == |names| == |blocks| by { SplitSizes(entries, mc, blocks, words, rests); }
    BlocksCompiled(entries, mc, vars, script, blocks);
    if SafeNames(names) && forall w :: w in words ==> w in names {
      FirstWordsMean(entries, mc, vars, script, blocks, words, rests);
      OwnOrNot(entries, mc, blocks, words, rests, p);
    } else {
      assert !RunsItself(words, names, blocks) || !SafeNames(names) by { NotItself(words, names, blocks); }
      SplitReads(entries, mc, vars, script, blocks, words, rests);
      if "start" in names || "failed" in names { UnsafeNames(entries, mc, blocks, words, rests); }
      if w :| w in words && w !in names { StrayWord(words, rests, names, mc.default, ms, blocks, w); }
    }
  }
}
