/** The proof that the labelled script which the generator lays out means what
    the menu means. */
module MenuRun {
  import opened Script
  import opened Machine
  import opened MenuLayout

  // ---------------------------------------------------------------- the layout of the script

  /** The layout of a menu script. */
  lemma MenuHasLayout(names: seq<string>, texts: seq<string>, default: string, ms: nat, blocks: seq<seq<Cmd>>)
    requires |texts| == |names| == |blocks| && Blocks(blocks)
    ensures var p := MenuScript(names, texts, default, ms, blocks);
            && HeaderAt(p, names, default, ms) && p[0].Comment? && p[1].Blank?
            && LabelAt(p, "start") == 2
            && ("failed" !in names ==> HandlerAt(p, LabelAt(p, "failed")))
            && (forall x :: x in names && x != "start" ==> BlockAt(p, LabelAt(p, x) + 1, blocks[IndexOf(names, x)]))
  {
    hide LaidOut, LabelAt, Blocks, BlockAt, HandlerAt, IndexOf;
    LaidOutHasLayout(names, texts, names, default, ms, blocks);
  }

  // ---------------------------------------------------------------- running it

  /** Waiting at the choose line with the whole menu listed. */
  ghost predicate AtMenu(st: State, names: seq<string>) {
    st.status == Running && st.pc == |names| + 5 && st.items == names && st.images == []
  }

  lemma {:induction false} ListItems(p: seq<Cmd>, st: State, names: seq<string>, default: string, ms: nat, k: nat)
    requires HeaderAt(p, names, default, ms) && k <= |names|
    requires st.status == Running && st.pc == k + 4 && st.items == names[..k]
    ensures Leads(p, st, st.(pc := |names| + 5, items := names))
    decreases |names| - k
  {
    LeadsStep(p, st);
    if k == |names| {
      assert names[..k] == names;
    } else {
      assert names[..k + 1] == names[..k] + [names[k]];
      ListItems(p, Step(p, st), names, default, ms, k + 1);
      LeadsThen(p, st, Step(p, st), st.(pc := |names| + 5, items := names));
    }
  }

  lemma StartLists(p: seq<Cmd>, st: State, names: seq<string>, default: string, ms: nat)
    requires HeaderAt(p, names, default, ms) && st.status == Running && st.pc == 2
    ensures Leads(p, st, st.(pc := |names| + 5, items := names))
  {
    var st1 := Step(p, st);
    var st2 := Step(p, st1);
    LeadsStep(p, st);
    LeadsStep(p, st1);
    LeadsThen(p, st, st1, st2);
    assert st2 == st.(pc := 4, items := []);
    ListItems(p, st2, names, default, ms, 0);
    LeadsThen(p, st, st2, st.(pc := |names| + 5, items := names));
  }

  lemma HandlerRetries(p: seq<Cmd>, st: State, f: nat)
    requires HandlerAt(p, f) && LabelAt(p, "start") == 2 && |p| > 2 && st.status == Running && st.pc == f
    ensures Leads(p, st, st.(pc := 2))
  {
    var st1 := Step(p, st);
    var st2 := Step(p, st1);
    var st3 := Step(p, st2);
    LeadsStep(p, st);
    LeadsStep(p, st1);
    LeadsStep(p, st2);
    LeadsStep(p, st3);
    LeadsThen(p, st, st1, st2);
    LeadsThen(p, st, st2, st3);
    LeadsThen(p, st, st3, Step(p, st3));
  }

  lemma {:induction false} OnlyChainsReturn(b: seq<Cmd>, retry: string, images: seq<Cmd>, trace: seq<Try>,
                                            oks: seq<bool>)
    requires IsBlock(b, retry) && RunBlock(b, images, trace, oks).status == Running
    ensures b[0].Chain? && RunBlock(b, images, trace, oks).back == retry
    decreases |b|
  {
    if !b[0].Chain? {
      OnlyChainsReturn(b[1..], retry, images + [b[0]], trace + [Try(b[0], oks[0])], oks[1..]);
    }
  }

  /** Running a block in place does what the block means, whatever surrounds it. */
  lemma {:induction false} BlockRuns(p: seq<Cmd>, st: State, b: seq<Cmd>, retry: string)
    requires IsBlock(b, retry) && retry != "" && BlockAt(p, st.pc, b) && st.status == Running
    ensures var r := RunBlock(b, st.images, st.trace, st.oks);
            if r.status == Running
            then r.back == retry && Leads(p, st, Jump(p, st.(oks := r.oks, trace := r.trace), retry))
            else Yields(p, st, Final(r.status, r.trace, st.choices, r.oks))
    decreases |b|
  {
    hide Leads, Yields;
    var r := RunBlock(b, st.images, st.trace, st.oks);
    if r.status == Running {
      OnlyChainsReturn(b, retry, st.images, st.trace, st.oks);
    }
    assert p[st.pc] == b[0];
    var next := Step(p, st);
    LeadsStep(p, st);
    if next.status != Running {
      StopYields(p, st, next);
    } else if !b[0].Chain? {
      assert BlockAt(p, next.pc, b[1..]);
      BlockRuns(p, next, b[1..], retry);
      LeadsYields(p, st, next, Final(r.status, r.trace, st.choices, r.oks));
    }
  }

  /** From the top of the script, and from :start, the menu comes up. */
  lemma MenuComesUp(p: seq<Cmd>, st: State, names: seq<string>, default: string, ms: nat)
    requires HeaderAt(p, names, default, ms) && st.status == Running && st.images == []
    requires st.pc == 2 || (st.pc == 0 && p[0].Comment? && p[1].Blank?)
    ensures Leads(p, st, st.(pc := |names| + 5, items := names))
    ensures AtMenu(st.(pc := |names| + 5, items := names), names)
  {
    hide Leads;
    if st.pc == 2 {
      StartLists(p, st, names, default, ms);
    } else {
      var st1 := Step(p, st);
      LeadsStep(p, st);
      LeadsStep(p, st1);
      LeadsThen(p, st, st1, Step(p, st1));
      StartLists(p, Step(p, st1), names, default, ms);
      LeadsThen(p, st, Step(p, st1), st.(pc := |names| + 5, items := names));
    }
  }

  /** Cancelling leads over the failure handler back to the menu. */
  lemma CancelReturns(p: seq<Cmd>, st: State, names: seq<string>, default: string, ms: nat)
    requires HeaderAt(p, names, default, ms) && LabelAt(p, "start") == 2 && HandlerAt(p, LabelAt(p, "failed"))
    requires AtMenu(st, names) && st.choices != [] && st.choices[0].Cancel?
    ensures Leads(p, st, st.(choices := st.choices[1..]))
  {
    hide Leads;
    var f := LabelAt(p, "failed");
    var st1 := Step(p, st);
    assert st1 == st.(choices := st.choices[1..], pc := f);
    LeadsStep(p, st);
    HandlerRetries(p, st1, f);
    MenuComesUp(p, st1.(pc := 2), names, default, ms);
    LeadsThen(p, st, st1, st1.(pc := 2));
    LeadsThen(p, st, st1.(pc := 2), st.(choices := st.choices[1..]));
  }

  /** Selecting an entry leads to the start of its block. */
  lemma SelectReaches(p: seq<Cmd>, st: State, names: seq<string>, default: string, ms: nat, x: string)
    requires HeaderAt(p, names, default, ms) && LabelAt(p, x) < |p|
    requires AtMenu(st, names) && st.choices != [] && Chosen(names, default, ms, st.choices[0]) == Selection.Item(x)
    ensures Leads(p, st, st.(choices := st.choices[1..], selected := x, pc := LabelAt(p, x) + 1))
  {
    hide Leads;
    var st1 := Step(p, st);
    var st2 := Step(p, st1);
    assert st2 == st.(choices := st.choices[1..], selected := x, pc := LabelAt(p, x));
    LeadsStep(p, st);
    LeadsStep(p, st1);
    LeadsStep(p, st2);
    LeadsThen(p, st, st1, st2);
    LeadsThen(p, st, st2, Step(p, st2));
  }

  /** A whole session at the menu, whatever the user does and whatever fails. */
  lemma {:induction false} SessionRuns(p: seq<Cmd>, st: State, names: seq<string>, blocks: seq<seq<Cmd>>,
                                       default: string, ms: nat)
    requires |blocks| == |names| && Blocks(blocks) && Layout(p, names, blocks, default, ms) && AtMenu(st, names)
    ensures Yields(p, st, RunMenu(names, blocks, default, ms, st.choices, st.oks, st.trace))
    decreases |st.choices|
  {
    hide Leads, Yields, RunBlock, BlockAt, HandlerAt;
    var f := RunMenu(names, blocks, default, ms, st.choices, st.oks, st.trace);
    LeadsStep(p, st);
    if st.choices == [] {
      StopYields(p, st, Step(p, st));
    } else {
      var rest := st.(choices := st.choices[1..]);
      match Chosen(names, default, ms, st.choices[0])
      case Nothing =>
        if st.choices[0].Cancel? {
          CancelReturns(p, st, names, default, ms);
        } else {
          assert Step(p, st) == rest;
        }
        SessionRuns(p, rest, names, blocks, default, ms);
        LeadsYields(p, st, rest, f);
      case Item(x) =>
        ChosenIsListed(names, default, ms, st.choices[0]);
        EntryRuns(p, st, names, blocks, default, ms, x);
        var r := RunBlock(blocks[IndexOf(names, x)], [], st.trace, st.oks);
        if r.status == Running {
          var back := rest.(selected := x, oks := r.oks, trace := r.trace);
          SessionRuns(p, back, names, blocks, default, ms);
          LeadsYields(p, st, back, f);
        }
    }
  }

  lemma EntryRuns(p: seq<Cmd>, st: State, names: seq<string>, blocks: seq<seq<Cmd>>, default: string, ms: nat,
                  x: string)
    requires |blocks| == |names| && Blocks(blocks) && HeaderAt(p, names, default, ms) && AtMenu(st, names)
    requires x in names && BlockAt(p, LabelAt(p, x) + 1, blocks[IndexOf(names, x)]) && LabelAt(p, "start") == 2
    requires st.choices != [] && Chosen(names, default, ms, st.choices[0]) == Selection.Item(x)
    ensures var r := RunBlock(blocks[IndexOf(names, x)], [], st.trace, st.oks);
            if r.status == Running
            then Leads(p, st, st.(choices := st.choices[1..], selected := x, oks := r.oks, trace := r.trace))
            else Yields(p, st, Final(r.status, r.trace, st.choices[1..], r.oks))
  {
    hide Leads, Yields, RunBlock;
    var b := blocks[IndexOf(names, x)];
    assert IsBlock(b, "start");
    var r := RunBlock(b, [], st.trace, st.oks);
    var at := st.(choices := st.choices[1..], selected := x, pc := LabelAt(p, x) + 1);
    SelectReaches(p, st, names, default, ms, x);
    BlockRuns(p, at, b, "start");
    if r.status == Running {
      var jumped := at.(oks := r.oks, trace := r.trace, pc := 2);
      LeadsThen(p, st, at, jumped);
      MenuComesUp(p, jumped, names, default, ms);
      LeadsThen(p, st, jumped, st.(choices := st.choices[1..], selected := x, oks := r.oks, trace := r.trace));
    } else {
      LeadsYields(p, st, at, Final(r.status, r.trace, st.choices[1..], r.oks));
    }
  }

  /** The script means what the menu means, for every user and every outcome of
      every load. */
  ghost predicate MeansMenu(p: seq<Cmd>, names: seq<string>, blocks: seq<seq<Cmd>>, default: string, ms: nat)
    requires |blocks| == |names|
  {
    forall choices, oks :: Yields(p, Init(choices, oks), RunMenu(names, blocks, default, ms, choices, oks, []))
  }

  predicate SafeNames(names: seq<string>) { "start" !in names && "failed" !in names }

  /** A script with the layout of a menu means it. */
  lemma LayoutMeans(p: seq<Cmd>, names: seq<string>, blocks: seq<seq<Cmd>>, default: string, ms: nat)
    requires |blocks| == |names| && Blocks(blocks) && Layout(p, names, blocks, default, ms)
    requires p[0].Comment? && p[1].Blank?
    ensures MeansMenu(p, names, blocks, default, ms)
  {
    hide Leads, Yields, RunMenu, BlockAt, HandlerAt, LabelAt;
    forall choices, oks ensures Yields(p, Init(choices, oks), RunMenu(names, blocks, default, ms, choices, oks, [])) {
      var st := Init(choices, oks);
      MenuComesUp(p, st, names, default, ms);
      var st' := st.(pc := |names| + 5, items := names);
      SessionRuns(p, st', names, blocks, default, ms);
      LeadsYields(p, st, st', RunMenu(names, blocks, default, ms, choices, oks, []));
    }
  }

  lemma SafeNamesMean(names: seq<string>, texts: seq<string>, default: string, ms: nat, blocks: seq<seq<Cmd>>)
    requires |texts| == |names| == |blocks| && Blocks(blocks) && SafeNames(names)
    ensures MeansMenu(MenuScript(names, texts, default, ms, blocks), names, blocks, default, ms)
  {
    hide MeansMenu, MenuScript, BlockAt, HandlerAt, LabelAt;
    MenuHasLayout(names, texts, default, ms, blocks);
    LayoutMeans(MenuScript(names, texts, default, ms, blocks), names, blocks, default, ms);
  }

  lemma EmptyResults(b: seq<Cmd>, trace: seq<Try>)
    requires b != []
    ensures RunBlock(b, [], trace, []).status in {Exited, AwaitResult}
  {
  }

  /** An item called start sends whoever picks it back to the menu, which runs
      no block. */
  lemma StartComesBack(p: seq<Cmd>, items: seq<string>, default: string, ms: nat, i: nat)
    requires HeaderAt(p, items, default, ms) && p[0].Comment? && p[1].Blank? && LabelAt(p, "start") == 2
    requires i < |items| && items[i] == "start"
    ensures Yields(p, Init([Pick(i)], []), Final(AwaitChoice, [], [], []))
  {
    hide Leads, Yields, LabelAt;
    var st := Init([Pick(i)], []);
    var menu := st.(pc := |items| + 5, items := items);
    MenuComesUp(p, st, items, default, ms);
    SelectReaches(p, menu, items, default, ms, "start");
    assert [Pick(i)][1..] == [];
    var back := menu.(choices := [], selected := "start", pc := 3);
    StartAgain(p, back, items, default, ms);
    LeadsYields(p, menu, back, Final(AwaitChoice, [], [], []));
    LeadsYields(p, st, menu, Final(AwaitChoice, [], [], []));
  }

  /** A script in which picking an entry only brings the menu back does not mean
      the menu: the entry's block would have tried something, or left. */
  lemma PickDoesNothing(p: seq<Cmd>, names: seq<string>, blocks: seq<seq<Cmd>>, default: string, ms: nat, i: nat)
    requires |blocks| == |names| && Blocks(blocks) && i < |names|
    requires Yields(p, Init([Pick(i)], []), Final(AwaitChoice, [], [], []))
    ensures !MeansMenu(p, names, blocks, default, ms)
  {
    hide Yields, RunBlock;
    var b := blocks[IndexOf(names, names[i])];
    assert b in blocks && IsBlock(b, "start");
    EmptyResults(b, []);
    var g := RunMenu(names, blocks, default, ms, [Pick(i)], [], []);
    assert g.status != AwaitChoice;
    if MeansMenu(p, names, blocks, default, ms) {
      YieldsOnce(p, Init([Pick(i)], []), Final(AwaitChoice, [], [], []), g);
    }
  }

  /** An entry called start sends whoever picks it back to the menu. */
  lemma StartCollides(names: seq<string>, texts: seq<string>, default: string, ms: nat, blocks: seq<seq<Cmd>>)
    requires |texts| == |names| == |blocks| && Blocks(blocks) && "start" in names
    ensures !MeansMenu(MenuScript(names, texts, default, ms, blocks), names, blocks, default, ms)
  {
    hide MeansMenu, MenuScript, Yields, BlockAt, HandlerAt, LabelAt;
    var p, i := MenuScript(names, texts, default, ms, blocks), IndexOf(names, "start");
    MenuHasLayout(names, texts, default, ms, blocks);
    StartComesBack(p, names, default, ms, i);
    PickDoesNothing(p, names, blocks, default, ms, i);
  }

  lemma StartAgain(p: seq<Cmd>, st: State, names: seq<string>, default: string, ms: nat)
    requires HeaderAt(p, names, default, ms) && st.status == Running && st.pc == 3
    requires st.choices == [] && st.oks == [] && st.trace == []
    ensures Yields(p, st, Final(AwaitChoice, [], [], []))
  {
    hide Leads, Yields;
    var st1 := Step(p, st);
    LeadsStep(p, st);
    ListItems(p, st1, names, default, ms, 0);
    var menu := st1.(pc := |names| + 5, items := names);
    LeadsThen(p, st, st1, menu);
    LeadsStep(p, menu);
    LeadsThen(p, st, menu, Step(p, menu));
    StopYields(p, st, Step(p, menu));
  }

  /** A script in which cancelling runs a block does not mean a menu. */
  lemma CancelDoesSomething(p: seq<Cmd>, items: seq<string>, names: seq<string>, blocks: seq<seq<Cmd>>,
                            default: string, ms: nat, b: seq<Cmd>)
    requires HeaderAt(p, items, default, ms) && p[0].Comment? && p[1].Blank?
    requires |blocks| == |names| && BlockAt(p, LabelAt(p, "failed") + 1, b) && IsBlock(b, "start")
    ensures !MeansMenu(p, names, blocks, default, ms)
  {
    hide Leads, Yields, BlockAt, LabelAt, RunBlock;
    var st := Init([Cancel], []);
    var menu := st.(pc := |items| + 5, items := items);
    MenuComesUp(p, st, items, default, ms);
    var r := RunBlock(b, [], [], []);
    EmptyResults(b, []);
    CancelRunsBlock(p, menu, items, default, ms, b);
    var f := Final(r.status, r.trace, [], r.oks);
    LeadsYields(p, st, menu, f);
    var g := RunMenu(names, blocks, default, ms, [Cancel], [], []);
    assert [Cancel][1..] == [];
    assert g == Final(AwaitChoice, [], [], []);
    if MeansMenu(p, names, blocks, default, ms) {
      YieldsOnce(p, st, f, g);
    }
  }

  /** An entry called failed runs when the menu is cancelled. */
  lemma FailedCollides(names: seq<string>, texts: seq<string>, default: string, ms: nat, blocks: seq<seq<Cmd>>)
    requires |texts| == |names| == |blocks| && Blocks(blocks) && "failed" in names
    ensures !MeansMenu(MenuScript(names, texts, default, ms, blocks), names, blocks, default, ms)
  {
    hide MeansMenu, MenuScript, BlockAt, HandlerAt, LabelAt;
    var b := blocks[IndexOf(names, "failed")];
    assert b in blocks && IsBlock(b, "start");
    MenuHasLayout(names, texts, default, ms, blocks);
    CancelDoesSomething(MenuScript(names, texts, default, ms, blocks), names, names, blocks, default, ms, b);
  }

  lemma CancelRunsBlock(p: seq<Cmd>, st: State, names: seq<string>, default: string, ms: nat, b: seq<Cmd>)
    requires HeaderAt(p, names, default, ms) && AtMenu(st, names) && st.choices == [Cancel] && st.oks == []
    requires BlockAt(p, LabelAt(p, "failed") + 1, b) && IsBlock(b, "start")
    ensures var r := RunBlock(b, [], st.trace, []);
            Yields(p, st, Final(r.status, r.trace, [], r.oks))
  {
    hide Leads, Yields, RunBlock;
    var r := RunBlock(b, [], st.trace, []);
    EmptyResults(b, st.trace);
    var st1 := Step(p, st);
    var st2 := Step(p, st1);
    assert st1 == st.(choices := [], pc := LabelAt(p, "failed"));
    LeadsStep(p, st);
    LeadsStep(p, st1);
    LeadsThen(p, st, st1, st2);
    BlockRuns(p, st2, b, "start");
    LeadsYields(p, st, st2, Final(r.status, r.trace, [], r.oks));
  }

  /** The labelled script means the menu exactly when no entry takes one of the
      two generated labels. */
  lemma MenuMeaningExactly(names: seq<string>, texts: seq<string>, default: string, ms: nat, blocks: seq<seq<Cmd>>)
    requires |texts| == |names| == |blocks| && Blocks(blocks)
    ensures MeansMenu(MenuScript(names, texts, default, ms, blocks), names, blocks, default, ms) <==> SafeNames(names)
  {
    if "start" in names {
      StartCollides(names, texts, default, ms, blocks);
    } else if "failed" in names {
      FailedCollides(names, texts, default, ms, blocks);
    } else {
      SafeNamesMean(names, texts, default, ms, blocks);
    }
  }

  /** A block tries its own commands in order, from the first on, and never
      ends by running off its end or by jumping to a missing label. */
  lemma {:induction false} BlockStaysInside(b: seq<Cmd>, images: seq<Cmd>, trace: seq<Try>, oks: seq<bool>)
    requires IsBlock(b, "start")
    ensures var r := RunBlock(b, images, trace, oks);
            && !r.status.NoLabel? && !r.status.Ended? && !r.status.AwaitChoice?
            && |trace| <= |r.trace| <= |trace| + |b| && trace <= r.trace
            && (forall i :: |trace| <= i < |r.trace| ==> r.trace[i].cmd == b[i - |trace|])
    decreases |b|
  {
    if !b[0].Exit? && oks != [] && oks[0] && (b[0].Kernel? || b[0].Initrd?) {
      var tried := trace + [Try(b[0], oks[0])];
      BlockStaysInside(b[1..], images + [b[0]], tried, oks[1..]);
      var r := RunBlock(b, images, trace, oks);
      assert r.trace[|trace|] == tried[|trace|];
    }
  }

  /** So no menu session is ever lost, whatever happens in it. */
  lemma {:induction false} SessionNeverLost(names: seq<string>, blocks: seq<seq<Cmd>>, default: string, ms: nat,
                                            choices: seq<Choice>, oks: seq<bool>, trace: seq<Try>)
    requires |blocks| == |names| && Blocks(blocks)
    ensures var f := RunMenu(names, blocks, default, ms, choices, oks, trace);
            f.status != Running && !f.status.NoLabel? && !f.status.Ended? && trace <= f.trace
    decreases |choices|
  {
    hide RunBlock, IsBlock;
    if choices != [] {
      match Chosen(names, default, ms, choices[0])
      case Nothing => SessionNeverLost(names, blocks, default, ms, choices[1..], oks, trace);
      case Item(n) =>
        ChosenIsListed(names, default, ms, choices[0]);
        var b := blocks[IndexOf(names, n)];
        assert b in blocks;
        BlockStaysInside(b, [], trace, oks);
        var r := RunBlock(b, [], trace, oks);
        if r.status == Running {
          SessionNeverLost(names, blocks, default, ms, choices[1..], r.oks, r.trace);
        }
    }
  }

  /** Nobody at the menu: it waits as long as the timeout has not passed, or if
      there is none; then the default's block runs, or the first entry's if the
      default is no entry. */
  lemma Unattended(names: seq<string>, blocks: seq<seq<Cmd>>, default: string, ms: nat, t: nat, oks: seq<bool>)
    requires |blocks| == |names| && Blocks(blocks) && names != []
    ensures var f := RunMenu(names, blocks, default, ms, [Idle(t)], oks, []);
            && (ms == 0 || t < ms ==> f == Final(AwaitChoice, [], [], oks))
            && (ms > 0 && t >= ms ==>
                  var r := RunBlock(blocks[if default in names then IndexOf(names, default) else 0], [], [], oks);
                  f == Final(if r.status == Running then AwaitChoice else r.status, r.trace, [], r.oks))
  {
    hide RunBlock;
    assert [Idle(t)][1..] == [];
    assert IndexOf(names, names[0]) == 0;
  }
}
