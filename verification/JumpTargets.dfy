/** Where a script can jump to, and which labels stand in it: the header, the
    sections and the handler of a menu script jump to labels of the script only,
    a step that jumps to a label of the script stays on the script, and so the
    parts are put together. */
module JumpTargets {
  import opened Script
  import opened Machine
  import opened MenuLayout

  predicate HasLabel(p: seq<Cmd>, name: string) { Label(name) in p }

  /** Everything a command can make the machine jump to is a label of p. */
  predicate Anchored(c: Cmd, p: seq<Cmd>) {
    match c
    case Goto(t) => HasLabel(p, t)
    case Item(n, _) => HasLabel(p, n)
    case Choose(_, _, e) => e == "" || HasLabel(p, e)
    case Chain(_, _, e) => e == "" || HasLabel(p, e)
    case _ => true
  }

  ghost predicate ClosedIn(q: seq<Cmd>, p: seq<Cmd>) {
    forall c :: c in q ==> Anchored(c, p)
  }

  // ---------------------------------------------------------------- the generated script

  lemma ClosedJoin(a: seq<Cmd>, b: seq<Cmd>, p: seq<Cmd>)
    requires ClosedIn(a, p) && ClosedIn(b, p)
    ensures ClosedIn(a + b, p)
  {
    hide Anchored;
  }

  lemma {:induction false} SectionsHave(names: seq<string>, blocks: seq<seq<Cmd>>, x: string)
    requires |blocks| == |names| && x in names
    ensures HasLabel(Sections(names, blocks), x)
  {
    if names[0] == x {
      assert Sections(names, blocks)[1] == Label(x);
    } else {
      assert x in names[1..];
      SectionsHave(names[1..], blocks[1..], x);
    }
  }

  lemma {:induction false} SectionsClosed(names: seq<string>, blocks: seq<seq<Cmd>>, p: seq<Cmd>)
    requires |blocks| == |names| && Blocks(blocks) && HasLabel(p, "start")
    ensures ClosedIn(Sections(names, blocks), p)
  {
    if names != [] {
      assert blocks[0] in blocks;
      BlockClosed(blocks[0], p);
      BlocksTail(blocks);
      SectionsClosed(names[1..], blocks[1..], p);
      ClosedJoin([Blank, Label(names[0])], blocks[0], p);
      ClosedJoin([Blank, Label(names[0])] + blocks[0], Sections(names[1..], blocks[1..]), p);
    }
  }

  lemma BlockClosed(b: seq<Cmd>, p: seq<Cmd>)
    requires IsBlock(b, "start") && HasLabel(p, "start")
    ensures ClosedIn(b, p)
  {
    forall c | c in b ensures Anchored(c, p) {
      var i :| 0 <= i < |b| && b[i] == c;
      assert ["", "start"][0] == "" && ["", "start"][1] == "start";
    }
  }

  lemma HeaderClosed(names: seq<string>, texts: seq<string>, default: string, ms: nat, p: seq<Cmd>)
    requires |texts| == |names| && HasLabel(p, "failed")
    requires forall x :: x in names ==> HasLabel(p, x)
    ensures ClosedIn(Header(names, texts, default, ms), p)
  {
    hide HasLabel;
    forall c | c in Items(names, texts) ensures Anchored(c, p) {
      var i :| 0 <= i < |names| && Items(names, texts)[i] == c;
      assert names[i] in names;
    }
    var top := [Comment("!ipxe"), Blank, Label("start"), Menu(TITLE)];
    ClosedJoin(top, Items(names, texts), p);
    ClosedJoin(top + Items(names, texts), [Blank, Choose(default, ms, "failed"), GotoSelected], p);
  }

  /** The labels of a script whose sections have these names. */
  predicate Labelled(names: seq<string>, x: string) { x in names || x == "start" || x == "failed" }

  lemma LaidOutHas(items: seq<string>, texts: seq<string>, names: seq<string>, default: string, ms: nat,
                   blocks: seq<seq<Cmd>>, x: string)
    requires |texts| == |items| && |names| == |blocks| && Labelled(names, x)
    ensures HasLabel(LaidOut(items, texts, names, default, ms, blocks), x)
  {
    hide Sections, HasLabel;
    if x in names {
      SectionsHave(names, blocks, x);
      InTheMiddle(Header(items, texts, default, ms), Sections(names, blocks), HANDLER, x);
    } else {
      FixedLabels(items, texts, default, ms, Sections(names, blocks));
    }
  }

  /** It is closed when every item has a label. */
  lemma LaidOutIsClosed(items: seq<string>, texts: seq<string>, names: seq<string>, default: string, ms: nat,
                        blocks: seq<seq<Cmd>>)
    requires |texts| == |items| && |names| == |blocks| && Blocks(blocks)
    requires forall x :: x in items ==> Labelled(names, x)
    ensures var p := LaidOut(items, texts, names, default, ms, blocks); ClosedIn(p, p) && Steady(p)
  {
    hide Header, Sections, HANDLER, Blocks, HasLabel, Anchored, ClosedIn, Steady, Labelled;
    var h, s := Header(items, texts, default, ms), Sections(names, blocks);
    var p := h + s + HANDLER;
    assert Labelled(names, "start") && Labelled(names, "failed") by { FixedLabelled(names); }
    LaidOutHas(items, texts, names, default, ms, blocks, "start");
    LaidOutHas(items, texts, names, default, ms, blocks, "failed");
    forall x | x in items ensures HasLabel(p, x) {
      LaidOutHas(items, texts, names, default, ms, blocks, x);
    }
    HeaderClosed(items, texts, default, ms, p);
    SectionsClosed(names, blocks, p);
    HandlerClosed(p);
    ClosedJoin(h, s, p);
    ClosedJoin(h + s, HANDLER, p);
    LaidOutIsSteady(items, texts, names, default, ms, blocks);
  }

  lemma FixedLabelled(names: seq<string>)
    ensures Labelled(names, "start") && Labelled(names, "failed")
  {
  }

  lemma FixedLabels(names: seq<string>, texts: seq<string>, default: string, ms: nat, s: seq<Cmd>)
    requires |texts| == |names|
    ensures var p := Header(names, texts, default, ms) + s + HANDLER; HasLabel(p, "start") && HasLabel(p, "failed")
  {
    var h := Header(names, texts, default, ms);
    var p := h + s + HANDLER;
    assert p[2] == h[2] == Label("start");
    assert p[|h| + |s| + 1] == HANDLER[1] == Label("failed");
  }

  lemma InTheMiddle(a: seq<Cmd>, b: seq<Cmd>, c: seq<Cmd>, x: string)
    requires HasLabel(b, x)
    ensures HasLabel(a + b + c, x)
  {
  }

  lemma HandlerClosed(p: seq<Cmd>)
    requires HasLabel(p, "start")
    ensures ClosedIn(HANDLER, p)
  {
  }

  // ---------------------------------------------------------------- runs of closed scripts

  /** The menu's answer is used right after it was asked for, and the script
      ends by jumping back. */
  predicate Steady(p: seq<Cmd>) {
    && p != [] && p[|p| - 1].Goto?
    && forall i :: 0 <= i < |p| && p[i].GotoSelected? ==> i > 0 && p[i - 1].Choose?
  }

  /** On its way through p: at a command, with items that have labels, and
      with a selection that has one where it is about to be used. */
  ghost predicate OnTrack(p: seq<Cmd>, st: State) {
    && !st.status.NoLabel? && !st.status.Ended?
    && (st.status == Running ==>
          && st.pc < |p|
          && (forall n :: n in st.items ==> HasLabel(p, n))
          && (p[st.pc].GotoSelected? ==> HasLabel(p, st.selected)))
  }

  lemma JumpLands(p: seq<Cmd>, st: State, target: string)
    requires HasLabel(p, target) && st.status == Running && forall n :: n in st.items ==> HasLabel(p, n)
    ensures OnTrack(p, Jump(p, st, target))
  {
    var i :| 0 <= i < |p| && p[i] == Label(target);
    var at := LabelAt(p, target);
    assert at <= i;
  }

  lemma StepOnTrack(p: seq<Cmd>, st: State)
    requires ClosedIn(p, p) && Steady(p) && OnTrack(p, st)
    ensures OnTrack(p, Step(p, st))
  {
    hide HasLabel, LabelAt;
    if st.status == Running {
      var c := p[st.pc];
      assert c in p && Anchored(c, p);
      match c
      case Goto(t) => JumpLands(p, st, t);
      case GotoSelected => JumpLands(p, st, st.selected);
      case Chain(_, _, e) =>
        if st.oks != [] && e != "" {
          JumpLands(p, st.(oks := st.oks[1..], trace := st.trace + [Try(c, st.oks[0])]), e);
        }
      case Choose(d, ms, e) =>
        if st.choices != [] {
          ChosenIsListed(st.items, d, ms, st.choices[0]);
          if e != "" {
            JumpLands(p, st.(choices := st.choices[1..]), e);
          }
        }
      case _ =>
    }
  }

  lemma {:induction false} SectionsPlain(names: seq<string>, blocks: seq<seq<Cmd>>)
    requires |blocks| == |names| && Blocks(blocks)
    ensures forall c :: c in Sections(names, blocks) ==> !c.GotoSelected?
  {
    if names != [] {
      assert blocks[0] in blocks;
      BlocksTail(blocks);
      SectionsPlain(names[1..], blocks[1..]);
    }
  }

  lemma LaidOutIsSteady(items: seq<string>, texts: seq<string>, names: seq<string>, default: string, ms: nat,
                        blocks: seq<seq<Cmd>>)
    requires |texts| == |items| && |names| == |blocks| && Blocks(blocks)
    ensures Steady(LaidOut(items, texts, names, default, ms, blocks))
  {
    hide Sections, Blocks;
    var h, s := Header(items, texts, default, ms), Sections(names, blocks);
    var p := h + s + HANDLER;
    SectionsPlain(names, blocks);
    assert forall j :: 0 <= j < |s| ==> s[j] in s;
    assert p[|p| - 1] == HANDLER[4];
    forall i | 0 <= i < |p| && p[i].GotoSelected? ensures i > 0 && p[i - 1].Choose? {
      assert i == |items| + 6;
    }
  }
}
