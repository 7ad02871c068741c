/** What a boot menu means, without labels and jumps, and how the labelled script
    is laid out: its header with the items, one section for each entry, and the
    handler of failures; where a label is found in it, and which block stands
    behind it, also when the items are read as other names than the sections'. */
module MenuLayout {
  import opened Script
  import opened Machine

  // ---------------------------------------------------------------- the meaning of a menu

  /** How a block of commands ends; Running means it asks for the label back. */
  datatype BlockEnd = BlockEnd(status: Status, back: string, trace: seq<Try>, oks: seq<bool>)

  function RunBlock(b: seq<Cmd>, images: seq<Cmd>, trace: seq<Try>, oks: seq<bool>): BlockEnd
    decreases |b|
  {
    if b == [] then BlockEnd(Ended, "", trace, oks)
    else if b[0].Exit? then BlockEnd(Exited, "", trace, oks)
    else if oks == [] then BlockEnd(AwaitResult, "", trace, oks)
    else
      var tried := trace + [Try(b[0], oks[0])];
      if b[0].Chain? then
        if oks[0] then BlockEnd(Chained(b[0].url), "", tried, oks[1..])
        else if b[0].orElse == "" then BlockEnd(Aborted, "", tried, oks[1..])
        else BlockEnd(Running, b[0].orElse, tried, oks[1..])
      else if !oks[0] then BlockEnd(Aborted, "", tried, oks[1..])
      else if b[0].Boot? then BlockEnd(Booted(images), "", tried, oks[1..])
      else RunBlock(b[1..], images + [b[0]], tried, oks[1..])
  }

  function IndexOf(names: seq<string>, x: string): (i: nat)
    requires x in names
    ensures i < |names| && names[i] == x && x !in names[..i]
  {
    if names[0] == x then 0 else
      assert names == [names[0]] + names[1..];
      1 + IndexOf(names[1..], x)
  }

  /** A menu session: every choice that selects an entry runs that entry's
      block and nothing else; a block that fails over, a cancelled menu and a
      choice that cannot happen lead back to the menu. */
  function RunMenu(names: seq<string>, blocks: seq<seq<Cmd>>, default: string, ms: nat,
                   choices: seq<Choice>, oks: seq<bool>, trace: seq<Try>): Final
    requires |blocks| == |names|
    decreases |choices|
  {
    if choices == [] then Final(AwaitChoice, trace, choices, oks)
    else
      match Chosen(names, default, ms, choices[0])
      case Nothing => RunMenu(names, blocks, default, ms, choices[1..], oks, trace)
      case Item(n) =>
        ChosenIsListed(names, default, ms, choices[0]);
        var r := RunBlock(blocks[IndexOf(names, n)], [], trace, oks);
        if r.status == Running then RunMenu(names, blocks, default, ms, choices[1..], r.oks, r.trace)
        else Final(r.status, r.trace, choices[1..], r.oks)
  }

  lemma ChosenIsListed(names: seq<string>, default: string, ms: nat, c: Choice)
    ensures Chosen(names, default, ms, c).Item? ==> Chosen(names, default, ms, c).name in names
  {
  }

  /** What an entry's commands look like: loads, then one command that leaves. */
  predicate IsBlock(b: seq<Cmd>, retry: string) {
    && b != []
    && (forall i :: 0 <= i < |b| - 1 ==> b[i].Kernel? || b[i].Initrd?)
    && (var last := b[|b| - 1]; last.Exit? || last.Boot? || (last.Chain? && |b| == 1 && last.orElse in ["", retry]))
  }

  // ---------------------------------------------------------------- the layout of the script

  const TITLE := "Bootforge Boot Menu"
  const RETRY_TEXT := "Boot failed, retrying in 5 seconds..."

  function Items(names: seq<string>, texts: seq<string>): seq<Cmd>
    requires |texts| == |names|
  {
    seq(|names|, i requires 0 <= i < |names| => Cmd.Item(names[i], texts[i]))
  }

  function Header(names: seq<string>, texts: seq<string>, default: string, ms: nat): seq<Cmd>
    requires |texts| == |names|
  {
    [Comment("!ipxe"), Blank, Label("start"), Menu(TITLE)]
    + Items(names, texts) + [Blank, Choose(default, ms, "failed"), GotoSelected]
  }

  function Sections(names: seq<string>, blocks: seq<seq<Cmd>>): seq<Cmd>
    requires |blocks| == |names|
  {
    if names == [] then []
    else [Blank, Label(names[0])] + blocks[0] + Sections(names[1..], blocks[1..])
  }

  const HANDLER: seq<Cmd> :=
    [Blank, Label("failed"), Echo(RETRY_TEXT), Sleep("5"), Goto("start")]

  /** A script whose items need not be its sections' names. */
  function LaidOut(items: seq<string>, texts: seq<string>, names: seq<string>, default: string, ms: nat,
                   blocks: seq<seq<Cmd>>): seq<Cmd>
    requires |texts| == |items| && |names| == |blocks|
  {
    Header(items, texts, default, ms) + Sections(names, blocks) + HANDLER
  }

  function MenuScript(names: seq<string>, texts: seq<string>, default: string, ms: nat, blocks: seq<seq<Cmd>>): seq<Cmd>
    requires |texts| == |names| == |blocks|
  {
    LaidOut(names, texts, names, default, ms, blocks)
  }

  ghost predicate Blocks(blocks: seq<seq<Cmd>>) {
    forall b :: b in blocks ==> IsBlock(b, "start")
  }

  lemma {:induction false} LabelAtAppend(a: seq<Cmd>, b: seq<Cmd>, l: string)
    ensures LabelAt(a + b, l) == if LabelAt(a, l) < |a| then LabelAt(a, l) else |a| + LabelAt(b, l)
  {
    if a == [] {
      assert a + b == b;
    } else {
      assert (a + b)[1..] == a[1..] + b;
      LabelAtAppend(a[1..], b, l);
    }
  }

  ghost predicate NoLabels(b: seq<Cmd>) {
    forall i :: 0 <= i < |b| ==> !b[i].Label?
  }

  lemma LabelFree(b: seq<Cmd>, l: string)
    requires NoLabels(b) || b == []
    ensures LabelAt(b, l) == |b|
  {
  }

  lemma LabelFirst(x: string, b: seq<Cmd>, l: string)
    ensures LabelAt([Label(x)] + b, l) == if l == x then 0 else 1 + LabelAt(b, l)
  {
    assert ([Label(x)] + b)[1..] == b;
  }

  lemma BlockHasNoLabels(blocks: seq<seq<Cmd>>, i: nat)
    requires Blocks(blocks) && i < |blocks|
    ensures NoLabels(blocks[i])
  {
    var b := blocks[i];
    assert IsBlock(b, "start");
    forall j | 0 <= j < |b| ensures !b[j].Label? {
      assert j == |b| - 1 || j < |b| - 1;
    }
  }

  lemma SectionLabel(name: string, b: seq<Cmd>, more: seq<Cmd>, l: string)
    requires NoLabels(b)
    ensures LabelAt([Blank, Label(name)] + b + more, l) == if l == name then 1 else 2 + |b| + LabelAt(more, l)
  {
    hide LabelAt;
    assert [Blank, Label(name)] + b + more == [Blank] + ([Label(name)] + (b + more));
    LabelFree([Blank], l);
    LabelAtAppend([Blank], [Label(name)] + (b + more), l);
    LabelFirst(name, b + more, l);
    LabelAtAppend(b, more, l);
    LabelFree(b, l);
  }

  ghost predicate BlockAt(p: seq<Cmd>, at: nat, b: seq<Cmd>) {
    at + |b| <= |p| && p[at..at + |b|] == b
  }

  lemma BlockShifts(a: seq<Cmd>, s: seq<Cmd>, z: seq<Cmd>, at: nat, b: seq<Cmd>)
    requires BlockAt(s, at, b)
    ensures BlockAt(a + s + z, |a| + at, b)
  {
    assert (a + s + z)[|a| + at..|a| + at + |b|] == s[at..at + |b|];
  }

  lemma BlocksTail(blocks: seq<seq<Cmd>>)
    requires Blocks(blocks) && blocks != []
    ensures Blocks(blocks[1..])
  {
  }

  lemma BlockInFront(front: seq<Cmd>, b: seq<Cmd>, more: seq<Cmd>)
    ensures BlockAt(front + b + more, |front|, b)
  {
  }

  /** A section is found by its first label. */
  lemma {:induction false} SectionAt(names: seq<string>, blocks: seq<seq<Cmd>>, l: string)
    requires |blocks| == |names| && Blocks(blocks)
    ensures l !in names ==> LabelAt(Sections(names, blocks), l) == |Sections(names, blocks)|
    ensures l in names ==>
              BlockAt(Sections(names, blocks), LabelAt(Sections(names, blocks), l) + 1, blocks[IndexOf(names, l)])
  {
    hide LabelAt, BlockAt, Blocks, NoLabels;
    if names == [] {
      LabelFree([], l);
    } else {
      var b0, more := blocks[0], Sections(names[1..], blocks[1..]);
      var front := [Blank, Label(names[0])];
      BlockHasNoLabels(blocks, 0);
      SectionLabel(names[0], b0, more, l);
      if l == names[0] {
        BlockInFront(front, b0, more);
      } else {
        assert names == [names[0]] + names[1..];
        BlocksTail(blocks);
        SectionAt(names[1..], blocks[1..], l);
        if l in names {
          BlockShifts(front + b0, more, [], LabelAt(more, l) + 1, blocks[1..][IndexOf(names[1..], l)]);
          assert front + b0 + more + [] == front + b0 + more == Sections(names, blocks);
        }
      }
    }
  }

  /** Where things are in a menu script; all the run needs to know. */
  ghost predicate Layout(p: seq<Cmd>, names: seq<string>, blocks: seq<seq<Cmd>>, default: string, ms: nat)
    requires |blocks| == |names|
  {
    var n := |names|;
    && HeaderAt(p, names, default, ms)
    && LabelAt(p, "start") == 2
    && HandlerAt(p, LabelAt(p, "failed"))
    && (forall x :: x in names ==> BlockAt(p, LabelAt(p, x) + 1, blocks[IndexOf(names, x)]))
  }

  ghost predicate HeaderAt(p: seq<Cmd>, names: seq<string>, default: string, ms: nat) {
    var n := |names|;
    && |p| > n + 6 && p[2].Label? && p[3].Menu?
    && (forall k :: 4 <= k < n + 4 ==> p[k].Item? && p[k].name == names[k - 4])
    && p[n + 4] == Blank && p[n + 5] == Choose(default, ms, "failed") && p[n + 6] == GotoSelected
  }

  ghost predicate HandlerAt(p: seq<Cmd>, f: nat) {
    && f + 3 < |p| && p[f].Label? && p[f + 1].Echo? && p[f + 2].Sleep? && p[f + 3] == Goto("start")
  }

  lemma HeaderLabels(names: seq<string>, texts: seq<string>, default: string, ms: nat, l: string)
    requires |texts| == |names|
    ensures LabelAt(Header(names, texts, default, ms), l) == if l == "start" then 2 else |names| + 7
  {
    hide LabelAt;
    var a := [Comment("!ipxe"), Blank];
    var b := [Menu(TITLE)] + Items(names, texts) + [Blank, Choose(default, ms, "failed"), GotoSelected];
    assert Header(names, texts, default, ms) == a + ([Label("start")] + b);
    LabelAtAppend(a, [Label("start")] + b, l);
    LabelFree(a, l);
    LabelFirst("start", b, l);
    LabelFree(b, l);
  }

  lemma LaidOutLabels(items: seq<string>, texts: seq<string>, names: seq<string>, default: string, ms: nat,
                      blocks: seq<seq<Cmd>>, l: string)
    requires |texts| == |items| && |names| == |blocks|
    ensures LabelAt(LaidOut(items, texts, names, default, ms, blocks), l) ==
            if l == "start" then 2 else |items| + 7 + LabelAt(Sections(names, blocks) + HANDLER, l)
  {
    hide LabelAt, Header, Sections;
    var h, s := Header(items, texts, default, ms), Sections(names, blocks);
    assert |h| == |items| + 7 by { HeaderSize(items, texts, default, ms); }
    assert LaidOut(items, texts, names, default, ms, blocks) == h + (s + HANDLER);
    LabelAtAppend(h, s + HANDLER, l);
    HeaderLabels(items, texts, default, ms, l);
  }

  lemma HeaderSize(names: seq<string>, texts: seq<string>, default: string, ms: nat)
    requires |texts| == |names|
    ensures |Header(names, texts, default, ms)| == |names| + 7
    ensures HeaderAt(Header(names, texts, default, ms), names, default, ms)
  {
  }

  lemma HeaderExtends(h: seq<Cmd>, z: seq<Cmd>, names: seq<string>, default: string, ms: nat)
    requires HeaderAt(h, names, default, ms)
    ensures HeaderAt(h + z, names, default, ms)
  {
  }

  lemma HandlerFound(items: seq<string>, texts: seq<string>, names: seq<string>, default: string, ms: nat,
                     blocks: seq<seq<Cmd>>)
    requires |texts| == |items| && |names| == |blocks| && Blocks(blocks) && "failed" !in names
    ensures var p := LaidOut(items, texts, names, default, ms, blocks); HandlerAt(p, LabelAt(p, "failed"))
  {
    hide LabelAt, Header, Sections, Blocks;
    var h, s := Header(items, texts, default, ms), Sections(names, blocks);
    var p := LaidOut(items, texts, names, default, ms, blocks);
    HeaderSize(items, texts, default, ms);
    LaidOutLabels(items, texts, names, default, ms, blocks, "failed");
    SectionAt(names, blocks, "failed");
    LabelAtAppend(s, HANDLER, "failed");
    LabelAtAppend([Blank], HANDLER[1..], "failed");
    assert HANDLER == [Blank] + HANDLER[1..];
    assert HANDLER[1..] == [Label("failed")] + HANDLER[2..];
    LabelFree([Blank], "failed");
    LabelFirst("failed", HANDLER[2..], "failed");
    var f := |h| + |s| + 1;
    assert p[f] == HANDLER[1] && p[f + 1] == HANDLER[2] && p[f + 2] == HANDLER[3] && p[f + 3] == HANDLER[4];
  }

  lemma BlockFound(items: seq<string>, texts: seq<string>, names: seq<string>, default: string, ms: nat,
                   blocks: seq<seq<Cmd>>, x: string)
    requires |texts| == |items| && |names| == |blocks| && Blocks(blocks) && x in names && x != "start"
    ensures var p := LaidOut(items, texts, names, default, ms, blocks);
            BlockAt(p, LabelAt(p, x) + 1, blocks[IndexOf(names, x)])
  {
    hide LabelAt, Header, Sections, Blocks;
    var h, s := Header(items, texts, default, ms), Sections(names, blocks);
    HeaderSize(items, texts, default, ms);
    LaidOutLabels(items, texts, names, default, ms, blocks, x);
    SectionAt(names, blocks, x);
    LabelAtAppend(s, HANDLER, x);
    BlockShifts(h, s, HANDLER, LabelAt(s, x) + 1, blocks[IndexOf(names, x)]);
  }

  /** Every name that is not one of the two generated labels is found where its
      block is, whatever the items say. */
  lemma LaidOutHasLayout(items: seq<string>, texts: seq<string>, names: seq<string>, default: string, ms: nat,
                         blocks: seq<seq<Cmd>>)
    requires |texts| == |items| && |names| == |blocks| && Blocks(blocks)
    ensures var p := LaidOut(items, texts, names, default, ms, blocks);
            && HeaderAt(p, items, default, ms) && p[0].Comment? && p[1].Blank?
            && LabelAt(p, "start") == 2
            && ("failed" !in names ==> HandlerAt(p, LabelAt(p, "failed")))
            && (forall x :: x in names && x != "start" ==> BlockAt(p, LabelAt(p, x) + 1, blocks[IndexOf(names, x)]))
  {
    hide LabelAt, Sections, Blocks, BlockAt, HandlerAt, IndexOf;
    var h := Header(items, texts, default, ms);
    var p := LaidOut(items, texts, names, default, ms, blocks);
    HeaderSize(items, texts, default, ms);
    HeaderExtends(h, Sections(names, blocks) + HANDLER, items, default, ms);
    assert p == h + (Sections(names, blocks) + HANDLER);
    LaidOutLabels(items, texts, names, default, ms, blocks, "start");
    if "failed" !in names {
      HandlerFound(items, texts, names, default, ms, blocks);
    }
    forall x | x in names && x != "start" ensures BlockAt(p, LabelAt(p, x) + 1, blocks[IndexOf(names, x)]) {
      BlockFound(items, texts, names, default, ms, blocks, x);
    }
  }
}
