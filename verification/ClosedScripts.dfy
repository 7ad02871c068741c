/** Menu scripts are closed: whatever the entries are called, every jump has its
    label, so no run of a script is ever lost. */
module ClosedScripts {
  import opened Script
  import opened Machine
  import opened MenuLayout
  import opened JumpTargets

  // ---------------------------------------------------------------- the generated script

  /** Every goto target, every label after "|| goto" and every item have a label
      in the script, for any entry names at all; so has a default that is an
      entry. */
  lemma MenuIsClosed(names: seq<string>, texts: seq<string>, default: string, ms: nat, blocks: seq<seq<Cmd>>)
    requires |texts| == |names| == |blocks| && Blocks(blocks)
    ensures var p := MenuScript(names, texts, default, ms, blocks);
            ClosedIn(p, p) && (default in names ==> HasLabel(p, default))
  {
    hide Header, Sections, HANDLER, Blocks, HasLabel, ClosedIn, Steady;
    LaidOutIsClosed(names, texts, names, default, ms, blocks);
    if default in names {
      LaidOutHas(names, texts, names, default, ms, blocks, default);
    }
  }

  // ---------------------------------------------------------------- runs of closed scripts

  /** However long a closed script runs, whatever the user picks and whatever
      loads, it never meets a missing label and never runs off its end. */
  lemma {:induction false} ClosedNeverLost(p: seq<Cmd>, st: State, n: nat)
    requires ClosedIn(p, p) && Steady(p) && OnTrack(p, st)
    ensures OnTrack(p, Steps(p, st, n))
    decreases n
  {
    hide ClosedIn, Steady, OnTrack, Step;
    if n > 0 {
      StepOnTrack(p, st);
      ClosedNeverLost(p, Step(p, st), n - 1);
    }
  }

  /** So a script whose items all have labels is never lost from its start. */
  lemma LaidOutNeverLost(items: seq<string>, texts: seq<string>, names: seq<string>, default: string, ms: nat,
                         blocks: seq<seq<Cmd>>, choices: seq<Choice>, oks: seq<bool>, n: nat)
    requires |texts| == |items| && |names| == |blocks| && Blocks(blocks)
    requires forall x :: x in items ==> Labelled(names, x)
    ensures var st := Steps(LaidOut(items, texts, names, default, ms, blocks), Init(choices, oks), n);
            !st.status.NoLabel? && !st.status.Ended?
  {
    hide Sections, Blocks, ClosedIn, Steady, Steps, Labelled;
    var p := LaidOut(items, texts, names, default, ms, blocks);
    LaidOutIsClosed(items, texts, names, default, ms, blocks);
    assert p[0] == Comment("!ipxe");
    ClosedNeverLost(p, Init(choices, oks), n);
  }

  /** A menu script never is, even with entries called start or failed. */
  lemma MenuScriptNeverLost(names: seq<string>, texts: seq<string>, default: string, ms: nat, blocks: seq<seq<Cmd>>,
                            choices: seq<Choice>, oks: seq<bool>, n: nat)
    requires |texts| == |names| == |blocks| && Blocks(blocks)
    ensures var st := Steps(MenuScript(names, texts, default, ms, blocks), Init(choices, oks), n);
            !st.status.NoLabel? && !st.status.Ended?
  {
    hide Header, Sections, Blocks, Steps;
    LaidOutNeverLost(names, texts, names, default, ms, blocks, choices, oks, n);
  }
}
