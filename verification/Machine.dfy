/** A small iPXE: it runs a parsed script one command at a time.

    What the user does at the menu and whether each load succeeds comes from
    the outside, so that a statement about runs covers every user and network. */
module Machine {
  import opened Script

  datatype Choice = Cancel | Pick(index: nat) | Idle(ms: nat)

  datatype Status =
    | Running
    | AwaitChoice
    | AwaitResult
    | Exited
    | Booted(images: seq<Cmd>)
    | Chained(url: string)
    | Aborted
    | NoLabel(target: string)
    | Ended

  /** A command that can fail, and whether it did not. */
  datatype Try = Try(cmd: Cmd, ok: bool)

  datatype State = State(
    pc: nat, items: seq<string>, selected: string, images: seq<Cmd>,
    trace: seq<Try>, choices: seq<Choice>, oks: seq<bool>, status: Status)

  function Init(choices: seq<Choice>, oks: seq<bool>): State {
    State(0, [], "", [], [], choices, oks, Running)
  }

  /** goto searches from the top: the first label of that name, or the end. */
  function LabelAt(p: seq<Cmd>, name: string): (i: nat)
    ensures i <= |p|
    ensures i < |p| ==> p[i] == Label(name)
    ensures forall j :: 0 <= j < i ==> p[j] != Label(name)
  {
    if p == [] then 0
    else if p[0] == Label(name) then 0
    else 1 + LabelAt(p[1..], name)
  }

  function Jump(p: seq<Cmd>, st: State, target: string): State {
    var i := LabelAt(p, target);
    if i == |p| then st.(status := NoLabel(target)) else st.(pc := i)
  }

  /** The item a choice selects, if it can happen at this menu: one of the
      listed items, or the default once the timeout has passed. */
  datatype Selection = Nothing | Item(name: string)

  function Chosen(items: seq<string>, default: string, ms: nat, c: Choice): Selection {
    match c
    case Cancel => Nothing
    case Pick(i) => if i < |items| then Selection.Item(items[i]) else Nothing
    case Idle(t) =>
      if ms == 0 || t < ms || items == [] then Nothing
      else if default in items then Selection.Item(default)
      else Selection.Item(items[0])
  }

  function Step(p: seq<Cmd>, st: State): State {
    if st.status != Running then st
    else if st.pc >= |p| then st.(status := Ended)
    else
      var c := p[st.pc];
      var next := st.(pc := st.pc + 1);
      match c
      case Menu(_) => next.(items := [])
      case Item(n, _) => next.(items := st.items + [n])
      case Choose(d, ms, e) =>
        if st.choices == [] then st.(status := AwaitChoice)
        else
          var rest := st.choices[1..];
          (match Chosen(st.items, d, ms, st.choices[0])
           case Item(n) => next.(choices := rest, selected := n)
           case Nothing =>
             if !st.choices[0].Cancel? then st.(choices := rest)
             else if e == "" then st.(choices := rest, status := Aborted)
             else Jump(p, st.(choices := rest), e))
      case Goto(t) => Jump(p, st, t)
      case GotoSelected => Jump(p, st, st.selected)
      case Exit => st.(status := Exited)
      case Bad(_) => st.(status := Aborted)
      case Kernel(_) => Fallible(p, st)
      case Initrd(_) => Fallible(p, st)
      case Boot => Fallible(p, st)
      case Chain(_, _, _) => Fallible(p, st)
      case _ => next
  }

  function Fallible(p: seq<Cmd>, st: State): State
    requires st.pc < |p| && st.status == Running
  {
    if st.oks == [] then st.(status := AwaitResult)
    else
      var c := p[st.pc];
      var ok := st.oks[0];
      var st' := st.(oks := st.oks[1..], trace := st.trace + [Try(c, ok)]);
      if c.Chain? then
        if ok then st'.(status := Chained(c.url))
        else if c.orElse == "" then st'.(status := Aborted)
        else Jump(p, st', c.orElse)
      else if !ok then st'.(status := Aborted)
      else if c.Boot? then st'.(status := Booted(st.images))
      else st'.(pc := st.pc + 1, images := st.images + [c])
  }

  function Steps(p: seq<Cmd>, st: State, n: nat): State
    decreases n
  {
    if n == 0 then st else Steps(p, Step(p, st), n - 1)
  }

  ghost predicate Leads(p: seq<Cmd>, st: State, to: State) {
    exists n: nat :: Steps(p, st, n) == to
  }

  /** What an observer sees of a run. */
  datatype Final = Final(status: Status, trace: seq<Try>, choices: seq<Choice>, oks: seq<bool>)

  function Observe(st: State): Final {
    Final(st.status, st.trace, st.choices, st.oks)
  }

  /** The run stops, and this is what it comes to. */
  ghost predicate Yields(p: seq<Cmd>, st: State, f: Final) {
    exists n: nat :: Steps(p, st, n).status != Running && Observe(Steps(p, st, n)) == f
  }

  lemma {:induction false} StepsAdd(p: seq<Cmd>, st: State, m: nat, n: nat)
    ensures Steps(p, st, m + n) == Steps(p, Steps(p, st, m), n)
    decreases m
  {
    if m > 0 {
      StepsAdd(p, Step(p, st), m - 1, n);
    }
  }

  lemma LeadsThen(p: seq<Cmd>, a: State, b: State, c: State)
    requires Leads(p, a, b) && Leads(p, b, c)
    ensures Leads(p, a, c)
  {
    var m: nat :| Steps(p, a, m) == b;
    var n: nat :| Steps(p, b, n) == c;
    StepsAdd(p, a, m, n);
  }

  lemma LeadsYields(p: seq<Cmd>, a: State, b: State, f: Final)
    requires Leads(p, a, b) && Yields(p, b, f)
    ensures Yields(p, a, f)
  {
    var m: nat :| Steps(p, a, m) == b;
    var n: nat :| Steps(p, b, n).status != Running && Observe(Steps(p, b, n)) == f;
    StepsAdd(p, a, m, n);
    assert Steps(p, a, m + n) == Steps(p, b, n);
  }

  lemma StopYields(p: seq<Cmd>, a: State, b: State)
    requires Leads(p, a, b) && b.status != Running
    ensures Yields(p, a, Observe(b))
  {
    var m: nat :| Steps(p, a, m) == b;
  }

  lemma LeadsStep(p: seq<Cmd>, a: State)
    ensures Leads(p, a, a) && Leads(p, a, Step(p, a))
  {
    assert Steps(p, a, 0) == a && Steps(p, a, 1) == Step(p, a);
  }

  lemma {:induction false} StoppedStays(p: seq<Cmd>, st: State, n: nat)
    requires st.status != Running
    ensures Steps(p, st, n) == st
    decreases n
  {
    if n > 0 {
      StoppedStays(p, st, n - 1);
    }
  }

  /** A script has one outcome under given choices and results. */
  lemma YieldsOnce(p: seq<Cmd>, st: State, f: Final, g: Final)
    requires Yields(p, st, f) && Yields(p, st, g)
    ensures f == g
  {
    var m: nat :| Steps(p, st, m).status != Running && Observe(Steps(p, st, m)) == f;
    var n: nat :| Steps(p, st, n).status != Running && Observe(Steps(p, st, n)) == g;
    if m <= n {
      StepsAdd(p, st, m, n - m);
      StoppedStays(p, Steps(p, st, m), n - m);
    } else {
      StepsAdd(p, st, n, m - n);
      StoppedStays(p, Steps(p, st, n), m - n);
    }
  }
}
