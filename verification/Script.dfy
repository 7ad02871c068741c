/** The iPXE script language as far as the generator uses it: commands, their
    text, and a parser that reads the text back. A command whose texts stay on
    their lines, and whose words are words, is tidy; a listing of tidy commands
    is read as what it was written from. */
module Script {
  import opened Text

  /** One line of a script. An empty orElse stands for a command without
      "|| goto LABEL"; an empty default and a zero ms for an absent option. */
  datatype Cmd =
    | Blank
    | Comment(text: string)
    | Label(name: string)
    | Menu(title: string)
    | Item(name: string, text: string)
    | Choose(default: string, ms: nat, orElse: string)
    | Goto(target: string)
    | GotoSelected
    | Chain(url: string, autofree: bool, orElse: string)
    | Kernel(args: string)
    | Initrd(url: string)
    | Boot
    | Exit
    | Echo(text: string)
    | Sleep(text: string)
    | Bad(line: string)

  // ---------------------------------------------------------------- printing

  function OrElse(target: string): string {
    if target == "" then "" else " || goto " + target
  }

  function ChooseWords(default: string, ms: nat): string {
    if default == "" then TimeoutWords(ms) else "--default " + default + " " + TimeoutWords(ms)
  }

  function TimeoutWords(ms: nat): string {
    if ms == 0 then "selected" else "--timeout " + Digits(ms) + " " + "selected"
  }

  function Line(verb: string, rest: string): string { verb + " " + rest }

  function Print(c: Cmd): string {
    match c
    case Blank => ""
    case Comment(t) => "#" + t
    case Label(n) => ":" + n
    case Menu(t) => Line("menu", t)
    case Item(n, t) => Line("item", Line(n, t))
    case Choose(d, ms, e) => Line("choose", ChooseWords(d, ms)) + OrElse(e)
    case Goto(t) => Line("goto", t)
    case GotoSelected => Line("goto", "${selected}")
    case Chain(u, af, e) => Line("chain", if af then Line("--autofree", u) else u) + OrElse(e)
    case Kernel(a) => Line("kernel", a)
    case Initrd(u) => Line("initrd", u)
    case Boot => "boot"
    case Exit => Line("exit", "0")
    case Echo(t) => Line("echo", t)
    case Sleep(t) => Line("sleep", t)
    case Bad(l) => l
  }

  function Listing(p: seq<Cmd>): string {
    if p == [] then "" else Print(p[0]) + "\n" + Listing(p[1..])
  }

  // ---------------------------------------------------------------- parsing

  /** Where the first "||" starts, or the length. */
  function BarAt(s: string): (i: nat)
    ensures i <= |s|
  {
    if s == "" then 0
    else if |s| >= 2 && s[0] == '|' && s[1] == '|' then 0
    else 1 + BarAt(s[1..])
  }

  datatype Parts = Parts(main: string, orElse: string) | Malformed

  function SplitOrElse(line: string): Parts {
    var i := BarAt(line);
    if i == |line| then Parts(line, "")
    else if i > 0 && line[i - 1] == ' ' && "|| goto " <= line[i..] && |line| > i + 8
    then Parts(line[..i - 1], line[i + 8..])
    else Malformed
  }

  function ParseChoose(words: seq<string>, default: string, ms: nat, orElse: string): Cmd
    decreases |words|
  {
    if words == ["selected"] then Choose(default, ms, orElse)
    else if |words| >= 2 && words[0] == "--default" then ParseChoose(words[2..], words[1], ms, orElse)
    else if |words| >= 2 && words[0] == "--timeout" then ParseChoose(words[2..], default, NumberOf(words[1]), orElse)
    else Bad("choose")
  }

  function ParseVerb(verb: string, rest: string, orElse: string): Cmd {
    if verb == "choose" then ParseChoose(Split(rest, ' '), "", 0, orElse)
    else if verb == "chain" then
      if "--autofree " <= rest then Chain(rest[11..], true, orElse) else Chain(rest, false, orElse)
    else if orElse != "" then Bad(verb)
    else if verb == "menu" then Menu(rest)
    else if verb == "item" then
      var n := Upto(rest, ' ');
      UptoIsPrefix(rest, ' ');
      if |n| == |rest| then Bad(verb) else Item(n, rest[|n| + 1..])
    else if verb == "goto" then
      if rest == "${selected}" then GotoSelected else Goto(rest)
    else if verb == "kernel" then Kernel(rest)
    else if verb == "initrd" then Initrd(rest)
    else if verb == "boot" then Boot
    else if verb == "exit" then Exit
    else if verb == "echo" then Echo(rest)
    else if verb == "sleep" then Sleep(rest)
    else Bad(verb)
  }

  function Parse(line: string): Cmd {
    if line == "" then Blank
    else if line[0] == '#' then Comment(line[1..])
    else if line[0] == ':' then Label(line[1..])
    else
      match SplitOrElse(line)
      case Malformed => Bad(line)
      case Parts(main, orElse) =>
        var verb := Upto(main, ' ');
        UptoIsPrefix(main, ' ');
        ParseVerb(verb, if |verb| == |main| then "" else main[|verb| + 1..], orElse)
  }

  /** A whole script, line by line. */
  function ParseScript(text: string): seq<Cmd>
    decreases |text|
  {
    if text == "" then []
    else
      var line := Upto(text, '\n');
      UptoIsPrefix(text, '\n');
      [Parse(line)] + (if |line| == |text| then [] else ParseScript(text[|line| + 1..]))
  }

  // ---------------------------------------------------------------- round trip

  ghost predicate NoBars(s: string) {
    forall i :: 0 <= i < |s| - 1 ==> !(s[i] == '|' && s[i + 1] == '|')
  }

  /** Fits in an argument: no line break and no "||". */
  ghost predicate OneLine(s: string) { '\n' !in s && NoBars(s) }

  ghost predicate Word(s: string) { s != "" && ' ' !in s && OneLine(s) }

  /** A command whose text says what it means. */
  ghost predicate Tidy(c: Cmd) {
    match c
    case Blank => true
    case Comment(t) => '\n' !in t
    case Label(n) => '\n' !in n
    case Menu(t) => OneLine(t)
    case Item(n, t) => Word(n) && OneLine(t)
    case Choose(d, ms, e) => (d == "" || Word(d)) && '\n' !in e
    case Goto(t) => OneLine(t) && t != "${selected}"
    case GotoSelected => true
    case Chain(u, af, e) => OneLine(u) && '\n' !in e && (!af ==> !("--autofree " <= u))
    case Kernel(a) => OneLine(a)
    case Initrd(u) => OneLine(u)
    case Boot => true
    case Exit => true
    case Echo(t) => OneLine(t)
    case Sleep(t) => OneLine(t)
    case Bad(_) => false
  }

  lemma {:induction false} BarAtAfter(m: string, t: string)
    requires NoBars(m) && (t == "" || t[0] == ' ')
    ensures BarAt(m + t) == |m| + BarAt(t)
  {
    if m == "" {
      assert m + t == t;
    } else {
      assert (m + t)[1..] == m[1..] + t;
      forall i | 0 <= i < |m[1..]| - 1 ensures !(m[1..][i] == '|' && m[1..][i + 1] == '|') {
        assert m[1..][i] == m[i + 1] && m[1..][i + 1] == m[i + 2];
      }
      BarAtAfter(m[1..], t);
    }
  }

  lemma SplitOrElseBack(m: string, e: string)
    requires NoBars(m)
    ensures SplitOrElse(m + OrElse(e)) == Parts(m, e)
  {
    var t := OrElse(e);
    BarAtAfter(m, t);
    if e == "" {
      assert m + t == m;
    } else {
      assert t[1..][0] == '|' && t[1..][1] == '|';
      assert BarAt(t) == 1 + BarAt(t[1..]);
      var line := m + t;
      assert line[|m| + 1..] == "|| goto " + e;
      assert line[..|m|] == m && line[|m| + 9..] == e;
    }
  }

  lemma NoBarsJoin(a: string, b: string)
    requires '|' !in a && NoBars(b)
    ensures NoBars(a + b)
  {
    forall i | 0 <= i < |a + b| - 1 ensures !((a + b)[i] == '|' && (a + b)[i + 1] == '|') {
      if i < |a| {
        assert (a + b)[i] == a[i];
      } else {
        assert (a + b)[i] == b[i - |a|] && (a + b)[i + 1] == b[i + 1 - |a|];
      }
    }
  }

  /** A line "verb rest" with an optional alternative splits into its parts. */
  lemma ParseLine(verb: string, rest: string, e: string)
    requires verb != "" && verb[0] != '#' && verb[0] != ':' && ' ' !in verb && '|' !in verb && NoBars(rest)
    ensures Parse(Line(verb, rest) + OrElse(e)) == ParseVerb(verb, rest, e)
  {
    hide ParseVerb, BarAt;
    var main := Line(verb, rest);
    NoBarsJoin(verb + " ", rest);
    SplitOrElseBack(main, e);
    UptoFinds(verb, ' ', rest);
    assert main == verb + [' '] + rest;
    assert main[|verb| + 1..] == rest;
    assert (main + OrElse(e))[0] == verb[0];
  }

  lemma ParseSimple(verb: string, rest: string)
    requires verb != "" && verb[0] != '#' && verb[0] != ':' && ' ' !in verb && '|' !in verb && NoBars(rest)
    ensures Parse(Line(verb, rest)) == ParseVerb(verb, rest, "")
  {
    hide Parse, Line;
    ParseLine(verb, rest, "");
    assert Line(verb, rest) + OrElse("") == Line(verb, rest);
  }

  lemma ParseBare(verb: string)
    requires verb != "" && verb[0] != '#' && verb[0] != ':' && ' ' !in verb && '|' !in verb
    ensures Parse(verb) == ParseVerb(verb, "", "")
  {
    SplitOrElseBack(verb, "");
    assert verb + OrElse("") == verb;
    UptoFinds(verb, ' ', "");
  }

  lemma TimeoutSplits(ms: nat)
    ensures Split(TimeoutWords(ms), ' ') == if ms == 0 then ["selected"] else ["--timeout", Digits(ms), "selected"]
  {
    hide Digits, Split;
    SplitFinds("selected", ' ', "");
    if ms != 0 {
      assert ' ' !in Digits(ms) by { assert ' ' !in DIGITS; }
      SplitFinds(Digits(ms), ' ', "selected");
      var rest := Digits(ms) + [' '] + "selected";
      SplitFinds("--timeout", ' ', rest);
      assert TimeoutWords(ms) == "--timeout" + [' '] + rest;
    }
  }

  lemma ParseTimeout(d: string, ms: nat, e: string)
    ensures ParseChoose(Split(TimeoutWords(ms), ' '), d, 0, e) == Choose(d, ms, e)
  {
    hide Digits, Split, NumberOf, TimeoutWords;
    TimeoutSplits(ms);
    if ms != 0 {
      var words := Split(TimeoutWords(ms), ' ');
      assert words != ["selected"];
      assert words[2..] == ["selected"];
      NumberOfDigits(ms);
    }
  }

  lemma ParseChooseBack(d: string, ms: nat, e: string)
    requires ' ' !in d
    ensures ParseChoose(Split(ChooseWords(d, ms), ' '), "", 0, e) == Choose(d, ms, e)
  {
    ParseTimeout(d, ms, e);
    if d != "" {
      DefaultSplits(d, ms);
      ParseDefault(d, Split(TimeoutWords(ms), ' '), e);
    }
  }

  lemma DefaultSplits(d: string, ms: nat)
    requires d != "" && ' ' !in d
    ensures Split(ChooseWords(d, ms), ' ') == ["--default", d] + Split(TimeoutWords(ms), ' ')
  {
    hide TimeoutWords, Split;
    var rest := d + [' '] + TimeoutWords(ms);
    SplitFinds(d, ' ', TimeoutWords(ms));
    SplitFinds("--default", ' ', rest);
    assert ChooseWords(d, ms) == "--default" + [' '] + rest;
    assert ["--default"] + ([d] + Split(TimeoutWords(ms), ' ')) == ["--default", d] + Split(TimeoutWords(ms), ' ');
  }

  lemma ParseDefault(d: string, more: seq<string>, e: string)
    ensures ParseChoose(["--default", d] + more, "", 0, e) == ParseChoose(more, d, 0, e)
  {
    var words := ["--default", d] + more;
    assert words[0] == "--default" && words[1] == d && words[2..] == more;
    assert words != ["selected"];
  }

  lemma TimeoutWordsPlain(ms: nat)
    ensures '|' !in TimeoutWords(ms) && '\n' !in TimeoutWords(ms)
  {
    assert '|' !in Digits(ms) && '\n' !in Digits(ms) by { assert '|' !in DIGITS && '\n' !in DIGITS; }
  }

  lemma ChooseWordsFit(d: string, ms: nat)
    requires OneLine(d)
    ensures OneLine(ChooseWords(d, ms))
  {
    hide TimeoutWords;
    var t := TimeoutWords(ms);
    TimeoutWordsPlain(ms);
    LineFits(d, t);
    NoBarsJoin("--default ", Line(d, t));
    assert "--default " + Line(d, t) == "--default " + d + " " + t;
  }

  lemma LineFits(n: string, t: string)
    requires NoBars(n) && NoBars(t)
    ensures NoBars(Line(n, t))
  {
    var s := Line(n, t);
    forall i | 0 <= i < |s| - 1 ensures !(s[i] == '|' && s[i + 1] == '|') {
      if i > |n| {
        assert s[i] == t[i - |n| - 1] && s[i + 1] == t[i - |n|];
      }
    }
  }

  lemma ParseItem(n: string, t: string)
    requires Word(n) && OneLine(t)
    ensures Parse(Print(Item(n, t))) == Item(n, t)
  {
    hide Parse;
    LineFits(n, t);
    ParseSimple("item", Line(n, t));
    UptoFinds(n, ' ', t);
    assert Line(n, t) == n + [' '] + t;
    assert Line(n, t)[|n| + 1..] == t;
  }

  lemma ParseChain(u: string, af: bool, e: string)
    requires OneLine(u) && (!af ==> !("--autofree " <= u))
    ensures Parse(Print(Chain(u, af, e))) == Chain(u, af, e)
  {
    hide Parse;
    if af {
      LineFits("--autofree", u);
      ParseLine("chain", Line("--autofree", u), e);
      assert Line("--autofree", u)[..11] == "--autofree " && Line("--autofree", u)[11..] == u;
    } else {
      ParseLine("chain", u, e);
    }
  }

  /** Reading a tidy command's text gives the command back. */
  lemma ParsePrint(c: Cmd)
    requires Tidy(c)
    ensures Parse(Print(c)) == c
  {
    match c
    case Comment(t) => assert Print(c)[1..] == t;
    case Label(n) => assert Print(c)[1..] == n;
    case Item(n, t) => ParseItem(n, t);
    case Chain(u, af, e) => ParseChain(u, af, e);
    case Choose(d, ms, e) =>
      hide Parse, ChooseWords;
      ChooseWordsFit(d, ms);
      ParseLine("choose", ChooseWords(d, ms), e);
      ParseChooseBack(d, ms, e);
    case Blank =>
    case _ => ParseOneArgument(c);
  }

  lemma ParseOneArgument(c: Cmd)
    requires Tidy(c)
    requires c.Menu? || c.Goto? || c.GotoSelected? || c.Kernel? || c.Initrd? || c.Boot? || c.Exit? || c.Echo?
             || c.Sleep?
    ensures Parse(Print(c)) == c
  {
    hide Parse, Line;
    match c
    case Menu(t) => ParseSimple("menu", t);
    case Goto(t) => ParseSimple("goto", t);
    case GotoSelected => ParseSimple("goto", "${selected}");
    case Kernel(a) => ParseSimple("kernel", a);
    case Initrd(u) => ParseSimple("initrd", u);
    case Boot => ParseBare("boot");
    case Exit => ParseSimple("exit", "0");
    case Echo(t) => ParseSimple("echo", t);
    case Sleep(t) => ParseSimple("sleep", t);
  }

  lemma PrintIsOneLine(c: Cmd)
    requires Tidy(c)
    ensures '\n' !in Print(c)
  {
    hide ChooseWords, Digits;
    if c.Choose? { ChooseWordsFit(c.default, c.ms); }
  }

  /** Reading a listing of tidy commands gives the program back. */
  lemma {:induction false} ParseListing(p: seq<Cmd>)
    requires forall c :: c in p ==> Tidy(c)
    ensures ParseScript(Listing(p)) == p
  {
    if p != [] {
      var line := Print(p[0]);
      PrintIsOneLine(p[0]);
      UptoFinds(line, '\n', Listing(p[1..]));
      assert Listing(p) == line + ['\n'] + Listing(p[1..]);
      assert Listing(p)[|line| + 1..] == Listing(p[1..]);
      ParsePrint(p[0]);
      ParseListing(p[1..]);
    }
  }

  lemma {:induction false} ListingAppend(a: seq<Cmd>, b: seq<Cmd>)
    ensures Listing(a + b) == Listing(a) + Listing(b)
  {
    if a == [] {
      assert a + b == b;
    } else {
      assert (a + b)[1..] == a[1..] + b;
      ListingAppend(a[1..], b);
    }
  }
}
