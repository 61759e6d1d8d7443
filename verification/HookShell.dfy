/** What a shell makes of a hook: commands between semicolons, words between blanks. */
module HookShell {
  import opened Options
  import opened Text
  import opened Firewall
  import opened Hooks
  import opened HookLines

  // ---------- reading ----------

  /** The words of a command. */
  function WordsOf(piece: string): seq<string> { Split(TrimSpace(piece), ' ') }

  /** The arguments of iptables: the table, if one is named, the action, the chain, and the rest identifies the rule. */
  function ReadRule(family: Family, args: seq<string>): Option<Command> {
    var named := |args| >= 2 && args[0] == "-t";
    var table, rest := if named then args[1] else "filter", if named then args[2..] else args;
    if |rest| < 2 then None
    else if rest[0] == "-A" then Some(Append(Rule(family, table, rest[1], rest[2..])))
    else if rest[0] == "-D" then Some(Delete(Rule(family, table, rest[1], rest[2..])))
    else None
  }

  function ReadVerb(verb: string, x: Item): Option<Command> {
    if verb == "add" then Some(Add(x)) else if verb == "del" then Some(Remove(x)) else None
  }

  /** A mark with its mask, which is the mark itself. */
  function ReadMark(s: string): Option<string> {
    var slash := IndexOf(s, '/');
    if slash >= 0 && s[..slash] == s[slash + 1..] then Some(s[..slash]) else None
  }

  /** The arguments of ip. */
  function ReadItem(family: Family, args: seq<string>): Option<Command> {
    if |args| == 6 && args[0] == "rule" && args[2] == "fwmark" && args[4] == "lookup" && ReadMark(args[3]).Some? then
      ReadVerb(args[1], PolicyRule(family, ReadMark(args[3]).value, args[5]))
    else if |args| == 8 && args[0] == "route" && args[2..7] == ["local", "default", "dev", "lo", "table"] then
      ReadVerb(args[1], LocalRoute(family, args[7]))
    else if |args| == 6 && family.V6? && args[0] == "neigh" && args[2] == "proxy" && args[4] == "dev" then
      ReadVerb(args[1], NeighbourProxy(args[3], args[5]))
    else None
  }

  /** A setting that is switched on. */
  function ReadSysctl(args: seq<string>): Option<Command> {
    if |args| == 2 && args[0] == "-w" && |args[1]| >= 2 && args[1][|args[1]| - 2..] == "=1"
    then Some(Sysctl(args[1][..|args[1]| - 2])) else None
  }

  function ReadCommand(words: seq<string>): Option<Command> {
    if words == [] then None
    else if words[0] == "iptables" then ReadRule(V4, words[1..])
    else if words[0] == "ip6tables" then ReadRule(V6, words[1..])
    else if words[0] == "ip" && |words| >= 2 && words[1] == "-6" then ReadItem(V6, words[2..])
    else if words[0] == "ip" then ReadItem(V4, words[1..])
    else if words[0] == "sysctl" then ReadSysctl(words[1..])
    else None
  }

  /** The commands among the pieces; what is none of these is not the panel's. */
  function ReadAll(pieces: seq<string>): seq<Command> {
    if pieces == [] then []
    else
      var c := ReadCommand(WordsOf(pieces[0]));
      (if c.Some? then [c.value] else []) + ReadAll(pieces[1..])
  }

  function Shell(text: string): seq<Command> { ReadAll(Split(text, ';')) }

  // ---------- a printed command is read back ----------

  lemma RuleIsRead(action: string, r: Rule)
    requires action == "-A" || action == "-D"
    ensures ReadCommand(RuleWords(action, r)) == Some(if action == "-A" then Append(r) else Delete(r))
  {
    var words := RuleWords(action, r);
    var head := if r.table == "filter" then [] else ["-t", r.table];
    var args := head + [action, r.chain] + r.spec;
    assert words[1..] == args;
    assert "-A" != "-t" && "-D" != "-t" && "-A" != "-D" && "iptables" != "ip6tables";
    if r.table == "filter" {
      assert args == [action, r.chain] + r.spec && args[2..] == r.spec;
    } else {
      assert args[2..] == [action, r.chain] + r.spec && args[2..][2..] == r.spec;
    }
  }

  lemma MarkIsRead(mark: string)
    requires '/' !in mark
    ensures ReadMark(mark + "/" + mark) == Some(mark)
  {
    var s := mark + "/" + mark;
    assert s == mark + ['/'] + mark;
    IndexOfAt(mark, '/', mark);
    assert s[..|mark|] == mark && s[|mark| + 1..] == mark;
  }

  /** The mark of a policy rule has no slash of its own. */
  predicate PlainItem(x: Item) { x.PolicyRule? ==> '/' !in x.fwmark }

  lemma ItemIsRead(verb: string, x: Item)
    requires (verb == "add" || verb == "del") && PlainItem(x)
    ensures ReadCommand(ItemWords(verb, x)) == Some(if verb == "add" then Add(x) else Remove(x))
  {
    var words := ItemWords(verb, x);
    NamesDiffer();
    match x {
      case PolicyRule(f, mark, table) =>
        MarkIsRead(mark);
        var args := ["rule", verb, "fwmark", mark + "/" + mark, "lookup", table];
        assert if f.V4? then words[1..] == args else words[2..] == args;
      case LocalRoute(f, table) =>
        var args := ["route", verb, "local", "default", "dev", "lo", "table", table];
        assert args[2..7] == ["local", "default", "dev", "lo", "table"];
        assert if f.V4? then words[1..] == args else words[2..] == args;
      case NeighbourProxy(ip, dev) =>
        assert words[2..] == ["neigh", verb, "proxy", ip, "dev", dev];
    }
  }

  lemma NamesDiffer()
    ensures "ip" != "iptables" && "ip" != "ip6tables" && "sysctl" != "ip" && "sysctl" != "iptables"
    ensures "sysctl" != "ip6tables" && "rule" != "-6" && "route" != "-6" && "rule" != "neigh" && "add" != "del"
  {
    assert |"ip"| == 2 && |"iptables"| == 8 && |"ip6tables"| == 9 && |"sysctl"| == 6 && |"-6"| == 2;
    assert "rule"[0] != "neigh"[0] && "add"[0] != "del"[0];
  }

  predicate PlainCommand(c: Command) {
    CleanCommand(Word, c) && (c.Add? || c.Remove? ==> PlainItem(c.item))
  }

  predicate PlainCommands(cmds: seq<Command>) { forall i :: 0 <= i < |cmds| ==> PlainCommand(cmds[i]) }

  lemma CommandIsRead(c: Command)
    requires PlainCommand(c)
    ensures ReadCommand(CommandWords(c)) == Some(c)
  {
    hide RuleWords, ItemWords, ReadCommand, CleanCommand, PlainItem;
    match c {
      case Append(r) => RuleIsRead("-A", r);
      case Delete(r) =>
        RuleIsRead("-D", r);
        assert "-D" != "-A";
      case Add(x) => ItemIsRead("add", x);
      case Remove(x) =>
        ItemIsRead("del", x);
        assert "del" != "add";
      case Sysctl(key) => SysctlIsRead(key);
    }
  }

  lemma SysctlIsRead(key: string)
    ensures ReadCommand(["sysctl", "-w", key + "=1"]) == Some(Sysctl(key))
  {
    NamesDiffer();
    var words := ["sysctl", "-w", key + "=1"];
    assert words[1..] == ["-w", key + "=1"];
    assert (key + "=1")[..|key|] == key && (key + "=1")[|key|..] == "=1";
  }

  // ---------- a printed hook is read back ----------

  /** The text begins and ends with something that is no blank. */
  lemma {:induction false} WordsAreTrimmed(ws: seq<string>)
    requires ws != [] && FitAll(Word, ws)
    ensures var s := Join(ws, " "); s != "" && Trimmed(s) && ';' !in s
  {
    assert ws[0] in ws;
    if |ws| > 1 {
      assert forall w :: w in ws[1..] ==> w in ws;
      WordsAreTrimmed(ws[1..]);
      var s, rest := Join(ws, " "), Join(ws[1..], " ");
      assert s == ws[0] + " " + rest;
      assert s[|s| - 1] == rest[|rest| - 1] && s[0] == ws[0][0];
    }
  }

  lemma WordsAreRead(ws: seq<string>, lead: string)
    requires ws != [] && FitAll(Word, ws) && (lead == "" || lead == " ")
    ensures WordsOf(lead + Join(ws, " ")) == ws
  {
    hide Fits, Join;
    var s := Join(ws, " ");
    WordsAreTrimmed(ws);
    TrimmedIsFixed(s);
    assert lead == "" ==> lead + s == s;
    assert lead == " " ==> (lead + s)[1..] == s;
    assert TrimSpace(lead + s) == TrimSpace(s);
    forall w | w in ws ensures ' ' !in w { NoBlank(w); }
    SplitJoin(ws, ' ');
  }

  lemma NoBlank(w: string)
    requires Fits(Word, w)
    ensures ' ' !in w
  {}

  lemma TextIsRead(c: Command, lead: string)
    requires PlainCommand(c) && (lead == "" || lead == " ")
    ensures ReadCommand(WordsOf(lead + CommandText(c))) == Some(c)
    ensures ';' !in CommandText(c) && CommandText(c) != "" && Trimmed(CommandText(c))
  {
    hide ReadCommand, WordsOf, CommandWords, Fits, PlainItem;
    assert CommandWords(c) != [] by { HasWords(c); }
    WordsAreTrimmed(CommandWords(c));
    WordsAreRead(CommandWords(c), lead);
    CommandIsRead(c);
  }

  lemma HasWords(c: Command)
    ensures CommandWords(c) != []
  {}

  lemma HookTextStep(cmds: seq<Command>)
    requires cmds != []
    ensures HookText(cmds) == if |cmds| == 1 then CommandText(cmds[0])
                              else CommandText(cmds[0]) + "; " + HookText(cmds[1..])
  {
    hide CommandText;
    assert Texts(cmds)[1..] == Texts(cmds[1..]);
  }

  lemma ShellStep(text: string, rest: string, c: Command)
    requires ';' !in text && ReadCommand(WordsOf(text)) == Some(c)
    ensures Shell(text) == [c] && Shell(text + [';'] + rest) == [c] + Shell(rest)
  {
    hide ReadCommand, WordsOf;
    SplitWhole(text, ';');
    SplitAppend(text, ';', rest);
    assert [text][1..] == [] && ([text] + Split(rest, ';'))[1..] == Split(rest, ';');
  }

  /** Reading a printed hook gives its commands. */
  lemma {:induction false} HookIsRead(cmds: seq<Command>, lead: string)
    requires cmds != [] && PlainCommands(cmds) && (lead == "" || lead == " ")
    ensures Shell(lead + HookText(cmds)) == cmds
    ensures HookText(cmds) != "" && Trimmed(HookText(cmds))
  {
    hide CommandText, HookText, ReadCommand, WordsOf, PlainCommand, Shell;
    var c := cmds[0];
    var text := lead + CommandText(c);
    HookTextStep(cmds);
    TextIsRead(c, lead);
    assert ';' !in text;
    if |cmds| == 1 {
      ShellStep(text, "", c);
      assert cmds == [c];
    } else {
      var rest := cmds[1..];
      HookIsRead(rest, " ");
      assert lead + HookText(cmds) == text + [';'] + (" " + HookText(rest));
      ShellStep(text, " " + HookText(rest), c);
      assert cmds == [c] + rest;
      var all := HookText(cmds);
      assert all[0] == CommandText(c)[0] && all[|all| - 1] == HookText(rest)[|HookText(rest)| - 1];
    }
  }
}
