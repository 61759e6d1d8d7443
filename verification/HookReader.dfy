/** What awg-quick and wg-quick find in the config file: the hooks they run when the interface comes up or goes down. */
module HookReader {
  import opened Options
  import opened Text
  import opened Firewall
  import opened Tunnel
  import opened Hooks
  import opened QuickConfig
  import opened HookLines
  import opened HookShell
  import opened ConfigRoundTrip

  // ---------- reading the file ----------

  /** The key and the value of a setting; blank lines, comments and section names are none. */
  function SettingOf(raw: string): Option<Entry> {
    var line := TrimSpace(raw);
    if line == "" || line[0] == '#' || line[0] == '[' || IndexOf(line, '=') < 0 then None
    else Some(Entry(TrimSpace(line[..IndexOf(line, '=')]), TrimSpace(line[IndexOf(line, '=') + 1..])))
  }

  /** The values of all lines with the key, in order. */
  function ValuesIn(lines: seq<string>, key: string): seq<string> {
    if lines == [] then []
    else
      var e := SettingOf(lines[|lines| - 1]);
      ValuesIn(lines[..|lines| - 1], key) + if e.Some? && e.value.key == key then [e.value.value] else []
  }

  function Values(conf: string, key: string): seq<string> { ValuesIn(Split(conf, '\n'), key) }

  /** A hook that is given several times is run line by line. */
  function CommandsIn(values: seq<string>): seq<Command> {
    if values == [] then [] else CommandsIn(values[..|values| - 1]) + Shell(values[|values| - 1])
  }

  /** The commands that bringing the interface up or down runs: those of the lines with this key. */
  function HookCommands(conf: string, key: string): seq<Command> { CommandsIn(Values(conf, key)) }

  // ---------- a printed line ----------

  lemma EntryIsRead(e: Entry)
    requires PlainKey(e.key)
    ensures SettingOf(e.Line()) == Some(Entry(e.key, TrimSpace(e.value)))
  {
    hide TrimSpace, TrimRight;
    var head, tail := e.key + " ", TrimRight([' '] + e.value);
    var line := TrimSpace(e.Line());
    TrimmedLine(e.key, e.value);
    assert line == head + ['='] + tail && line[0] == e.key[0];
    assert '=' !in head;
    IndexOfAt(head, '=', tail);
    assert line[..|head|] == head && line[|head| + 1..] == tail;
    TrimmedHead(e.key);
    TrimmedTail(e.value);
  }

  lemma OtherLines(name: string)
    ensures SettingOf("").None? && SettingOf("# " + name).None?
    ensures SettingOf("[Interface]").None? && SettingOf("[Peer]").None?
  {
    var line := "# " + name;
    assert TrimLeft(line) == line;
    TrimRightKeepsHead(line);
    TrimmedIsFixed("[Interface]");
    TrimmedIsFixed("[Peer]");
  }

  // ---------- the printed file ----------

  lemma {:induction false} ValuesAppend(a: seq<string>, b: seq<string>, key: string)
    ensures ValuesIn(a + b, key) == ValuesIn(a, key) + ValuesIn(b, key)
  {
    hide SettingOf;
    if b == [] {
      assert a + b == a;
    } else {
      assert (a + b)[..|a + b| - 1] == a + b[..|b| - 1];
      ValuesAppend(a, b[..|b| - 1], key);
    }
  }

  lemma ValuesOfOne(line: string, key: string)
    ensures var e := SettingOf(line);
            ValuesIn([line], key) == if e.Some? && e.value.key == key then [e.value.value] else []
  {
    assert [line][..0] == [];
  }

  /** No setting of the list has the key. */
  predicate Lacks(es: seq<Entry>, key: string) { forall i :: 0 <= i < |es| ==> es[i].key != key }

  lemma {:induction false} LackingIsSilent(es: seq<Entry>, key: string)
    requires PlainKeys(es) && Lacks(es, key)
    ensures ValuesIn(EntryLines(es), key) == []
  {
    hide SettingOf, Entry.Line, PlainKey;
    if es != [] {
      var front, e := es[..|es| - 1], es[|es| - 1];
      assert EntryLines(es)[..|front|] == EntryLines(front);
      LackingIsSilent(front, key);
      EntryIsRead(e);
    }
  }

  lemma EntryValue(e: Entry, key: string)
    requires PlainKey(e.key)
    ensures ValuesIn(EntryLines([e]), key) == if e.key == key then [TrimSpace(e.value)] else []
    ensures ValuesIn(EntryLines([]), key) == []
  {
    hide SettingOf, Entry.Line, TrimSpace, PlainKey;
    EntryIsRead(e);
    OneEntryLine(e);
    ValuesOfOne(e.Line(), key);
  }

  lemma HookEntriesAreRead(up: string, down: string)
    ensures ValuesIn(EntryLines(HookEntries(up, down)), "PostUp") == if up == "" then [] else [TrimSpace(up)]
    ensures ValuesIn(EntryLines(HookEntries(up, down)), "PostDown") == if down == "" then [] else [TrimSpace(down)]
  {
    hide ValuesIn, EntryLines, TrimSpace, PlainKey;
    HookKeysArePlain();
    var u, d := Entry("PostUp", up), Entry("PostDown", down);
    var us, ds := if up == "" then [] else [u], if down == "" then [] else [d];
    assert HookEntries(up, down) == us + ds;
    EntryLinesAppend(us, ds);
    HooksUnder(u, d, us, ds, "PostUp");
    HooksUnder(u, d, us, ds, "PostDown");
  }

  lemma HooksUnder(u: Entry, d: Entry, us: seq<Entry>, ds: seq<Entry>, key: string)
    requires PlainKey(u.key) && PlainKey(d.key) && (us == [] || us == [u]) && (ds == [] || ds == [d])
    ensures ValuesIn(EntryLines(us) + EntryLines(ds), key)
            == (if us == [u] && u.key == key then [TrimSpace(u.value)] else [])
               + (if ds == [d] && d.key == key then [TrimSpace(d.value)] else [])
  {
    hide ValuesIn, EntryLines, TrimSpace, PlainKey;
    EntryValue(u, key);
    EntryValue(d, key);
    ValuesAppend(EntryLines(us), EntryLines(ds), key);
  }

  lemma HookKeysArePlain()
    ensures PlainKey("PostUp") && PlainKey("PostDown") && "PostUp" != "PostDown"
  {
    assert |"PostUp"| == 6 && |"PostDown"| == 8;
  }

  lemma OneEntryLine(e: Entry)
    ensures EntryLines([e]) == [e.Line()] && EntryLines([]) == []
  {}

  lemma EntryLinesAppend(a: seq<Entry>, b: seq<Entry>)
    ensures EntryLines(a + b) == EntryLines(a) + EntryLines(b)
  {
    hide EntryLines, Entry.Line;
  }

  lemma OtherKeysLack(s: Server)
    ensures Lacks(NetworkEntries(s), "PostUp") && Lacks(NetworkEntries(s), "PostDown")
    ensures Lacks(ObfuscationEntries(s.obfuscation), "PostUp") && Lacks(ObfuscationEntries(s.obfuscation), "PostDown")
  {
    hide Itoa, OrDefault;
    assert "PostUp"[0] == 'P' && "PostDown"[0] == 'P' && "PrivateKey"[1] != "PostUp"[1]
           && "PrivateKey"[1] != "PostDown"[1];
    assert "Address"[0] != 'P' && "ListenPort"[0] != 'P' && "MTU"[0] != 'P' && "Jc"[0] != 'P' && "Jmin"[0] != 'P';
    assert "Jmax"[0] != 'P' && "S1"[0] != 'P' && "S2"[0] != 'P' && "S3"[0] != 'P' && "S4"[0] != 'P';
    assert "H1"[0] != 'P' && "H2"[0] != 'P' && "H3"[0] != 'P' && "H4"[0] != 'P' && "I1"[0] != 'P';
  }

  /** A hook is found in the section of the interface. */
  lemma InterfaceHooks(s: Server, clients: seq<Client>, detected: string, key: string)
    requires key == "PostUp" || key == "PostDown"
    ensures var up, down := EffectivePostUp(s, clients, detected), EffectivePostDown(s, clients, detected);
            ValuesIn(EntryLines(InterfaceEntries(s, clients, detected)), key)
            == ValuesIn(EntryLines(HookEntries(up, down)), key)
  {
    hide ValuesIn, NetworkEntries, ObfuscationEntries, HookEntries, PlainKey, EffectivePostUp,
         EffectivePostDown, EntryLines;
    var net, obf := NetworkEntries(s), if s.flavour.Awg? then ObfuscationEntries(s.obfuscation) else [];
    var hooks := HookEntries(EffectivePostUp(s, clients, detected), EffectivePostDown(s, clients, detected));
    InterfaceKeysArePlain(s, clients, detected);
    assert InterfaceEntries(s, clients, detected) == net + obf + hooks;
    PlainParts(net, obf, hooks);
    OtherKeysLack(s);
    LackingIsSilent(net, key);
    LackingIsSilent(obf, key);
    EntryLinesAppend(net + obf, hooks);
    EntryLinesAppend(net, obf);
    ValuesAppend(EntryLines(net + obf), EntryLines(hooks), key);
    ValuesAppend(EntryLines(net), EntryLines(obf), key);
  }

  lemma PlainParts(a: seq<Entry>, b: seq<Entry>, c: seq<Entry>)
    requires PlainKeys(a + b + c)
    ensures PlainKeys(a) && PlainKeys(b)
  {
    hide PlainKey;
    forall i | 0 <= i < |a| ensures PlainKey(a[i].key) { assert a[i] == (a + b + c)[i]; }
    forall i | 0 <= i < |b| ensures PlainKey(b[i].key) { assert b[i] == (a + b + c)[|a| + i]; }
  }

  lemma PeerIsSilent(c: Client, key: string)
    requires key == "PostUp" || key == "PostDown"
    ensures ValuesIn(PeerLines(c), key) == []
  {
    hide ValuesIn, SettingOf, EntryLines, PlainKey, Entry.Line;
    OtherLines(c.name);
    ValuesOfOne("", key);
    ValuesOfOne("[Peer]", key);
    ValuesOfOne("# " + c.name, key);
    PeerKeysArePlain();
    PeerKeysLack(c);
    LackingIsSilent(PeerEntries(c), key);
    assert ["", "[Peer]", "# " + c.name] == [""] + ["[Peer]"] + ["# " + c.name];
    ValuesAppend([""], ["[Peer]"], key);
    ValuesAppend([""] + ["[Peer]"], ["# " + c.name], key);
    ValuesAppend(["", "[Peer]", "# " + c.name], EntryLines(PeerEntries(c)), key);
  }

  lemma PeerKeysLack(c: Client)
    ensures Lacks(PeerEntries(c), "PostUp") && Lacks(PeerEntries(c), "PostDown")
  {
    assert "PostUp"[1] == 'o' && "PostDown"[1] == 'o' && "PublicKey"[1] != 'o' && "PresharedKey"[1] != 'o';
    assert "AllowedIPs"[0] != 'P' && "PostUp"[0] == 'P' && "PostDown"[0] == 'P';
  }

  lemma {:induction false} PeersAreSilent(clients: seq<Client>, key: string)
    requires key == "PostUp" || key == "PostDown"
    ensures ValuesIn(AllPeerLines(clients), key) == []
  {
    hide PeerLines, SettingOf;
    if clients != [] {
      var front, c := clients[..|clients| - 1], clients[|clients| - 1];
      PeersAreSilent(front, key);
      PeerIsSilent(c, key);
      ValuesAppend(AllPeerLines(front), if c.enable then PeerLines(c) else [], key);
    }
  }

  /** For every server and client list, a reader of the printed file finds under each of the two keys the custom hook,
      or else the text of the default commands, once. */
  lemma HooksAreFound(s: Server, clients: seq<Client>, detected: string)
    requires OneLineServer(s) && OneLineClients(clients) && OneLine(detected)
    ensures var conf := ConfigText(s, clients, detected);
            var up := if s.postUp != "" then s.postUp else HookText(UpCommands(s, clients, detected));
            var down := if s.postDown != "" then s.postDown else HookText(DownCommands(s, clients, detected));
            && Values(conf, "PostUp") == (if up == "" then [] else [TrimSpace(up)])
            && Values(conf, "PostDown") == (if down == "" then [] else [TrimSpace(down)])
  {
    hide ConfigLines, ValuesIn, Lines, TrimSpace, HookText, UpCommands, DownCommands;
    HookEntriesAreRead(EffectivePostUp(s, clients, detected), EffectivePostDown(s, clients, detected));
    FileHooks(s, clients, detected, "PostUp");
    FileHooks(s, clients, detected, "PostDown");
  }

  lemma FileHooks(s: Server, clients: seq<Client>, detected: string, key: string)
    requires OneLineServer(s) && OneLineClients(clients) && OneLine(detected) && (key == "PostUp" || key == "PostDown")
    ensures var up, down := EffectivePostUp(s, clients, detected), EffectivePostDown(s, clients, detected);
            Values(ConfigText(s, clients, detected), key) == ValuesIn(EntryLines(HookEntries(up, down)), key)
  {
    hide InterfaceEntries, AllPeerLines, EntryLines, SettingOf, ValuesIn, Lines, OneLineServer,
         OneLineClients, HookEntries,
         EffectivePostUp, EffectivePostDown;
    var ls, es, peers := ConfigLines(s, clients, detected), EntryLines(InterfaceEntries(s, clients, detected)),
      AllPeerLines(clients);
    LinesAreOneLine(s, clients, detected);
    SplitLines(ls);
    OtherLines("");
    ValuesAppend(ls, [[]], key);
    ValuesOfOne([], key);
    ValuesOfOne("[Interface]", key);
    ValuesAppend(["[Interface]"] + es, peers, key);
    ValuesAppend(["[Interface]"], es, key);
    InterfaceHooks(s, clients, detected, key);
    PeersAreSilent(clients, key);
  }

  // ---------- what is run ----------

  /** The file printed for the rows holds the default hooks, and the shell reads them as the commands they are the texts
      of. */
  ghost predicate HooksRun(s: Server, clients: seq<Client>, detected: string) {
    var conf := ConfigText(s, clients, detected);
    HookCommands(conf, "PostUp") == UpCommands(s, clients, detected)
    && HookCommands(conf, "PostDown") == DownCommands(s, clients, detected)
  }

  lemma ItemsArePlain(s: Server, clients: seq<Client>, detected: string)
    ensures var up, down := UpCommands(s, clients, detected), DownCommands(s, clients, detected);
            (forall i :: 0 <= i < |up| && up[i].Add? ==> PlainItem(up[i].item))
            && (forall i :: 0 <= i < |down| && down[i].Remove? ==> PlainItem(down[i].item))
  {
    hide UpCommands, DownCommands, Proxies;
    var up, down := UpCommands(s, clients, detected), DownCommands(s, clients, detected);
    HooksMirror(s, clients, detected);
    ProxiesAreNeighbours(clients, ExternalName6(s, detected));
    assert forall x :: x in Added(up) ==> PlainItem(x) by { OwnItemsArePlain(s, clients, detected); }
    forall i | 0 <= i < |up| && up[i].Add? ensures PlainItem(up[i].item) { AddedHas(up, i); }
    forall i | 0 <= i < |down| && down[i].Remove? ensures PlainItem(down[i].item) { RemovedHas(down, i); }
  }

  lemma OwnItemsArePlain(s: Server, clients: seq<Client>, detected: string)
    ensures forall x :: x in ProxyItems(s, clients, detected) + XrayItems(s) ==> PlainItem(x)
  {
    hide Proxies;
    ProxiesAreNeighbours(clients, ExternalName6(s, detected));
    assert '/' !in "0x1" && '/' !in "0x2";
  }

  lemma {:induction false} AddedHas(cmds: seq<Command>, i: nat)
    requires i < |cmds| && cmds[i].Add?
    ensures cmds[i].item in Added(cmds)
  {
    if i > 0 { AddedHas(cmds[1..], i - 1); }
  }

  lemma {:induction false} RemovedHas(cmds: seq<Command>, i: nat)
    requires i < |cmds| && cmds[i].Remove?
    ensures cmds[i].item in Removed(cmds)
  {
    if i > 0 { RemovedHas(cmds[1..], i - 1); }
  }

  lemma CommandsArePlain(s: Server, clients: seq<Client>, detected: string)
    requires ServerFits(Word, s, detected) && ClientsFit(Word, clients)
    ensures PlainCommands(UpCommands(s, clients, detected)) && PlainCommands(DownCommands(s, clients, detected))
  {
    hide UpCommands, DownCommands, CleanCommand, PlainItem, Appended, Deleted, Added, Removed;
    HooksFit(Word, s, clients, detected);
    ItemsArePlain(s, clients, detected);
    HooksMirror(s, clients, detected);
  }

  lemma OneHook(value: string)
    ensures CommandsIn([value]) == Shell(value) && CommandsIn([]) == []
  {
    hide Shell;
    assert [value][..0] == [];
  }

  lemma NeverEmpty(s: Server, clients: seq<Client>, detected: string)
    ensures UpCommands(s, clients, detected) != [] && DownCommands(s, clients, detected) != []
  {
    hide AllForwardRules, XrayUp, XrayDown, Ipv6Up, Ipv6Down, Appends, Deletes;
  }

  /** Default hooks made of plain words are run as they are meant. */
  lemma PlainHooksRun(s: Server, clients: seq<Client>, detected: string)
    requires s.postUp == "" && s.postDown == ""
    requires OneLineServer(s) && OneLineClients(clients) && OneLine(detected)
    requires ServerFits(Word, s, detected) && ClientsFit(Word, clients)
    ensures HooksRun(s, clients, detected)
  {
    hide UpCommands, DownCommands, HookText, Values, ConfigText, Shell, OneLineServer, OneLineClients,
         ServerFits, ClientsFit,
         PlainCommands, CommandsIn;
    var up, down := UpCommands(s, clients, detected), DownCommands(s, clients, detected);
    HooksAreFound(s, clients, detected);
    CommandsArePlain(s, clients, detected);
    NeverEmpty(s, clients, detected);
    HookIsRead(up, "");
    HookIsRead(down, "");
    assert "" + HookText(up) == HookText(up) && "" + HookText(down) == HookText(down);
    TrimmedIsFixed(HookText(up));
    TrimmedIsFixed(HookText(down));
    OneHook(HookText(up));
    OneHook(HookText(down));
  }
}
