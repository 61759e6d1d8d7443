/** The default hooks are made of whole words on a single line whenever the fields they are built from are. */
module HookLines {
  import opened Text
  import opened Firewall
  import opened PortForward
  import opened Tunnel
  import opened Hooks

  predicate OneLine(s: string) { '\n' !in s }

  /** A word of a shell command: not empty, and neither blanks nor a semicolon in it. */
  predicate PlainWord(s: string) { s != "" && forall i :: 0 <= i < |s| ==> !IsSpace(s[i]) && s[i] != ';' }

  /** What is asked of the words: to stay on their line, or to be words of a shell command. */
  datatype Mode = Line | Word

  predicate Fits(m: Mode, s: string) {
    match m
    case Line => OneLine(s)
    case Word => PlainWord(s)
  }

  predicate FitAll(m: Mode, words: seq<string>) { forall w :: w in words ==> Fits(m, w) }

  // ---------- fields ----------

  predicate OneLineServer(s: Server) {
    OneLine(s.interfaceName) && OneLine(s.privateKey) && OneLine(s.ipv4Address) && OneLine(s.ipv4Pool)
    && OneLine(s.ipv6Address) && OneLine(s.externalInterface) && OneLine(s.ipv6ExternalInterface)
    && OneLine(s.postUp) && OneLine(s.postDown)
    && OneLine(s.obfuscation.h1) && OneLine(s.obfuscation.h2) && OneLine(s.obfuscation.h3)
    && OneLine(s.obfuscation.h4) && OneLine(s.obfuscation.i1)
  }

  predicate OneLineClient(c: Client) {
    OneLine(c.uuid) && OneLine(c.name) && OneLine(c.publicKey) && OneLine(c.presharedKey)
    && OneLine(c.ipv4Address) && OneLine(c.ipv6Address) && OneLine(c.allowedIPs)
  }

  /** Only the clients that are printed matter. */
  predicate OneLineClients(clients: seq<Client>) {
    forall i :: 0 <= i < |clients| && clients[i].enable ==> OneLineClient(clients[i])
  }

  /** The fields that the hooks print: the names of the interfaces and the pool, */
  predicate ServerFits(m: Mode, s: Server, detected: string) {
    Fits(m, TunnelName(s)) && Fits(m, ExternalName(s, detected))
    && (s.ipv6Enabled ==> Fits(m, ExternalName6(s, detected)))
    && (!s.routeViaXray ==> Fits(m, s.ipv4Pool))
  }

  /** and of an enabled client its id and its addresses. */
  predicate ClientFits(m: Mode, c: Client) {
    c.enable ==>
      (c.uuid == "" || Fits(m, c.uuid))
      && (StripMask(c.ipv4Address) == "" || Fits(m, StripMask(c.ipv4Address)))
      && (c.ipv6Address == "" || Fits(m, StripMask(c.ipv6Address)))
  }

  predicate ClientsFit(m: Mode, clients: seq<Client>) {
    forall i :: 0 <= i < |clients| ==> ClientFits(m, clients[i])
  }

  lemma OneLineFits(s: Server, clients: seq<Client>, detected: string)
    requires OneLineServer(s) && OneLineClients(clients) && OneLine(detected)
    ensures ServerFits(Line, s, detected) && ClientsFit(Line, clients)
  {
    assert OneLine("awg0") && OneLine("wg0");
    forall i | 0 <= i < |clients| ensures ClientFits(Line, clients[i]) {
      if clients[i].enable {
        StripIsOneLine(clients[i].ipv4Address);
        StripIsOneLine(clients[i].ipv6Address);
      }
    }
  }

  lemma StripIsOneLine(addr: string)
    requires OneLine(addr)
    ensures OneLine(StripMask(addr))
  {}

  // ---------- words ----------

  /** The fixed words of the hooks are of this kind. */
  predicate Fixed(s: string) { s != "" && forall i :: 0 <= i < |s| ==> '!' <= s[i] <= '~' && s[i] != ';' }

  lemma FixedFits(m: Mode, s: string)
    requires Fixed(s)
    ensures Fits(m, s)
  {}

  lemma ActionWordsFit(m: Mode)
    ensures Fits(m, "iptables") && Fits(m, "ip6tables") && Fits(m, "-t") && Fits(m, "-A") && Fits(m, "-D")
  {
    hide Fits;
    FixedFits(m, "iptables");
    FixedFits(m, "ip6tables");
    FixedFits(m, "-t");
    FixedFits(m, "-A");
    FixedFits(m, "-D");
  }

  lemma OptionWordsFit(m: Mode)
    ensures Fits(m, "-s") && Fits(m, "-d") && Fits(m, "-i") && Fits(m, "-o") && Fits(m, "-p") && Fits(m, "-m")
            && Fits(m, "-j") && Fits(m, "--dport") && Fits(m, "--comment") && Fits(m, "comment")
  {
    hide Fits;
    FixedFits(m, "-s");
    FixedFits(m, "-d");
    FixedFits(m, "-i");
    FixedFits(m, "-o");
    FixedFits(m, "-p");
    FixedFits(m, "-m");
    FixedFits(m, "-j");
    FixedFits(m, "--dport");
    FixedFits(m, "--comment");
    FixedFits(m, "comment");
  }

  lemma TargetWordsFit(m: Mode)
    ensures Fits(m, "MASQUERADE") && Fits(m, "ACCEPT") && Fits(m, "DNAT") && Fits(m, "--to-destination")
            && Fits(m, "tcp") && Fits(m, "udp") && Fits(m, ":") && Fits(m, "-")
  {
    hide Fits;
    FixedFits(m, "MASQUERADE");
    FixedFits(m, "ACCEPT");
    FixedFits(m, "DNAT");
    FixedFits(m, "--to-destination");
    FixedFits(m, "tcp");
    FixedFits(m, "udp");
    FixedFits(m, ":");
    FixedFits(m, "-");
  }

  lemma ChainWordsFit(m: Mode)
    ensures Fits(m, "filter") && Fits(m, "nat") && Fits(m, "mangle") && Fits(m, "FORWARD") && Fits(m, "PREROUTING")
            && Fits(m, "POSTROUTING")
  {
    hide Fits;
    FixedFits(m, "filter");
    FixedFits(m, "nat");
    FixedFits(m, "mangle");
    FixedFits(m, "FORWARD");
    FixedFits(m, "PREROUTING");
    FixedFits(m, "POSTROUTING");
  }

  lemma TproxyWordsFit(m: Mode)
    ensures Fits(m, "TPROXY") && Fits(m, "--on-ip") && Fits(m, "127.0.0.1") && Fits(m, "::1") && Fits(m, "--on-port")
            && Fits(m, "--tproxy-mark")
  {
    hide Fits;
    FixedFits(m, "TPROXY");
    FixedFits(m, "--on-ip");
    FixedFits(m, "127.0.0.1");
    FixedFits(m, "::1");
    FixedFits(m, "--on-port");
    FixedFits(m, "--tproxy-mark");
  }

  lemma ItemWordsFit(m: Mode)
    ensures Fits(m, "ip") && Fits(m, "-6") && Fits(m, "rule") && Fits(m, "route") && Fits(m, "neigh")
            && Fits(m, "add") && Fits(m, "del") && Fits(m, "proxy") && Fits(m, "dev") && Fits(m, "fwmark")
            && Fits(m, "lookup") && Fits(m, "local") && Fits(m, "default") && Fits(m, "lo") && Fits(m, "table")
  {
    hide Fits;
    FixedFits(m, "ip");
    FixedFits(m, "-6");
    FixedFits(m, "rule");
    FixedFits(m, "route");
    FixedFits(m, "neigh");
    FixedFits(m, "add");
    FixedFits(m, "del");
    FixedFits(m, "proxy");
    FixedFits(m, "dev");
    FixedFits(m, "fwmark");
    FixedFits(m, "lookup");
    FixedFits(m, "local");
    FixedFits(m, "default");
    FixedFits(m, "lo");
    FixedFits(m, "table");
  }

  lemma SysctlWordsFit(m: Mode)
    ensures Fits(m, "sysctl") && Fits(m, "-w") && Fits(m, "=1")
  {
    hide Fits;
    FixedFits(m, "sysctl");
    FixedFits(m, "-w");
    FixedFits(m, "=1");
  }

  lemma SysctlKeysFit(m: Mode)
    ensures Fits(m, "net.ipv4.ip_forward") && Fits(m, "net.ipv6.conf.all.forwarding")
    ensures Fits(m, "net.ipv6.conf.") && Fits(m, ".proxy_ndp")
  {
    hide Fits;
    FixedFits(m, "net.ipv4.ip_forward");
    FixedFits(m, "net.ipv6.conf.all.forwarding");
    FixedFits(m, "net.ipv6.conf.");
    FixedFits(m, ".proxy_ndp");
  }

  lemma CommentWordsFit(m: Mode)
    ensures Fits(m, "3ax-fwd") && Fits(m, "3ax-fwd-")
  {
    hide Fits;
    FixedFits(m, "3ax-fwd");
    FixedFits(m, "3ax-fwd-");
  }

  lemma FitConcat(m: Mode, a: string, b: string)
    requires Fits(m, a) && Fits(m, b)
    ensures Fits(m, a + b)
  {}

  lemma NumbersFit(m: Mode, n: int)
    ensures Fits(m, Itoa(n))
  {
    hide Itoa;
    ItoaRunes(n);
    assert forall i :: 0 <= i < |Itoa(n)| ==> Itoa(n)[i] in Itoa(n);
  }

  lemma NumbersAreOneLine(n: int)
    ensures OneLine(Itoa(n))
  {
    NumbersFit(Line, n);
  }

  // ---------- commands ----------

  /** Every word of the command fits. */
  predicate CleanCommand(m: Mode, c: Command) { FitAll(m, CommandWords(c)) }

  predicate CleanRule(m: Mode, r: Rule) { Fits(m, r.table) && Fits(m, r.chain) && FitAll(m, r.spec) }

  predicate CleanRules(m: Mode, rules: seq<Rule>) {
    forall i :: 0 <= i < |rules| ==> CleanRule(m, rules[i])
  }

  predicate CleanCommands(m: Mode, cmds: seq<Command>) {
    forall i :: 0 <= i < |cmds| ==> CleanCommand(m, cmds[i])
  }

  lemma CleanText(cmds: seq<Command>)
    requires CleanCommands(Line, cmds)
    ensures OneLine(HookText(cmds))
  {
    hide CommandText, CommandWords;
    var ts := Texts(cmds);
    forall t | t in ts ensures OneLine(t) {
      var i :| 0 <= i < |ts| && ts[i] == t;
      assert CleanCommand(Line, cmds[i]);
      WordsMakeOneLine(cmds[i]);
    }
    JoinFree(ts, "; ", '\n');
  }

  lemma WordsMakeOneLine(c: Command)
    requires CleanCommand(Line, c)
    ensures OneLine(CommandText(c))
  {
    hide CommandWords;
    JoinFree(CommandWords(c), " ", '\n');
  }

  lemma CleanRuleCommands(m: Mode, rules: seq<Rule>)
    requires CleanRules(m, rules)
    ensures CleanCommands(m, Appends(rules)) && CleanCommands(m, Deletes(rules))
  {
    hide Appends, Deletes, Fits;
    ActionWordsFit(m);
    forall i | 0 <= i < |rules| ensures CleanCommand(m, Append(rules[i])) && CleanCommand(m, Delete(rules[i])) {
      assert CleanRule(m, rules[i]);
    }
  }

  lemma PortsFit(m: Mode, spec: PortSpec, ip: string)
    requires Fits(m, ip)
    ensures Fits(m, spec.DportArg()) && Fits(m, spec.DnatTarget(ip))
  {
    hide Itoa, Fits;
    TargetWordsFit(m);
    var a, b := Itoa(spec.start), Itoa(spec.end);
    NumbersFit(m, spec.start);
    NumbersFit(m, spec.end);
    FitConcat(m, a, ":");
    FitConcat(m, a + ":", b);
    FitConcat(m, ip, ":");
    FitConcat(m, ip + ":", a);
    FitConcat(m, ip + ":" + a, "-");
    FitConcat(m, ip + ":" + a + "-", b);
  }

  lemma ArgsFit(m: Mode, ext: string, tun: string, ip: string, comment: string, spec: PortSpec, proto: string)
    requires Fits(m, ext) && Fits(m, tun) && Fits(m, ip) && Fits(m, comment) && Fits(m, proto)
    ensures FitAll(m, NatArgs(ext, ip, comment, spec, proto)) && FitAll(m, ForwardArgs(tun, ip, comment, spec, proto))
  {
    hide PortSpec.DportArg, PortSpec.DnatTarget, Fits;
    PortsFit(m, spec, ip);
    ChainWordsFit(m);
    OptionWordsFit(m);
    TargetWordsFit(m);
    ActionWordsFit(m);
  }

  predicate ArgListsFit(m: Mode, lists: seq<seq<string>>) {
    forall i :: 0 <= i < |lists| ==> FitAll(m, lists[i])
  }

  lemma {:induction false} RuleSetFits(m: Mode, ext: string, tun: string, ip: string, comment: string,
      specs: seq<PortSpec>)
    requires Fits(m, ext) && Fits(m, tun) && Fits(m, ip) && Fits(m, comment)
    ensures var rs := RuleSetOf(ext, tun, ip, comment, specs);
            ArgListsFit(m, rs.dnat) && ArgListsFit(m, rs.forward)
  {
    hide NatArgs, ForwardArgs, FitAll, Fits;
    if specs != [] {
      var last := specs[|specs| - 1];
      RuleSetFits(m, ext, tun, ip, comment, specs[..|specs| - 1]);
      TargetWordsFit(m);
      ArgsFit(m, ext, tun, ip, comment, last, "tcp");
      ArgsFit(m, ext, tun, ip, comment, last, "udp");
    }
  }

  lemma RuleOfFits(m: Mode, args: seq<string>)
    requires (NatShape(args) || ForwardShape(args)) && FitAll(m, args)
    ensures CleanRule(m, RuleOf(args))
  {
    hide Fits;
    assert forall i :: 0 <= i < |args| ==> args[i] in args;
    ChainWordsFit(m);
  }

  lemma RulesOfArgsFit(m: Mode, lists: seq<seq<string>>)
    requires forall i :: 0 <= i < |lists| ==> NatShape(lists[i]) || ForwardShape(lists[i])
    requires ArgListsFit(m, lists)
    ensures CleanRules(m, RulesOfArgs(lists))
  {
    hide RulesOfArgs, FitAll, Fits;
    forall i | 0 <= i < |lists| ensures CleanRule(m, RulesOfArgs(lists)[i]) {
      RuleOfFits(m, lists[i]);
    }
  }

  lemma CommentFits(m: Mode, uuid: string)
    requires uuid == "" || Fits(m, uuid)
    ensures Fits(m, RuleComment(uuid))
  {
    hide Fits;
    CommentWordsFit(m);
    if uuid != "" { FitConcat(m, "3ax-fwd-", uuid); }
  }

  lemma ClientRulesFit(m: Mode, ext: string, name: string, c: Client)
    requires Fits(m, ext) && Fits(m, name) && ClientFits(m, c)
    ensures CleanRules(m, ForwardRules(ext, name, c))
  {
    hide ParseResult, RuleSetOf, StripMask, CleanRule, Fits, RuleComment;
    if c.enable && c.forwardedPorts != "" && StripMask(c.ipv4Address) != "" {
      var specs, ip := ParseResult(c.forwardedPorts), StripMask(c.ipv4Address);
      CommentFits(m, c.uuid);
      RuleSetFits(m, ext, name, ip, RuleComment(c.uuid), specs);
      RuleSetWellFormed(ext, name, ip, RuleComment(c.uuid), specs);
      var rs := RulesFor(ext, name, c.ipv4Address, c.uuid, specs);
      RulesOfArgsFit(m, rs.dnat);
      RulesOfArgsFit(m, rs.forward);
    }
  }

  lemma {:induction false} ForwardRulesFit(m: Mode, ext: string, name: string, clients: seq<Client>)
    requires Fits(m, ext) && Fits(m, name) && ClientsFit(m, clients)
    ensures CleanRules(m, AllForwardRules(ext, name, clients))
  {
    hide ForwardRules, CleanRule, ClientFits, Fits;
    if clients != [] {
      ForwardRulesFit(m, ext, name, clients[..|clients| - 1]);
      ClientRulesFit(m, ext, name, clients[|clients| - 1]);
    }
  }

  predicate CleanItems(m: Mode, items: seq<Item>) {
    forall i :: 0 <= i < |items| ==> CleanCommand(m, Add(items[i])) && CleanCommand(m, Remove(items[i]))
  }

  lemma ProxyFits(m: Mode, ip: string, dev: string)
    requires Fits(m, ip) && Fits(m, dev)
    ensures CleanCommand(m, Add(NeighbourProxy(ip, dev))) && CleanCommand(m, Remove(NeighbourProxy(ip, dev)))
  {
    hide Fits;
    ItemWordsFit(m);
  }

  lemma {:induction false} ProxiesFit(m: Mode, clients: seq<Client>, dev: string)
    requires Fits(m, dev) && ClientsFit(m, clients)
    ensures CleanItems(m, Proxies(clients, dev))
  {
    hide StripMask, CleanCommand, Fits;
    if clients != [] {
      var c := clients[|clients| - 1];
      ProxiesFit(m, clients[..|clients| - 1], dev);
      assert ClientFits(m, c);
      if c.enable && c.ipv6Address != "" {
        ProxyFits(m, StripMask(c.ipv6Address), dev);
      }
    }
  }

  lemma MarkFits(m: Mode, f: Flavour)
    ensures Fits(m, Fwmark(f) + "/" + Fwmark(f)) && Fits(m, RouteTable(f))
  {
    hide Fits;
    FixedFits(m, Fwmark(f) + "/" + Fwmark(f));
    FixedFits(m, RouteTable(f));
  }

  lemma XrayItemFits(m: Mode, family: Family, f: Flavour)
    ensures CleanCommand(m, Add(PolicyOf(family, f))) && CleanCommand(m, Remove(PolicyOf(family, f)))
    ensures CleanCommand(m, Add(RouteOf(family, f))) && CleanCommand(m, Remove(RouteOf(family, f)))
  {
    hide Fits, Fwmark, RouteTable;
    ItemWordsFit(m);
    MarkFits(m, f);
  }

  lemma TproxyRuleFits(m: Mode, family: Family, s: Server, name: string, proto: string)
    requires Fits(m, name) && Fits(m, proto)
    ensures CleanRule(m, TproxyRule(family, s, name, proto))
  {
    hide Itoa, Fits, Fwmark, TproxyPort;
    NumbersFit(m, TproxyPort(s));
    ChainWordsFit(m);
    OptionWordsFit(m);
    TproxyWordsFit(m);
    MarkFits(m, s.flavour);
  }

  lemma TproxyFits(m: Mode, family: Family, s: Server, name: string)
    requires Fits(m, name)
    ensures CleanCommands(m, TproxyUp(family, s, name)) && CleanCommands(m, TproxyDown(family, s, name))
  {
    hide CleanCommand, CleanRule, Appends, Deletes, TproxyRule, PolicyOf, RouteOf, Fits;
    var rules := TproxyRules(family, s, name);
    TargetWordsFit(m);
    TproxyRuleFits(m, family, s, name, "tcp");
    TproxyRuleFits(m, family, s, name, "udp");
    CleanRuleCommands(m, rules);
    XrayItemFits(m, family, s.flavour);
  }

  lemma XrayFits(m: Mode, s: Server, name: string)
    requires Fits(m, name)
    ensures CleanCommands(m, XrayUp(s, name)) && CleanCommands(m, XrayDown(s, name))
  {
    hide CleanCommand, TproxyUp, TproxyDown, Fits;
    TproxyFits(m, V4, s, name);
    TproxyFits(m, V6, s, name);
  }

  lemma BaseFits(m: Mode, s: Server, ext: string, name: string)
    requires Fits(m, ext) && Fits(m, name) && (!s.routeViaXray ==> Fits(m, s.ipv4Pool))
    ensures CleanRules(m, BaseRules(s, ext, name))
  {
    hide Fits;
    ChainWordsFit(m);
    OptionWordsFit(m);
    TargetWordsFit(m);
  }

  lemma Ipv6Fits(m: Mode, clients: seq<Client>, ext6: string, name: string)
    requires Fits(m, ext6) && Fits(m, name) && ClientsFit(m, clients)
    ensures CleanCommands(m, Ipv6Up(clients, ext6, name)) && CleanCommands(m, Ipv6Down(clients, ext6, name))
  {
    hide Appends, Deletes, Adds, Removes, Proxies, CleanCommand, CleanRule, Fits;
    Ipv6RulesFit(m, ext6, name);
    CleanRuleCommands(m, Ipv6Rules(ext6, name));
    ProxiesFit(m, clients, ext6);
    SysctlKeysFit(m);
    FitConcat(m, "net.ipv6.conf.", ext6);
    FitConcat(m, "net.ipv6.conf." + ext6, ".proxy_ndp");
    SysctlFits(m, "net.ipv6.conf.all.forwarding");
    SysctlFits(m, "net.ipv6.conf." + ext6 + ".proxy_ndp");
  }

  lemma Ipv6RulesFit(m: Mode, ext6: string, name: string)
    requires Fits(m, ext6) && Fits(m, name)
    ensures CleanRules(m, Ipv6Rules(ext6, name))
  {
    hide Fits;
    OptionWordsFit(m);
    ChainWordsFit(m);
    TargetWordsFit(m);
  }

  lemma SysctlFits(m: Mode, key: string)
    requires Fits(m, key)
    ensures CleanCommand(m, Sysctl(key))
  {
    hide Fits;
    SysctlWordsFit(m);
    FitConcat(m, key, "=1");
  }

  lemma HooksFit(m: Mode, s: Server, clients: seq<Client>, detected: string)
    requires ServerFits(m, s, detected) && ClientsFit(m, clients)
    ensures CleanCommands(m, UpCommands(s, clients, detected)) && CleanCommands(m, DownCommands(s, clients, detected))
  {
    hide Appends, Deletes, BaseRules, AllForwardRules, XrayUp, XrayDown, Ipv6Up, Ipv6Down, CleanCommand, CleanRule,
         Fits, ClientFits, ExternalName, ExternalName6, TunnelName;
    var ext, name, ext6 := ExternalName(s, detected), TunnelName(s), ExternalName6(s, detected);
    BaseFits(m, s, ext, name);
    CleanRuleCommands(m, BaseRules(s, ext, name));
    ForwardRulesFit(m, ext, name, clients);
    CleanRuleCommands(m, AllForwardRules(ext, name, clients));
    XrayFits(m, s, name);
    if s.ipv6Enabled { Ipv6Fits(m, clients, ext6, name); }
    SysctlKeysFit(m);
    SysctlFits(m, "net.ipv4.ip_forward");
  }

  lemma HooksAreOneLine(s: Server, clients: seq<Client>, detected: string)
    requires OneLineServer(s) && OneLineClients(clients) && OneLine(detected)
    ensures OneLine(HookText(UpCommands(s, clients, detected))) && OneLine(HookText(DownCommands(s, clients, detected)))
  {
    hide UpCommands, DownCommands, HookText, ServerFits, ClientsFit, CleanCommands;
    OneLineFits(s, clients, detected);
    HooksFit(Line, s, clients, detected);
    CleanText(UpCommands(s, clients, detected));
    CleanText(DownCommands(s, clients, detected));
  }
}
