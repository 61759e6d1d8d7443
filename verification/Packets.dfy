/** What the rules of the hooks do to a packet. */
module Packets {
  import opened Text
  import opened Firewall
  import opened PortForward
  import opened Tunnel
  import opened Hooks

  /** A packet as far as the rules look at it; source is the network it comes from. */
  datatype Packet = Packet(inIf: string, outIf: string, source: string, dest: string, proto: string, port: int)

  // ---------- reading a rule ----------

  /** A port or a range of ports, as --dport takes it: a range is written with a colon. */
  predicate InPorts(arg: string, port: int) {
    var colon := IndexOf(arg, ':');
    if colon < 0 then ParsePort(arg).Some? && port == ParsePort(arg).value
    else
      ParsePort(arg[..colon]).Some? && ParsePort(arg[colon + 1..]).Some?
      && ParsePort(arg[..colon]).value <= port <= ParsePort(arg[colon + 1..]).value
  }

  /** The options before the target, pair by pair. */
  predicate Matches(spec: seq<string>, p: Packet) {
    if |spec| < 2 then false
    else if spec[0] == "-j" then true
    else
      && (spec[0] == "-s" ==> p.source == spec[1]) && (spec[0] == "-d" ==> p.dest == spec[1])
      && (spec[0] == "-i" ==> p.inIf == spec[1]) && (spec[0] == "-o" ==> p.outIf == spec[1])
      && (spec[0] == "-p" ==> p.proto == spec[1]) && (spec[0] == "--dport" ==> InPorts(spec[1], p.port))
      && Matches(spec[2..], p)
  }

  /** The target and its arguments. */
  function TargetOf(spec: seq<string>): seq<string> {
    if |spec| < 2 then [] else if spec[0] == "-j" then spec[1..] else TargetOf(spec[2..])
  }

  lemma SpecStep(option: string, arg: string, rest: seq<string>, p: Packet)
    requires option != "-j"
    ensures TargetOf([option, arg] + rest) == TargetOf(rest)
    ensures Matches([option, arg] + rest, p)
            <==> (option == "-s" ==> p.source == arg) && (option == "-d" ==> p.dest == arg)
                 && (option == "-i" ==> p.inIf == arg) && (option == "-o" ==> p.outIf == arg)
                 && (option == "-p" ==> p.proto == arg) && (option == "--dport" ==> InPorts(arg, p.port))
                 && Matches(rest, p)
  {
    assert ([option, arg] + rest)[2..] == rest;
  }

  lemma SpecEnd(target: seq<string>, p: Packet)
    requires target != []
    ensures Matches(["-j"] + target, p) && TargetOf(["-j"] + target) == target
  {
    assert (["-j"] + target)[1..] == target;
  }

  lemma OptionsDiffer()
    ensures "-s" != "-j" && "-d" != "-j" && "-i" != "-j" && "-o" != "-j" && "-p" != "-j" && "-m" != "-j"
    ensures "--dport" != "-j" && "--comment" != "-j"
    ensures "-s" != "-d" && "-s" != "-i" && "-s" != "-o" && "-s" != "-p" && "-d" != "-i" && "-d" != "-o" && "-d" != "-p"
    ensures "-i" != "-o" && "-i" != "-p" && "-o" != "-p"
    ensures "-m" != "-s" && "-m" != "-d" && "-m" != "-i" && "-m" != "-o" && "-m" != "-p"
    ensures |"--dport"| == 7 && |"--comment"| == 9 && |"-s"| == |"-d"| == |"-i"| == |"-o"| == |"-p"| == |"-m"| == 2
  {}

  // ---------- masquerading and forwarding ----------

  /** Some rule of the chain with this target applies to the packet. */
  ghost predicate Applies(rules: seq<Rule>, family: Family, table: string, chain: string, target: string, p: Packet) {
    exists i :: 0 <= i < |rules| && AppliesAt(rules, i, family, table, chain, target, p)
  }

  predicate AppliesAt(rules: seq<Rule>, i: nat, family: Family, table: string, chain: string, target: string, p: Packet)
    requires i < |rules|
  {
    var r := rules[i];
    r.family == family && r.table == table && r.chain == chain && Matches(r.spec, p)
    && TargetOf(r.spec) != [] && TargetOf(r.spec)[0] == target
  }

  lemma OneOption(option: string, arg: string, target: string, p: Packet)
    requires option == "-i" || option == "-o"
    ensures var spec := [option, arg, "-j", target];
            (Matches(spec, p) <==> if option == "-i" then p.inIf == arg else p.outIf == arg)
            && TargetOf(spec) == [target]
  {
    OptionsDiffer();
    hide Matches, TargetOf;
    assert [option, arg, "-j", target] == [option, arg] + (["-j"] + [target]);
    SpecStep(option, arg, ["-j"] + [target], p);
    SpecEnd([target], p);
  }

  lemma TwoOptions(a: string, x: string, out: string, target: string, p: Packet)
    requires a == "-s" || a == "-i"
    ensures var spec := [a, x, "-o", out, "-j", target];
            (Matches(spec, p) <==> (if a == "-s" then p.source == x else p.inIf == x) && p.outIf == out)
            && TargetOf(spec) == [target]
  {
    OptionsDiffer();
    hide Matches, TargetOf;
    assert [a, x, "-o", out, "-j", target] == [a, x] + (["-o", out] + (["-j"] + [target]));
    SpecStep(a, x, ["-o", out] + (["-j"] + [target]), p);
    SpecStep("-o", out, ["-j"] + [target], p);
    SpecEnd([target], p);
  }

  /** Packets of the pool that leave by the external interface are masqueraded, unless the proxy takes them before; what
      comes in or goes out by the tunnel is forwarded. */
  lemma BaseRulesDo(s: Server, ext: string, name: string, p: Packet)
    ensures var rules := BaseRules(s, ext, name);
            && (Applies(rules, V4, "nat", "POSTROUTING", "MASQUERADE", p)
                <==> !s.routeViaXray && p.source == s.ipv4Pool && p.outIf == ext)
            && (Applies(rules, V4, "filter", "FORWARD", "ACCEPT", p) <==> p.inIf == name || p.outIf == name)
  {
    hide Matches, TargetOf;
    var rules := BaseRules(s, ext, name);
    TwoOptions("-s", s.ipv4Pool, ext, "MASQUERADE", p);
    OneOption("-i", name, "ACCEPT", p);
    OneOption("-o", name, "ACCEPT", p);
    TablesDiffer();
    var k := if s.routeViaXray then 0 else 1;
    assert |rules| == k + 2;
    assert rules[k].spec == ["-i", name, "-j", "ACCEPT"] && rules[k + 1].spec == ["-o", name, "-j", "ACCEPT"];
    assert k == 1 ==> rules[0].spec == ["-s", s.ipv4Pool, "-o", ext, "-j", "MASQUERADE"];
    assert AppliesAt(rules, k, V4, "filter", "FORWARD", "ACCEPT", p) <==> p.inIf == name;
    assert AppliesAt(rules, k + 1, V4, "filter", "FORWARD", "ACCEPT", p) <==> p.outIf == name;
    assert k == 1 ==> (AppliesAt(rules, 0, V4, "nat", "POSTROUTING", "MASQUERADE", p)
                       <==> p.source == s.ipv4Pool && p.outIf == ext);
  }

  lemma TablesDiffer()
    ensures "nat" != "filter" && "nat" != "mangle" && "filter" != "mangle"
    ensures "POSTROUTING" != "FORWARD" && "PREROUTING" != "FORWARD" && "ACCEPT" != "MASQUERADE" && "ACCEPT" != "DNAT"
  {
    assert |"nat"| == 3 && |"filter"| == |"mangle"| == 6 && "filter"[0] != "mangle"[0];
    assert |"POSTROUTING"| == 11 && |"PREROUTING"| == 10 && |"FORWARD"| == 7;
    assert |"ACCEPT"| == 6 && |"MASQUERADE"| == 10 && |"DNAT"| == 4;
  }

  lemma Ipv6RulesDo(ext6: string, name: string, p: Packet)
    ensures Applies(Ipv6Rules(ext6, name), V6, "filter", "FORWARD", "ACCEPT", p) <==> p.inIf == name || p.outIf == name
    ensures forall i :: 0 <= i < |Ipv6Rules(ext6, name)| ==> Ipv6Rules(ext6, name)[i].family == V6
  {
    hide Matches, TargetOf;
    var rules := Ipv6Rules(ext6, name);
    OneOption("-i", name, "ACCEPT", p);
    OneOption("-o", name, "ACCEPT", p);
    TwoOptions("-i", ext6, name, "ACCEPT", p);
    assert AppliesAt(rules, 0, V6, "filter", "FORWARD", "ACCEPT", p) <==> p.inIf == name;
    assert AppliesAt(rules, 1, V6, "filter", "FORWARD", "ACCEPT", p) <==> p.outIf == name;
    assert AppliesAt(rules, 2, V6, "filter", "FORWARD", "ACCEPT", p) ==> p.outIf == name;
  }

  // ---------- the transparent proxy ----------

  /** The argument of an option of a target. */
  function ArgumentOf(args: seq<string>, option: string): string {
    if |args| < 2 then "" else if args[0] == option then args[1] else ArgumentOf(args[2..], option)
  }

  lemma ArgumentStep(option: string, x: string, y: string, rest: seq<string>)
    ensures ArgumentOf([x, y] + rest, option) == if x == option then y else ArgumentOf(rest, option)
  {
    assert ([x, y] + rest)[2..] == rest;
  }

  /** TCP and UDP packets that come in by the tunnel are handed to the local port of the proxy, with the mark that the
      policy rule looks up in the table whose only route is local. */
  lemma TproxyDoes(family: Family, s: Server, name: string, proto: string, p: Packet)
    ensures var r, policy, route := TproxyRule(family, s, name, proto), PolicyOf(family, s.flavour),
            RouteOf(family, s.flavour);
            && r.family == family && r.table == "mangle" && r.chain == "PREROUTING"
            && (Matches(r.spec, p) <==> p.inIf == name && p.proto == proto)
            && TargetOf(r.spec) != [] && TargetOf(r.spec)[0] == "TPROXY"
            && ArgumentOf(TargetOf(r.spec)[1..], "--on-port")
               == Itoa(if s.xrayTproxyPort > 0 then s.xrayTproxyPort else if s.flavour.Awg? then 12345 else 12346)
            && ArgumentOf(TargetOf(r.spec)[1..], "--on-ip") == (if family.V4? then "127.0.0.1" else "::1")
            && ArgumentOf(TargetOf(r.spec)[1..], "--tproxy-mark") == policy.fwmark + "/" + policy.fwmark
            && policy.table == route.table && policy.family == route.family == family
  {
    hide Matches, TargetOf, Itoa, ArgumentOf, Fwmark;
    var r := TproxyRule(family, s, name, proto);
    var ip, port := if family.V4? then "127.0.0.1" else "::1", Itoa(TproxyPort(s));
    var mark := Fwmark(s.flavour) + "/" + Fwmark(s.flavour);
    var args := ["--on-ip", ip, "--on-port", port, "--tproxy-mark", mark];
    var target := ["TPROXY"] + args;
    assert r.spec == ["-i", name] + (["-p", proto] + (["-j"] + target));
    OptionsDiffer();
    SpecStep("-i", name, ["-p", proto] + (["-j"] + target), p);
    SpecStep("-p", proto, ["-j"] + target, p);
    SpecEnd(target, p);
    assert target[1..] == args;
    TproxyArguments(ip, port, mark);
  }

  lemma TproxyArguments(ip: string, port: string, mark: string)
    ensures var args := ["--on-ip", ip, "--on-port", port, "--tproxy-mark", mark];
            ArgumentOf(args, "--on-ip") == ip && ArgumentOf(args, "--on-port") == port
            && ArgumentOf(args, "--tproxy-mark") == mark
  {
    hide ArgumentOf;
    var b := ["--on-port", port, "--tproxy-mark", mark];
    assert ["--on-ip", ip, "--on-port", port, "--tproxy-mark", mark] == ["--on-ip", ip] + b;
    assert b == ["--on-port", port] + ["--tproxy-mark", mark]
           && ["--tproxy-mark", mark] + [] == ["--tproxy-mark", mark];
    assert |"--on-ip"| == 7 && |"--on-port"| == 9 && |"--tproxy-mark"| == 13;
    ArgumentStep("--on-ip", "--on-ip", ip, b);
    ArgumentStep("--on-port", "--on-ip", ip, b);
    ArgumentStep("--tproxy-mark", "--on-ip", ip, b);
    ArgumentStep("--on-port", "--on-port", port, ["--tproxy-mark", mark]);
    ArgumentStep("--tproxy-mark", "--on-port", port, ["--tproxy-mark", mark]);
    ArgumentStep("--tproxy-mark", "--tproxy-mark", mark, []);
  }

  // ---------- forwarded ports ----------

  function LastIndexOf(s: string, c: char): (i: int)
    ensures -1 <= i < |s|
  {
    if s == "" then -1 else if s[|s| - 1] == c then |s| - 1 else LastIndexOf(s[..|s| - 1], c)
  }

  lemma {:induction false} LastIndexAt(a: string, c: char, b: string)
    requires c !in b
    ensures LastIndexOf(a + [c] + b, c) == |a|
  {
    var s := a + [c] + b;
    if b != "" {
      assert s[..|s| - 1] == a + [c] + b[..|b| - 1];
      LastIndexAt(a, c, b[..|b| - 1]);
    } else {
      assert s == a + [c];
    }
  }

  /** Where a packet goes: the address, and the port or the range of ports, which is written with a dash. */
  datatype Dest = Nowhere | Dest(address: string, first: int, last: int)

  function ReadDest(t: string): Dest {
    var colon := LastIndexOf(t, ':');
    if colon < 0 then Nowhere else ReadRange(t[..colon], t[colon + 1..])
  }

  function ReadRange(address: string, ports: string): Dest {
    var dash := IndexOf(ports, '-');
    var first, last := if dash < 0 then ports else ports[..dash], if dash < 0 then ports else ports[dash + 1..];
    if ParsePort(first).Some? && ParsePort(last).Some?
    then Dest(address, ParsePort(first).value, ParsePort(last).value) else Nowhere
  }

  predicate In(spec: PortSpec, port: int) { spec.start <= port <= spec.end }

  lemma RangeIsRead(spec: PortSpec, ip: string, ports: string)
    requires spec.Valid()
    requires ports == if spec.IsRange() then Itoa(spec.start) + ['-'] + Itoa(spec.end) else Itoa(spec.start)
    ensures ReadRange(ip, ports) == Dest(ip, spec.start, spec.end) && ':' !in ports
  {
    hide Itoa, ParsePort;
    var a, b := Itoa(spec.start), Itoa(spec.end);
    ItoaRunes(spec.start);
    ItoaRunes(spec.end);
    PortIsParsed(spec.start);
    PortIsParsed(spec.end);
    if spec.IsRange() {
      IndexOfAt(a, '-', b);
      assert ports[..|a|] == a && ports[|a| + 1..] == b;
    }
  }

  lemma DestIsRead(spec: PortSpec, ip: string)
    requires spec.Valid()
    ensures ReadDest(spec.DnatTarget(ip)) == Dest(ip, spec.start, spec.end)
  {
    hide Itoa, ReadRange;
    var a, b, t := Itoa(spec.start), Itoa(spec.end), spec.DnatTarget(ip);
    var ports := if spec.IsRange() then a + ['-'] + b else a;
    RangeIsRead(spec, ip, ports);
    assert t == ip + [':'] + ports;
    LastIndexAt(ip, ':', ports);
    assert t[..|ip|] == ip && t[|ip| + 1..] == ports;
  }

  lemma PortsAreRead(spec: PortSpec, port: int)
    requires spec.Valid()
    ensures InPorts(spec.DportArg(), port) <==> In(spec, port)
  {
    hide Itoa, ParsePort;
    var a, b := Itoa(spec.start), Itoa(spec.end);
    ItoaRunes(spec.start);
    ItoaRunes(spec.end);
    PortIsParsed(spec.start);
    PortIsParsed(spec.end);
    if spec.IsRange() {
      IndexOfAt(a, ':', b);
      var s := a + [':'] + b;
      assert spec.DportArg() == s && s[..|a|] == a && s[|a| + 1..] == b;
    }
  }

  /** The rule sends the packet to the address, to the ports among which its own is. */
  predicate Redirects(r: Rule, p: Packet, ip: string) {
    r.family == V4 && r.table == "nat" && r.chain == "PREROUTING" && Matches(r.spec, p)
    && |TargetOf(r.spec)| == 3 && TargetOf(r.spec)[..2] == ["DNAT", "--to-destination"]
    && var d := ReadDest(TargetOf(r.spec)[2]); d.Dest? && d.address == ip && d.first <= p.port <= d.last
  }

  predicate Accepts(r: Rule, p: Packet) {
    r.family == V4 && r.table == "filter" && r.chain == "FORWARD" && Matches(r.spec, p)
    && TargetOf(r.spec) == ["ACCEPT"]
  }

  lemma NatRuleDoes(ext: string, ip: string, comment: string, spec: PortSpec, proto: string, p: Packet, x: string)
    requires spec.Valid()
    ensures var r := RuleOf(NatArgs(ext, ip, comment, spec, proto));
            && (Redirects(r, p, x) <==> x == ip && p.proto == proto && (ext == "" || p.inIf == ext) && In(spec, p.port))
            && !Accepts(r, p)
  {
    hide Matches, TargetOf, ReadDest, InPorts, In, PortSpec.DportArg, PortSpec.DnatTarget;
    var args := NatArgs(ext, ip, comment, spec, proto);
    var target := ["DNAT", "--to-destination", spec.DnatTarget(ip)];
    var end := ["-j"] + target;
    var a := ["--comment", comment] + end;
    var b := ["-m", "comment"] + a;
    var c := ["--dport", spec.DportArg()] + b;
    var d := if ext != "" then ["-i", ext] + c else c;
    assert RuleOf(args).spec == ["-p", proto] + d;
    OptionsDiffer();
    TablesDiffer();
    SpecStep("-p", proto, d, p);
    if ext != "" { SpecStep("-i", ext, c, p); }
    SpecStep("--dport", spec.DportArg(), b, p);
    SpecStep("-m", "comment", a, p);
    SpecStep("--comment", comment, end, p);
    SpecEnd(target, p);
    assert target[..2] == ["DNAT", "--to-destination"];
    PortsAreRead(spec, p.port);
    DestIsRead(spec, ip);
    InMeans(spec, p.port);
  }

  lemma InMeans(spec: PortSpec, port: int)
    ensures In(spec, port) <==> spec.start <= port <= spec.end
  {}

  lemma ForwardRuleDoes(tun: string, ip: string, comment: string, spec: PortSpec, proto: string, p: Packet, x: string)
    requires spec.Valid()
    ensures var r := RuleOf(ForwardArgs(tun, ip, comment, spec, proto));
            && (Accepts(r, p) <==> p.dest == ip && p.proto == proto && p.outIf == tun && In(spec, p.port))
            && !Redirects(r, p, x)
  {
    hide Matches, TargetOf, InPorts, In, PortSpec.DportArg;
    var args := ForwardArgs(tun, ip, comment, spec, proto);
    var target := ["ACCEPT"];
    var end := ["-j"] + target;
    var a := ["--comment", comment] + end;
    var b := ["-m", "comment"] + a;
    var c := ["--dport", spec.DportArg()] + b;
    var d := ["-o", tun] + c;
    var e := ["-p", proto] + d;
    assert args[0] == "FORWARD" && "FORWARD"[0] != "-t"[0];
    assert RuleOf(args).spec == ["-d", ip] + e;
    OptionsDiffer();
    TablesDiffer();
    SpecStep("-d", ip, e, p);
    SpecStep("-p", proto, d, p);
    SpecStep("-o", tun, c, p);
    SpecStep("--dport", spec.DportArg(), b, p);
    SpecStep("-m", "comment", a, p);
    SpecStep("--comment", comment, end, p);
    SpecEnd(target, p);
    PortsAreRead(spec, p.port);
  }

  // ---------- all rules of a client, and of all clients ----------

  ghost predicate AnyRedirects(rules: seq<Rule>, p: Packet, ip: string) {
    exists i :: 0 <= i < |rules| && Redirects(rules[i], p, ip)
  }

  ghost predicate AnyAccepts(rules: seq<Rule>, p: Packet) { exists i :: 0 <= i < |rules| && Accepts(rules[i], p) }

  lemma AnyConcat(a: seq<Rule>, b: seq<Rule>, p: Packet, ip: string)
    ensures AnyRedirects(a + b, p, ip) <==> AnyRedirects(a, p, ip) || AnyRedirects(b, p, ip)
    ensures AnyAccepts(a + b, p) <==> AnyAccepts(a, p) || AnyAccepts(b, p)
  {
    hide Redirects, Accepts;
    if i :| 0 <= i < |a| && Redirects(a[i], p, ip) { assert Redirects((a + b)[i], p, ip); }
    if i :| 0 <= i < |b| && Redirects(b[i], p, ip) { assert Redirects((a + b)[|a| + i], p, ip); }
    if i :| 0 <= i < |a + b| && Redirects((a + b)[i], p, ip) {
      assert if i < |a| then Redirects(a[i], p, ip) else Redirects(b[i - |a|], p, ip);
    }
    if i :| 0 <= i < |a| && Accepts(a[i], p) { assert Accepts((a + b)[i], p); }
    if i :| 0 <= i < |b| && Accepts(b[i], p) { assert Accepts((a + b)[|a| + i], p); }
    if i :| 0 <= i < |a + b| && Accepts((a + b)[i], p) {
      assert if i < |a| then Accepts(a[i], p) else Accepts(b[i - |a|], p);
    }
  }

  lemma AnyOfTwo(r: Rule, q: Rule, p: Packet, ip: string)
    ensures AnyRedirects([r, q], p, ip) <==> Redirects(r, p, ip) || Redirects(q, p, ip)
    ensures AnyAccepts([r, q], p) <==> Accepts(r, p) || Accepts(q, p)
    ensures !AnyRedirects([], p, ip) && !AnyAccepts([], p)
  {
    hide Redirects, Accepts;
    assert [r, q][0] == r && [r, q][1] == q;
  }

  /** The port is on the list. */
  predicate Listed(specs: seq<PortSpec>, port: int) { exists k :: 0 <= k < |specs| && In(specs[k], port) }

  lemma ListedLast(specs: seq<PortSpec>, port: int)
    requires specs != []
    ensures var n := |specs| - 1; Listed(specs, port) <==> Listed(specs[..n], port) || In(specs[n], port)
  {
    hide In;
    var n := |specs| - 1;
    if k :| 0 <= k < n && In(specs[..n][k], port) { assert In(specs[k], port); }
    if k :| 0 <= k < |specs| && In(specs[k], port) { assert k < n ==> In(specs[..n][k], port); }
  }

  predicate Forwarded(p: Packet) { p.proto == "tcp" || p.proto == "udp" }

  predicate AllValid(specs: seq<PortSpec>) { forall k :: 0 <= k < |specs| ==> specs[k].Valid() }

  lemma RulesOfTwo(front: seq<seq<string>>, x: seq<string>, y: seq<string>)
    requires forall i :: 0 <= i < |front| ==> NatShape(front[i]) || ForwardShape(front[i])
    requires (NatShape(x) || ForwardShape(x)) && (NatShape(y) || ForwardShape(y))
    ensures RulesOfArgs(front + [x, y]) == RulesOfArgs(front) + [RuleOf(x), RuleOf(y)]
  {
    hide RulesOfArgs, RuleOf, NatShape, ForwardShape;
  }

  lemma {:induction false} SpecsDo(ext: string, tun: string, ip: string, comment: string,
      specs: seq<PortSpec>, p: Packet,
      x: string)
    requires AllValid(specs)
    ensures var rs := RuleSetOf(ext, tun, ip, comment, specs);
            WellFormed(rs)
            && (AnyRedirects(RulesOfArgs(rs.dnat), p, x)
                <==> x == ip && Forwarded(p) && (ext == "" || p.inIf == ext) && Listed(specs, p.port))
            && (AnyAccepts(RulesOfArgs(rs.forward), p)
                <==> p.dest == ip && Forwarded(p) && p.outIf == tun && Listed(specs, p.port))
            && !AnyAccepts(RulesOfArgs(rs.dnat), p) && !AnyRedirects(RulesOfArgs(rs.forward), p, x)
  {
    RuleSetWellFormed(ext, tun, ip, comment, specs);
    if specs != [] {
      hide NatArgs, ForwardArgs, RuleOf, RulesOfArgs, Redirects, Accepts, Listed, In, AnyRedirects,
           AnyAccepts, Forwarded,
           NatShape, ForwardShape, PortSpec.Valid;
      var n := |specs| - 1;
      var front, s := RuleSetOf(ext, tun, ip, comment, specs[..n]), specs[n];
      SpecsDo(ext, tun, ip, comment, specs[..n], p, x);
      ListedLast(specs, p.port);
      ArgShapes(ext, tun, ip, comment, s);
      var nt, nu := NatArgs(ext, ip, comment, s, "tcp"), NatArgs(ext, ip, comment, s, "udp");
      var ft, fu := ForwardArgs(tun, ip, comment, s, "tcp"), ForwardArgs(tun, ip, comment, s, "udp");
      RulesOfTwo(front.dnat, nt, nu);
      RulesOfTwo(front.forward, ft, fu);
      AnyConcat(RulesOfArgs(front.dnat), [RuleOf(nt), RuleOf(nu)], p, x);
      AnyConcat(RulesOfArgs(front.forward), [RuleOf(ft), RuleOf(fu)], p, x);
      AnyOfTwo(RuleOf(nt), RuleOf(nu), p, x);
      AnyOfTwo(RuleOf(ft), RuleOf(fu), p, x);
      NatRuleDoes(ext, ip, comment, s, "tcp", p, x);
      NatRuleDoes(ext, ip, comment, s, "udp", p, x);
      ForwardRuleDoes(tun, ip, comment, s, "tcp", p, x);
      ForwardRuleDoes(tun, ip, comment, s, "udp", p, x);
      ForwardedMeans(p);
    }
  }

  lemma ForwardedMeans(p: Packet)
    ensures Forwarded(p) <==> p.proto == "tcp" || p.proto == "udp"
  {}

  lemma ArgShapes(ext: string, tun: string, ip: string, comment: string, s: PortSpec)
    ensures NatShape(NatArgs(ext, ip, comment, s, "tcp")) && NatShape(NatArgs(ext, ip, comment, s, "udp"))
    ensures ForwardShape(ForwardArgs(tun, ip, comment, s, "tcp"))
            && ForwardShape(ForwardArgs(tun, ip, comment, s, "udp"))
  {}

  /** A client's port list, read from its text, is what its rules forward: a TCP or UDP packet that comes in by the
      external interface is sent to the client's address exactly if the port is listed, to the same ports, and let
      through to the tunnel exactly if it is for that address and a listed port. */
  lemma ClientRulesDo(ext: string, tun: string, clientIP: string, uuid: string,
      specs: seq<PortSpec>, p: Packet, x: string)
    requires AllValid(specs)
    ensures var rules, ip := ClientRules(ext, tun, clientIP, uuid, specs), StripMask(clientIP);
            && (AnyRedirects(rules, p, x)
                <==> ip != "" && x == ip && Forwarded(p) && (ext == "" || p.inIf == ext) && Listed(specs, p.port))
            && (AnyAccepts(rules, p)
                <==> ip != "" && p.dest == ip && Forwarded(p) && p.outIf == tun && Listed(specs, p.port))
  {
    hide RuleSetOf, RulesOfArgs, AnyRedirects, AnyAccepts, Listed, Forwarded, AllValid, RuleComment;
    var ip := StripMask(clientIP);
    var rs := RulesFor(ext, tun, clientIP, uuid, specs);
    RuleSetWellFormed(ext, tun, ip, RuleComment(uuid), specs);
    AnyConcat(RulesOfArgs(rs.dnat), RulesOfArgs(rs.forward), p, x);
    if ip != "" {
      SpecsDo(ext, tun, ip, RuleComment(uuid), specs, p, x);
    } else {
      NoRules(p, x);
    }
  }

  lemma NoRules(p: Packet, x: string)
    ensures !AnyRedirects(RulesOfArgs([]), p, x) && !AnyAccepts(RulesOfArgs([]), p)
    ensures !AnyRedirects([], p, x) && !AnyAccepts([], p)
  {}

  /** The client is enabled, has this address, and the port is on its list. */
  predicate Wants(c: Client, ip: string, port: int) {
    c.enable && ip != "" && StripMask(c.ipv4Address) == ip && c.forwardedPorts != ""
    && Listed(ParseResult(c.forwardedPorts), port)
  }

  ghost predicate SomeWants(clients: seq<Client>, ip: string, port: int) {
    exists i :: 0 <= i < |clients| && Wants(clients[i], ip, port)
  }

  lemma OneClientDoes(ext: string, name: string, c: Client, p: Packet, x: string)
    ensures AnyRedirects(ForwardRules(ext, name, c), p, x)
            <==> Forwarded(p) && (ext == "" || p.inIf == ext) && Wants(c, x, p.port)
    ensures AnyAccepts(ForwardRules(ext, name, c), p)
            <==> Forwarded(p) && p.outIf == name && Wants(c, p.dest, p.port)
  {
    hide ClientRules, ParseResult, AnyRedirects, AnyAccepts, Listed, Forwarded, StripMask;
    NoRules(p, x);
    ResultIsValid(c.forwardedPorts);
    ClientRulesDo(ext, name, c.ipv4Address, c.uuid, ParseResult(c.forwardedPorts), p, x);
  }

  lemma SomeWantsLast(clients: seq<Client>, ip: string, port: int)
    requires clients != []
    ensures var n := |clients| - 1;
            SomeWants(clients, ip, port) <==> SomeWants(clients[..n], ip, port) || Wants(clients[n], ip, port)
  {
    hide Wants;
    var n := |clients| - 1;
    if k :| 0 <= k < n && Wants(clients[..n][k], ip, port) { assert Wants(clients[k], ip, port); }
    if k :| 0 <= k < |clients| && Wants(clients[k], ip, port) { assert k < n ==> Wants(clients[..n][k], ip, port); }
  }

  /** Of a whole client list: a port reaches an address exactly if an enabled client with that address lists it. */
  lemma {:induction false} PortsReachClients(ext: string, name: string, clients: seq<Client>, p: Packet, x: string)
    ensures AnyRedirects(AllForwardRules(ext, name, clients), p, x)
            <==> Forwarded(p) && (ext == "" || p.inIf == ext) && SomeWants(clients, x, p.port)
    ensures AnyAccepts(AllForwardRules(ext, name, clients), p)
            <==> Forwarded(p) && p.outIf == name && SomeWants(clients, p.dest, p.port)
  {
    hide ForwardRules, AnyRedirects, AnyAccepts, Forwarded, Wants;
    if clients == [] {
      NoRules(p, x);
    } else {
      var n := |clients| - 1;
      PortsReachClients(ext, name, clients[..n], p, x);
      OneClientDoes(ext, name, clients[n], p, x);
      AnyConcat(AllForwardRules(ext, name, clients[..n]), ForwardRules(ext, name, clients[n]), p, x);
      SomeWantsLast(clients, x, p.port);
      SomeWantsLast(clients, p.dest, p.port);
    }
  }
}
