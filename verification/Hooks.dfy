/** The default PostUp and PostDown hooks of the AmneziaWG and native WireGuard servers. */
module Hooks {
  import opened Text
  import opened Firewall
  import opened PortForward
  import opened Tunnel

  // ---------- names and constants ----------

  function Fwmark(f: Flavour): string { if f.Awg? then "0x1" else "0x2" }

  function RouteTable(f: Flavour): string { if f.Awg? then "100" else "101" }

  /** The interface names a hook is generated for; detected is the default route's interface. */
  function ExternalName(s: Server, detected: string): string {
    if s.externalInterface == "" then detected else s.externalInterface
  }

  function ExternalName6(s: Server, detected: string): string {
    if s.ipv6ExternalInterface != "" then s.ipv6ExternalInterface else ExternalName(s, detected)
  }

  function TunnelName(s: Server): string {
    if s.interfaceName == "" then (if s.flavour.Awg? then "awg0" else "wg0") else s.interfaceName
  }

  function TproxyPort(s: Server): int {
    if s.xrayTproxyPort <= 0 then (if s.flavour.Awg? then 12345 else 12346) else s.xrayTproxyPort
  }

  // ---------- blocks of rules ----------

  function BaseRules(s: Server, ext: string, name: string): seq<Rule> {
    (if s.routeViaXray then [] else [Rule(V4, "nat", "POSTROUTING", ["-s", s.ipv4Pool, "-o", ext, "-j", "MASQUERADE"])])
    + [Rule(V4, "filter", "FORWARD", ["-i", name, "-j", "ACCEPT"]),
       Rule(V4, "filter", "FORWARD", ["-o", name, "-j", "ACCEPT"])]
  }

  function Ipv6Rules(ext6: string, name: string): seq<Rule> {
    [Rule(V6, "filter", "FORWARD", ["-i", name, "-j", "ACCEPT"]),
     Rule(V6, "filter", "FORWARD", ["-o", name, "-j", "ACCEPT"]),
     Rule(V6, "filter", "FORWARD", ["-i", ext6, "-o", name, "-j", "ACCEPT"])]
  }

  /** Proxy entries of the enabled clients that have an IPv6 address. */
  function Proxies(clients: seq<Client>, dev: string): seq<Item> {
    if clients == [] then []
    else
      var c := clients[|clients| - 1];
      Proxies(clients[..|clients| - 1], dev)
      + (if c.enable && c.ipv6Address != "" then [NeighbourProxy(StripMask(c.ipv6Address), dev)] else [])
  }

  /** The forwarding rules of one client; a disabled client or one without ports has none. */
  function ForwardRules(ext: string, name: string, c: Client): seq<Rule> {
    if !c.enable || c.forwardedPorts == "" then []
    else ClientRules(ext, name, c.ipv4Address, c.uuid, ParseResult(c.forwardedPorts))
  }

  function AllForwardRules(ext: string, name: string, clients: seq<Client>): seq<Rule> {
    if clients == [] then []
    else AllForwardRules(ext, name, clients[..|clients| - 1]) + ForwardRules(ext, name, clients[|clients| - 1])
  }

  function TproxyRule(family: Family, s: Server, name: string, proto: string): Rule {
    Rule(family, "mangle", "PREROUTING",
      ["-i", name, "-p", proto, "-j", "TPROXY", "--on-ip", if family.V4? then "127.0.0.1" else "::1",
       "--on-port", Itoa(TproxyPort(s)), "--tproxy-mark", Fwmark(s.flavour) + "/" + Fwmark(s.flavour)])
  }

  function TproxyRules(family: Family, s: Server, name: string): seq<Rule> {
    [TproxyRule(family, s, name, "tcp"), TproxyRule(family, s, name, "udp")]
  }

  function PolicyOf(family: Family, f: Flavour): Item { PolicyRule(family, Fwmark(f), RouteTable(f)) }

  function RouteOf(family: Family, f: Flavour): Item { LocalRoute(family, RouteTable(f)) }

  function TproxyUp(family: Family, s: Server, name: string): seq<Command> {
    [Add(PolicyOf(family, s.flavour)), Add(RouteOf(family, s.flavour))] + Appends(TproxyRules(family, s, name))
  }

  function TproxyDown(family: Family, s: Server, name: string): seq<Command> {
    Deletes(TproxyRules(family, s, name)) + [Remove(RouteOf(family, s.flavour)), Remove(PolicyOf(family, s.flavour))]
  }

  // ---------- the hooks ----------

  function Adds(items: seq<Item>): (cmds: seq<Command>)
    ensures |cmds| == |items| && forall i :: 0 <= i < |items| ==> cmds[i] == Add(items[i])
  {
    if items == [] then [] else [Add(items[0])] + Adds(items[1..])
  }

  function Removes(items: seq<Item>): (cmds: seq<Command>)
    ensures |cmds| == |items| && forall i :: 0 <= i < |items| ==> cmds[i] == Remove(items[i])
  {
    if items == [] then [] else [Remove(items[0])] + Removes(items[1..])
  }

  function Ipv6Up(clients: seq<Client>, ext6: string, name: string): seq<Command> {
    Appends(Ipv6Rules(ext6, name))
    + [Sysctl("net.ipv6.conf.all.forwarding"), Sysctl("net.ipv6.conf." + ext6 + ".proxy_ndp")]
    + Adds(Proxies(clients, ext6))
  }

  function Ipv6Down(clients: seq<Client>, ext6: string, name: string): seq<Command> {
    Deletes(Ipv6Rules(ext6, name)) + Removes(Proxies(clients, ext6))
  }

  function XrayUp(s: Server, name: string): seq<Command> {
    if !s.routeViaXray then []
    else TproxyUp(V4, s, name) + (if s.ipv6Enabled then TproxyUp(V6, s, name) else [])
  }

  function XrayDown(s: Server, name: string): seq<Command> {
    if !s.routeViaXray then []
    else TproxyDown(V4, s, name) + (if s.ipv6Enabled then TproxyDown(V6, s, name) else [])
  }

  function UpCommands(s: Server, clients: seq<Client>, detected: string): seq<Command> {
    var ext, name := ExternalName(s, detected), TunnelName(s);
    Appends(BaseRules(s, ext, name))
    + (if s.ipv6Enabled then Ipv6Up(clients, ExternalName6(s, detected), name) else [])
    + [Sysctl("net.ipv4.ip_forward")]
    + Appends(AllForwardRules(ext, name, clients))
    + XrayUp(s, name)
  }

  function DownCommands(s: Server, clients: seq<Client>, detected: string): seq<Command> {
    var ext, name := ExternalName(s, detected), TunnelName(s);
    Deletes(BaseRules(s, ext, name))
    + (if s.ipv6Enabled then Ipv6Down(clients, ExternalName6(s, detected), name) else [])
    + Deletes(AllForwardRules(ext, name, clients))
    + XrayDown(s, name)
  }

  function HookText(cmds: seq<Command>): string { Join(Texts(cmds), "; ") }

  // ---------- generation ----------

  lemma AppendsConcat(a: seq<Rule>, b: seq<Rule>)
    ensures Appends(a + b) == Appends(a) + Appends(b) && Deletes(a + b) == Deletes(a) + Deletes(b)
  {
    hide Appends, Deletes;
  }

  lemma ProxyStep(clients: seq<Client>, i: nat, dev: string)
    requires i < |clients|
    ensures var c := clients[i];
            Proxies(clients[..i + 1], dev)
            == Proxies(clients[..i], dev)
               + if c.enable && c.ipv6Address != "" then [NeighbourProxy(StripMask(c.ipv6Address), dev)] else []
  {
    hide StripMask;
    assert clients[..i + 1][..i] == clients[..i];
  }

  lemma OneMoreItem(items: seq<Item>, x: Item)
    ensures Adds(items + [x]) == Adds(items) + [Add(x)] && Removes(items + [x]) == Removes(items) + [Remove(x)]
  {
    hide Adds, Removes;
  }

  /** The loop over the clients' proxy entries. */
  method ProxyCommands(clients: seq<Client>, dev: string, up: bool) returns (parts: seq<Command>)
    ensures parts == if up then Adds(Proxies(clients, dev)) else Removes(Proxies(clients, dev))
  {
    hide StripMask, Proxies, Adds, Removes;
    NoProxies(clients, dev);
    parts := [];
    for i := 0 to |clients|
      invariant parts == if up then Adds(Proxies(clients[..i], dev)) else Removes(Proxies(clients[..i], dev))
    {
      var c := clients[i];
      ghost var before := Proxies(clients[..i], dev);
      ProxyStep(clients, i, dev);
      if c.enable && c.ipv6Address != "" {
        var item := NeighbourProxy(StripMask(c.ipv6Address), dev);
        OneMoreItem(before, item);
        parts := parts + [if up then Add(item) else Remove(item)];
      } else {
        assert before + [] == before;
      }
    }
    assert clients[..|clients|] == clients;
  }

  lemma NoProxies(clients: seq<Client>, dev: string)
    ensures Adds(Proxies(clients[..0], dev)) == [] && Removes(Proxies(clients[..0], dev)) == []
  {}

  /** Exactly the enabled clients with an IPv6 address are answered for. */
  lemma {:induction false} ProxiesExactly(clients: seq<Client>, dev: string, x: Item)
    ensures x in Proxies(clients, dev)
            <==> exists i :: 0 <= i < |clients| && clients[i].enable && clients[i].ipv6Address != ""
                             && x == NeighbourProxy(StripMask(clients[i].ipv6Address), dev)
  {
    if clients != [] {
      hide StripMask;
      var n := |clients| - 1;
      ProxiesExactly(clients[..n], dev, x);
      assert forall i :: 0 <= i < n ==> clients[..n][i] == clients[i];
    }
  }

  /** The loop over the clients' forwarding rules: PostUpLines and PostDownLines. */
  method ForwardCommands(clients: seq<Client>, ext: string, name: string, up: bool) returns (parts: seq<Command>)
    ensures var rules := AllForwardRules(ext, name, clients);
            parts == if up then Appends(rules) else Deletes(rules)
  {
    parts := [];
    for i := 0 to |clients|
      invariant var rules := AllForwardRules(ext, name, clients[..i]);
                parts == if up then Appends(rules) else Deletes(rules)
    {
      hide ClientRules, ParseResult, Appends, Deletes;
      var c := clients[i];
      assert clients[..i + 1][..i] == clients[..i];
      ghost var before := AllForwardRules(ext, name, clients[..i]);
      AppendsConcat(before, ForwardRules(ext, name, c));
      if !c.enable || c.forwardedPorts == "" {
        assert before + [] == before;
        continue;
      }
      var specs := Parse(c.forwardedPorts);
      var rules := ClientRules(ext, name, c.ipv4Address, c.uuid, specs);
      parts := parts + (if up then Appends(rules) else Deletes(rules));
    }
    assert clients[..|clients|] == clients;
  }

  method GenerateDefaultPostUp(s: Server, clients: seq<Client>, detected: string) returns (text: string)
    ensures text == HookText(UpCommands(s, clients, detected))
  {
    hide Appends, Ipv6Rules, TproxyUp, BaseRules, Proxies, AllForwardRules, Adds, HookText;
    var ext, name := ExternalName(s, detected), TunnelName(s);
    var parts := Appends(BaseRules(s, ext, name));
    if s.ipv6Enabled {
      var ext6 := ExternalName6(s, detected);
      parts := parts + Appends(Ipv6Rules(ext6, name))
        + [Sysctl("net.ipv6.conf.all.forwarding"), Sysctl("net.ipv6.conf." + ext6 + ".proxy_ndp")];
      var proxies := ProxyCommands(clients, ext6, true);
      parts := parts + proxies;
    }
    assert parts == Appends(BaseRules(s, ext, name))
           + (if s.ipv6Enabled then Ipv6Up(clients, ExternalName6(s, detected), name) else []);
    parts := parts + [Sysctl("net.ipv4.ip_forward")];
    var forwards := ForwardCommands(clients, ext, name, true);
    parts := parts + forwards;
    if s.routeViaXray {
      parts := parts + XrayUp(s, name);
    }
    assert parts == UpCommands(s, clients, detected);
    text := HookText(parts);
  }

  method GenerateDefaultPostDown(s: Server, clients: seq<Client>, detected: string) returns (text: string)
    ensures text == HookText(DownCommands(s, clients, detected))
  {
    hide Deletes, Ipv6Rules, TproxyDown, BaseRules, Proxies, AllForwardRules, Removes, HookText;
    var ext, name := ExternalName(s, detected), TunnelName(s);
    var parts := Deletes(BaseRules(s, ext, name));
    if s.ipv6Enabled {
      var ext6 := ExternalName6(s, detected);
      parts := parts + Deletes(Ipv6Rules(ext6, name));
      var proxies := ProxyCommands(clients, ext6, false);
      parts := parts + proxies;
    }
    assert parts == Deletes(BaseRules(s, ext, name))
           + (if s.ipv6Enabled then Ipv6Down(clients, ExternalName6(s, detected), name) else []);
    var forwards := ForwardCommands(clients, ext, name, false);
    parts := parts + forwards;
    if s.routeViaXray {
      parts := parts + XrayDown(s, name);
    }
    assert parts == DownCommands(s, clients, detected);
    text := HookText(parts);
  }

  // ---------- the hooks mirror each other ----------

  lemma {:induction false} EffectOfAdds(items: seq<Item>)
    ensures Appended(Adds(items)) == [] && Added(Adds(items)) == set x | x in items
  {
    if items != [] {
      EffectOfAdds(items[1..]);
      assert Adds(items)[1..] == Adds(items[1..]);
      assert items == [items[0]] + items[1..];
    }
  }

  lemma {:induction false} EffectOfRemoves(items: seq<Item>)
    ensures Deleted(Removes(items)) == [] && Removed(Removes(items)) == set x | x in items
  {
    if items != [] {
      EffectOfRemoves(items[1..]);
      assert Removes(items)[1..] == Removes(items[1..]);
      assert items == [items[0]] + items[1..];
    }
  }

  /** Removing the same items in any order mirrors adding them. */
  lemma AddsMirrored(items: seq<Item>, again: seq<Item>)
    requires (set x | x in items) == (set x | x in again)
    ensures Mirrors(Adds(items), Removes(again)) && Added(Adds(items)) == set x | x in items
  {
    hide Adds, Removes, Appended, Deleted, Added, Removed;
    EffectOfAdds(items);
    EffectOfRemoves(again);
  }

  lemma TproxyMirrored(family: Family, s: Server, name: string)
    ensures Mirrors(TproxyUp(family, s, name), TproxyDown(family, s, name))
    ensures Added(TproxyUp(family, s, name)) == {PolicyOf(family, s.flavour), RouteOf(family, s.flavour)}
  {
    hide PolicyOf, RouteOf, TproxyRules, Appends, Deletes, Appended, Deleted, Added, Removed, Adds, Removes;
    var p, r, rules := PolicyOf(family, s.flavour), RouteOf(family, s.flavour), TproxyRules(family, s, name);
    var ups, downs := Appends(rules), Deletes(rules);
    AppendsMirrored(rules);
    AddsMirrored([p, r], [r, p]);
    assert Adds([p, r]) == [Add(p), Add(r)] && Removes([r, p]) == [Remove(r), Remove(p)];
    EffectsAppend(Adds([p, r]), ups);
    RemovalsAppend(downs, Removes([r, p]));
  }

  /** The items of the transparent proxy, by family. */
  function XrayItems(s: Server): set<Item> {
    if !s.routeViaXray then {}
    else if !s.ipv6Enabled then {PolicyOf(V4, s.flavour), RouteOf(V4, s.flavour)}
    else {PolicyOf(V4, s.flavour), RouteOf(V4, s.flavour), PolicyOf(V6, s.flavour), RouteOf(V6, s.flavour)}
  }

  lemma XrayMirrored(s: Server, name: string)
    ensures Mirrors(XrayUp(s, name), XrayDown(s, name)) && Added(XrayUp(s, name)) == XrayItems(s)
  {
    hide TproxyUp, TproxyDown, PolicyOf, RouteOf, Mirrors;
    NothingMirrored();
    if s.routeViaXray {
      TproxyMirrored(V4, s, name);
      TproxyMirrored(V6, s, name);
      var more := if s.ipv6Enabled then TproxyUp(V6, s, name) else [];
      EffectsAppend(TproxyUp(V4, s, name), more);
      MirrorsConcat(TproxyUp(V4, s, name), TproxyDown(V4, s, name), more,
                    if s.ipv6Enabled then TproxyDown(V6, s, name) else []);
    }
  }

  lemma NothingMirrored()
    ensures Mirrors([], [])
  {}

  lemma SysctlMirrored(key: string)
    ensures Mirrors([Sysctl(key)], []) && Added([Sysctl(key)]) == {}
  {
    assert [Sysctl(key)][1..] == [];
  }

  function ProxyItems(s: Server, clients: seq<Client>, detected: string): set<Item> {
    if s.ipv6Enabled then set x | x in Proxies(clients, ExternalName6(s, detected)) else {}
  }

  lemma Ipv6Mirrored(clients: seq<Client>, ext6: string, name: string)
    ensures Mirrors(Ipv6Up(clients, ext6, name), Ipv6Down(clients, ext6, name))
    ensures Added(Ipv6Up(clients, ext6, name)) == set x | x in Proxies(clients, ext6)
  {
    hide Ipv6Rules, Mirrors, Proxies, Appended, Appends, Deletes, Adds, Removes, Added;
    var rules, proxies := Ipv6Rules(ext6, name), Proxies(clients, ext6);
    var a, b := Sysctl("net.ipv6.conf.all.forwarding"), Sysctl("net.ipv6.conf." + ext6 + ".proxy_ndp");
    AppendsMirrored(rules);
    AddsMirrored(proxies, proxies);
    SysctlMirrored(a.key);
    SysctlMirrored(b.key);
    var none: seq<Command> := [];
    MirrorsConcat([a], none, [b], none);
    EffectsAppend([a], [b]);
    assert [a] + [b] == [a, b] && none + none == none;
    MirrorsConcat(Appends(rules), Deletes(rules), [a, b], []);
    EffectsAppend(Appends(rules), [a, b]);
    MirrorsConcat(Appends(rules) + [a, b], Deletes(rules) + [], Adds(proxies), Removes(proxies));
    EffectsAppend(Appends(rules) + [a, b], Adds(proxies));
    assert Deletes(rules) + [] == Deletes(rules);
  }

  /** For every server and client list, PostDown deletes exactly the rules PostUp appends and removes exactly
      the items it adds; and these items are the proxy entries and those of the transparent proxy. */
  lemma HooksMirror(s: Server, clients: seq<Client>, detected: string)
    ensures Mirrors(UpCommands(s, clients, detected), DownCommands(s, clients, detected))
    ensures Added(UpCommands(s, clients, detected)) == ProxyItems(s, clients, detected) + XrayItems(s)
  {
    hide BaseRules, Mirrors, Proxies, Appended, Ipv6Up, Ipv6Down, AllForwardRules, XrayUp, XrayDown,
         XrayItems, Appends, Deletes;
    var ext, name, ext6 := ExternalName(s, detected), TunnelName(s), ExternalName6(s, detected);
    var base, forwards := BaseRules(s, ext, name), AllForwardRules(ext, name, clients);
    var up6 := if s.ipv6Enabled then Ipv6Up(clients, ext6, name) else [];
    var down6 := if s.ipv6Enabled then Ipv6Down(clients, ext6, name) else [];
    NothingMirrored();
    Ipv6Mirrored(clients, ext6, name);
    AppendsMirrored(base);
    MirrorsConcat(Appends(base), Deletes(base), up6, down6);
    EffectsAppend(Appends(base), up6);
    var up2, down2 := Appends(base) + up6, Deletes(base) + down6;
    var forward := [Sysctl("net.ipv4.ip_forward")];
    SysctlMirrored("net.ipv4.ip_forward");
    MirrorsConcat(up2, down2, forward, []);
    EffectsAppend(up2, forward);
    assert down2 + [] == down2;
    AppendsMirrored(forwards);
    MirrorsConcat(up2 + forward, down2, Appends(forwards), Deletes(forwards));
    EffectsAppend(up2 + forward, Appends(forwards));
    XrayMirrored(s, name);
    MirrorsConcat(up2 + forward + Appends(forwards), down2 + Deletes(forwards), XrayUp(s, name), XrayDown(s, name));
    EffectsAppend(up2 + forward + Appends(forwards), XrayUp(s, name));
  }

  // ---------- main results ----------

  /** Bringing a tunnel up and down again: every chain is back, in its order if none of the rules was there
      before, and the rest is back exactly when no proxy entry or proxy route of the tunnel was there before. */
  lemma PostDownUndoesPostUp(s: Server, clients: seq<Client>, detected: string, k: Kernel)
    ensures var up := UpCommands(s, clients, detected);
            var after := ExecAll(up + DownCommands(s, clients, detected), k);
            && multiset(after.rules) == multiset(k.rules)
            && ((forall r :: r in Appended(up) ==> r !in k.rules) ==> after.rules == k.rules)
            && (after.items == k.items <==> k.items !! ProxyItems(s, clients, detected) + XrayItems(s))
  {
    hide UpCommands, DownCommands, ExecAll, Mirrors, Appended, ProxyItems, XrayItems;
    var up, down := UpCommands(s, clients, detected), DownCommands(s, clients, detected);
    HooksMirror(s, clients, detected);
    DownUndoesUp(up, down, k);
    DownRestoresItems(up, down, k);
    if forall r :: r in Appended(up) ==> r !in k.rules {
      DownRestoresOrder(up, down, k);
    }
  }

  lemma {:induction false} ProxiesAreNeighbours(clients: seq<Client>, dev: string)
    ensures forall x :: x in Proxies(clients, dev) ==> x.NeighbourProxy?
  {
    if clients != [] {
      ProxiesAreNeighbours(clients[..|clients| - 1], dev);
    }
  }

  /** An AmneziaWG and a native server compete for nothing but proxy entries. */
  lemma FlavoursAreSeparate(a: Server, ca: seq<Client>, b: Server, cb: seq<Client>, detected: string)
    requires a.flavour == Awg && b.flavour == Wg
    ensures Added(UpCommands(a, ca, detected)) !! Added(UpCommands(b, cb, detected))
            <==> ProxyItems(a, ca, detected) !! ProxyItems(b, cb, detected)
  {
    hide UpCommands, DownCommands, Mirrors, Proxies;
    HooksMirror(a, ca, detected);
    HooksMirror(b, cb, detected);
    ProxiesAreNeighbours(ca, ExternalName6(a, detected));
    ProxiesAreNeighbours(cb, ExternalName6(b, detected));
    assert forall x :: x in XrayItems(a) + XrayItems(b) ==> !x.NeighbourProxy?;
    assert Fwmark(Awg) != Fwmark(Wg) && RouteTable(Awg)[2] != RouteTable(Wg)[2];
    assert XrayItems(a) !! XrayItems(b);
  }

  /** Both tunnels, each up and down any number of times, their commands interleaved in any way: the kernel
      holds what it held before plus the hooks of those that ended up, and nothing else. */
  lemma TunnelsCoexist(a: Server, ca: seq<Client>, n: nat, aUp: bool, b: Server, cb: seq<Client>, m: nat, bUp: bool,
      detected: string, w: seq<Command>, k: Kernel)
    requires a.flavour == Awg && b.flavour == Wg && ProxyItems(a, ca, detected) !! ProxyItems(b, cb, detected)
    requires k.items !! Added(UpCommands(a, ca, detected)) && k.items !! Added(UpCommands(b, cb, detected))
    requires Interleaves(w, Cycles(UpCommands(a, ca, detected), DownCommands(a, ca, detected), n, aUp),
                            Cycles(UpCommands(b, cb, detected), DownCommands(b, cb, detected), m, bUp))
    ensures var upA, upB := UpCommands(a, ca, detected), UpCommands(b, cb, detected);
            && multiset(ExecAll(w, k).rules) == multiset(k.rules) + RulesLeft(upA, aUp) + RulesLeft(upB, bUp)
            && ExecAll(w, k).items == k.items + ItemsLeft(upA, aUp) + ItemsLeft(upB, bUp)
  {
    hide UpCommands, DownCommands, ExecAll, Mirrors, Appended, Added, ProxyItems, XrayItems, Cycles,
         Interleaves, RulesLeft, ItemsLeft;
    var upA, downA := UpCommands(a, ca, detected), DownCommands(a, ca, detected);
    var upB, downB := UpCommands(b, cb, detected), DownCommands(b, cb, detected);
    HooksMirror(a, ca, detected);
    HooksMirror(b, cb, detected);
    FlavoursAreSeparate(a, ca, b, cb, detected);
    CyclesInterleaveRules(w, upA, downA, n, aUp, upB, downB, m, bUp, k);
    CyclesInterleaveItems(w, upA, downA, n, aUp, upB, downB, m, bUp, k);
  }
}
