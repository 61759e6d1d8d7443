/** What a sidecar reads in the config file that the panel writes for it. */
module MtprotoReader {
  import opened Options
  import opened Text
  import opened MtprotoConfig

  // ---------- reading ----------

  predicate IsHeader(line: string) { |line| >= 2 && line[0] == '[' && line[|line| - 1] == ']' }

  function HeaderName(line: string): string
    requires IsHeader(line)
  {
    line[1..|line| - 1]
  }

  /** The section after the lines: the last one named. */
  function SectionAfter(lines: seq<string>, current: string): string {
    if lines == [] then current
    else if IsHeader(lines[|lines| - 1]) then HeaderName(lines[|lines| - 1])
    else SectionAfter(lines[..|lines| - 1], current)
  }

  /** The lines of a section, blank ones aside, where the first lines belong to the current one. */
  function SettingsIn(lines: seq<string>, current: string, section: string): seq<string> {
    if lines == [] then []
    else
      var n := |lines| - 1;
      SettingsIn(lines[..n], current, section)
      + if lines[n] != "" && !IsHeader(lines[n]) && SectionAfter(lines[..n], current) == section then [lines[n]] else []
  }

  predicate HasKey(line: string, key: string) { |line| >= |key| + 3 && line[..|key| + 3] == key + " = " }

  /** The value of the first setting with the key. */
  function ValueOf(settings: seq<string>, key: string): Option<string> {
    if settings == [] then None
    else if HasKey(settings[0], key) then Some(settings[0][|key| + 3..])
    else ValueOf(settings[1..], key)
  }

  /** A file begins in the section without a name. */
  function Section(text: string, section: string): seq<string> { SettingsIn(Split(text, '\n'), "", section) }

  function Lookup(text: string, section: string, key: string): Option<string> { ValueOf(Section(text, section), key) }

  // ---------- settings ----------

  datatype Setting = Setting(key: string, value: string) {
    function Line(): string { key + " = " + value }
  }

  function LinesOf(ss: seq<Setting>): (ls: seq<string>)
    ensures |ls| == |ss| && forall i :: 0 <= i < |ss| ==> ls[i] == ss[i].Line()
  {
    seq(|ss|, i requires 0 <= i < |ss| => ss[i].Line())
  }

  function When(cond: bool, key: string, value: string): seq<Setting> { if cond then [Setting(key, value)] else [] }

  /** A key that begins no header, and a line that stays one. */
  predicate Plain(s: Setting) { s.key != "" && s.key[0] != '[' && '\n' !in s.key && '\n' !in s.value }

  predicate AllPlain(ss: seq<Setting>) { forall i :: 0 <= i < |ss| ==> Plain(ss[i]) }

  predicate NoBlanks(ss: seq<Setting>) { forall i :: 0 <= i < |ss| ==> ' ' !in ss[i].key }

  lemma PlainConcat(a: seq<Setting>, b: seq<Setting>)
    requires AllPlain(a) && AllPlain(b)
    ensures AllPlain(a + b) && LinesOf(a + b) == LinesOf(a) + LinesOf(b)
  {
    hide Plain;
  }

  lemma {:induction false} PlainLines(ss: seq<Setting>, current: string, section: string)
    requires AllPlain(ss)
    ensures SectionAfter(LinesOf(ss), current) == current
    ensures SettingsIn(LinesOf(ss), current, section) == if current == section then LinesOf(ss) else []
  {
    if ss != [] {
      var n := |ss| - 1;
      PlainLines(ss[..n], current, section);
      assert LinesOf(ss)[..n] == LinesOf(ss[..n]);
      assert Plain(ss[n]) && !IsHeader(ss[n].Line());
    }
  }

  lemma {:induction false} SectionConcat(a: seq<string>, b: seq<string>, current: string, section: string)
    ensures SectionAfter(a + b, current) == SectionAfter(b, SectionAfter(a, current))
    ensures SettingsIn(a + b, current, section)
            == SettingsIn(a, current, section) + SettingsIn(b, SectionAfter(a, current), section)
  {
    if b == [] {
      assert a + b == a;
    } else {
      hide IsHeader;
      var n := |b| - 1;
      assert (a + b)[..|a + b| - 1] == a + b[..n] && (a + b)[|a + b| - 1] == b[n];
      SectionConcat(a, b[..n], current, section);
    }
  }

  /** A section as it is printed: a blank line, its header and its settings. */
  function Block(name: string, ss: seq<Setting>): seq<string> { ["", "[" + name + "]"] + LinesOf(ss) }

  lemma BlockLines(name: string, ss: seq<Setting>, current: string, section: string)
    requires AllPlain(ss)
    ensures SectionAfter(Block(name, ss), current) == name
    ensures SettingsIn(Block(name, ss), current, section) == if section == name then LinesOf(ss) else []
  {
    hide LinesOf, AllPlain;
    var h := "[" + name + "]";
    assert IsHeader(h) && HeaderName(h) == name;
    assert ["", h][..1] == [""] && [""][..0] == [];
    assert SectionAfter(["", h], current) == name;
    assert SettingsIn([""], current, section) == [];
    assert SettingsIn(["", h], current, section) == [];
    SectionConcat(["", h], LinesOf(ss), current, section);
    PlainLines(ss, name, section);
  }

  lemma KeyOfSetting(s: Setting, key: string)
    requires ' ' !in s.key && ' ' !in key
    ensures HasKey(s.Line(), key) <==> s.key == key
    ensures s.key == key ==> s.Line()[|key| + 3..] == s.value
  {
    var line, x := s.Line(), "= " + s.value;
    assert line == s.key + [' '] + x;
    if HasKey(line, key) {
      var y := "= " + line[|key| + 3..];
      assert key + " = " + line[|key| + 3..] == key + [' '] + y;
      CutAt(s.key, ' ', x, key, y);
    }
    if s.key == key {
      assert line[..|key| + 3] == key + " = ";
    }
  }

  /** The value among settings: that of the first one with the key. */
  function First(ss: seq<Setting>, key: string): Option<string> {
    if ss == [] then None else if ss[0].key == key then Some(ss[0].value) else First(ss[1..], key)
  }

  lemma {:induction false} ValueIsFirst(ss: seq<Setting>, key: string)
    requires NoBlanks(ss) && ' ' !in key
    ensures ValueOf(LinesOf(ss), key) == First(ss, key)
  {
    if ss != [] {
      hide HasKey, Setting.Line;
      KeyOfSetting(ss[0], key);
      ValueIsFirst(ss[1..], key);
      assert LinesOf(ss)[1..] == LinesOf(ss[1..]);
    }
  }

  lemma {:induction false} FirstConcat(a: seq<Setting>, b: seq<Setting>, key: string)
    ensures First(a + b, key) == if First(a, key).Some? then First(a, key) else First(b, key)
  {
    if a == [] {
      assert a + b == b;
    } else {
      FirstConcat(a[1..], b, key);
      assert (a + b)[1..] == a[1..] + b;
    }
  }

  lemma FirstWhen(cond: bool, k: string, value: string, key: string)
    ensures First(When(cond, k, value), key) == if cond && k == key then Some(value) else None
  {}

  // ---------- the printed file ----------

  function HeadSettings(inst: Instance, statsPort: int, quote: Quote): seq<Setting> {
    When(inst.multiUser, "api-bind-to", Loopback(statsPort))
    + When(!inst.multiUser && inst.clients != [], "secret", if inst.clients != []
           then quote(inst.clients[0].secret) else "")
    + When(true, "bind-to", quote(inst.BindTo()))
    + When(inst.debug, "debug", "true")
    + When(inst.proxyProtocolListener, "proxy-protocol-listener", "true")
    + When(inst.preferIP != "", "prefer-ip", quote(inst.preferIP))
  }

  function SecretSettings(cs: seq<ClientSecret>, quote: Quote): (ss: seq<Setting>)
    ensures |ss| == |cs| && forall i :: 0 <= i < |cs| ==> ss[i] == Setting(quote(cs[i].id), quote(cs[i].secret))
  {
    seq(|cs|, i requires 0 <= i < |cs| => Setting(quote(cs[i].id), quote(cs[i].secret)))
  }

  function FrontingSettings(inst: Instance, quote: Quote): seq<Setting> {
    When(inst.frontingIP != "", "ip", quote(inst.frontingIP))
    + When(inst.frontingPort > 0, "port", Itoa(inst.frontingPort))
    + When(inst.frontingProxyProtocol, "proxy-protocol", "true")
  }

  function NetworkSettings(inst: Instance): seq<Setting> {
    [Setting("proxies", "[\"socks5://127.0.0.1:" + Itoa(inst.xrayRoutePort) + "\"]")]
  }

  function StatsSettings(statsPort: int): seq<Setting> {
    [Setting("enabled", "true"), Setting("bind-to", Loopback(statsPort)),
     Setting("http-path", "\"/metrics\""), Setting("metric-prefix", "\"mtg\"")]
  }

  predicate Fronts(inst: Instance) { inst.frontingIP != "" || inst.frontingPort > 0 || inst.frontingProxyProtocol }

  predicate Routes(inst: Instance) { inst.routeThroughXray && inst.xrayRoutePort > 0 }

  /** The lines of the file. */
  function FileLines(inst: Instance, statsPort: int, quote: Quote): seq<string> {
    LinesOf(HeadSettings(inst, statsPort, quote))
    + (if inst.multiUser then Block("secrets", SecretSettings(inst.clients, quote)) else [])
    + (if Fronts(inst) then Block("domain-fronting", FrontingSettings(inst, quote)) else [])
    + (if Routes(inst) then Block("network", NetworkSettings(inst)) else [])
    + (if inst.multiUser then [] else Block("stats.prometheus", StatsSettings(statsPort)))
  }

  lemma LinesOfConcat(a: seq<Setting>, b: seq<Setting>)
    ensures Lines(LinesOf(a + b)) == Lines(LinesOf(a)) + Lines(LinesOf(b))
  {
    assert LinesOf(a + b) == LinesOf(a) + LinesOf(b);
    LinesAppend(LinesOf(a), LinesOf(b));
  }

  lemma LinesOfOne(key: string, value: string)
    ensures Lines(LinesOf([Setting(key, value)])) == LineOf(key, value) && Lines(LinesOf([])) == ""
  {
    assert LinesOf([Setting(key, value)]) == [key + " = " + value];
    assert [key + " = " + value][1..] == [] && LinesOf([]) == [];
  }

  lemma LinesOfWhen(cond: bool, key: string, value: string)
    ensures Lines(LinesOf(When(cond, key, value))) == LineIf(cond, key, value)
  {
    hide Lines, LinesOf;
    LinesOfOne(key, value);
  }

  lemma BlockText(name: string, ss: seq<Setting>)
    ensures Lines(Block(name, ss)) == "\n[" + name + "]\n" + Lines(LinesOf(ss))
  {
    var h := "[" + name + "]";
    LinesAppend(["", h], LinesOf(ss));
    assert ["", h][1..] == [h] && [h][1..] == [];
    assert Lines([h]) == h + "\n" && Lines(["", h]) == "" + "\n" + (h + "\n");
  }

  lemma HeadIsPrinted(inst: Instance, statsPort: int, quote: Quote)
    ensures HeadText(inst, statsPort, quote) == Lines(LinesOf(HeadSettings(inst, statsPort, quote)))
  {
    hide Itoa, When, Lines, LinesOf, Instance.BindTo, LineOf, LineIf, Loopback;
    var secret := if inst.clients != [] then quote(inst.clients[0].secret) else "";
    var a := When(inst.multiUser, "api-bind-to", Loopback(statsPort));
    var b := When(!inst.multiUser && inst.clients != [], "secret", secret);
    var c := When(true, "bind-to", quote(inst.BindTo()));
    var d := When(inst.debug, "debug", "true");
    var e := When(inst.proxyProtocolListener, "proxy-protocol-listener", "true");
    var f := When(inst.preferIP != "", "prefer-ip", quote(inst.preferIP));
    LinesOfWhen(inst.multiUser, "api-bind-to", Loopback(statsPort));
    LinesOfWhen(!inst.multiUser && inst.clients != [], "secret", secret);
    LinesOfWhen(true, "bind-to", quote(inst.BindTo()));
    LinesOfWhen(inst.debug, "debug", "true");
    LinesOfWhen(inst.proxyProtocolListener, "proxy-protocol-listener", "true");
    LinesOfWhen(inst.preferIP != "", "prefer-ip", quote(inst.preferIP));
    LinesOfConcat(a, b);
    LinesOfConcat(a + b, c);
    LinesOfConcat(a + b + c, d);
    LinesOfConcat(a + b + c + d, e);
    LinesOfConcat(a + b + c + d + e, f);
    FirstLine(inst, statsPort, quote);
    LineIfMeans("bind-to", quote(inst.BindTo()));
  }

  lemma LineIfMeans(key: string, value: string)
    ensures LineIf(true, key, value) == LineOf(key, value) && LineIf(false, key, value) == ""
  {}

  lemma FirstLine(inst: Instance, statsPort: int, quote: Quote)
    ensures (if inst.multiUser then LineOf("api-bind-to", Loopback(statsPort))
             else if inst.ActiveClients() != [] then LineOf("secret", quote(inst.ActiveClients()[0].secret)) else "")
            == LineIf(inst.multiUser, "api-bind-to", Loopback(statsPort))
               + LineIf(!inst.multiUser && inst.clients != [], "secret",
                        if inst.clients != [] then quote(inst.clients[0].secret) else "")
  {
    hide LineOf, Loopback;
    assert inst.ActiveClients() != [] <==> inst.clients != [];
    assert inst.clients != [] ==> inst.ActiveClients()[0] == inst.clients[0];
  }

  lemma {:induction false} SecretsArePrinted(cs: seq<ClientSecret>, quote: Quote)
    ensures SecretLines(cs, quote) == Lines(LinesOf(SecretSettings(cs, quote)))
  {
    hide LineOf, LinesOf;
    if cs == [] {
      LinesOfOne("", "");
      assert SecretSettings(cs, quote) == [];
    } else {
      var n := |cs| - 1;
      SecretsArePrinted(cs[..n], quote);
      var last := Setting(quote(cs[n].id), quote(cs[n].secret));
      assert SecretSettings(cs, quote) == SecretSettings(cs[..n], quote) + [last];
      LinesOfConcat(SecretSettings(cs[..n], quote), [last]);
      LinesOfOne(last.key, last.value);
    }
  }

  lemma FrontingIsPrinted(inst: Instance, quote: Quote)
    ensures FrontingText(inst, quote)
            == if Fronts(inst) then Lines(Block("domain-fronting", FrontingSettings(inst, quote))) else ""
  {
    hide Itoa, When, Lines, LinesOf, LineOf, LineIf;
    var a, b := When(inst.frontingIP != "", "ip", quote(inst.frontingIP)),
      When(inst.frontingPort > 0, "port", Itoa(inst.frontingPort));
    var c := When(inst.frontingProxyProtocol, "proxy-protocol", "true");
    LinesOfWhen(inst.frontingIP != "", "ip", quote(inst.frontingIP));
    LinesOfWhen(inst.frontingPort > 0, "port", Itoa(inst.frontingPort));
    LinesOfWhen(inst.frontingProxyProtocol, "proxy-protocol", "true");
    LinesOfConcat(a, b);
    LinesOfConcat(a + b, c);
    BlockText("domain-fronting", FrontingSettings(inst, quote));
    assert "\n[" + "domain-fronting" + "]\n" == "\n[domain-fronting]\n";
  }

  lemma TailIsPrinted(inst: Instance, statsPort: int)
    ensures TailText(inst, statsPort)
            == (if Routes(inst) then Lines(Block("network", NetworkSettings(inst))) else "")
               + (if inst.multiUser then "" else Lines(Block("stats.prometheus", StatsSettings(statsPort))))
  {
    hide Itoa, Lines, LinesOf, LineOf, Loopback;
    BlockText("network", NetworkSettings(inst));
    BlockText("stats.prometheus", StatsSettings(statsPort));
    assert "\n[" + "network" + "]\n" == "\n[network]\n";
    assert "\n[" + "stats.prometheus" + "]\n" == "\n[stats.prometheus]\n";
    var ss := StatsSettings(statsPort);
    LinesOfOne("proxies", NetworkSettings(inst)[0].value);
    LinesOfOne(ss[0].key, ss[0].value);
    LinesOfOne(ss[1].key, ss[1].value);
    LinesOfOne(ss[2].key, ss[2].value);
    LinesOfOne(ss[3].key, ss[3].value);
    LinesOfConcat([ss[0]], [ss[1]]);
    LinesOfConcat([ss[0]] + [ss[1]], [ss[2]]);
    LinesOfConcat([ss[0]] + [ss[1]] + [ss[2]], [ss[3]]);
    assert ss == [ss[0]] + [ss[1]] + [ss[2]] + [ss[3]];
  }

  lemma FileIsPrinted(inst: Instance, statsPort: int, quote: Quote)
    ensures Rendered(inst, statsPort, quote) == Lines(FileLines(inst, statsPort, quote))
  {
    hide HeadText, FrontingText, TailText, SecretLines, Lines, Block, HeadSettings, FrontingSettings, NetworkSettings,
         StatsSettings, LinesOf, Fronts, Routes;
    var a := LinesOf(HeadSettings(inst, statsPort, quote));
    var b := if inst.multiUser then Block("secrets", SecretSettings(inst.clients, quote)) else [];
    var c := if Fronts(inst) then Block("domain-fronting", FrontingSettings(inst, quote)) else [];
    var d := if Routes(inst) then Block("network", NetworkSettings(inst)) else [];
    var e := if inst.multiUser then [] else Block("stats.prometheus", StatsSettings(statsPort));
    HeadIsPrinted(inst, statsPort, quote);
    SecretsArePrinted(inst.clients, quote);
    BlockText("secrets", SecretSettings(inst.clients, quote));
    assert "\n[" + "secrets" + "]\n" == "\n[secrets]\n";
    FrontingIsPrinted(inst, quote);
    TailIsPrinted(inst, statsPort);
    NoLinesNoText();
    LinesAppend(a, b);
    LinesAppend(a + b, c);
    LinesAppend(a + b + c, d);
    LinesAppend(a + b + c + d, e);
  }

  lemma NoLinesNoText()
    ensures Lines([]) == ""
  {}

  // ---------- what is read ----------

  /** A quoted string begins with a quote and stays on its line. */
  ghost predicate Quotes(quote: Quote) { forall s :: quote(s) != "" && quote(s)[0] == '"' && '\n' !in quote(s) }

  /** Neither blank nor newline, and no section header. */
  ghost predicate PlainKey(key: string) { key != "" && key[0] != '[' && '\n' !in key && ' ' !in key }

  lemma BindKeys()
    ensures PlainKey("api-bind-to") && PlainKey("bind-to") && PlainKey("secret")
  {}

  lemma FlagKeys()
    ensures PlainKey("debug") && PlainKey("prefer-ip") && PlainKey("proxy-protocol-listener")
  {}

  lemma WhenIsPlain(cond: bool, key: string, value: string)
    requires PlainKey(key) && '\n' !in value
    ensures AllPlain(When(cond, key, value)) && NoBlanks(When(cond, key, value))
  {}

  lemma NoBlanksConcat(a: seq<Setting>, b: seq<Setting>)
    requires NoBlanks(a) && NoBlanks(b)
    ensures NoBlanks(a + b)
  {}

  lemma PortIsOneLine(port: int)
    ensures '\n' !in Itoa(port) && '\n' !in Loopback(port)
    ensures '\n' !in "[\"socks5://127.0.0.1:" + Itoa(port) + "\"]"
  {
    hide Itoa;
    ItoaRunes(port);
  }

  lemma HeadIsPlain(inst: Instance, statsPort: int, quote: Quote)
    requires Quotes(quote)
    ensures AllPlain(HeadSettings(inst, statsPort, quote)) && NoBlanks(HeadSettings(inst, statsPort, quote))
  {
    hide Itoa, When, Instance.BindTo, Loopback, Plain, AllPlain, NoBlanks, LinesOf, PlainKey;
    PortIsOneLine(statsPort);
    BindKeys();
    FlagKeys();
    var secret := if inst.clients != [] then quote(inst.clients[0].secret) else "";
    var a := When(inst.multiUser, "api-bind-to", Loopback(statsPort));
    var b := When(!inst.multiUser && inst.clients != [], "secret", secret);
    var c := When(true, "bind-to", quote(inst.BindTo()));
    var d := When(inst.debug, "debug", "true");
    var e := When(inst.proxyProtocolListener, "proxy-protocol-listener", "true");
    var f := When(inst.preferIP != "", "prefer-ip", quote(inst.preferIP));
    WhenIsPlain(inst.multiUser, "api-bind-to", Loopback(statsPort));
    WhenIsPlain(!inst.multiUser && inst.clients != [], "secret", secret);
    WhenIsPlain(true, "bind-to", quote(inst.BindTo()));
    WhenIsPlain(inst.debug, "debug", "true");
    WhenIsPlain(inst.proxyProtocolListener, "proxy-protocol-listener", "true");
    WhenIsPlain(inst.preferIP != "", "prefer-ip", quote(inst.preferIP));
    assert HeadSettings(inst, statsPort, quote) == a + b + c + d + e + f;
    hide *;
    PlainParts(a, b, c, d, e, f);
  }

  lemma PlainParts(a: seq<Setting>, b: seq<Setting>, c: seq<Setting>, d: seq<Setting>, e: seq<Setting>, f: seq<Setting>)
    requires AllPlain(a) && AllPlain(b) && AllPlain(c) && AllPlain(d) && AllPlain(e) && AllPlain(f)
    requires NoBlanks(a) && NoBlanks(b) && NoBlanks(c) && NoBlanks(d) && NoBlanks(e) && NoBlanks(f)
    ensures AllPlain(a + b + c + d + e + f) && NoBlanks(a + b + c + d + e + f)
  {
    hide *;
    PlainConcat(a, b);
    PlainConcat(a + b, c);
    PlainConcat(a + b + c, d);
    PlainConcat(a + b + c + d, e);
    PlainConcat(a + b + c + d + e, f);
    NoBlanksConcat(a, b);
    NoBlanksConcat(a + b, c);
    NoBlanksConcat(a + b + c, d);
    NoBlanksConcat(a + b + c + d, e);
    NoBlanksConcat(a + b + c + d + e, f);
  }

  lemma FrontingIsPlain(inst: Instance, quote: Quote)
    requires Quotes(quote)
    ensures AllPlain(FrontingSettings(inst, quote)) && NoBlanks(FrontingSettings(inst, quote))
  {
    hide Itoa, When, Plain, AllPlain, NoBlanks, LinesOf;
    PortIsOneLine(inst.frontingPort);
    var a, b := When(inst.frontingIP != "", "ip", quote(inst.frontingIP)),
      When(inst.frontingPort > 0, "port", Itoa(inst.frontingPort));
    var c := When(inst.frontingProxyProtocol, "proxy-protocol", "true");
    WhenIsPlain(inst.frontingIP != "", "ip", quote(inst.frontingIP));
    WhenIsPlain(inst.frontingPort > 0, "port", Itoa(inst.frontingPort));
    WhenIsPlain(inst.frontingProxyProtocol, "proxy-protocol", "true");
    PlainConcat(a, b);
    PlainConcat(a + b, c);
    NoBlanksConcat(a, b);
    NoBlanksConcat(a + b, c);
  }

  lemma TailIsPlain(inst: Instance, statsPort: int)
    ensures AllPlain(NetworkSettings(inst)) && NoBlanks(NetworkSettings(inst))
    ensures AllPlain(StatsSettings(statsPort)) && NoBlanks(StatsSettings(statsPort))
  {
    hide Itoa, Loopback;
    PortIsOneLine(inst.xrayRoutePort);
    StatsArePlain(statsPort);
  }

  lemma StatsArePlain(statsPort: int)
    ensures AllPlain(StatsSettings(statsPort)) && NoBlanks(StatsSettings(statsPort))
  {
    hide Itoa, Loopback;
    PortIsOneLine(statsPort);
  }

  lemma SecretsArePlain(cs: seq<ClientSecret>, quote: Quote)
    requires Quotes(quote)
    ensures AllPlain(SecretSettings(cs, quote))
  {}

  lemma PlainLinesAreLines(ss: seq<Setting>)
    requires AllPlain(ss)
    ensures Free(LinesOf(ss), '\n')
  {
    forall l | l in LinesOf(ss) ensures '\n' !in l {
      var i :| 0 <= i < |ss| && LinesOf(ss)[i] == l;
      assert Plain(ss[i]);
    }
  }

  lemma BlockIsLines(name: string, ss: seq<Setting>)
    requires AllPlain(ss) && '\n' !in name
    ensures Free(Block(name, ss), '\n')
  {
    hide LinesOf, AllPlain;
    PlainLinesAreLines(ss);
  }

  lemma FreeParts(a: seq<string>, b: seq<string>)
    requires Free(a, '\n') && Free(b, '\n')
    ensures Free(a + b, '\n')
  {}

  /** A block that may be missing. */
  function Part(cond: bool, name: string, ss: seq<Setting>): seq<string> { if cond then Block(name, ss) else [] }

  lemma PartIsRead(cond: bool, name: string, ss: seq<Setting>, current: string, section: string)
    requires AllPlain(ss) && '\n' !in name
    ensures SettingsIn(Part(cond, name, ss), current, section) == if cond && section == name then LinesOf(ss) else []
    ensures Free(Part(cond, name, ss), '\n')
  {
    hide Block, LinesOf, AllPlain;
    BlockLines(name, ss, current, section);
    BlockIsLines(name, ss);
  }

  lemma BlankIsNoSetting(lines: seq<string>, section: string)
    ensures SettingsIn(lines + [[]], "", section) == SettingsIn(lines, "", section)
  {
    assert (lines + [[]])[..|lines|] == lines;
  }

  /** The settings a reader finds in each section of the file. */
  lemma SectionsAreRead(inst: Instance, statsPort: int, quote: Quote, section: string)
    requires Quotes(quote)
    ensures Section(Rendered(inst, statsPort, quote), section)
            == (if section == "" then LinesOf(HeadSettings(inst, statsPort, quote)) else [])
               + (if inst.multiUser && section == "secrets" then LinesOf(SecretSettings(inst.clients, quote)) else [])
               + (if Fronts(inst) && section == "domain-fronting" then LinesOf(FrontingSettings(inst, quote)) else [])
               + (if Routes(inst) && section == "network" then LinesOf(NetworkSettings(inst)) else [])
               + (if !inst.multiUser && section == "stats.prometheus" then LinesOf(StatsSettings(statsPort)) else [])
  {
    hide HeadSettings, SecretSettings, FrontingSettings, NetworkSettings, StatsSettings, LinesOf,
         AllPlain, Fronts, Routes,
         Rendered, SettingsIn, Block, NoBlanks, Lines, SectionAfter;
    var head := HeadSettings(inst, statsPort, quote);
    HeadIsPlain(inst, statsPort, quote);
    FrontingIsPlain(inst, quote);
    TailIsPlain(inst, statsPort);
    SecretsArePlain(inst.clients, quote);
    var a := LinesOf(head);
    var b := Part(inst.multiUser, "secrets", SecretSettings(inst.clients, quote));
    var c := Part(Fronts(inst), "domain-fronting", FrontingSettings(inst, quote));
    var d := Part(Routes(inst), "network", NetworkSettings(inst));
    var e := Part(!inst.multiUser, "stats.prometheus", StatsSettings(statsPort));
    var all := FileLines(inst, statsPort, quote);
    assert all == a + b + c + d + e;
    PlainLines(head, "", section);
    PlainLinesAreLines(head);
    PartIsRead(inst.multiUser, "secrets", SecretSettings(inst.clients, quote), SectionAfter(a, ""), section);
    PartIsRead(Fronts(inst), "domain-fronting", FrontingSettings(inst, quote), SectionAfter(a + b, ""), section);
    PartIsRead(Routes(inst), "network", NetworkSettings(inst), SectionAfter(a + b + c, ""), section);
    PartIsRead(!inst.multiUser, "stats.prometheus", StatsSettings(statsPort), SectionAfter(a + b + c + d, ""), section);
    hide Part, FileLines;
    SectionConcat(a, b, "", section);
    SectionConcat(a + b, c, "", section);
    SectionConcat(a + b + c, d, "", section);
    SectionConcat(a + b + c + d, e, "", section);
    FreeParts(a, b);
    FreeParts(a + b, c);
    FreeParts(a + b + c, d);
    FreeParts(a + b + c + d, e);
    FileIsPrinted(inst, statsPort, quote);
    SplitLines(all);
    BlankIsNoSetting(all, section);
    assert SettingsIn(a, "", section) == if section == "" then a else [];
  }

  lemma FirstOfHead(inst: Instance, statsPort: int, quote: Quote, key: string)
    ensures First(HeadSettings(inst, statsPort, quote), key)
            == if key == "api-bind-to" then (if inst.multiUser then Some(Loopback(statsPort)) else None)
               else if key == "secret" then
                 (if !inst.multiUser && inst.clients != [] then Some(quote(inst.clients[0].secret)) else None)
               else if key == "bind-to" then Some(quote(inst.BindTo()))
               else if key == "debug" then (if inst.debug then Some("true") else None)
               else if key == "proxy-protocol-listener" then (if inst.proxyProtocolListener then Some("true") else None)
               else if key == "prefer-ip" then (if inst.preferIP != "" then Some(quote(inst.preferIP)) else None)
               else None
  {
    hide When, First, Instance.BindTo, Loopback;
    var secret := if inst.clients != [] then quote(inst.clients[0].secret) else "";
    var a := When(inst.multiUser, "api-bind-to", Loopback(statsPort));
    var b := When(!inst.multiUser && inst.clients != [], "secret", secret);
    var c := When(true, "bind-to", quote(inst.BindTo()));
    var d := When(inst.debug, "debug", "true");
    var e := When(inst.proxyProtocolListener, "proxy-protocol-listener", "true");
    var f := When(inst.preferIP != "", "prefer-ip", quote(inst.preferIP));
    FirstWhen(inst.multiUser, "api-bind-to", Loopback(statsPort), key);
    FirstWhen(!inst.multiUser && inst.clients != [], "secret", secret, key);
    FirstWhen(true, "bind-to", quote(inst.BindTo()), key);
    FirstWhen(inst.debug, "debug", "true", key);
    FirstWhen(inst.proxyProtocolListener, "proxy-protocol-listener", "true", key);
    FirstWhen(inst.preferIP != "", "prefer-ip", quote(inst.preferIP), key);
    FirstConcat(a, b, key);
    FirstConcat(a + b, c, key);
    FirstConcat(a + b + c, d, key);
    FirstConcat(a + b + c + d, e, key);
    FirstConcat(a + b + c + d + e, f, key);
    assert |"api-bind-to"| == 11 && |"secret"| == 6 && |"bind-to"| == 7 && |"debug"| == 5;
    assert |"proxy-protocol-listener"| == 23 && |"prefer-ip"| == 9;
  }

  lemma FirstOfFronting(inst: Instance, quote: Quote, key: string)
    ensures First(FrontingSettings(inst, quote), key)
            == if key == "ip" then (if inst.frontingIP != "" then Some(quote(inst.frontingIP)) else None)
               else if key == "port" then (if inst.frontingPort > 0 then Some(Itoa(inst.frontingPort)) else None)
               else if key == "proxy-protocol" then (if inst.frontingProxyProtocol then Some("true") else None)
               else None
  {
    hide When, First, Itoa;
    var a, b := When(inst.frontingIP != "", "ip", quote(inst.frontingIP)),
      When(inst.frontingPort > 0, "port", Itoa(inst.frontingPort));
    var c := When(inst.frontingProxyProtocol, "proxy-protocol", "true");
    FirstWhen(inst.frontingIP != "", "ip", quote(inst.frontingIP), key);
    FirstWhen(inst.frontingPort > 0, "port", Itoa(inst.frontingPort), key);
    FirstWhen(inst.frontingProxyProtocol, "proxy-protocol", "true", key);
    FirstConcat(a, b, key);
    FirstConcat(a + b, c, key);
    assert |"ip"| == 2 && |"port"| == 4 && |"proxy-protocol"| == 14;
  }

  /** Whatever of the client's settings is set is found at its place, and what is not set is not found: where it
      listens, for whom, and its switches. */
  lemma HeadIsRead(inst: Instance, statsPort: int, quote: Quote)
    requires Quotes(quote)
    ensures var text := Rendered(inst, statsPort, quote);
            && Lookup(text, "", "bind-to")
               == Some(quote((if inst.listen == "" then "0.0.0.0" else inst.listen) + ":" + Itoa(inst.port)))
            && Lookup(text, "", "api-bind-to")
               == (if inst.multiUser then Some("\"127.0.0.1:" + Itoa(statsPort) + "\"") else None)
            && Lookup(text, "", "secret")
               == (if !inst.multiUser && inst.clients != [] then Some(quote(inst.clients[0].secret)) else None)
            && Lookup(text, "", "debug") == (if inst.debug then Some("true") else None)
            && Lookup(text, "", "proxy-protocol-listener")
               == (if inst.proxyProtocolListener then Some("true") else None)
            && Lookup(text, "", "prefer-ip") == (if inst.preferIP != "" then Some(quote(inst.preferIP)) else None)
  {
    hide Rendered, Section, HeadSettings, LinesOf, Itoa, ValueOf, First, NoBlanks;
    SectionsAreRead(inst, statsPort, quote, "");
    EmptyName();
    var ss := HeadSettings(inst, statsPort, quote);
    HeadIsPlain(inst, statsPort, quote);
    assert Section(Rendered(inst, statsPort, quote), "") == LinesOf(ss);
    HeadKey(inst, statsPort, quote, "bind-to");
    HeadKey(inst, statsPort, quote, "api-bind-to");
    HeadKey(inst, statsPort, quote, "secret");
    HeadKey(inst, statsPort, quote, "debug");
    HeadKey(inst, statsPort, quote, "proxy-protocol-listener");
    HeadKey(inst, statsPort, quote, "prefer-ip");
    HeadKeysDiffer();
  }

  lemma HeadKey(inst: Instance, statsPort: int, quote: Quote, key: string)
    requires Quotes(quote) && ' ' !in key
    ensures ValueOf(LinesOf(HeadSettings(inst, statsPort, quote)), key)
            == First(HeadSettings(inst, statsPort, quote), key)
    ensures First(HeadSettings(inst, statsPort, quote), key)
            == if key == "api-bind-to" then (if inst.multiUser then Some(Loopback(statsPort)) else None)
               else if key == "secret" then
                 (if !inst.multiUser && inst.clients != [] then Some(quote(inst.clients[0].secret)) else None)
               else if key == "bind-to" then Some(quote(inst.BindTo()))
               else if key == "debug" then (if inst.debug then Some("true") else None)
               else if key == "proxy-protocol-listener" then (if inst.proxyProtocolListener then Some("true") else None)
               else if key == "prefer-ip" then (if inst.preferIP != "" then Some(quote(inst.preferIP)) else None)
               else None
  {
    hide *;
    HeadIsPlain(inst, statsPort, quote);
    ValueIsFirst(HeadSettings(inst, statsPort, quote), key);
    FirstOfHead(inst, statsPort, quote, key);
  }

  lemma HeadKeysDiffer()
    ensures |"api-bind-to"| == 11 && |"secret"| == 6 && |"bind-to"| == 7 && |"debug"| == 5
    ensures |"proxy-protocol-listener"| == 23 && |"prefer-ip"| == 9
  {}

  lemma EmptyName()
    ensures "" != "secrets" && "" != "domain-fronting" && "" != "network" && "" != "stats.prometheus"
    ensures "secrets" != "domain-fronting" && "secrets" != "network" && "secrets" != "stats.prometheus"
    ensures "domain-fronting" != "network" && "domain-fronting" != "stats.prometheus" && "network" != "stats.prometheus"
  {
    assert |"secrets"| == |"network"| == 7 && |"domain-fronting"| == 15 && |"stats.prometheus"| == 16;
    assert "secrets"[0] != "network"[0];
  }

  /** The multi-user backend finds every client under its id with its secret, in order; the other one finds none
      there. */
  lemma SecretsAreRead(inst: Instance, statsPort: int, quote: Quote)
    requires Quotes(quote)
    ensures var ls := Section(Rendered(inst, statsPort, quote), "secrets");
            |ls| == (if inst.multiUser then |inst.clients| else 0)
            && forall i :: 0 <= i < |ls| ==> ls[i] == quote(inst.clients[i].id) + " = " + quote(inst.clients[i].secret)
  {
    hide Rendered, Section, HeadSettings, FrontingSettings, NetworkSettings, StatsSettings;
    EmptyName();
    SectionsAreRead(inst, statsPort, quote, "secrets");
  }

  /** Fronting, routing and the endpoint for statistics are found exactly when they are wanted. */
  lemma RestIsRead(inst: Instance, statsPort: int, quote: Quote)
    requires Quotes(quote)
    ensures var text := Rendered(inst, statsPort, quote);
            && Lookup(text, "domain-fronting", "ip")
               == (if inst.frontingIP != "" then Some(quote(inst.frontingIP)) else None)
            && Lookup(text, "domain-fronting", "port")
               == (if inst.frontingPort > 0 then Some(Itoa(inst.frontingPort)) else None)
            && Lookup(text, "domain-fronting", "proxy-protocol")
               == (if inst.frontingProxyProtocol then Some("true") else None)
            && Lookup(text, "network", "proxies")
               == (if inst.routeThroughXray && inst.xrayRoutePort > 0
                   then Some("[\"socks5://127.0.0.1:" + Itoa(inst.xrayRoutePort) + "\"]") else None)
            && Lookup(text, "stats.prometheus", "enabled") == (if inst.multiUser then None else Some("true"))
            && Lookup(text, "stats.prometheus", "bind-to")
               == (if inst.multiUser then None else Some("\"127.0.0.1:" + Itoa(statsPort) + "\""))
            && Lookup(text, "stats.prometheus", "http-path") == (if inst.multiUser then None else Some("\"/metrics\""))
            && Lookup(text, "stats.prometheus", "metric-prefix") == (if inst.multiUser then None else Some("\"mtg\""))
  {
    hide Rendered, Itoa, Lookup;
    FrontingIsRead(inst, statsPort, quote);
    TailIsRead(inst, statsPort, quote);
  }

  lemma FrontingIsRead(inst: Instance, statsPort: int, quote: Quote)
    requires Quotes(quote)
    ensures var text := Rendered(inst, statsPort, quote);
            && Lookup(text, "domain-fronting", "ip")
               == (if inst.frontingIP != "" then Some(quote(inst.frontingIP)) else None)
            && Lookup(text, "domain-fronting", "port")
               == (if inst.frontingPort > 0 then Some(Itoa(inst.frontingPort)) else None)
            && Lookup(text, "domain-fronting", "proxy-protocol")
               == (if inst.frontingProxyProtocol then Some("true") else None)
  {
    hide Rendered, Section, FrontingSettings, LinesOf, Itoa, First, NoBlanks;
    EmptyName();
    SectionsAreRead(inst, statsPort, quote, "domain-fronting");
    FrontingIsPlain(inst, quote);
    var ss := FrontingSettings(inst, quote);
    assert Section(Rendered(inst, statsPort, quote), "domain-fronting") == if Fronts(inst) then LinesOf(ss) else [];
    ValueIsFirst(ss, "ip");
    ValueIsFirst(ss, "port");
    ValueIsFirst(ss, "proxy-protocol");
    FirstOfFronting(inst, quote, "ip");
    FirstOfFronting(inst, quote, "port");
    FirstOfFronting(inst, quote, "proxy-protocol");
    assert |"ip"| == 2 && |"port"| == 4 && |"proxy-protocol"| == 14;
  }

  lemma TailIsRead(inst: Instance, statsPort: int, quote: Quote)
    requires Quotes(quote)
    ensures var text := Rendered(inst, statsPort, quote);
            && Lookup(text, "network", "proxies")
               == (if inst.routeThroughXray && inst.xrayRoutePort > 0
                   then Some("[\"socks5://127.0.0.1:" + Itoa(inst.xrayRoutePort) + "\"]") else None)
            && Lookup(text, "stats.prometheus", "enabled") == (if inst.multiUser then None else Some("true"))
            && Lookup(text, "stats.prometheus", "bind-to")
               == (if inst.multiUser then None else Some(Loopback(statsPort)))
            && Lookup(text, "stats.prometheus", "http-path") == (if inst.multiUser then None else Some("\"/metrics\""))
            && Lookup(text, "stats.prometheus", "metric-prefix") == (if inst.multiUser then None else Some("\"mtg\""))
  {
    hide Rendered, Section, HeadSettings, FrontingSettings, LinesOf, Itoa, Loopback, NoBlanks;
    EmptyName();
    SectionsAreRead(inst, statsPort, quote, "network");
    SectionsAreRead(inst, statsPort, quote, "stats.prometheus");
    TailIsPlain(inst, statsPort);
    assert Section(Rendered(inst, statsPort, quote), "network")
           == if Routes(inst) then LinesOf(NetworkSettings(inst)) else [];
    assert Section(Rendered(inst, statsPort, quote), "stats.prometheus")
           == if inst.multiUser then [] else LinesOf(StatsSettings(statsPort));
    ValueIsFirst(NetworkSettings(inst), "proxies");
    StatsAreFirst(statsPort);
  }

  lemma StatsAreFirst(statsPort: int)
    ensures var ls := LinesOf(StatsSettings(statsPort));
            ValueOf(ls, "enabled") == Some("true") && ValueOf(ls, "bind-to") == Some(Loopback(statsPort))
            && ValueOf(ls, "http-path") == Some("\"/metrics\"") && ValueOf(ls, "metric-prefix") == Some("\"mtg\"")
  {
    hide LinesOf, Loopback, ValueOf, AllPlain;
    TailIsPlain(PLAIN, statsPort);
    var ss := StatsSettings(statsPort);
    ValueIsFirst(ss, "enabled");
    ValueIsFirst(ss, "bind-to");
    ValueIsFirst(ss, "http-path");
    ValueIsFirst(ss, "metric-prefix");
    assert |"enabled"| == |"bind-to"| == 7 && "enabled"[0] != "bind-to"[0] && |"http-path"| == 9
           && |"metric-prefix"| == 13;
    var s1, s2, s3 := ss[1..], ss[2..], ss[3..];
    assert s1[1..] == s2 && s2[1..] == s3;
    assert First(s3, "metric-prefix") == Some(ss[3].value);
    assert First(s2, "metric-prefix") == First(s3, "metric-prefix") && First(s2, "http-path") == Some(ss[2].value);
    assert First(s1, "metric-prefix") == First(s2, "metric-prefix") && First(s1, "http-path") == First(s2, "http-path");
  }
}
