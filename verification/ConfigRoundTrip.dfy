/** Reading back a printed server config gives the server and its enabled clients. */
module ConfigRoundTrip {
  import opened Options
  import opened Text
  import opened Tunnel
  import opened Hooks
  import opened QuickConfig
  import opened HookLines

  // ---------- one printed setting ----------

  /** A key that the parser finds again: nothing to trim, no separator, not a comment or a section. */
  predicate PlainKey(k: string) {
    k != [] && Trimmed(k) && '=' !in k && k[0] != '#' && k[0] != '['
  }

  lemma TrimmedLine(k: string, v: string)
    requires PlainKey(k)
    ensures TrimSpace(k + " = " + v) == k + " =" + TrimRight([' '] + v)
  {
    var head, tail := k + " =", [' '] + v;
    assert k + " = " + v == head + tail;
    assert TrimLeft(head + tail) == head + tail;
    if TrimRight(tail) == [] {
      TrimRightBlank(head, tail);
      assert TrimRight(head) == head;
    } else {
      TrimRightSuffix(head, tail);
    }
  }

  lemma TrimmedTail(v: string)
    ensures TrimSpace(TrimRight([' '] + v)) == TrimSpace(v)
  {
    TrimAfterTrimRight([' '] + v);
    assert ([' '] + v)[1..] == v;
  }

  lemma TrimmedHead(k: string)
    requires Trimmed(k)
    ensures TrimSpace(k + " ") == k
  {
    assert (k + " ")[..|k|] == k;
    TrimSpaceDropLast(k + " ");
    TrimmedIsFixed(k);
  }

  /** Whatever its value, a printed setting is read as its key and its trimmed value. */
  lemma StepEntry(net: NetParser, st: State, e: Entry)
    requires PlainKey(e.key)
    ensures Step(net, st, e.Line()) == SetKey(net, st, Lower(e.key), TrimSpace(e.value))
  {
    hide SetKey, Lower, OpenSection, TrimSpace, TrimRight;
    var head, tail := e.key + " ", TrimRight([' '] + e.value);
    var line := TrimSpace(e.Line());
    TrimmedLine(e.key, e.value);
    assert line == head + ['='] + tail && line[0] == e.key[0];
    assert '=' !in head;
    IndexOfAt(head, '=', tail);
    assert line[..|head|] == head && line[|head| + 1..] == tail;
    TrimmedHead(e.key);
    TrimmedTail(e.value);
  }

  function Apply(net: NetParser, st: State, es: seq<Entry>): State {
    if es == [] then st
    else
      var e := es[|es| - 1];
      SetKey(net, Apply(net, st, es[..|es| - 1]), Lower(e.key), TrimSpace(e.value))
  }

  predicate PlainKeys(es: seq<Entry>) {
    forall i :: 0 <= i < |es| ==> PlainKey(es[i].key)
  }

  lemma {:induction false} FoldEntries(net: NetParser, st: State, es: seq<Entry>)
    requires PlainKeys(es)
    ensures Fold(net, st, EntryLines(es)) == Apply(net, st, es)
  {
    hide SetKey, Step, Lower, TrimSpace, PlainKey, Entry.Line;
    if es != [] {
      var front, e := es[..|es| - 1], es[|es| - 1];
      assert EntryLines(es)[..|front|] == EntryLines(front);
      FoldEntries(net, st, front);
      StepEntry(net, Apply(net, st, front), e);
    }
  }

  lemma {:induction false} FoldAppend(net: NetParser, st: State, a: seq<string>, b: seq<string>)
    ensures Fold(net, st, a + b) == Fold(net, Fold(net, st, a), b)
  {
    hide Step;
    if b == [] {
      assert a + b == a;
    } else {
      assert (a + b)[..|a + b| - 1] == a + b[..|b| - 1];
      FoldAppend(net, st, a, b[..|b| - 1]);
    }
  }

  lemma FoldOne(net: NetParser, st: State, line: string)
    ensures Fold(net, st, [line]) == Step(net, st, line)
  {
    hide Step;
    assert [line][..0] == [];
  }

  lemma BlankLine(net: NetParser, st: State)
    ensures Step(net, st, "") == st
  {}

  lemma CommentLine(net: NetParser, st: State, name: string)
    ensures Step(net, st, "# " + name) == st
  {
    var line := "# " + name;
    assert TrimLeft(line) == line;
    TrimRightKeepsHead(line);
  }

  lemma SectionLines(net: NetParser, st: State)
    ensures Step(net, st, "[Interface]") == OpenSection(st, "interface")
    ensures Step(net, st, "[Peer]") == OpenSection(st, "peer")
  {
    hide OpenSection, Lower, TrimBrackets, TrimSpace;
    TrimmedIsFixed("[Interface]");
    TrimmedIsFixed("[Peer]");
    Brackets("Interface");
    Brackets("Peer");
    assert "[" + "Interface" + "]" == "[Interface]" && "[" + "Peer" + "]" == "[Peer]";
    assert Lower("Interface") == "interface" && Lower("Peer") == "peer";
  }

  lemma Brackets(name: string)
    requires name != [] && !IsBracket(name[0]) && !IsBracket(name[|name| - 1])
    ensures TrimBrackets("[" + name + "]") == name
  {
    var s, t := "[" + name + "]", name + "]";
    assert s[1..] == t && t[..|t| - 1] == name;
    assert TrimBrackets(name) == name;
    assert TrimBrackets(t) == name;
  }

  // ---------- the interface section ----------

  function ApplyConfig(net: NetParser, cfg: Config, es: seq<Entry>): Config {
    if es == [] then cfg
    else
      var e := es[|es| - 1];
      InterfaceKey(net, ApplyConfig(net, cfg, es[..|es| - 1]), Lower(e.key), TrimSpace(e.value))
  }

  lemma {:induction false} ApplyInInterface(net: NetParser, st: State, es: seq<Entry>)
    requires st.section == InInterface
    ensures Apply(net, st, es) == st.(cfg := ApplyConfig(net, st.cfg, es))
  {
    hide InterfaceKey, Lower, TrimSpace;
    if es != [] {
      ApplyInInterface(net, st, es[..|es| - 1]);
    }
  }

  lemma {:induction false} ConfigAppend(net: NetParser, cfg: Config, a: seq<Entry>, b: seq<Entry>)
    ensures ApplyConfig(net, cfg, a + b) == ApplyConfig(net, ApplyConfig(net, cfg, a), b)
  {
    hide InterfaceKey, Lower, TrimSpace;
    if b == [] {
      assert a + b == a;
    } else {
      assert (a + b)[..|a + b| - 1] == a + b[..|b| - 1];
      ConfigAppend(net, cfg, a, b[..|b| - 1]);
    }
  }

  lemma ConfigSnoc(net: NetParser, cfg: Config, es: seq<Entry>, e: Entry)
    ensures ApplyConfig(net, cfg, es + [e])
            == InterfaceKey(net, ApplyConfig(net, cfg, es), Lower(e.key), TrimSpace(e.value))
  {
    hide InterfaceKey, Lower, TrimSpace;
    assert (es + [e])[..|es|] == es;
  }

  lemma NumberIsRead(n: int64)
    ensures TrimSpace(Itoa(n)) == Itoa(n) && AtoiSafe(Itoa(n)) == n
  {
    hide Itoa;
    ItoaRunes(n);
    TrimmedIsFixed(Itoa(n));
    AtoiItoa(n);
  }

  /** The network part of the expected config. */
  function ExpectedNetwork(net: NetParser, s: Server): Config {
    Config(TrimSpace(s.privateKey),
      Prefixes(net, s.ipv4Address)
      + (if s.ipv6Enabled && s.ipv6Address != "" then Prefixes(net, s.ipv6Address) else []),
      s.listenPort, if s.mtu > 0 then s.mtu else 0, map[], [])
  }

  lemma AddressesAreRead(net: NetParser, s: Server)
    ensures Prefixes(net, TrimSpace(AddressText(s)))
            == Prefixes(net, s.ipv4Address)
              + (if s.ipv6Enabled && s.ipv6Address != "" then Prefixes(net, s.ipv6Address) else [])
  {
    hide Prefixes, TrimSpace;
    PrefixesTrim(net, AddressText(s));
    PrefixesJoin(net, s.ipv4Address, s.ipv6Address);
  }

  lemma NetworkKeys()
    ensures Lower("PrivateKey") == "privatekey" && Lower("Address") == "address"
    ensures Lower("ListenPort") == "listenport" && Lower("MTU") == "mtu"
  {
    hide Lower;
  }

  lemma NetworkIsRead(net: NetParser, s: Server)
    ensures ApplyConfig(net, START.cfg, NetworkEntries(s)) == ExpectedNetwork(net, s)
  {
    hide Prefixes, TrimSpace, Itoa, AtoiSafe, AddressText, Lower, ApplyConfig;
    var e0, e1, e2 := Entry("PrivateKey", s.privateKey), Entry("Address", AddressText(s)),
      Entry("ListenPort", Itoa(s.listenPort));
    NetworkKeys();
    AddressesAreRead(net, s);
    NumberIsRead(s.listenPort);
    NumberIsRead(s.mtu);
    NoEntries(net, START.cfg);
    ConfigSnoc(net, START.cfg, [], e0);
    ConfigSnoc(net, START.cfg, [] + [e0], e1);
    ConfigSnoc(net, START.cfg, [] + [e0] + [e1], e2);
    var three := [] + [e0] + [e1] + [e2];
    if s.mtu > 0 {
      ConfigSnoc(net, START.cfg, three, Entry("MTU", Itoa(s.mtu)));
      assert NetworkEntries(s) == three + [Entry("MTU", Itoa(s.mtu))];
    } else {
      assert NetworkEntries(s) == three;
    }
  }

  lemma NoEntries(net: NetParser, cfg: Config)
    ensures ApplyConfig(net, cfg, []) == cfg
  {}

  /** The obfuscation map of a server: optional keys only when they are set. */
  function ExpectedAwg(o: Obfuscation): map<string, string> {
    map["jc" := Itoa(o.jc), "jmin" := Itoa(o.jmin), "jmax" := Itoa(o.jmax), "s1" := Itoa(o.s1), "s2" := Itoa(o.s2)]
    + (if o.s3 > 0 then map["s3" := Itoa(o.s3)] else map[])
    + (if o.s4 > 0 then map["s4" := Itoa(o.s4)] else map[])
    + map["h1" := TrimSpace(OrDefault(o.h1, "1")), "h2" := TrimSpace(OrDefault(o.h2, "2")),
          "h3" := TrimSpace(OrDefault(o.h3, "3")), "h4" := TrimSpace(OrDefault(o.h4, "4"))]
    + (if o.i1 != "" then map["i1" := TrimSpace(o.i1)] else map[])
  }

  /** Entries that all set obfuscation keys: the map they amount to. */
  function AwgOf(es: seq<Entry>): map<string, string> {
    if es == [] then map[] else var e := es[|es| - 1]; AwgOf(es[..|es| - 1])[Lower(e.key) := TrimSpace(e.value)]
  }

  predicate AwgKeys(es: seq<Entry>) {
    forall i :: 0 <= i < |es| ==> Lower(es[i].key) in AWG_KEYS
  }

  lemma KeysApart(key: string)
    requires key in AWG_KEYS
    ensures key != "privatekey" && key != "address" && key != "listenport" && key != "mtu"
  {
    assert |key| <= 4;
    assert key == "jmin" || key == "jmax" || |key| == 2;
  }

  lemma {:induction false} AwgEntriesAreRead(net: NetParser, cfg: Config, es: seq<Entry>)
    requires AwgKeys(es)
    ensures ApplyConfig(net, cfg, es) == cfg.(awg := cfg.awg + AwgOf(es))
  {
    hide Lower, TrimSpace, AWG_KEYS, Prefixes, AtoiSafe;
    if es != [] {
      AwgEntriesAreRead(net, cfg, es[..|es| - 1]);
      KeysApart(Lower(es[|es| - 1].key));
    }
  }

  lemma AwgSnoc(es: seq<Entry>, e: Entry)
    ensures AwgOf(es + [e]) == AwgOf(es)[Lower(e.key) := TrimSpace(e.value)]
  {
    hide Lower, TrimSpace;
    assert (es + [e])[..|es|] == es;
  }

  lemma {:induction false} AwgAppend(a: seq<Entry>, b: seq<Entry>)
    ensures AwgOf(a + b) == AwgOf(a) + AwgOf(b)
  {
    hide Lower, TrimSpace;
    if b == [] {
      assert a + b == a;
    } else {
      assert (a + b)[..|a + b| - 1] == a + b[..|b| - 1];
      AwgAppend(a, b[..|b| - 1]);
    }
  }

  lemma AwgOne(e: Entry)
    ensures AwgOf([e]) == map[Lower(e.key) := TrimSpace(e.value)]
  {
    hide Lower, TrimSpace;
    assert [e][..0] == [];
    assert AwgOf([]) == map[];
  }

  lemma AwgKeysLower()
    ensures Lower("Jc") == "jc" && Lower("Jmin") == "jmin" && Lower("Jmax") == "jmax"
    ensures Lower("S1") == "s1" && Lower("S2") == "s2" && Lower("S3") == "s3" && Lower("S4") == "s4"
    ensures Lower("H1") == "h1" && Lower("H2") == "h2" && Lower("H3") == "h3" && Lower("H4") == "h4"
            && Lower("I1") == "i1"
  {
    hide Lower;
  }

  lemma CoreIsRead(o: Obfuscation)
    ensures AwgKeys(CoreEntries(o))
    ensures AwgOf(CoreEntries(o)) == map["jc" := Itoa(o.jc), "jmin" := Itoa(o.jmin), "jmax" := Itoa(o.jmax),
                                         "s1" := Itoa(o.s1), "s2" := Itoa(o.s2)]
  {
    hide Lower, TrimSpace, Itoa, AwgOf, AtoiSafe;
    var e0, e1, e2 := Entry("Jc", Itoa(o.jc)), Entry("Jmin", Itoa(o.jmin)), Entry("Jmax", Itoa(o.jmax));
    var e3, e4 := Entry("S1", Itoa(o.s1)), Entry("S2", Itoa(o.s2));
    AwgKeysLower();
    NumberIsRead(o.jc);
    NumberIsRead(o.jmin);
    NumberIsRead(o.jmax);
    NumberIsRead(o.s1);
    NumberIsRead(o.s2);
    AwgOne(e0);
    AwgSnoc([e0], e1);
    AwgSnoc([e0] + [e1], e2);
    AwgSnoc([e0] + [e1] + [e2], e3);
    AwgSnoc([e0] + [e1] + [e2] + [e3], e4);
    assert CoreEntries(o) == [e0] + [e1] + [e2] + [e3] + [e4];
  }

  lemma HeadersAreRead(o: Obfuscation)
    ensures AwgKeys(HeaderEntries(o))
    ensures AwgOf(HeaderEntries(o))
            == map["h1" := TrimSpace(OrDefault(o.h1, "1")), "h2" := TrimSpace(OrDefault(o.h2, "2")),
                   "h3" := TrimSpace(OrDefault(o.h3, "3")), "h4" := TrimSpace(OrDefault(o.h4, "4"))]
  {
    hide Lower, TrimSpace, OrDefault, AwgOf;
    var e0, e1 := Entry("H1", OrDefault(o.h1, "1")), Entry("H2", OrDefault(o.h2, "2"));
    var e2, e3 := Entry("H3", OrDefault(o.h3, "3")), Entry("H4", OrDefault(o.h4, "4"));
    AwgKeysLower();
    AwgOne(e0);
    AwgSnoc([e0], e1);
    AwgSnoc([e0] + [e1], e2);
    AwgSnoc([e0] + [e1] + [e2], e3);
    assert HeaderEntries(o) == [e0] + [e1] + [e2] + [e3];
  }

  lemma PaddingIsRead(o: Obfuscation)
    ensures AwgKeys(PaddingEntries(o))
    ensures AwgOf(PaddingEntries(o)) == (if o.s3 > 0 then map["s3" := Itoa(o.s3)] else map[])
                                      + (if o.s4 > 0 then map["s4" := Itoa(o.s4)] else map[])
  {
    hide Lower, TrimSpace, Itoa, AtoiSafe;
    AwgKeysLower();
    NumberIsRead(o.s3);
    NumberIsRead(o.s4);
    var a := if o.s3 > 0 then [Entry("S3", Itoa(o.s3))] else [];
    var b := if o.s4 > 0 then [Entry("S4", Itoa(o.s4))] else [];
    AwgAppend(a, b);
    AwgOne(Entry("S3", Itoa(o.s3)));
    AwgOne(Entry("S4", Itoa(o.s4)));
    assert PaddingEntries(o) == a + b;
  }

  lemma SignatureIsRead(o: Obfuscation)
    ensures var es := if o.i1 != "" then [Entry("I1", o.i1)] else [];
            AwgKeys(es) && AwgOf(es) == if o.i1 != "" then map["i1" := TrimSpace(o.i1)] else map[]
  {
    hide Lower, TrimSpace;
    AwgKeysLower();
    AwgOne(Entry("I1", o.i1));
  }

  lemma KeysTogether(a: seq<Entry>, b: seq<Entry>)
    requires AwgKeys(a) && AwgKeys(b)
    ensures AwgKeys(a + b)
  {
    hide Lower, AWG_KEYS;
  }

  lemma ObfuscationIsRead(net: NetParser, cfg: Config, o: Obfuscation)
    ensures ApplyConfig(net, cfg, ObfuscationEntries(o)) == cfg.(awg := cfg.awg + ExpectedAwg(o))
  {
    hide Lower, TrimSpace, Itoa, OrDefault, AwgOf, CoreEntries, PaddingEntries, HeaderEntries, AwgKeys, ApplyConfig;
    var a, b, c := CoreEntries(o), PaddingEntries(o), HeaderEntries(o);
    var d := if o.i1 != "" then [Entry("I1", o.i1)] else [];
    CoreIsRead(o);
    PaddingIsRead(o);
    HeadersAreRead(o);
    SignatureIsRead(o);
    AwgAppend(a, b);
    AwgAppend(a + b, c);
    AwgAppend(a + b + c, d);
    KeysTogether(a, b);
    KeysTogether(a + b, c);
    KeysTogether(a + b + c, d);
    MapTogether(AwgOf(a), if o.s3 > 0 then map["s3" := Itoa(o.s3)] else map[],
                if o.s4 > 0 then map["s4" := Itoa(o.s4)] else map[]);
    AwgEntriesAreRead(net, cfg, ObfuscationEntries(o));
  }

  lemma MapTogether(a: map<string, string>, b: map<string, string>, c: map<string, string>)
    ensures a + (b + c) == a + b + c
  {}

  lemma HookKeys()
    ensures Lower("PostUp") == "postup" && Lower("PostDown") == "postdown"
    ensures "postup" !in AWG_KEYS && "postdown" !in AWG_KEYS
  {
    hide Lower;
    assert |"postup"| == 6 && |"postdown"| == 8;
    assert forall k :: k in AWG_KEYS ==> |k| <= 4;
  }

  lemma HookIsIgnored(net: NetParser, cfg: Config, key: string, val: string)
    requires key == "postup" || key == "postdown"
    ensures InterfaceKey(net, cfg, key, val) == cfg
  {
    hide Lower, Prefixes, AtoiSafe, AWG_KEYS;
    HookKeys();
    assert |"address"| == 7 && |"privatekey"| == |"listenport"| == 10 && |"mtu"| == 3;
    assert |"postup"| == 6 && |"postdown"| == 8;
  }

  /** The hooks are settings of the kernel tools: the engine ignores them whatever they hold. */
  lemma HooksAreIgnored(net: NetParser, cfg: Config, up: string, down: string)
    ensures ApplyConfig(net, cfg, HookEntries(up, down)) == cfg
  {
    hide TrimSpace, InterfaceKey, ApplyConfig, Lower;
    HookKeys();
    NoEntries(net, cfg);
    HookIsIgnored(net, cfg, "postup", TrimSpace(up));
    HookIsIgnored(net, cfg, "postdown", TrimSpace(down));
    var a := if up != "" then [Entry("PostUp", up)] else [];
    ConfigSnoc(net, cfg, [], Entry("PostUp", up));
    assert [] + [Entry("PostUp", up)] == [Entry("PostUp", up)];
    ConfigSnoc(net, cfg, a, Entry("PostDown", down));
    assert HookEntries(up, down) == if down != "" then a + [Entry("PostDown", down)] else a;
  }

  function ExpectedInterface(net: NetParser, s: Server): Config {
    ExpectedNetwork(net, s).(awg := if s.flavour.Awg? then ExpectedAwg(s.obfuscation) else map[])
  }

  lemma InterfaceIsRead(net: NetParser, s: Server, clients: seq<Client>, detected: string)
    ensures ApplyConfig(net, START.cfg, InterfaceEntries(s, clients, detected)) == ExpectedInterface(net, s)
  {
    hide ApplyConfig, NetworkEntries, ObfuscationEntries, HookEntries, EffectivePostUp, EffectivePostDown,
         ExpectedAwg, Prefixes, TrimSpace;
    var up, down := EffectivePostUp(s, clients, detected), EffectivePostDown(s, clients, detected);
    var obf := if s.flavour.Awg? then ObfuscationEntries(s.obfuscation) else [];
    NetworkIsRead(net, s);
    ConfigAppend(net, START.cfg, NetworkEntries(s), obf);
    NoEntries(net, ExpectedNetwork(net, s));
    ObfuscationIsRead(net, ExpectedNetwork(net, s), s.obfuscation);
    assert map[] + ExpectedAwg(s.obfuscation) == ExpectedAwg(s.obfuscation);
    ConfigAppend(net, START.cfg, NetworkEntries(s) + obf, HookEntries(up, down));
    HooksAreIgnored(net, ExpectedInterface(net, s), up, down);
  }

  lemma NetworkKeysArePlain()
    ensures PlainKey("PrivateKey") && PlainKey("Address") && PlainKey("ListenPort") && PlainKey("MTU")
    ensures PlainKey("PostUp") && PlainKey("PostDown")
  {
    hide TrimSpace;
  }

  lemma AwgKeysArePlain()
    ensures PlainKey("Jc") && PlainKey("Jmin") && PlainKey("Jmax")
    ensures PlainKey("S1") && PlainKey("S2") && PlainKey("S3") && PlainKey("S4")
    ensures PlainKey("H1") && PlainKey("H2") && PlainKey("H3") && PlainKey("H4") && PlainKey("I1")
  {
    hide TrimSpace;
  }

  lemma PlainTogether(a: seq<Entry>, b: seq<Entry>)
    requires PlainKeys(a) && PlainKeys(b)
    ensures PlainKeys(a + b)
  {
    hide PlainKey;
  }

  lemma InterfaceKeysArePlain(s: Server, clients: seq<Client>, detected: string)
    ensures PlainKeys(InterfaceEntries(s, clients, detected))
  {
    hide Itoa, TrimSpace, EffectivePostUp, EffectivePostDown, AddressText, OrDefault, PlainKey;
    var up, down := EffectivePostUp(s, clients, detected), EffectivePostDown(s, clients, detected);
    NetworkKeysArePlain();
    AwgKeysArePlain();
    ObfuscationKeysArePlain(s.obfuscation);
    var obf := if s.flavour.Awg? then ObfuscationEntries(s.obfuscation) else [];
    PlainTogether(NetworkEntries(s), obf);
    PlainTogether(NetworkEntries(s) + obf, HookEntries(up, down));
  }

  lemma ObfuscationKeysArePlain(o: Obfuscation)
    ensures PlainKeys(ObfuscationEntries(o))
  {
    hide Itoa, TrimSpace, OrDefault, PlainKey;
    AwgKeysArePlain();
    PlainTogether(CoreEntries(o), PaddingEntries(o));
    PlainTogether(CoreEntries(o) + PaddingEntries(o), HeaderEntries(o));
    PlainTogether(CoreEntries(o) + PaddingEntries(o) + HeaderEntries(o),
                  if o.i1 != "" then [Entry("I1", o.i1)] else []);
  }

  // ---------- the peers ----------

  /** The peer a client is expected to become. */
  function ExpectedPeer(net: NetParser, c: Client): Peer {
    Peer(TrimSpace(c.publicKey), TrimSpace(c.presharedKey), Prefixes(net, c.allowedIPs))
  }

  /** One peer for every enabled client, in the order of the clients. */
  function ExpectedPeers(net: NetParser, clients: seq<Client>): seq<Peer> {
    if clients == [] then []
    else
      var c := clients[|clients| - 1];
      ExpectedPeers(net, clients[..|clients| - 1]) + (if c.enable then [ExpectedPeer(net, c)] else [])
  }

  lemma ApplySnoc(net: NetParser, st: State, es: seq<Entry>, e: Entry)
    ensures Apply(net, st, es + [e]) == SetKey(net, Apply(net, st, es), Lower(e.key), TrimSpace(e.value))
  {
    hide SetKey, Lower, TrimSpace;
    assert (es + [e])[..|es|] == es;
  }

  lemma PeerKeys()
    ensures Lower("PublicKey") == "publickey" && Lower("PresharedKey") == "presharedkey"
            && Lower("AllowedIPs") == "allowedips"
  {
    hide Lower;
  }

  lemma PeerKeysArePlain()
    ensures PlainKey("PublicKey") && PlainKey("PresharedKey") && PlainKey("AllowedIPs")
  {
    hide TrimSpace;
  }

  lemma PeerEntriesAreRead(net: NetParser, st: State, c: Client)
    requires st.section == InPeer && st.cur == Some(NO_PEER)
    ensures PlainKeys(PeerEntries(c))
    ensures Apply(net, st, PeerEntries(c)) == st.(cur := Some(ExpectedPeer(net, c)))
  {
    hide Lower, TrimSpace, Prefixes, Apply, PlainKey;
    PeerKeys();
    PeerKeysArePlain();
    PrefixesTrim(net, c.allowedIPs);
    NothingToApply(net, st);
    assert |"publickey"| == 9 && |"presharedkey"| == 12 && |"allowedips"| == 10;
    var e0, last := [] + [Entry("PublicKey", c.publicKey)], Entry("AllowedIPs", c.allowedIPs);
    ApplySnoc(net, st, [], Entry("PublicKey", c.publicKey));
    var p0 := Peer(TrimSpace(c.publicKey), "", []);
    assert Apply(net, st, e0) == st.(cur := Some(p0));
    if c.presharedKey != "" {
      var e1 := e0 + [Entry("PresharedKey", c.presharedKey)];
      ApplySnoc(net, st, e0, Entry("PresharedKey", c.presharedKey));
      assert Apply(net, st, e1) == st.(cur := Some(p0.(presharedKey := TrimSpace(c.presharedKey))));
      ApplySnoc(net, st, e1, last);
      assert PeerEntries(c) == e1 + [last];
      assert [] + Prefixes(net, c.allowedIPs) == Prefixes(net, c.allowedIPs);
    } else {
      assert TrimSpace("") == "" by { TrimmedIsFixed(""); }
      ApplySnoc(net, st, e0, last);
      assert PeerEntries(c) == e0 + [last];
    }
  }

  lemma NothingToApply(net: NetParser, st: State)
    ensures Apply(net, st, []) == st
  {}

  lemma PeerIsRead(net: NetParser, st: State, c: Client)
    ensures Fold(net, st, PeerLines(c)) == State(Flush(st).cfg, InPeer, Some(ExpectedPeer(net, c)))
  {
    hide Step, PeerEntries, Fold, ExpectedPeer;
    var head := [""] + ["[Peer]"] + ["# " + c.name];
    assert PeerLines(c) == head + EntryLines(PeerEntries(c));
    FoldAppend(net, st, head, EntryLines(PeerEntries(c)));
    FoldAppend(net, st, [""] + ["[Peer]"], ["# " + c.name]);
    FoldAppend(net, st, [""], ["[Peer]"]);
    FoldOne(net, st, "");
    BlankLine(net, st);
    FoldOne(net, st, "[Peer]");
    SectionLines(net, st);
    var open := OpenSection(st, "peer");
    FoldOne(net, open, "# " + c.name);
    CommentLine(net, open, c.name);
    PeerEntriesAreRead(net, open, c);
    FoldEntries(net, open, PeerEntries(c));
  }

  lemma {:induction false} PeersAreRead(net: NetParser, st: State, clients: seq<Client>)
    ensures Flush(Fold(net, st, AllPeerLines(clients))).cfg
            == Flush(st).cfg.(peers := Flush(st).cfg.peers + ExpectedPeers(net, clients))
  {
    hide PeerLines, Step, ExpectedPeer;
    if clients != [] {
      var front, c := clients[..|clients| - 1], clients[|clients| - 1];
      PeersAreRead(net, st, front);
      FoldAppend(net, st, AllPeerLines(front), if c.enable then PeerLines(c) else []);
      PeerIsRead(net, Fold(net, st, AllPeerLines(front)), c);
    }
  }

  // ---------- the lines and the text ----------

  lemma EntriesAreOneLine(es: seq<Entry>)
    requires forall i :: 0 <= i < |es| ==> OneLine(es[i].Line())
    ensures Free(EntryLines(es), '\n')
  {
    hide EntryLines, Entry.Line;
    var ls := EntryLines(es);
    forall p | p in ls ensures OneLine(p) {
      var i :| 0 <= i < |ls| && ls[i] == p;
    }
  }

  lemma NumberLine(key: string, n: int)
    requires OneLine(key)
    ensures OneLine(Entry(key, Itoa(n)).Line())
  {
    hide Itoa;
    NumbersAreOneLine(n);
  }

  lemma TextLine(key: string, value: string)
    requires OneLine(key) && OneLine(value)
    ensures OneLine(Entry(key, value).Line())
  {}

  predicate OneLineEntries(es: seq<Entry>) {
    forall i :: 0 <= i < |es| ==> OneLine(es[i].Line())
  }

  lemma NetworkIsOneLine(s: Server)
    requires OneLineServer(s)
    ensures OneLineEntries(NetworkEntries(s))
  {
    hide Itoa, Entry.Line;
    assert OneLine("PrivateKey") && OneLine("Address") && OneLine("ListenPort") && OneLine("MTU");
    NumberLine("ListenPort", s.listenPort);
    NumberLine("MTU", s.mtu);
    TextLine("PrivateKey", s.privateKey);
    TextLine("Address", AddressText(s));
  }

  lemma CoreIsOneLine(o: Obfuscation)
    ensures OneLineEntries(CoreEntries(o)) && OneLineEntries(PaddingEntries(o))
  {
    hide Itoa, Entry.Line;
    assert OneLine("Jc") && OneLine("Jmin") && OneLine("Jmax") && OneLine("S1") && OneLine("S2")
           && OneLine("S3") && OneLine("S4");
    NumberLine("Jc", o.jc);
    NumberLine("Jmin", o.jmin);
    NumberLine("Jmax", o.jmax);
    NumberLine("S1", o.s1);
    NumberLine("S2", o.s2);
    NumberLine("S3", o.s3);
    NumberLine("S4", o.s4);
  }

  lemma ObfuscationIsOneLine(o: Obfuscation)
    requires OneLine(o.h1) && OneLine(o.h2) && OneLine(o.h3) && OneLine(o.h4) && OneLine(o.i1)
    ensures OneLineEntries(ObfuscationEntries(o))
  {
    hide Entry.Line, CoreEntries, PaddingEntries, TrimSpace;
    CoreIsOneLine(o);
    assert OneLine("1") && OneLine("2") && OneLine("3") && OneLine("4");
    assert OneLine("H1") && OneLine("H2") && OneLine("H3") && OneLine("H4") && OneLine("I1");
    TextLine("H1", OrDefault(o.h1, "1"));
    TextLine("H2", OrDefault(o.h2, "2"));
    TextLine("H3", OrDefault(o.h3, "3"));
    TextLine("H4", OrDefault(o.h4, "4"));
    TextLine("I1", o.i1);
  }

  lemma InterfaceIsOneLine(s: Server, clients: seq<Client>, detected: string)
    requires OneLineServer(s) && OneLineClients(clients) && OneLine(detected)
    ensures OneLineEntries(InterfaceEntries(s, clients, detected))
  {
    hide Entry.Line, NetworkEntries, ObfuscationEntries, UpCommands, DownCommands, HookText;
    HooksAreOneLine(s, clients, detected);
    NetworkIsOneLine(s);
    ObfuscationIsOneLine(s.obfuscation);
    assert OneLine("PostUp") && OneLine("PostDown");
    TextLine("PostUp", EffectivePostUp(s, clients, detected));
    TextLine("PostDown", EffectivePostDown(s, clients, detected));
  }

  lemma FreeConcat(a: seq<string>, b: seq<string>)
    requires Free(a, '\n') && Free(b, '\n')
    ensures Free(a + b, '\n')
  {}

  lemma PeerIsOneLine(c: Client)
    requires OneLineClient(c)
    ensures Free(PeerLines(c), '\n')
  {
    hide EntryLines, Entry.Line;
    assert OneLine("PublicKey") && OneLine("PresharedKey") && OneLine("AllowedIPs")
           && OneLine("# ") && OneLine("[Peer]");
    TextLine("PublicKey", c.publicKey);
    TextLine("PresharedKey", c.presharedKey);
    TextLine("AllowedIPs", c.allowedIPs);
    EntriesAreOneLine(PeerEntries(c));
    FreeConcat(["", "[Peer]", "# " + c.name], EntryLines(PeerEntries(c)));
  }

  lemma {:induction false} PeersAreOneLine(clients: seq<Client>)
    requires OneLineClients(clients)
    ensures Free(AllPeerLines(clients), '\n')
  {
    hide PeerLines;
    if clients != [] {
      var c := clients[|clients| - 1];
      PeersAreOneLine(clients[..|clients| - 1]);
      if c.enable {
        PeerIsOneLine(c);
        FreeConcat(AllPeerLines(clients[..|clients| - 1]), PeerLines(c));
      }
    }
  }

  lemma LinesAreOneLine(s: Server, clients: seq<Client>, detected: string)
    requires OneLineServer(s) && OneLineClients(clients) && OneLine(detected)
    ensures Free(ConfigLines(s, clients, detected), '\n')
  {
    hide EntryLines, InterfaceEntries, AllPeerLines, Free;
    InterfaceIsOneLine(s, clients, detected);
    EntriesAreOneLine(InterfaceEntries(s, clients, detected));
    PeersAreOneLine(clients);
    assert Free(["[Interface]"], '\n') by { HeadIsOneLine(); }
    FreeConcat(["[Interface]"], EntryLines(InterfaceEntries(s, clients, detected)));
    FreeConcat(["[Interface]"] + EntryLines(InterfaceEntries(s, clients, detected)), AllPeerLines(clients));
  }

  lemma HeadIsOneLine()
    ensures Free(["[Interface]"], '\n')
  {}

  // ---------- the round trip ----------

  /** What the parser has read after the last line. */
  lemma LinesAreRead(net: NetParser, s: Server, clients: seq<Client>, detected: string)
    ensures Flush(Fold(net, START, ConfigLines(s, clients, detected))).cfg
            == ExpectedInterface(net, s).(peers := ExpectedPeers(net, clients))
  {
    hide Fold, InterfaceEntries, AllPeerLines, ExpectedNetwork, ExpectedPeers, Apply, EntryLines,
         ExpectedAwg, PlainKeys, Step;
    var es, head := InterfaceEntries(s, clients, detected), ["[Interface]"];
    FoldAppend(net, START, head + EntryLines(es), AllPeerLines(clients));
    FoldAppend(net, START, head, EntryLines(es));
    FoldOne(net, START, "[Interface]");
    SectionLines(net, START);
    var open := State(START.cfg, InInterface, None);
    InterfaceKeysArePlain(s, clients, detected);
    FoldEntries(net, open, es);
    ApplyInInterface(net, open, es);
    InterfaceIsRead(net, s, clients, detected);
    var read := State(ExpectedInterface(net, s), InInterface, None);
    PeersAreRead(net, read, clients);
    assert ExpectedInterface(net, s).peers == [] by { NoPeersYet(net, s); }
    assert [] + ExpectedPeers(net, clients) == ExpectedPeers(net, clients);
  }

  lemma NoPeersYet(net: NetParser, s: Server)
    ensures ExpectedInterface(net, s).peers == []
  {}

  /** The config a server and its clients should become. */
  function Expected(net: NetParser, s: Server, clients: seq<Client>): Config {
    Config(
      TrimSpace(s.privateKey),
      Prefixes(net, s.ipv4Address)
      + (if s.ipv6Enabled && s.ipv6Address != "" then Prefixes(net, s.ipv6Address) else []),
      s.listenPort,
      if s.mtu > 0 then s.mtu else 1420,
      if s.flavour.Awg? then ExpectedAwg(s.obfuscation) else map[],
      ExpectedPeers(net, clients))
  }

  /** Parsing a generated config: the key, port, MTU, addresses and obfuscation parameters of the server and
      one peer for every enabled client in order, whatever `=`, `#` or brackets the values and hooks hold; and
      the two errors exactly when the key is blank or the port not positive. */
  lemma RoundTrip(net: NetParser, s: Server, clients: seq<Client>, detected: string)
    requires OneLineServer(s) && OneLineClients(clients) && OneLine(detected)
    ensures Parsed(net, ConfigText(s, clients, detected))
            == if TrimSpace(s.privateKey) == "" then NoPrivateKey
               else if s.listenPort <= 0 then NoListenPort
               else Ok(Expected(net, s, clients))
  {
    hide Fold, ConfigLines, TrimSpace, Prefixes, ExpectedAwg, ExpectedPeers, Lines, Step;
    var ls := ConfigLines(s, clients, detected);
    LinesAreOneLine(s, clients, detected);
    SplitLines(ls);
    FoldAppend(net, START, ls, [[]]);
    FoldOne(net, Fold(net, START, ls), []);
    BlankLine(net, Fold(net, START, ls));
    LinesAreRead(net, s, clients, detected);
  }

  /** The enabled clients as peers, their fields as stored. */
  function StoredPeers(net: NetParser, clients: seq<Client>): seq<Peer> {
    if clients == [] then []
    else
      var c := clients[|clients| - 1];
      StoredPeers(net, clients[..|clients| - 1])
      + (if c.enable then [Peer(c.publicKey, c.presharedKey, Prefixes(net, c.allowedIPs))] else [])
  }

  /** Fields with nothing to trim come back exactly as stored. */
  lemma {:induction false} TrimmedFieldsComeBack(net: NetParser, clients: seq<Client>)
    requires forall i :: 0 <= i < |clients| ==> Trimmed(clients[i].publicKey) && Trimmed(clients[i].presharedKey)
    ensures ExpectedPeers(net, clients) == StoredPeers(net, clients)
  {
    hide TrimSpace, Prefixes;
    if clients != [] {
      var c := clients[|clients| - 1];
      TrimmedFieldsComeBack(net, clients[..|clients| - 1]);
      TrimmedIsFixed(c.publicKey);
      TrimmedIsFixed(c.presharedKey);
    }
  }
}
