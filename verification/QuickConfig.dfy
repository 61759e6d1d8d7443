/** The server config text the panel prints, and the parser with which the userspace engine reads it back. */
module QuickConfig {
  import opened Options
  import opened Text
  import opened Tunnel
  import opened Hooks

  // ---------- the parsed form ----------

  datatype Prefix = Prefix(addr: nat, bits: nat, v6: bool)

  /** Parsing of a CIDR and of a bare address, the latter promoted to a full-length prefix. */
  datatype NetParser = NetParser(cidr: string -> Option<Prefix>, address: string -> Option<Prefix>)

  datatype Peer = Peer(publicKey: string, presharedKey: string, allowedIPs: seq<Prefix>)

  datatype Config = Config(
    privateKey: string,
    addresses: seq<Prefix>,
    listenPort: int,
    mtu: int,
    awg: map<string, string>,
    peers: seq<Peer>)

  datatype Result = Ok(config: Config) | NoPrivateKey | NoListenPort

  datatype Section = Outside | InInterface | InPeer

  datatype State = State(cfg: Config, section: Section, cur: Option<Peer>)

  const START := State(Config("", [], 0, 0, map[], []), Outside, None)

  const NO_PEER := Peer("", "", [])

  /** The obfuscation keys, lower case. */
  const AWG_KEYS: set<string> := {"jc", "jmin", "jmax", "s1", "s2", "s3", "s4", "h1", "h2", "h3", "h4", "i1"}

  // ---------- prefix lists ----------

  function EntryOf(net: NetParser, part: string): seq<Prefix> {
    var p := TrimSpace(part);
    if p == "" then []
    else
      var parsed := if '/' in p then net.cidr(p) else net.address(p);
      if parsed.Some? then [parsed.value] else []
  }

  function EntriesOf(net: NetParser, parts: seq<string>): seq<Prefix> {
    if parts == [] then [] else EntriesOf(net, parts[..|parts| - 1]) + EntryOf(net, parts[|parts| - 1])
  }

  /** The valid prefixes of a comma-separated list. */
  function Prefixes(net: NetParser, list: string): seq<Prefix> {
    EntriesOf(net, Split(list, ','))
  }

  method AppendPrefixes(net: NetParser, dst: seq<Prefix>, list: string) returns (r: seq<Prefix>)
    ensures r == dst + Prefixes(net, list)
  {
    var parts := Split(list, ',');
    r := dst;
    for i := 0 to |parts|
      invariant r == dst + EntriesOf(net, parts[..i])
    {
      assert parts[..i + 1][..i] == parts[..i];
      var p := TrimSpace(parts[i]);
      if p == "" {
        continue;
      }
      var parsed := if '/' in p then net.cidr(p) else net.address(p);
      if parsed.Some? {
        r := r + [parsed.value];
      }
    }
    assert parts[..|parts|] == parts;
  }

  lemma {:induction false} EntriesAppend(net: NetParser, a: seq<string>, b: seq<string>)
    ensures EntriesOf(net, a + b) == EntriesOf(net, a) + EntriesOf(net, b)
  {
    hide EntryOf;
    if b == [] {
      assert a + b == a;
    } else {
      assert (a + b)[..|a + b| - 1] == a + b[..|b| - 1];
      EntriesAppend(net, a, b[..|b| - 1]);
    }
  }

  lemma PrefixesHead(net: NetParser, c: char, s: string)
    requires IsSpace(c)
    ensures Prefixes(net, [c] + s) == Prefixes(net, s)
  {
    var parts := Split(s, ',');
    var wide := [c] + parts[0];
    assert wide[1..] == parts[0];
    assert TrimSpace(wide) == TrimSpace(parts[0]);
    assert ([c] + s)[1..] == s;
    assert Split([c] + s, ',') == [wide] + parts[1..];
    EntriesAppend(net, [wide], parts[1..]);
    EntriesAppend(net, [parts[0]], parts[1..]);
    assert parts == [parts[0]] + parts[1..];
    assert [wide][..0] == [] && [parts[0]][..0] == [];
  }

  lemma {:induction false} SplitLast(s: string, c: char)
    requires c != ','
    ensures var parts := Split(s, ','); var n := |parts| - 1;
            Split(s + [c], ',') == parts[..n] + [parts[n] + [c]]
  {
    if s == [] {
      assert s + [c] == [c] && [c][1..] == [];
      SplitWhole([c], ',');
      assert Split(s, ',') == [[]] && [] + [c] == [c];
    } else {
      assert (s + [c])[1..] == s[1..] + [c];
      SplitLast(s[1..], c);
      var rest, rest' := Split(s[1..], ','), Split(s[1..] + [c], ',');
      var parts, m := Split(s, ','), |rest| - 1;
      if s[0] == ',' {
        assert parts == [[]] + rest && [[]] + rest' == parts[..m + 1] + [parts[m + 1] + [c]];
      } else if m == 0 {
        assert [s[0]] + (rest[0] + [c]) == parts[0] + [c];
      } else {
        assert rest'[0] == rest[0];
      }
    }
  }

  lemma PrefixesLast(net: NetParser, s: string, c: char)
    requires IsSpace(c)
    ensures Prefixes(net, s + [c]) == Prefixes(net, s)
  {
    var parts := Split(s, ',');
    var n := |parts| - 1;
    var wide := parts[n] + [c];
    SplitLast(s, c);
    assert wide[..|wide| - 1] == parts[n];
    TrimSpaceDropLast(wide);
    var all := parts[..n] + [wide];
    assert all[..n] == parts[..n];
  }

  lemma {:induction false} PrefixesTrimLeft(net: NetParser, s: string)
    ensures Prefixes(net, TrimLeft(s)) == Prefixes(net, s)
  {
    hide Prefixes;
    if s != [] && IsSpace(s[0]) {
      PrefixesTrimLeft(net, s[1..]);
      PrefixesHead(net, s[0], s[1..]);
      assert [s[0]] + s[1..] == s;
    }
  }

  lemma {:induction false} PrefixesTrimRight(net: NetParser, s: string)
    ensures Prefixes(net, TrimRight(s)) == Prefixes(net, s)
  {
    hide Prefixes;
    if s != [] && IsSpace(s[|s| - 1]) {
      PrefixesTrimRight(net, s[..|s| - 1]);
      PrefixesLast(net, s[..|s| - 1], s[|s| - 1]);
      assert s[..|s| - 1] + [s[|s| - 1]] == s;
    }
  }

  lemma PrefixesTrim(net: NetParser, s: string)
    ensures Prefixes(net, TrimSpace(s)) == Prefixes(net, s)
  {
    PrefixesTrimLeft(net, s);
    PrefixesTrimRight(net, TrimLeft(s));
  }

  lemma PrefixesJoin(net: NetParser, a: string, b: string)
    ensures Prefixes(net, a + ", " + b) == Prefixes(net, a) + Prefixes(net, b)
  {
    assert a + ", " + b == a + [','] + ([' '] + b);
    SplitAppend(a, ',', [' '] + b);
    EntriesAppend(net, Split(a, ','), Split([' '] + b, ','));
    PrefixesHead(net, ' ', b);
  }

  // ---------- parsing ----------

  /** Lower case of a rune, exact as far as the result is compared with ASCII words: besides A to Z only
      the Kelvin sign and the dotted capital I have an ASCII lower case. */
  function LowerRune(c: char): char {
    if 'A' <= c <= 'Z' then (c as int + 32) as char
    else if c == '\U{212A}' then 'k'
    else if c == '\U{0130}' then 'i'
    else c
  }

  function Lower(s: string): (r: string)
    ensures |r| == |s| && forall i :: 0 <= i < |s| ==> r[i] == LowerRune(s[i])
  {
    if s == [] then [] else [LowerRune(s[0])] + Lower(s[1..])
  }

  predicate IsBracket(c: char) { c == '[' || c == ']' }

  function TrimBrackets(s: string): string {
    if s != [] && IsBracket(s[0]) then TrimBrackets(s[1..])
    else if s != [] && IsBracket(s[|s| - 1]) then TrimBrackets(s[..|s| - 1])
    else s
  }

  function AtoiSafe(s: string): int {
    match Atoi(TrimSpace(s))
    case Number(n) => n
    case BadSyntax => 0
    case OutOfRange(n) => n
  }

  function Flush(st: State): State {
    if st.cur.Some? then st.(cfg := st.cfg.(peers := st.cfg.peers + [st.cur.value]), cur := None) else st
  }

  function OpenSection(st: State, name: string): State {
    if name == "interface" then Flush(st).(section := InInterface)
    else if name == "peer" then Flush(st).(section := InPeer, cur := Some(NO_PEER))
    else st.(section := Outside)
  }

  function InterfaceKey(net: NetParser, cfg: Config, key: string, val: string): Config {
    if key == "privatekey" then cfg.(privateKey := val)
    else if key == "address" then cfg.(addresses := cfg.addresses + Prefixes(net, val))
    else if key == "listenport" then cfg.(listenPort := AtoiSafe(val))
    else if key == "mtu" then cfg.(mtu := AtoiSafe(val))
    else if key in AWG_KEYS then cfg.(awg := cfg.awg[key := val])
    else cfg
  }

  function PeerKey(net: NetParser, p: Peer, key: string, val: string): Peer {
    if key == "publickey" then p.(publicKey := val)
    else if key == "presharedkey" then p.(presharedKey := val)
    else if key == "allowedips" then p.(allowedIPs := p.allowedIPs + Prefixes(net, val))
    else p
  }

  function SetKey(net: NetParser, st: State, key: string, val: string): State {
    match st.section
    case Outside => st
    case InInterface => st.(cfg := InterfaceKey(net, st.cfg, key, val))
    case InPeer => st.(cur := Some(PeerKey(net, if st.cur.Some? then st.cur.value else NO_PEER, key, val)))
  }

  function Step(net: NetParser, st: State, raw: string): State {
    var line := TrimSpace(raw);
    if line == "" || line[0] == '#' then st
    else if line[0] == '[' then OpenSection(st, Lower(TrimBrackets(line)))
    else
      var eq := IndexOf(line, '=');
      if eq < 0 then st
      else SetKey(net, st, Lower(TrimSpace(line[..eq])), TrimSpace(line[eq + 1..]))
  }

  function Fold(net: NetParser, st: State, lines: seq<string>): State {
    if lines == [] then st else Step(net, Fold(net, st, lines[..|lines| - 1]), lines[|lines| - 1])
  }

  function Finish(st: State): Result {
    var cfg := Flush(st).cfg;
    if cfg.privateKey == "" then NoPrivateKey
    else if cfg.listenPort <= 0 then NoListenPort
    else Ok(if cfg.mtu <= 0 then cfg.(mtu := 1420) else cfg)
  }

  function Parsed(net: NetParser, conf: string): Result {
    Finish(Fold(net, START, Split(conf, '\n')))
  }

  method ParseQuickConfig(net: NetParser, conf: string) returns (r: Result)
    ensures r == Parsed(net, conf)
  {
    hide TrimSpace, Lower, TrimBrackets, Prefixes, InterfaceKey, PeerKey, AtoiSafe;
    var cfg, section, cur := START.cfg, Outside, None;
    var lines := Split(conf, '\n');
    for i := 0 to |lines|
      invariant State(cfg, section, cur) == Fold(net, START, lines[..i])
    {
      assert lines[..i + 1][..i] == lines[..i];
      var line := TrimSpace(lines[i]);
      if line == "" || line[0] == '#' {
        continue;
      }
      if line[0] == '[' {
        var name := Lower(TrimBrackets(line));
        if name == "interface" || name == "peer" {
          if cur.Some? {
            cfg := cfg.(peers := cfg.peers + [cur.value]);
            cur := None;
          }
          if name == "interface" {
            section := InInterface;
          } else {
            section := InPeer;
            cur := Some(NO_PEER);
          }
        } else {
          section := Outside;
        }
        continue;
      }
      var eq := IndexOf(line, '=');
      if eq < 0 {
        continue;
      }
      var key, val := Lower(TrimSpace(line[..eq])), TrimSpace(line[eq + 1..]);
      if section == InInterface {
        cfg := SetInterfaceKey(net, cfg, key, val);
      } else if section == InPeer {
        if cur.None? {
          cur := Some(NO_PEER);
        }
        var p := SetPeerKey(net, cur.value, key, val);
        cur := Some(p);
      }
    }
    assert lines[..|lines|] == lines;
    if cur.Some? {
      cfg := cfg.(peers := cfg.peers + [cur.value]);
    }
    if cfg.privateKey == "" {
      return NoPrivateKey;
    }
    if cfg.listenPort <= 0 {
      return NoListenPort;
    }
    if cfg.mtu <= 0 {
      cfg := cfg.(mtu := 1420);
    }
    return Ok(cfg);
  }

  method SetInterfaceKey(net: NetParser, cfg: Config, key: string, val: string) returns (r: Config)
    ensures r == InterfaceKey(net, cfg, key, val)
  {
    r := cfg;
    match key {
      case "privatekey" => r := cfg.(privateKey := val);
      case "address" =>
        var addresses := AppendPrefixes(net, cfg.addresses, val);
        r := cfg.(addresses := addresses);
      case "listenport" => r := cfg.(listenPort := AtoiSafe(val));
      case "mtu" => r := cfg.(mtu := AtoiSafe(val));
      case _ =>
        if key in AWG_KEYS {
          r := cfg.(awg := cfg.awg[key := val]);
        }
    }
  }

  method SetPeerKey(net: NetParser, p: Peer, key: string, val: string) returns (r: Peer)
    ensures r == PeerKey(net, p, key, val)
  {
    r := p;
    match key {
      case "publickey" => r := p.(publicKey := val);
      case "presharedkey" => r := p.(presharedKey := val);
      case "allowedips" =>
        var ips := AppendPrefixes(net, p.allowedIPs, val);
        r := p.(allowedIPs := ips);
      case _ =>
    }
  }

  // ---------- printing ----------

  function OrDefault(v: string, def: string): string { if TrimSpace(v) == "" then def else v }

  /** A setting as the generators print it. */
  datatype Entry = Entry(key: string, value: string) {
    function Line(): string { key + " = " + value }
  }

  function EntryLines(entries: seq<Entry>): (ls: seq<string>)
    ensures |ls| == |entries| && forall i :: 0 <= i < |entries| ==> ls[i] == entries[i].Line()
  {
    if entries == [] then [] else EntryLines(entries[..|entries| - 1]) + [entries[|entries| - 1].Line()]
  }

  function CoreEntries(o: Obfuscation): seq<Entry> {
    [Entry("Jc", Itoa(o.jc)), Entry("Jmin", Itoa(o.jmin)), Entry("Jmax", Itoa(o.jmax)),
     Entry("S1", Itoa(o.s1)), Entry("S2", Itoa(o.s2))]
  }

  function PaddingEntries(o: Obfuscation): seq<Entry> {
    (if o.s3 > 0 then [Entry("S3", Itoa(o.s3))] else []) + (if o.s4 > 0 then [Entry("S4", Itoa(o.s4))] else [])
  }

  function HeaderEntries(o: Obfuscation): seq<Entry> {
    [Entry("H1", OrDefault(o.h1, "1")), Entry("H2", OrDefault(o.h2, "2")),
     Entry("H3", OrDefault(o.h3, "3")), Entry("H4", OrDefault(o.h4, "4"))]
  }

  function ObfuscationEntries(o: Obfuscation): seq<Entry> {
    CoreEntries(o) + PaddingEntries(o) + HeaderEntries(o) + (if o.i1 != "" then [Entry("I1", o.i1)] else [])
  }

  function AddressText(s: Server): string {
    if s.ipv6Enabled && s.ipv6Address != "" then s.ipv4Address + ", " + s.ipv6Address else s.ipv4Address
  }

  function EffectivePostUp(s: Server, clients: seq<Client>, detected: string): string {
    if s.postUp == "" then HookText(UpCommands(s, clients, detected)) else s.postUp
  }

  function EffectivePostDown(s: Server, clients: seq<Client>, detected: string): string {
    if s.postDown == "" then HookText(DownCommands(s, clients, detected)) else s.postDown
  }

  function NetworkEntries(s: Server): seq<Entry> {
    [Entry("PrivateKey", s.privateKey), Entry("Address", AddressText(s)), Entry("ListenPort", Itoa(s.listenPort))]
    + (if s.mtu > 0 then [Entry("MTU", Itoa(s.mtu))] else [])
  }

  function HookEntries(up: string, down: string): seq<Entry> {
    (if up != "" then [Entry("PostUp", up)] else []) + (if down != "" then [Entry("PostDown", down)] else [])
  }

  function InterfaceEntries(s: Server, clients: seq<Client>, detected: string): seq<Entry> {
    NetworkEntries(s)
    + (if s.flavour.Awg? then ObfuscationEntries(s.obfuscation) else [])
    + HookEntries(EffectivePostUp(s, clients, detected), EffectivePostDown(s, clients, detected))
  }

  function PeerEntries(c: Client): seq<Entry> {
    [Entry("PublicKey", c.publicKey)]
    + (if c.presharedKey != "" then [Entry("PresharedKey", c.presharedKey)] else [])
    + [Entry("AllowedIPs", c.allowedIPs)]
  }

  function PeerLines(c: Client): seq<string> {
    ["", "[Peer]", "# " + c.name] + EntryLines(PeerEntries(c))
  }

  function AllPeerLines(clients: seq<Client>): seq<string> {
    if clients == [] then []
    else
      var c := clients[|clients| - 1];
      AllPeerLines(clients[..|clients| - 1]) + (if c.enable then PeerLines(c) else [])
  }

  function ConfigLines(s: Server, clients: seq<Client>, detected: string): seq<string> {
    ["[Interface]"] + EntryLines(InterfaceEntries(s, clients, detected)) + AllPeerLines(clients)
  }

  function ConfigText(s: Server, clients: seq<Client>, detected: string): string {
    Lines(ConfigLines(s, clients, detected))
  }

  /** Writing one line to the builder that already holds the lines done. */
  method WriteLine(b: string, line: string, ghost done: seq<string>) returns (r: string)
    requires b == Lines(done)
    ensures r == Lines(done + [line])
  {
    r := b + line + "\n";
    LinesAppend(done, [line]);
    assert Lines([line]) == line + "\n" by {
      assert [line][1..] == [];
    }
  }

  method WriteEntry(b: string, e: Entry, ghost done: seq<string>, ghost es: seq<Entry>) returns (r: string)
    requires b == Lines(done + EntryLines(es))
    ensures r == Lines(done + EntryLines(es + [e]))
  {
    hide Lines, Entry.Line;
    r := WriteLine(b, e.Line(), done + EntryLines(es));
    assert (es + [e])[..|es|] == es;
    assert done + EntryLines(es) + [e.Line()] == done + EntryLines(es + [e]);
  }

  /** Writing a setting only when it is set. */
  method WriteIf(b: string, cond: bool, e: Entry, ghost done: seq<string>, ghost es: seq<Entry>) returns (r: string)
    requires b == Lines(done + EntryLines(es))
    ensures r == Lines(done + EntryLines(es + (if cond then [e] else [])))
  {
    hide Lines, EntryLines, Entry.Line;
    r := b;
    if cond {
      r := WriteEntry(b, e, done, es);
    } else {
      assert es + [] == es;
    }
  }

  /** The part of the obfuscation block that 1.x and 2.0 servers share. */
  method WriteCore(b: string, o: Obfuscation, ghost done: seq<string>, ghost es: seq<Entry>) returns (r: string)
    requires b == Lines(done + EntryLines(es))
    ensures r == Lines(done + EntryLines(es + CoreEntries(o)))
  {
    hide Lines, EntryLines, Itoa;
    ghost var all := CoreEntries(o);
    r := WriteEntry(b, Entry("Jc", Itoa(o.jc)), done, es);
    r := WriteEntry(r, Entry("Jmin", Itoa(o.jmin)), done, es + [all[0]]);
    r := WriteEntry(r, Entry("Jmax", Itoa(o.jmax)), done, es + [all[0]] + [all[1]]);
    r := WriteEntry(r, Entry("S1", Itoa(o.s1)), done, es + [all[0]] + [all[1]] + [all[2]]);
    r := WriteEntry(r, Entry("S2", Itoa(o.s2)), done, es + [all[0]] + [all[1]] + [all[2]] + [all[3]]);
    assert es + [all[0]] + [all[1]] + [all[2]] + [all[3]] + [all[4]] == es + all;
  }

  method WriteHeaders(b: string, o: Obfuscation, ghost done: seq<string>, ghost es: seq<Entry>) returns (r: string)
    requires b == Lines(done + EntryLines(es))
    ensures r == Lines(done + EntryLines(es + HeaderEntries(o)))
  {
    hide Lines, EntryLines, OrDefault;
    ghost var all := HeaderEntries(o);
    r := WriteEntry(b, Entry("H1", OrDefault(o.h1, "1")), done, es);
    r := WriteEntry(r, Entry("H2", OrDefault(o.h2, "2")), done, es + [all[0]]);
    r := WriteEntry(r, Entry("H3", OrDefault(o.h3, "3")), done, es + [all[0]] + [all[1]]);
    r := WriteEntry(r, Entry("H4", OrDefault(o.h4, "4")), done, es + [all[0]] + [all[1]] + [all[2]]);
    assert es + [all[0]] + [all[1]] + [all[2]] + [all[3]] == es + all;
  }

  method WriteObfuscation(b: string, o: Obfuscation, ghost done: seq<string>, ghost es: seq<Entry>) returns (r: string)
    requires b == Lines(done + EntryLines(es))
    ensures r == Lines(done + EntryLines(es + ObfuscationEntries(o)))
  {
    hide Lines, EntryLines, Itoa, CoreEntries, HeaderEntries;
    r := WriteCore(b, o, done, es);
    ghost var core := es + CoreEntries(o);
    r := WriteIf(r, o.s3 > 0, Entry("S3", Itoa(o.s3)), done, core);
    ghost var e6 := core + (if o.s3 > 0 then [Entry("S3", Itoa(o.s3))] else []);
    r := WriteIf(r, o.s4 > 0, Entry("S4", Itoa(o.s4)), done, e6);
    ghost var e7 := core + PaddingEntries(o);
    assert e6 + (if o.s4 > 0 then [Entry("S4", Itoa(o.s4))] else []) == e7;
    r := WriteHeaders(r, o, done, e7);
    r := WriteIf(r, o.i1 != "", Entry("I1", o.i1), done, e7 + HeaderEntries(o));
    assert e7 + HeaderEntries(o) + (if o.i1 != "" then [Entry("I1", o.i1)] else []) == es + ObfuscationEntries(o);
  }

  method WriteNetwork(b: string, s: Server, ghost done: seq<string>) returns (r: string)
    requires b == Lines(done)
    ensures r == Lines(done + EntryLines(NetworkEntries(s)))
  {
    hide Lines, EntryLines, Itoa;
    assert done + EntryLines([]) == done;
    r := WriteEntry(b, Entry("PrivateKey", s.privateKey), done, []);
    var addresses := [s.ipv4Address];
    if s.ipv6Enabled && s.ipv6Address != "" {
      addresses := addresses + [s.ipv6Address];
    }
    assert Join(addresses, ", ") == AddressText(s) by {
      assert addresses[1..] == if s.ipv6Enabled && s.ipv6Address != "" then [s.ipv6Address] else [];
    }
    var e := Entry("Address", Join(addresses, ", "));
    r := WriteEntry(r, e, done, [] + [Entry("PrivateKey", s.privateKey)]);
    ghost var two := [] + [Entry("PrivateKey", s.privateKey)] + [e];
    r := WriteEntry(r, Entry("ListenPort", Itoa(s.listenPort)), done, two);
    ghost var three := two + [Entry("ListenPort", Itoa(s.listenPort))];
    r := WriteIf(r, s.mtu > 0, Entry("MTU", Itoa(s.mtu)), done, three);
    assert three + (if s.mtu > 0 then [Entry("MTU", Itoa(s.mtu))] else []) == NetworkEntries(s);
  }

  method WriteHooks(b: string, up: string, down: string, ghost done: seq<string>, ghost es: seq<Entry>)
    returns (r: string)
    requires b == Lines(done + EntryLines(es))
    ensures r == Lines(done + EntryLines(es + HookEntries(up, down)))
  {
    hide Lines, EntryLines;
    r := WriteIf(b, up != "", Entry("PostUp", up), done, es);
    ghost var e1 := es + (if up != "" then [Entry("PostUp", up)] else []);
    r := WriteIf(r, down != "", Entry("PostDown", down), done, e1);
    assert e1 + (if down != "" then [Entry("PostDown", down)] else []) == es + HookEntries(up, down);
  }

  method GenerateServerConfig(s: Server, clients: seq<Client>, detected: string) returns (b: string)
    ensures b == ConfigText(s, clients, detected)
  {
    hide Lines, EntryLines, ObfuscationEntries, UpCommands, DownCommands, HookText, NetworkEntries, HookEntries,
         PeerLines, AllPeerLines;
    NoLines();
    ghost var head := ["[Interface]"];
    assert [] + head == head;
    b := WriteLine("", "[Interface]", []);
    b := WriteNetwork(b, s, head);
    ghost var es := NetworkEntries(s) + (if s.flavour.Awg? then ObfuscationEntries(s.obfuscation) else []);
    if s.flavour.Awg? {
      b := WriteObfuscation(b, s.obfuscation, head, NetworkEntries(s));
    } else {
      assert es == NetworkEntries(s);
    }
    var postUp := s.postUp;
    if postUp == "" {
      postUp := GenerateDefaultPostUp(s, clients, detected);
    }
    var postDown := s.postDown;
    if postDown == "" {
      postDown := GenerateDefaultPostDown(s, clients, detected);
    }
    b := WriteHooks(b, postUp, postDown, head, es);
    assert es + HookEntries(postUp, postDown) == InterfaceEntries(s, clients, detected);
    b := WritePeers(b, clients, head + EntryLines(InterfaceEntries(s, clients, detected)));
  }

  lemma NoLines()
    ensures Lines([]) == ""
  {}

  /** The loop over the clients: one section for each enabled one. */
  method WritePeers(b: string, clients: seq<Client>, ghost done: seq<string>) returns (r: string)
    requires b == Lines(done)
    ensures r == Lines(done + AllPeerLines(clients))
  {
    hide Lines, PeerLines;
    r := b;
    assert done + [] == done;
    for i := 0 to |clients|
      invariant r == Lines(done + AllPeerLines(clients[..i]))
    {
      assert clients[..i + 1][..i] == clients[..i];
      var c := clients[i];
      ghost var out := done + AllPeerLines(clients[..i]);
      if !c.enable {
        assert AllPeerLines(clients[..i + 1]) == AllPeerLines(clients[..i]) + [] == AllPeerLines(clients[..i]);
        continue;
      }
      r := WritePeer(r, c, out);
      assert AllPeerLines(clients[..i + 1]) == AllPeerLines(clients[..i]) + PeerLines(c);
      assert out + PeerLines(c) == done + AllPeerLines(clients[..i + 1]);
    }
    assert clients[..|clients|] == clients;
  }

  method WritePeer(b: string, c: Client, ghost done: seq<string>) returns (r: string)
    requires b == Lines(done)
    ensures r == Lines(done + PeerLines(c))
  {
    hide Lines, EntryLines, Entry.Line;
    r := WriteLine(b, "", done);
    r := WriteLine(r, "[Peer]", done + [""]);
    r := WriteLine(r, "# " + c.name, done + [""] + ["[Peer]"]);
    ghost var head := done + [""] + ["[Peer]"] + ["# " + c.name];
    ghost var es: seq<Entry> := [];
    assert head + EntryLines(es) == head;
    r := WriteEntry(r, Entry("PublicKey", c.publicKey), head, es);
    es := es + [Entry("PublicKey", c.publicKey)];
    if c.presharedKey != "" {
      r := WriteEntry(r, Entry("PresharedKey", c.presharedKey), head, es);
      es := es + [Entry("PresharedKey", c.presharedKey)];
    }
    r := WriteEntry(r, Entry("AllowedIPs", c.allowedIPs), head, es);
    es := es + [Entry("AllowedIPs", c.allowedIPs)];
    assert es == PeerEntries(c);
    assert head + EntryLines(es) == done + PeerLines(c);
  }
}
