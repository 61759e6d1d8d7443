/** The desired configuration of one MTProto sidecar, its fingerprint and its rendered text. */
module MtprotoConfig {
  import opened Text

  datatype ClientSecret = ClientSecret(id: string, secret: string, email: string)

  datatype Instance = Instance(
    id: int,
    tag: string,
    listen: string,
    port: int64,
    multiUser: bool,
    clients: seq<ClientSecret>,
    debug: bool,
    proxyProtocolListener: bool,
    preferIP: string,
    frontingIP: string,
    frontingPort: int64,
    frontingProxyProtocol: bool,
    routeThroughXray: bool,
    xrayRoutePort: int64)
  {
    function BindTo(): string {
      (if listen == "" then "0.0.0.0" else listen) + ":" + Itoa(port)
    }

    /** Those the backend will serve: all for the multi-user backend, only the first otherwise. */
    function ActiveClients(): seq<ClientSecret> {
      if multiUser || |clients| <= 1 then clients else clients[..1]
    }
  }

  // ---------- fingerprint ----------

  function ClientText(c: ClientSecret): string { c.id + "=" + c.secret + "=" + c.email }

  function ClientTexts(cs: seq<ClientSecret>): (ts: seq<string>)
    ensures |ts| == |cs| && forall i :: 0 <= i < |cs| ==> ts[i] == ClientText(cs[i])
  {
    if cs == [] then [] else ClientTexts(cs[..|cs| - 1]) + [ClientText(cs[|cs| - 1])]
  }

  function SettingTexts(inst: Instance): seq<string> {
    [inst.BindTo(), BoolText(inst.multiUser), BoolText(inst.debug), BoolText(inst.proxyProtocolListener),
     inst.preferIP, inst.frontingIP, Itoa(inst.frontingPort), BoolText(inst.frontingProxyProtocol),
     BoolText(inst.routeThroughXray), Itoa(inst.xrayRoutePort)]
  }

  function Fingerprint(inst: Instance): string {
    Join(SettingTexts(inst) + ClientTexts(inst.ActiveClients()), "|")
  }

  method ComputeFingerprint(inst: Instance) returns (fp: string)
    ensures fp == Fingerprint(inst)
  {
    hide Itoa, ClientText;
    var parts := SettingTexts(inst);
    var active := inst.ActiveClients();
    assert parts + [] == parts;
    for i := 0 to |active|
      invariant parts == SettingTexts(inst) + ClientTexts(active[..i])
    {
      assert active[..i + 1][..i] == active[..i];
      parts := parts + [ClientText(active[i])];
    }
    assert active[..|active|] == active;
    fp := Join(parts, "|");
  }

  // ---------- rendering ----------

  /** quote is Go's %q: a double-quoted string with escapes. */
  type Quote = string -> string

  function LineOf(key: string, value: string): string { key + " = " + value + "\n" }

  function LineIf(cond: bool, key: string, value: string): string { if cond then LineOf(key, value) else "" }

  function Loopback(port: int): string { "\"127.0.0.1:" + Itoa(port) + "\"" }

  function HeadText(inst: Instance, statsPort: int, quote: Quote): string {
    (if inst.multiUser then LineOf("api-bind-to", Loopback(statsPort))
     else if inst.ActiveClients() != [] then LineOf("secret", quote(inst.ActiveClients()[0].secret)) else "")
    + LineOf("bind-to", quote(inst.BindTo()))
    + LineIf(inst.debug, "debug", "true")
    + LineIf(inst.proxyProtocolListener, "proxy-protocol-listener", "true")
    + LineIf(inst.preferIP != "", "prefer-ip", quote(inst.preferIP))
  }

  function SecretLine(c: ClientSecret, quote: Quote): string { LineOf(quote(c.id), quote(c.secret)) }

  function SecretLines(cs: seq<ClientSecret>, quote: Quote): string {
    if cs == [] then "" else SecretLines(cs[..|cs| - 1], quote) + SecretLine(cs[|cs| - 1], quote)
  }

  function SecretsText(inst: Instance, quote: Quote): string {
    if inst.multiUser then "\n[secrets]\n" + SecretLines(inst.ActiveClients(), quote) else ""
  }

  function FrontingText(inst: Instance, quote: Quote): string {
    if inst.frontingIP != "" || inst.frontingPort > 0 || inst.frontingProxyProtocol then
      "\n[domain-fronting]\n"
      + LineIf(inst.frontingIP != "", "ip", quote(inst.frontingIP))
      + LineIf(inst.frontingPort > 0, "port", Itoa(inst.frontingPort))
      + LineIf(inst.frontingProxyProtocol, "proxy-protocol", "true")
    else ""
  }

  function TailText(inst: Instance, statsPort: int): string {
    (if inst.routeThroughXray && inst.xrayRoutePort > 0
     then "\n[network]\n" + LineOf("proxies", "[\"socks5://127.0.0.1:" + Itoa(inst.xrayRoutePort) + "\"]") else "")
    + (if !inst.multiUser
       then "\n[stats.prometheus]\n" + LineOf("enabled", "true") + LineOf("bind-to", Loopback(statsPort))
            + LineOf("http-path", "\"/metrics\"") + LineOf("metric-prefix", "\"mtg\"")
       else "")
  }

  /** The sidecar's TOML: top-level keys, then [secrets], [domain-fronting], [network] and the stats section. */
  function Rendered(inst: Instance, statsPort: int, quote: Quote): string {
    HeadText(inst, statsPort, quote) + SecretsText(inst, quote) + FrontingText(inst, quote) + TailText(inst, statsPort)
  }

  method RenderConfig(inst: Instance, statsPort: int, quote: Quote) returns (b: string)
    ensures b == Rendered(inst, statsPort, quote)
  {
    hide HeadText, FrontingText, TailText, SecretLine;
    b := HeadText(inst, statsPort, quote);
    if inst.multiUser {
      var clients := inst.ActiveClients();
      var lines := "";
      for i := 0 to |clients|
        invariant lines == SecretLines(clients[..i], quote)
      {
        assert clients[..i + 1][..i] == clients[..i];
        lines := lines + SecretLine(clients[i], quote);
      }
      assert clients[..|clients|] == clients;
      b := b + ("\n[secrets]\n" + lines);
    } else {
      assert b + "" == b;
    }
    b := b + FrontingText(inst, quote) + TailText(inst, statsPort);
  }

  // ---------- soundness ----------

  /** The characters that separate the parts of a fingerprint occur in none of them. */
  predicate CleanClient(c: ClientSecret) {
    '|' !in c.id && '|' !in c.secret && '|' !in c.email && '=' !in c.id && '=' !in c.secret
  }

  predicate Clean(inst: Instance) {
    '|' !in inst.listen && '|' !in inst.preferIP && '|' !in inst.frontingIP
    && forall i :: 0 <= i < |inst.clients| ==> CleanClient(inst.clients[i])
  }

  /** Two instances that differ at most in their id, their tag and inactive clients. */
  predicate SameConfig(a: Instance, b: Instance) {
    a.BindTo() == b.BindTo() && a.multiUser == b.multiUser && a.debug == b.debug
    && a.proxyProtocolListener == b.proxyProtocolListener && a.preferIP == b.preferIP
    && a.frontingIP == b.frontingIP && a.frontingPort == b.frontingPort
    && a.frontingProxyProtocol == b.frontingProxyProtocol
    && a.routeThroughXray == b.routeThroughXray && a.xrayRoutePort == b.xrayRoutePort
    && a.ActiveClients() == b.ActiveClients()
  }

  lemma ClientTextInjective(a: ClientSecret, b: ClientSecret)
    requires CleanClient(a) && CleanClient(b) && ClientText(a) == ClientText(b)
    ensures a == b
  {
    assert ClientText(a) == a.id + ['='] + (a.secret + "=" + a.email);
    assert ClientText(b) == b.id + ['='] + (b.secret + "=" + b.email);
    CutAt(a.id, '=', a.secret + "=" + a.email, b.id, b.secret + "=" + b.email);
    CutAt(a.secret, '=', a.email, b.secret, b.email);
  }

  lemma PartsAreClean(inst: Instance)
    requires Clean(inst)
    ensures Free(SettingTexts(inst) + ClientTexts(inst.ActiveClients()), '|')
  {
    hide Itoa, ClientTexts;
    ItoaRunes(inst.port);
    ItoaRunes(inst.frontingPort);
    ItoaRunes(inst.xrayRoutePort);
    assert '|' !in inst.BindTo() && '|' !in "true" && '|' !in "false";
    var active := inst.ActiveClients();
    forall t | t in ClientTexts(active) ensures '|' !in t {
      var i :| 0 <= i < |active| && ClientTexts(active)[i] == t;
      assert active[i] == inst.clients[i] && CleanClient(inst.clients[i]);
    }
  }

  lemma SettingsInjective(a: Instance, b: Instance)
    requires SettingTexts(a) == SettingTexts(b)
    ensures a.BindTo() == b.BindTo() && a.multiUser == b.multiUser && a.debug == b.debug
    ensures a.proxyProtocolListener == b.proxyProtocolListener && a.preferIP == b.preferIP
    ensures a.frontingIP == b.frontingIP && a.frontingPort == b.frontingPort
    ensures a.frontingProxyProtocol == b.frontingProxyProtocol
    ensures a.routeThroughXray == b.routeThroughXray && a.xrayRoutePort == b.xrayRoutePort
  {
    hide Itoa, Instance.BindTo;
    var x, y := SettingTexts(a), SettingTexts(b);
    assert x[0] == y[0] && x[1] == y[1] && x[2] == y[2] && x[3] == y[3] && x[4] == y[4];
    assert x[5] == y[5] && x[6] == y[6] && x[7] == y[7] && x[8] == y[8] && x[9] == y[9];
    assert |BoolText(true)| != |BoolText(false)|;
    ItoaInjective(a.frontingPort, b.frontingPort);
    ItoaInjective(a.xrayRoutePort, b.xrayRoutePort);
  }

  lemma ClientsInjective(a: Instance, b: Instance)
    requires Clean(a) && Clean(b) && ClientTexts(a.ActiveClients()) == ClientTexts(b.ActiveClients())
    ensures a.ActiveClients() == b.ActiveClients()
  {
    hide ClientTexts, ClientText, CleanClient;
    var x, y := a.ActiveClients(), b.ActiveClients();
    assert |x| == |y|;
    forall i | 0 <= i < |x| ensures x[i] == y[i] {
      assert x[i] == a.clients[i] && y[i] == b.clients[i];
      assert ClientTexts(x)[i] == ClientText(x[i]) && ClientTexts(y)[i] == ClientText(y[i]);
      ClientTextInjective(x[i], y[i]);
    }
  }

  /** Equal fingerprints mean exactly equal configurations. */
  lemma FingerprintExact(a: Instance, b: Instance)
    requires Clean(a) && Clean(b)
    ensures Fingerprint(a) == Fingerprint(b) <==> SameConfig(a, b)
  {
    hide Itoa, Instance.BindTo, ClientTexts, Join, Clean, Instance.ActiveClients;
    if Fingerprint(a) == Fingerprint(b) {
      var x, y := ClientTexts(a.ActiveClients()), ClientTexts(b.ActiveClients());
      PartsAreClean(a);
      PartsAreClean(b);
      JoinInjective(SettingTexts(a) + x, SettingTexts(b) + y, '|');
      assert (SettingTexts(a) + x)[..10] == SettingTexts(a) && (SettingTexts(a) + x)[10..] == x;
      assert (SettingTexts(b) + y)[..10] == SettingTexts(b) && (SettingTexts(b) + y)[10..] == y;
      SettingsInjective(a, b);
      ClientsInjective(a, b);
    }
  }

  lemma SameConfigSameHead(a: Instance, b: Instance, statsPort: int, quote: Quote)
    requires SameConfig(a, b)
    ensures HeadText(a, statsPort, quote) == HeadText(b, statsPort, quote)
  {
    hide Itoa, Instance.BindTo, Instance.ActiveClients;
  }

  lemma SameConfigSameRest(a: Instance, b: Instance, statsPort: int, quote: Quote)
    requires SameConfig(a, b)
    ensures SecretsText(a, quote) == SecretsText(b, quote)
    ensures FrontingText(a, quote) == FrontingText(b, quote)
    ensures TailText(a, statsPort) == TailText(b, statsPort)
  {
    hide Itoa, Instance.BindTo, Instance.ActiveClients, SecretLines;
  }

  /** A "nothing changed" verdict never hides a change of the config. */
  lemma EqualFingerprintsRenderAlike(a: Instance, b: Instance, statsPort: int, quote: Quote)
    requires Clean(a) && Clean(b) && Fingerprint(a) == Fingerprint(b)
    ensures Rendered(a, statsPort, quote) == Rendered(b, statsPort, quote)
  {
    hide Fingerprint, Clean, SameConfig, HeadText, SecretsText, FrontingText, TailText;
    FingerprintExact(a, b);
    SameConfigSameHead(a, b, statsPort, quote);
    SameConfigSameRest(a, b, statsPort, quote);
  }

  const PLAIN := Instance(1, "", "", 443, true, [], false, false, "", "", 0, false, false, 0)

  lemma OneClientText(c: ClientSecret)
    ensures ClientTexts([c]) == [ClientText(c)]
  {}

  lemma TwoClientTexts(c: ClientSecret, d: ClientSecret)
    ensures ClientTexts([c, d]) == [ClientText(c), ClientText(d)]
  {
    assert [c, d][..1] == [c];
    OneClientText(c);
  }

  lemma SecretLinesOf(c: ClientSecret, d: ClientSecret, quote: Quote)
    ensures SecretLines([c], quote) == SecretLine(c, quote)
    ensures SecretLines([c, d], quote) == SecretLine(c, quote) + SecretLine(d, quote)
  {
    assert [c][..0] == [] && [c, d][..1] == [c];
  }

  const ID1 := "11111111-1111-4111-8111-111111111111"
  const ID2 := "22222222-2222-4222-8222-222222222222"

  const SPLIT := PLAIN.(clients := [ClientSecret(ID1, "ee01", "a"), ClientSecret(ID2, "ee02", "b")])
  const JOINED := PLAIN.(clients := [ClientSecret(ID1, "ee01", "a|" + ID2 + "=ee02=b")])

  /** Without the condition it could, and the service would store both: an email is free text, and one that holds the
      separators makes a single client look like two. The fingerprints agree; whatever the quoting, one config serves a
      user that the other does not. */
  lemma SeparatorsMatter(statsPort: int, quote: Quote)
    ensures Fingerprint(SPLIT) == Fingerprint(JOINED)
    ensures Rendered(SPLIT, statsPort, quote) != Rendered(JOINED, statsPort, quote)
  {
    hide Itoa, ClientTexts, SecretLines, Fingerprint;
    var c, d, e := SPLIT.clients[0], SPLIT.clients[1], JOINED.clients[0];
    CollidingTexts();
    TwoClientTexts(c, d);
    OneClientText(e);
    SecretLinesOf(c, d, quote);
    SecretLinesOf(e, e, quote);
    assert SecretLine(e, quote) == SecretLine(c, quote) && |SecretLine(d, quote)| > 0;
    assert |SecretsText(SPLIT, quote)| > |SecretsText(JOINED, quote)|;
    SameHeadAndTail(statsPort, quote);
  }

  lemma SameHeadAndTail(statsPort: int, quote: Quote)
    ensures HeadText(SPLIT, statsPort, quote) == HeadText(JOINED, statsPort, quote)
    ensures FrontingText(SPLIT, quote) == FrontingText(JOINED, quote)
            && TailText(SPLIT, statsPort) == TailText(JOINED, statsPort)
  {
    hide Itoa;
  }

  lemma {:induction false} JoinLastTwo(front: seq<string>, x: string, y: string, sep: string)
    ensures Join(front + [x, y], sep) == Join(front + [x + sep + y], sep)
  {
    if front == [] {
      assert front + [x, y] == [x, y] && front + [x + sep + y] == [x + sep + y];
      assert [x, y][1..] == [y];
    } else {
      JoinLastTwo(front[1..], x, y, sep);
      assert (front + [x, y])[1..] == front[1..] + [x, y];
      assert (front + [x + sep + y])[1..] == front[1..] + [x + sep + y];
    }
  }

  lemma CollidingTexts()
    ensures Fingerprint(SPLIT) == Fingerprint(JOINED)
  {
    hide Itoa, Join, ClientTexts;
    var c, d, e := SPLIT.clients[0], SPLIT.clients[1], JOINED.clients[0];
    TwoClientTexts(c, d);
    OneClientText(e);
    assert ClientText(e) == ClientText(c) + "|" + ClientText(d);
    assert SettingTexts(SPLIT) == SettingTexts(JOINED);
    JoinLastTwo(SettingTexts(SPLIT), ClientText(c), ClientText(d), "|");
  }
}
