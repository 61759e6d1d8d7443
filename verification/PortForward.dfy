/** Port lists typed by an operator, their canonical form, and the DNAT rules they stand for. */
module PortForward {
  import opened Options
  import opened Text
  import opened Firewall

  /** One port (start == end) or an inclusive range. */
  datatype PortSpec = PortSpec(start: int, end: int) {
    predicate Valid() { 1 <= start <= end <= 65535 }

    predicate IsRange() { end > start }

    function DportArg(): string {
      if IsRange() then Itoa(start) + ":" + Itoa(end) else Itoa(start)
    }

    function DnatTarget(clientIP: string): string {
      if IsRange() then clientIP + ":" + Itoa(start) + "-" + Itoa(end) else clientIP + ":" + Itoa(start)
    }

    /** The text under which a spec is remembered as already seen. */
    function Key(): string { Itoa(start) + "-" + Itoa(end) }

    /** The canonical token of the spec. */
    function Token(): string { if IsRange() then Key() else Itoa(start) }
  }

  // ---------- parsing ----------

  function ParsePort(s: string): Option<int> {
    match Atoi(s)
    case Number(n) => if n < 1 || n > 65535 then None else Some(n)
    case _ => None
  }

  function ParseToken(tok: string): (spec: Option<PortSpec>)
    ensures spec.Some? ==> spec.value.Valid()
  {
    var dash := IndexOf(tok, '-');
    if dash >= 0 then
      var start := ParsePort(TrimSpace(tok[..dash]));
      var end := ParsePort(TrimSpace(tok[dash + 1..]));
      if start.None? || end.None? || start.value > end.value then None
      else Some(PortSpec(start.value, end.value))
    else
      var port := ParsePort(tok);
      if port.None? then None else Some(PortSpec(port.value, port.value))
  }

  /** Semicolons separate like commas. */
  function Commas(s: string): string {
    if s == [] then [] else [if s[0] == ';' then ',' else s[0]] + Commas(s[1..])
  }

  function Tokens(input: string): seq<string> {
    Split(Commas(input), ',')
  }

  /** The spec that a token stands for, if any. */
  function SpecOf(token: string): (specs: seq<PortSpec>)
    ensures |specs| <= 1 && forall i :: 0 <= i < |specs| ==> specs[i].Valid()
  {
    var spec := ParseToken(TrimSpace(token));
    if spec.Some? then [spec.value] else []
  }

  /** The valid specs among the tokens, repetitions included. */
  function SpecsOf(tokens: seq<string>): (specs: seq<PortSpec>)
    ensures forall i :: 0 <= i < |specs| ==> specs[i].Valid()
  {
    if tokens == [] then [] else SpecsOf(tokens[..|tokens| - 1]) + SpecOf(tokens[|tokens| - 1])
  }

  /** Each spec at its first occurrence only. */
  function FirstOccurrences(specs: seq<PortSpec>): (r: seq<PortSpec>)
    ensures forall x :: x in r <==> x in specs
  {
    if specs == [] then []
    else
      var front, last := specs[..|specs| - 1], specs[|specs| - 1];
      var r := FirstOccurrences(front);
      assert specs == front + [last];
      if last in r then r else r + [last]
  }

  function ParseResult(input: string): seq<PortSpec> {
    FirstOccurrences(SpecsOf(Tokens(input)))
  }

  lemma KeyInjective(a: PortSpec, b: PortSpec)
    requires a.Valid() && b.Valid()
    ensures a.Key() == b.Key() ==> a == b
  {
    if a.Key() == b.Key() {
      ItoaRunes(a.start);
      ItoaRunes(b.start);
      IndexOfAt(Itoa(a.start), '-', Itoa(a.end));
      IndexOfAt(Itoa(b.start), '-', Itoa(b.end));
      assert a.Key() == Itoa(a.start) + ['-'] + Itoa(a.end) && b.Key() == Itoa(b.start) + ['-'] + Itoa(b.end);
      var k := |Itoa(a.start)|;
      assert a.Key()[..k] == Itoa(a.start) && b.Key()[..k] == Itoa(b.start);
      assert a.Key()[k + 1..] == Itoa(a.end) && b.Key()[k + 1..] == Itoa(b.end);
      ItoaInjective(a.start, b.start);
      ItoaInjective(a.end, b.end);
    }
  }

  lemma BlankIsNoToken(token: string)
    requires TrimSpace(token) == ""
    ensures SpecOf(token) == []
  {
    assert Atoi("") == BadSyntax;
  }

  lemma SpecsOfEmptyInput()
    ensures SpecsOf(Tokens("")) == []
  {
    var tokens := Tokens("");
    assert tokens == [[]] && tokens[..0] == [];
    TrimmedIsFixed("");
    BlankIsNoToken("");
  }

  lemma OneMoreToken(tokens: seq<string>, i: nat)
    requires i < |tokens|
    ensures SpecsOf(tokens[..i + 1]) == SpecsOf(tokens[..i]) + SpecOf(tokens[i])
    ensures SpecOf(tokens[i]) == [] ==> SpecsOf(tokens[..i + 1]) == SpecsOf(tokens[..i])
  {
    assert tokens[..i + 1][..i] == tokens[..i];
  }

  lemma AddSpec(specs: seq<PortSpec>, spec: PortSpec)
    ensures var r := FirstOccurrences(specs);
            FirstOccurrences(specs + [spec]) == if spec in r then r else r + [spec]
  {
    assert (specs + [spec])[..|specs|] == specs;
  }

  function KeysOf(specs: seq<PortSpec>): set<string> {
    if specs == [] then {} else KeysOf(specs[..|specs| - 1]) + {specs[|specs| - 1].Key()}
  }

  lemma AddKey(specs: seq<PortSpec>, spec: PortSpec)
    ensures KeysOf(specs + [spec]) == KeysOf(specs) + {spec.Key()}
  {
    hide PortSpec.Key;
    assert (specs + [spec])[..|specs|] == specs;
  }

  lemma {:induction false} SeenMeansPresent(specs: seq<PortSpec>, spec: PortSpec)
    requires spec.Valid() && forall i :: 0 <= i < |specs| ==> specs[i].Valid()
    ensures spec.Key() in KeysOf(specs) <==> spec in specs
  {
    hide PortSpec.Key;
    if specs != [] {
      var front, last := specs[..|specs| - 1], specs[|specs| - 1];
      SeenMeansPresent(front, spec);
      KeyInjective(spec, last);
      assert specs == front + [last];
    }
  }

  method Parse(input: string) returns (specs: seq<PortSpec>)
    ensures specs == ParseResult(input)
  {
    if input == "" {
      SpecsOfEmptyInput();
      return [];
    }
    var tokens := Tokens(input);
    specs := [];
    var seen: set<string> := {};
    for i := 0 to |tokens|
      invariant specs == FirstOccurrences(SpecsOf(tokens[..i]))
      invariant forall j :: 0 <= j < |specs| ==> specs[j].Valid()
      invariant seen == KeysOf(specs)
    {
      ghost var all := SpecsOf(tokens[..i]);
      OneMoreToken(tokens, i);
      var tok := TrimSpace(tokens[i]);
      if tok == "" {
        BlankIsNoToken(tokens[i]);
        continue;
      }
      var parsed := ParseToken(tok);
      if parsed.None? {
        continue;
      }
      specs, seen := AddUnseen(specs, seen, parsed.value, all);
    }
    assert tokens[..|tokens|] == tokens;
  }

  /** The end of the loop body: a spec is appended unless its key has been seen. */
  method AddUnseen(specs: seq<PortSpec>, seen: set<string>, spec: PortSpec, ghost all: seq<PortSpec>)
    returns (specs': seq<PortSpec>, seen': set<string>)
    requires specs == FirstOccurrences(all) && seen == KeysOf(specs)
    requires spec.Valid() && forall j :: 0 <= j < |specs| ==> specs[j].Valid()
    ensures specs' == FirstOccurrences(all + [spec]) && seen' == KeysOf(specs')
    ensures forall j :: 0 <= j < |specs'| ==> specs'[j].Valid()
  {
    hide FirstOccurrences, KeysOf;
    SeenMeansPresent(specs, spec);
    AddSpec(all, spec);
    AddKey(specs, spec);
    if spec.Key() in seen {
      return specs, seen;
    }
    seen' := seen + {spec.Key()};
    specs' := specs + [spec];
  }

  // ---------- what parsing yields ----------

  /** The position at which a spec first occurs. */
  function FirstAt(specs: seq<PortSpec>, x: PortSpec): nat {
    if specs == [] || specs[0] == x then 0 else 1 + FirstAt(specs[1..], x)
  }

  lemma {:induction false} FirstAtAppend(a: seq<PortSpec>, b: seq<PortSpec>, x: PortSpec)
    ensures x in a ==> FirstAt(a + b, x) == FirstAt(a, x) < |a|
    ensures x !in a ==> FirstAt(a + b, x) == |a| + FirstAt(b, x)
  {
    if a == [] {
      assert a + b == b;
    } else {
      assert (a + b)[1..] == a[1..] + b;
      FirstAtAppend(a[1..], b, x);
    }
  }

  /** r lists distinct specs in the order in which they first occur in all. */
  ghost predicate InOrder(all: seq<PortSpec>, r: seq<PortSpec>) {
    forall i, j :: 0 <= i < j < |r| ==> r[i] != r[j] && FirstAt(all, r[i]) < FirstAt(all, r[j])
  }

  lemma {:induction false} FirstOccurrencesOrder(all: seq<PortSpec>)
    ensures InOrder(all, FirstOccurrences(all))
  {
    if all != [] {
      var front, last := all[..|all| - 1], all[|all| - 1];
      assert all == front + [last];
      FirstOccurrencesOrder(front);
      var r0, r := FirstOccurrences(front), FirstOccurrences(all);
      forall i, j | 0 <= i < j < |r| ensures r[i] != r[j] && FirstAt(all, r[i]) < FirstAt(all, r[j]) {
        FirstAtAppend(front, [last], r[i]);
        FirstAtAppend(front, [last], r[j]);
        assert r[i] == r0[i] && r0[i] in r0 && r0[i] in front;
        if j < |r0| {
          assert r[j] == r0[j] && r0[j] in r0 && r0[j] in front;
        } else {
          assert r[j] == last && last !in r0 && last !in front;
        }
      }
    }
  }

  lemma {:induction false} DistinctIsFixed(specs: seq<PortSpec>)
    requires forall i, j :: 0 <= i < j < |specs| ==> specs[i] != specs[j]
    ensures FirstOccurrences(specs) == specs
  {
    if specs != [] {
      var front := specs[..|specs| - 1];
      assert specs == front + [specs[|specs| - 1]];
      DistinctIsFixed(front);
    }
  }

  // ---------- the canonical form ----------

  function TokensOf(specs: seq<PortSpec>): (ts: seq<string>)
    ensures |ts| == |specs| && forall i :: 0 <= i < |specs| ==> ts[i] == specs[i].Token()
  {
    if specs == [] then [] else TokensOf(specs[..|specs| - 1]) + [specs[|specs| - 1].Token()]
  }

  function Canonical(input: string): string {
    Join(TokensOf(ParseResult(input)), ",")
  }

  method Normalize(input: string) returns (r: string)
    ensures r == Canonical(input)
  {
    var specs := Parse(input);
    if |specs| == 0 {
      return "";
    }
    r := PrintSpecs(specs);
  }

  /** The printing half of Normalize. */
  method PrintSpecs(specs: seq<PortSpec>) returns (r: string)
    ensures r == Join(TokensOf(specs), ",")
  {
    var parts: seq<string> := [];
    for i := 0 to |specs|
      invariant parts == TokensOf(specs[..i])
    {
      assert specs[..i + 1][..i] == specs[..i];
      var part := Itoa(specs[i].start);
      if specs[i].IsRange() {
        part := part + "-" + Itoa(specs[i].end);
      }
      assert part == specs[i].Token();
      parts := parts + [part];
    }
    assert specs[..|specs|] == specs;
    r := Join(parts, ",");
  }

  lemma PortIsParsed(n: int)
    requires 1 <= n <= 65535
    ensures ParsePort(Itoa(n)) == Some(n)
  {
    AtoiItoa(n);
  }

  lemma TokenRunes(spec: PortSpec)
    requires spec.Valid()
    ensures spec.Token() != [] && Trimmed(spec.Token()) && ',' !in spec.Token() && ';' !in spec.Token()
  {
    ItoaRunes(spec.start);
    ItoaRunes(spec.end);
  }

  lemma TokenIsParsed(spec: PortSpec)
    requires spec.Valid()
    ensures SpecOf(spec.Token()) == [spec]
  {
    TokenRunes(spec);
    TrimmedIsFixed(spec.Token());
    ItoaRunes(spec.start);
    ItoaRunes(spec.end);
    PortIsParsed(spec.start);
    PortIsParsed(spec.end);
    if spec.IsRange() {
      var a, b := Itoa(spec.start), Itoa(spec.end);
      IndexOfAt(a, '-', b);
      assert spec.Token() == a + ['-'] + b;
      assert spec.Token()[..|a|] == a && spec.Token()[|a| + 1..] == b;
      TrimmedIsFixed(a);
      TrimmedIsFixed(b);
    }
  }

  lemma {:induction false} CommasFixed(s: string)
    requires ';' !in s
    ensures Commas(s) == s
  {
    if s != [] {
      CommasFixed(s[1..]);
    }
  }

  lemma {:induction false} SpecsOfTokens(specs: seq<PortSpec>)
    requires forall i :: 0 <= i < |specs| ==> specs[i].Valid()
    ensures SpecsOf(TokensOf(specs)) == specs
  {
    hide PortSpec.Token, SpecOf;
    if specs != [] {
      var front, last := specs[..|specs| - 1], specs[|specs| - 1];
      assert TokensOf(specs)[..|front|] == TokensOf(front);
      TokenIsParsed(last);
      SpecsOfTokens(front);
      assert specs == front + [last];
    }
  }

  lemma TokensFree(specs: seq<PortSpec>)
    requires forall i :: 0 <= i < |specs| ==> specs[i].Valid()
    ensures Free(TokensOf(specs), ',') && Free(TokensOf(specs), ';')
  {
    var ts := TokensOf(specs);
    forall p | p in ts ensures ',' !in p && ';' !in p {
      var i :| 0 <= i < |ts| && ts[i] == p;
      TokenRunes(specs[i]);
    }
  }

  /** Splitting the canonical text gives back its tokens. */
  lemma TokensOfCanonical(specs: seq<PortSpec>)
    requires specs != [] && forall i :: 0 <= i < |specs| ==> specs[i].Valid()
    ensures Tokens(Join(TokensOf(specs), ",")) == TokensOf(specs)
  {
    var ts := TokensOf(specs);
    TokensFree(specs);
    JoinFree(ts, ",", ';');
    CommasFixed(Join(ts, ","));
    SplitJoin(ts, ',');
  }

  lemma ResultIsValid(input: string)
    ensures var specs := ParseResult(input);
            && (forall i :: 0 <= i < |specs| ==> specs[i].Valid())
            && (forall i, j :: 0 <= i < j < |specs| ==> specs[i] != specs[j])
  {
    var all, specs := SpecsOf(Tokens(input)), ParseResult(input);
    FirstOccurrencesOrder(all);
    forall i | 0 <= i < |specs| ensures specs[i].Valid() {
      assert specs[i] in all;
    }
    assert InOrder(all, specs);
  }

  /** Normalizing changes nothing about what a port list means, for any text. */
  lemma ParseOfCanonical(input: string)
    ensures ParseResult(Canonical(input)) == ParseResult(input)
  {
    var specs := ParseResult(input);
    ResultIsValid(input);
    if specs == [] {
      SpecsOfEmptyInput();
    } else {
      TokensOfCanonical(specs);
      SpecsOfTokens(specs);
      DistinctIsFixed(specs);
    }
  }

  lemma CanonicalIsStable(input: string)
    ensures Canonical(Canonical(input)) == Canonical(input)
  {
    ParseOfCanonical(input);
  }

  // ---------- rules ----------

  function RuleComment(uuid: string): string {
    if uuid == "" then "3ax-fwd" else "3ax-fwd-" + uuid
  }

  /** Argument lists without the command name and the action flag. */
  datatype RuleSet = RuleSet(dnat: seq<seq<string>>, forward: seq<seq<string>>)

  function NatArgs(ext: string, ip: string, comment: string, spec: PortSpec, proto: string): seq<string> {
    ["-t", "nat", "PREROUTING", "-p", proto]
    + (if ext != "" then ["-i", ext] else [])
    + ["--dport", spec.DportArg(), "-m", "comment", "--comment", comment, "-j", "DNAT",
       "--to-destination", spec.DnatTarget(ip)]
  }

  function ForwardArgs(tun: string, ip: string, comment: string, spec: PortSpec, proto: string): seq<string> {
    ["FORWARD", "-d", ip, "-p", proto, "-o", tun, "--dport", spec.DportArg(),
     "-m", "comment", "--comment", comment, "-j", "ACCEPT"]
  }

  function RuleSetOf(ext: string, tun: string, ip: string, comment: string, specs: seq<PortSpec>): RuleSet {
    if specs == [] then RuleSet([], [])
    else
      var front, s := RuleSetOf(ext, tun, ip, comment, specs[..|specs| - 1]), specs[|specs| - 1];
      RuleSet(front.dnat + [NatArgs(ext, ip, comment, s, "tcp"), NatArgs(ext, ip, comment, s, "udp")],
              front.forward + [ForwardArgs(tun, ip, comment, s, "tcp"), ForwardArgs(tun, ip, comment, s, "udp")])
  }

  /** Every spec contributes a TCP and a UDP rule to each list, in the order of the specs, for the tunnel-side
      address. */
  lemma {:induction false} RulesShape(ext: string, tun: string, ip: string, comment: string,
      specs: seq<PortSpec>, k: nat)
    requires k < |specs|
    ensures var rs := RuleSetOf(ext, tun, ip, comment, specs);
            && |rs.dnat| == |rs.forward| == 2 * |specs|
            && rs.dnat[2 * k] == NatArgs(ext, ip, comment, specs[k], "tcp")
            && rs.dnat[2 * k + 1] == NatArgs(ext, ip, comment, specs[k], "udp")
            && rs.forward[2 * k] == ForwardArgs(tun, ip, comment, specs[k], "tcp")
            && rs.forward[2 * k + 1] == ForwardArgs(tun, ip, comment, specs[k], "udp")
  {
    hide NatArgs, ForwardArgs;
    var n := |specs| - 1;
    if n > 0 {
      RulesShape(ext, tun, ip, comment, specs[..n], if k < n then k else 0);
    }
  }

  /** The rules of one client, or none when it has no ports or no address. */
  function RulesFor(ext: string, tun: string, clientIP: string, uuid: string, specs: seq<PortSpec>): RuleSet {
    if StripMask(clientIP) == "" then RuleSet([], [])
    else RuleSetOf(ext, tun, StripMask(clientIP), RuleComment(uuid), specs)
  }

  /** The rules of one spec: the loop over the protocols. */
  method AddRules(rs: RuleSet, ext: string, tun: string, ip: string, comment: string, spec: PortSpec)
    returns (r: RuleSet)
    ensures r == RuleSet(rs.dnat + [NatArgs(ext, ip, comment, spec, "tcp"), NatArgs(ext, ip, comment, spec, "udp")],
                         rs.forward + [ForwardArgs(tun, ip, comment, spec, "tcp"),
                                       ForwardArgs(tun, ip, comment, spec, "udp")])
  {
    r := rs;
    var protos := ["tcp", "udp"];
    for j := 0 to |protos|
      invariant j == 0 ==> r == rs
      invariant j == 1 ==> r == RuleSet(rs.dnat + [NatArgs(ext, ip, comment, spec, "tcp")],
                                        rs.forward + [ForwardArgs(tun, ip, comment, spec, "tcp")])
      invariant j == 2 ==>
                  r == RuleSet(rs.dnat + [NatArgs(ext, ip, comment, spec, "tcp"),
                                          NatArgs(ext, ip, comment, spec, "udp")],
                               rs.forward + [ForwardArgs(tun, ip, comment, spec, "tcp"),
                                             ForwardArgs(tun, ip, comment, spec, "udp")])
    {
      var natRule := ["-t", "nat", "PREROUTING", "-p", protos[j]];
      if ext != "" {
        natRule := natRule + ["-i", ext];
      }
      natRule := natRule + ["--dport", spec.DportArg(), "-m", "comment", "--comment", comment, "-j", "DNAT",
                            "--to-destination", spec.DnatTarget(ip)];
      assert natRule == NatArgs(ext, ip, comment, spec, protos[j]);
      hide NatArgs, ForwardArgs;
      r := RuleSet(r.dnat + [natRule], r.forward + [ForwardArgs(tun, ip, comment, spec, protos[j])]);
    }
  }

  method Rules(ext: string, tun: string, clientIP: string, uuid: string, specs: seq<PortSpec>) returns (rs: RuleSet)
    ensures rs == RulesFor(ext, tun, clientIP, uuid, specs)
  {
    if |specs| == 0 {
      return RuleSet([], []);
    }
    var ip := StripMask(clientIP);
    if ip == "" {
      return RuleSet([], []);
    }
    var comment := RuleComment(uuid);
    hide NatArgs, ForwardArgs;
    rs := RuleSet([], []);
    for i := 0 to |specs|
      invariant rs == RuleSetOf(ext, tun, ip, comment, specs[..i])
    {
      assert specs[..i + 1][..i] == specs[..i];
      rs := AddRules(rs, ext, tun, ip, comment, specs[i]);
    }
    assert specs[..|specs|] == specs;
  }

  /** The rule an argument list denotes. */
  function RuleOf(args: seq<string>): Rule
    requires NatShape(args) || ForwardShape(args)
  {
    if args[0] == "-t" then Rule(V4, args[1], args[2], args[3..]) else Rule(V4, "filter", args[0], args[1..])
  }

  predicate NatShape(args: seq<string>) { |args| >= 4 && args[0] == "-t" && args[1] == "nat" }

  predicate ForwardShape(args: seq<string>) { |args| >= 2 && args[0] == "FORWARD" }

  predicate WellFormed(rs: RuleSet) {
    (forall i :: 0 <= i < |rs.dnat| ==> NatShape(rs.dnat[i]))
    && (forall i :: 0 <= i < |rs.forward| ==> ForwardShape(rs.forward[i]))
  }

  lemma {:induction false} RuleSetWellFormed(ext: string, tun: string, ip: string,
      comment: string, specs: seq<PortSpec>)
    ensures WellFormed(RuleSetOf(ext, tun, ip, comment, specs))
  {
    if specs != [] {
      var last := specs[|specs| - 1];
      RuleSetWellFormed(ext, tun, ip, comment, specs[..|specs| - 1]);
      assert NatShape(NatArgs(ext, ip, comment, last, "tcp")) && NatShape(NatArgs(ext, ip, comment, last, "udp"));
      assert ForwardShape(ForwardArgs(tun, ip, comment, last, "tcp"))
             && ForwardShape(ForwardArgs(tun, ip, comment, last, "udp"));
    }
  }

  function RulesOfArgs(args: seq<seq<string>>): (rules: seq<Rule>)
    requires forall i :: 0 <= i < |args| ==> NatShape(args[i]) || ForwardShape(args[i])
    ensures |rules| == |args| && forall i :: 0 <= i < |args| ==> rules[i] == RuleOf(args[i])
  {
    if args == [] then [] else [RuleOf(args[0])] + RulesOfArgs(args[1..])
  }

  /** All rules of a client, NAT first, in the order in which they are issued. */
  function ClientRules(ext: string, tun: string, clientIP: string, uuid: string, specs: seq<PortSpec>): seq<Rule> {
    var rs := RulesFor(ext, tun, clientIP, uuid, specs);
    RuleSetWellFormed(ext, tun, StripMask(clientIP), RuleComment(uuid), specs);
    RulesOfArgs(rs.dnat) + RulesOfArgs(rs.forward)
  }

  /** The shell line for an argument list: the action flag goes after the table. */
  function JoinIptables(action: string, args: seq<string>, natTable: bool): string {
    if natTable && |args| >= 2 && args[0] == "-t"
    then Join(["iptables", args[0], args[1], action] + args[2..], " ")
    else Join(["iptables", action] + args, " ")
  }

  /** The shell line is the text of the command on the rule that the arguments denote. */
  lemma LineIsCommandText(action: string, args: seq<string>, natTable: bool)
    requires if natTable then NatShape(args) else ForwardShape(args)
    ensures JoinIptables(action, args, natTable) == Join(RuleWords(action, RuleOf(args)), " ")
  {
    var words := RuleWords(action, RuleOf(args));
    if natTable {
      assert args[2..] == [args[2]] + args[3..];
      assert ["iptables", args[0], args[1], action] + args[2..] == words;
    } else {
      assert args == [args[0]] + args[1..];
      assert ["iptables", action] + args == words;
    }
  }
}
