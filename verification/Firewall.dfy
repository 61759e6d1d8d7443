/** The kernel state that the tunnel hooks change, and what their commands do to it. */
module Firewall {
  import opened Text

  datatype Family = V4 | V6

  /** One iptables rule: where it lives and the arguments that identify it. */
  datatype Rule = Rule(family: Family, table: string, chain: string, spec: seq<string>)

  /** State that is either present or absent: a second add changes nothing. */
  datatype Item =
    | PolicyRule(family: Family, fwmark: string, table: string)
    | LocalRoute(family: Family, table: string)
    | NeighbourProxy(ip: string, dev: string)

  datatype Command =
    | Append(rule: Rule)
    | Delete(rule: Rule)
    | Add(item: Item)
    | Remove(item: Item)
    | Sysctl(key: string)

  /** All chains together in order of insertion; a chain is what ChainOf selects. */
  datatype Kernel = Kernel(rules: seq<Rule>, items: set<Item>, sysctls: set<string>)

  // ---------- command text ----------

  function RuleWords(action: string, r: Rule): seq<string> {
    [if r.family.V4? then "iptables" else "ip6tables"]
    + (if r.table == "filter" then [] else ["-t", r.table])
    + [action, r.chain] + r.spec
  }

  function ItemWords(verb: string, x: Item): seq<string> {
    match x
    case PolicyRule(f, mark, table) =>
      (if f.V4? then ["ip"] else ["ip", "-6"]) + ["rule", verb, "fwmark", mark + "/" + mark, "lookup", table]
    case LocalRoute(f, table) =>
      (if f.V4? then ["ip"] else ["ip", "-6"]) + ["route", verb, "local", "default", "dev", "lo", "table", table]
    case NeighbourProxy(ip, dev) => ["ip", "-6", "neigh", verb, "proxy", ip, "dev", dev]
  }

  function CommandWords(c: Command): seq<string> {
    match c
    case Append(r) => RuleWords("-A", r)
    case Delete(r) => RuleWords("-D", r)
    case Add(x) => ItemWords("add", x)
    case Remove(x) => ItemWords("del", x)
    case Sysctl(key) => ["sysctl", "-w", key + "=1"]
  }

  function CommandText(c: Command): string {
    Join(CommandWords(c), " ")
  }

  function Texts(cmds: seq<Command>): (ts: seq<string>)
    ensures |ts| == |cmds| && forall i :: 0 <= i < |cmds| ==> ts[i] == CommandText(cmds[i])
  {
    if cmds == [] then [] else [CommandText(cmds[0])] + Texts(cmds[1..])
  }

  // ---------- execution ----------

  /** `iptables -D` removes the first rule that matches, and fails when there is none. */
  function RemoveFirst<T(==)>(s: seq<T>, x: T): seq<T> {
    if s == [] then [] else if s[0] == x then s[1..] else [s[0]] + RemoveFirst(s[1..], x)
  }

  function Exec(c: Command, k: Kernel): Kernel {
    match c
    case Append(r) => k.(rules := k.rules + [r])
    case Delete(r) => k.(rules := RemoveFirst(k.rules, r))
    case Add(x) => k.(items := k.items + {x})
    case Remove(x) => k.(items := k.items - {x})
    case Sysctl(key) => k.(sysctls := k.sysctls + {key})
  }

  function ExecAll(cmds: seq<Command>, k: Kernel): Kernel {
    if cmds == [] then k else ExecAll(cmds[1..], Exec(cmds[0], k))
  }

  lemma {:induction false} ExecAllAppend(a: seq<Command>, b: seq<Command>, k: Kernel)
    ensures ExecAll(a + b, k) == ExecAll(b, ExecAll(a, k))
  {
    if a == [] {
      assert a + b == b;
    } else {
      assert (a + b)[1..] == a[1..] + b;
      ExecAllAppend(a[1..], b, Exec(a[0], k));
    }
  }

  /** One chain of one table, in order. */
  function ChainOf(rules: seq<Rule>, family: Family, table: string, chain: string): seq<seq<string>> {
    if rules == [] then []
    else
      var r := rules[0];
      (if r == Rule(family, table, chain, r.spec) then [r.spec] else []) + ChainOf(rules[1..], family, table, chain)
  }

  lemma ChainOfCons(q: Rule, rules: seq<Rule>, family: Family, table: string, chain: string)
    ensures ChainOf([q] + rules, family, table, chain)
            == (if q == Rule(family, table, chain, q.spec) then [q.spec] else []) + ChainOf(rules, family, table, chain)
  {
    assert ([q] + rules)[1..] == rules;
  }

  /** Seen from one chain, an append acts on the end of that chain alone. */
  lemma {:induction false} AppendActsOnItsChain(rules: seq<Rule>, r: Rule, family: Family, table: string, chain: string)
    ensures ChainOf(rules + [r], family, table, chain)
            == ChainOf(rules, family, table, chain) + (if r == Rule(family, table, chain, r.spec) then [r.spec] else [])
  {
    if rules == [] {
      assert rules + [r] == [r];
    } else {
      assert (rules + [r])[1..] == rules[1..] + [r];
      AppendActsOnItsChain(rules[1..], r, family, table, chain);
    }
  }

  /** Seen from one chain, a delete acts on the first match in that chain alone. */
  lemma {:induction false} DeleteActsOnItsChain(rules: seq<Rule>, r: Rule, family: Family, table: string, chain: string)
    ensures ChainOf(RemoveFirst(rules, r), family, table, chain)
            == if r == Rule(family, table, chain, r.spec)
               then RemoveFirst(ChainOf(rules, family, table, chain), r.spec)
               else ChainOf(rules, family, table, chain)
  {
    if rules != [] && rules[0] != r {
      var q, rest := rules[0], ChainOf(rules[1..], family, table, chain);
      DeleteActsOnItsChain(rules[1..], r, family, table, chain);
      ChainOfCons(q, RemoveFirst(rules[1..], r), family, table, chain);
      if q == Rule(family, table, chain, q.spec) {
        assert ChainOf(rules, family, table, chain) == [q.spec] + rest;
        assert ([q.spec] + rest)[1..] == rest;
        assert r == Rule(family, table, chain, r.spec) ==> q.spec != r.spec;
      } else {
        assert ChainOf(rules, family, table, chain) == rest;
        assert forall s: seq<seq<string>> :: [] + s == s;
      }
    } else if rules != [] && r == Rule(family, table, chain, r.spec) {
      var rest := ChainOf(rules[1..], family, table, chain);
      assert ([r.spec] + rest)[1..] == rest;
    }
  }

  lemma {:induction false} RemoveFirstCounts<T>(s: seq<T>, x: T)
    ensures multiset(RemoveFirst(s, x)) == multiset(s) - multiset{x}
    ensures x !in s ==> RemoveFirst(s, x) == s
  {
    if s != [] {
      assert s == [s[0]] + s[1..];
      RemoveFirstCounts(s[1..], x);
    }
  }

  // ---------- what a script owns ----------

  function Appended(cmds: seq<Command>): seq<Rule> {
    if cmds == [] then [] else (if cmds[0].Append? then [cmds[0].rule] else []) + Appended(cmds[1..])
  }

  function Deleted(cmds: seq<Command>): seq<Rule> {
    if cmds == [] then [] else (if cmds[0].Delete? then [cmds[0].rule] else []) + Deleted(cmds[1..])
  }

  function Added(cmds: seq<Command>): set<Item> {
    if cmds == [] then {} else (if cmds[0].Add? then {cmds[0].item} else {}) + Added(cmds[1..])
  }

  function Removed(cmds: seq<Command>): set<Item> {
    if cmds == [] then {} else (if cmds[0].Remove? then {cmds[0].item} else {}) + Removed(cmds[1..])
  }

  function StepRules(c: Command, own: multiset<Rule>): multiset<Rule> {
    match c
    case Append(r) => own + multiset{r}
    case Delete(r) => own - multiset{r}
    case _ => own
  }

  function StepItems(c: Command, own: set<Item>): set<Item> {
    match c
    case Add(x) => own + {x}
    case Remove(x) => own - {x}
    case _ => own
  }

  /** The rules a script has installed, starting from those it already had. */
  function OwnRules(cmds: seq<Command>, own: multiset<Rule>): multiset<Rule> {
    if cmds == [] then own else OwnRules(cmds[1..], StepRules(cmds[0], own))
  }

  function OwnItems(cmds: seq<Command>, own: set<Item>): set<Item> {
    if cmds == [] then own else OwnItems(cmds[1..], StepItems(cmds[0], own))
  }

  /** The script deletes only rules of its own. */
  predicate DeletesOwn(cmds: seq<Command>, own: multiset<Rule>) {
    cmds == []
    || ((cmds[0].Delete? ==> cmds[0].rule in own) && DeletesOwn(cmds[1..], StepRules(cmds[0], own)))
  }

  /** Every item the script touches lies in its territory. */
  predicate Within(cmds: seq<Command>, territory: set<Item>) {
    Added(cmds) + Removed(cmds) <= territory
  }

  /** The kernel's rules, counted, and its items follow the steps of the commands. */
  lemma {:induction false} ExecFollowsSteps(cmds: seq<Command>, k: Kernel)
    ensures multiset(ExecAll(cmds, k).rules) == OwnRules(cmds, multiset(k.rules))
    ensures ExecAll(cmds, k).items == OwnItems(cmds, k.items)
  {
    if cmds != [] {
      var c := cmds[0];
      if c.Delete? {
        RemoveFirstCounts(k.rules, c.rule);
      }
      assert multiset(Exec(c, k).rules) == StepRules(c, multiset(k.rules));
      ExecFollowsSteps(cmds[1..], Exec(c, k));
    }
  }

  // ---------- two scripts at once ----------

  /** w runs all of a and all of b, each in its own order, in some interleaving. */
  ghost predicate Interleaves(w: seq<Command>, a: seq<Command>, b: seq<Command>) {
    if w == [] then
      a == [] && b == []
    else
      || (a != [] && w[0] == a[0] && Interleaves(w[1..], a[1..], b))
      || (b != [] && w[0] == b[0] && Interleaves(w[1..], a, b[1..]))
  }

  /** A script that deletes only its own rules acts on its own share. */
  lemma StepOfShare(c: Command, others: multiset<Rule>, own: multiset<Rule>)
    requires c.Delete? ==> c.rule in own
    ensures StepRules(c, others + own) == others + StepRules(c, own)
  {}

  lemma {:induction false} RulesInterleaved(w: seq<Command>, a: seq<Command>, b: seq<Command>,
      base: multiset<Rule>, ra: multiset<Rule>, rb: multiset<Rule>)
    requires Interleaves(w, a, b) && DeletesOwn(a, ra) && DeletesOwn(b, rb)
    ensures OwnRules(w, base + ra + rb) == base + OwnRules(a, ra) + OwnRules(b, rb)
    decreases w
  {
    if w != [] {
      if a != [] && w[0] == a[0] && Interleaves(w[1..], a[1..], b) {
        var ra' := StepRules(w[0], ra);
        StepOfShare(w[0], base + rb, ra);
        assert base + ra + rb == base + rb + ra && base + ra' + rb == base + rb + ra';
        RulesInterleaved(w[1..], a[1..], b, base, ra', rb);
      } else {
        StepOfShare(w[0], base + ra, rb);
        RulesInterleaved(w[1..], a, b[1..], base, ra, StepRules(w[0], rb));
      }
    }
  }

  lemma {:induction false} ItemsInterleaved(w: seq<Command>, a: seq<Command>, b: seq<Command>,
      base: set<Item>, ia: set<Item>, ib: set<Item>, ta: set<Item>, tb: set<Item>)
    requires Interleaves(w, a, b) && Within(a, ta) && Within(b, tb) && ia <= ta && ib <= tb
    requires ta !! tb && base !! ta && base !! tb
    ensures OwnItems(w, base + ia + ib) == base + OwnItems(a, ia) + OwnItems(b, ib)
    decreases w
  {
    if w != [] {
      var c := w[0];
      if a != [] && c == a[0] && Interleaves(w[1..], a[1..], b) {
        assert StepItems(c, base + ia + ib) == base + StepItems(c, ia) + ib;
        ItemsInterleaved(w[1..], a[1..], b, base, StepItems(c, ia), ib, ta, tb);
      } else {
        assert StepItems(c, base + ia + ib) == base + ia + StepItems(c, ib);
        ItemsInterleaved(w[1..], a, b[1..], base, ia, StepItems(c, ib), ta, tb);
      }
    }
  }

  // ---------- a pair of hooks ----------

  predicate OnlyInstalls(cmds: seq<Command>) {
    forall i :: 0 <= i < |cmds| ==> cmds[i].Append? || cmds[i].Add? || cmds[i].Sysctl?
  }

  predicate OnlyRemoves(cmds: seq<Command>) {
    forall i :: 0 <= i < |cmds| ==> cmds[i].Delete? || cmds[i].Remove?
  }

  /** The down hook takes away exactly what the up hook brings. */
  ghost predicate Mirrors(up: seq<Command>, down: seq<Command>) {
    OnlyInstalls(up) && OnlyRemoves(down)
    && multiset(Appended(up)) == multiset(Deleted(down)) && Added(up) == Removed(down)
  }

  function Appends(rules: seq<Rule>): (cmds: seq<Command>)
    ensures |cmds| == |rules| && forall i :: 0 <= i < |rules| ==> cmds[i] == Append(rules[i])
  {
    if rules == [] then [] else [Append(rules[0])] + Appends(rules[1..])
  }

  function Deletes(rules: seq<Rule>): (cmds: seq<Command>)
    ensures |cmds| == |rules| && forall i :: 0 <= i < |rules| ==> cmds[i] == Delete(rules[i])
  {
    if rules == [] then [] else [Delete(rules[0])] + Deletes(rules[1..])
  }

  lemma {:induction false} EffectsAppend(a: seq<Command>, b: seq<Command>)
    ensures Appended(a + b) == Appended(a) + Appended(b) && Added(a + b) == Added(a) + Added(b)
  {
    if a == [] {
      assert a + b == b;
    } else {
      assert (a + b)[1..] == a[1..] + b && (a + b)[0] == a[0];
      EffectsAppend(a[1..], b);
    }
  }

  lemma {:induction false} RemovalsAppend(a: seq<Command>, b: seq<Command>)
    ensures Deleted(a + b) == Deleted(a) + Deleted(b) && Removed(a + b) == Removed(a) + Removed(b)
  {
    if a == [] {
      assert a + b == b;
    } else {
      assert (a + b)[1..] == a[1..] + b && (a + b)[0] == a[0];
      RemovalsAppend(a[1..], b);
    }
  }

  lemma {:induction false} EffectOfAppends(rules: seq<Rule>)
    ensures Appended(Appends(rules)) == rules && Added(Appends(rules)) == {}
  {
    if rules != [] {
      EffectOfAppends(rules[1..]);
      assert Appends(rules)[1..] == Appends(rules[1..]);
    }
  }

  lemma {:induction false} EffectOfDeletes(rules: seq<Rule>)
    ensures Deleted(Deletes(rules)) == rules && Removed(Deletes(rules)) == {}
  {
    if rules != [] {
      EffectOfDeletes(rules[1..]);
      assert Deletes(rules)[1..] == Deletes(rules[1..]);
    }
  }

  lemma AppendsMirrored(rules: seq<Rule>)
    ensures Mirrors(Appends(rules), Deletes(rules)) && Added(Appends(rules)) == {}
  {
    hide Appends, Deletes, Appended, Deleted, Added, Removed;
    EffectOfAppends(rules);
    EffectOfDeletes(rules);
  }

  /** Hooks built block by block mirror each other block by block. */
  lemma MirrorsConcat(up1: seq<Command>, down1: seq<Command>, up2: seq<Command>, down2: seq<Command>)
    requires Mirrors(up1, down1) && Mirrors(up2, down2)
    ensures Mirrors(up1 + up2, down1 + down2)
  {
    hide Appended, Deleted, Added, Removed;
    EffectsAppend(up1, up2);
    RemovalsAppend(down1, down2);
  }

  lemma {:induction false} OwnAppend(a: seq<Command>, b: seq<Command>, own: multiset<Rule>, items: set<Item>)
    ensures OwnRules(a + b, own) == OwnRules(b, OwnRules(a, own))
    ensures OwnItems(a + b, items) == OwnItems(b, OwnItems(a, items))
    ensures DeletesOwn(a + b, own) <==> DeletesOwn(a, own) && DeletesOwn(b, OwnRules(a, own))
  {
    if a == [] {
      assert a + b == b;
    } else {
      assert (a + b)[1..] == a[1..] + b && (a + b)[0] == a[0];
      OwnAppend(a[1..], b, StepRules(a[0], own), StepItems(a[0], items));
    }
  }

  lemma {:induction false} WithinAppend(a: seq<Command>, b: seq<Command>, t: set<Item>)
    ensures Within(a + b, t) <==> Within(a, t) && Within(b, t)
  {
    if a == [] {
      assert a + b == b;
    } else {
      assert (a + b)[1..] == a[1..] + b && (a + b)[0] == a[0];
      WithinAppend(a[1..], b, t);
    }
  }

  lemma {:induction false} Installing(up: seq<Command>, own: multiset<Rule>)
    requires OnlyInstalls(up)
    ensures DeletesOwn(up, own) && OwnRules(up, own) == own + multiset(Appended(up))
  {
    if up != [] {
      var c, rest := up[0], multiset(Appended(up[1..]));
      Installing(up[1..], StepRules(c, own));
      if c.Append? {
        assert multiset(Appended(up)) == multiset{c.rule} + rest;
        assert own + multiset{c.rule} + rest == own + (multiset{c.rule} + rest);
      } else {
        assert Appended(up) == Appended(up[1..]);
      }
    }
  }

  lemma {:induction false} InstallingItems(up: seq<Command>, items: set<Item>)
    requires OnlyInstalls(up)
    ensures OwnItems(up, items) == items + Added(up) && Removed(up) == {}
  {
    if up != [] {
      InstallingItems(up[1..], StepItems(up[0], items));
    }
  }

  lemma TakeOne<T>(own: multiset<T>, x: T, rest: multiset<T>)
    ensures own - (multiset{x} + rest) == (own - multiset{x}) - rest
    ensures multiset{x} + rest <= own ==> x in own && rest <= own - multiset{x}
  {}

  lemma DeletedHead(down: seq<Command>)
    requires down != []
    ensures multiset(Deleted(down))
            == (if down[0].Delete? then multiset{down[0].rule} else multiset{}) + multiset(Deleted(down[1..]))
  {
    if !down[0].Delete? {
      assert Deleted(down) == Deleted(down[1..]);
    }
  }

  lemma {:induction false} Removing(down: seq<Command>, own: multiset<Rule>, gone: multiset<Rule>)
    requires OnlyRemoves(down) && multiset(Deleted(down)) == gone <= own
    ensures DeletesOwn(down, own) && OwnRules(down, own) == own - gone
  {
    if down != [] {
      DeletedHead(down);
      var later := multiset(Deleted(down[1..]));
      if down[0].Delete? {
        TakeOne(own, down[0].rule, later);
        Removing(down[1..], own - multiset{down[0].rule}, later);
      } else {
        assert gone == later;
        Removing(down[1..], own, later);
      }
    }
  }

  lemma {:induction false} RemovingItems(down: seq<Command>, items: set<Item>)
    requires OnlyRemoves(down)
    ensures OwnItems(down, items) == items - Removed(down) && Added(down) == {}
  {
    if down != [] {
      RemovingItems(down[1..], StepItems(down[0], items));
    }
  }

  /** A full cycle leaves a script's own rules as they were before. */
  lemma CycleOfRules(up: seq<Command>, down: seq<Command>, rest: seq<Command>)
    requires Mirrors(up, down)
    ensures OwnRules(up + down + rest, multiset{}) == OwnRules(rest, multiset{})
    ensures DeletesOwn(up + down + rest, multiset{}) == DeletesOwn(rest, multiset{})
  {
    var ups := multiset(Appended(up));
    Installing(up, multiset{});
    assert multiset{} + ups == ups;
    Removing(down, ups, ups);
    OwnAppend(up, down, multiset{}, {});
    OwnAppend(up + down, rest, multiset{}, {});
  }

  lemma CycleOfItems(up: seq<Command>, down: seq<Command>, rest: seq<Command>)
    requires Mirrors(up, down)
    ensures OwnItems(up + down + rest, {}) == OwnItems(rest, {})
    ensures Within(up + down + rest, Added(up)) == Within(rest, Added(up))
  {
    InstallingItems(up, {});
    assert {} + Added(up) == Added(up) && Added(up) - Removed(down) == {};
    RemovingItems(down, Added(up));
    OwnAppend(up, down, multiset{}, {});
    OwnAppend(up + down, rest, multiset{}, {});
    WithinAppend(up, down, Added(up));
    WithinAppend(up + down, rest, Added(up));
  }

  /** Up and down a number of times, and possibly up once more. */
  function Cycles(up: seq<Command>, down: seq<Command>, n: nat, endsUp: bool): seq<Command> {
    if n == 0 then (if endsUp then up else []) else up + down + Cycles(up, down, n - 1, endsUp)
  }

  /** What a protocol leaves installed: its up hook when it ends up, nothing otherwise. */
  function RulesLeft(up: seq<Command>, isUp: bool): multiset<Rule> {
    if isUp then multiset(Appended(up)) else multiset{}
  }

  function ItemsLeft(up: seq<Command>, isUp: bool): set<Item> {
    if isUp then Added(up) else {}
  }

  lemma {:induction false} CyclesOwn(up: seq<Command>, down: seq<Command>, n: nat, endsUp: bool)
    requires Mirrors(up, down)
    ensures DeletesOwn(Cycles(up, down, n, endsUp), multiset{})
    ensures OwnRules(Cycles(up, down, n, endsUp), multiset{}) == RulesLeft(up, endsUp)
  {
    hide OwnRules, DeletesOwn;
    if n == 0 {
      Installing(Cycles(up, down, 0, endsUp), multiset{});
      assert multiset{} + multiset(Appended(up)) == multiset(Appended(up));
    } else {
      CyclesOwn(up, down, n - 1, endsUp);
      CycleOfRules(up, down, Cycles(up, down, n - 1, endsUp));
    }
  }

  lemma {:induction false} CyclesOwnItems(up: seq<Command>, down: seq<Command>, n: nat, endsUp: bool)
    requires Mirrors(up, down)
    ensures Within(Cycles(up, down, n, endsUp), Added(up))
    ensures OwnItems(Cycles(up, down, n, endsUp), {}) == ItemsLeft(up, endsUp)
  {
    if n == 0 {
      InstallingItems(up, {});
    } else {
      CyclesOwnItems(up, down, n - 1, endsUp);
      CycleOfItems(up, down, Cycles(up, down, n - 1, endsUp));
    }
  }

  /** Two protocols that go up and down any number of times, interleaved command by command: the chains
      end, counted, with the base rules plus the hooks of those that ended up. */
  lemma CyclesInterleaveRules(w: seq<Command>, upA: seq<Command>, downA: seq<Command>, n: nat, aUp: bool,
      upB: seq<Command>, downB: seq<Command>, m: nat, bUp: bool, base: Kernel)
    requires Mirrors(upA, downA) && Mirrors(upB, downB)
    requires Interleaves(w, Cycles(upA, downA, n, aUp), Cycles(upB, downB, m, bUp))
    ensures multiset(ExecAll(w, base).rules) == multiset(base.rules) + RulesLeft(upA, aUp) + RulesLeft(upB, bUp)
  {
    CyclesOwn(upA, downA, n, aUp);
    CyclesOwn(upB, downB, m, bUp);
    ExecFollowsSteps(w, base);
    RulesInterleaved(w, Cycles(upA, downA, n, aUp), Cycles(upB, downB, m, bUp), multiset(base.rules),
                     multiset{}, multiset{});
    assert multiset(base.rules) + multiset{} + multiset{} == multiset(base.rules);
  }

  /** The same for policy rules, routes and proxy entries, when the two hooks touch different ones. */
  lemma CyclesInterleaveItems(w: seq<Command>, upA: seq<Command>, downA: seq<Command>, n: nat, aUp: bool,
      upB: seq<Command>, downB: seq<Command>, m: nat, bUp: bool, base: Kernel)
    requires Mirrors(upA, downA) && Mirrors(upB, downB)
    requires Added(upA) !! Added(upB) && base.items !! Added(upA) && base.items !! Added(upB)
    requires Interleaves(w, Cycles(upA, downA, n, aUp), Cycles(upB, downB, m, bUp))
    ensures ExecAll(w, base).items == base.items + ItemsLeft(upA, aUp) + ItemsLeft(upB, bUp)
  {
    CyclesOwnItems(upA, downA, n, aUp);
    CyclesOwnItems(upB, downB, m, bUp);
    ExecFollowsSteps(w, base);
    ItemsInterleaved(w, Cycles(upA, downA, n, aUp), Cycles(upB, downB, m, bUp), base.items, {}, {},
                     Added(upA), Added(upB));
    assert base.items + {} + {} == base.items;
  }

  // ---------- order within the chains ----------

  lemma {:induction false} InstallOrder(up: seq<Command>, k: Kernel)
    requires OnlyInstalls(up)
    ensures ExecAll(up, k).rules == k.rules + Appended(up)
  {
    if up == [] {
      assert k.rules + [] == k.rules;
    } else {
      var rest := Appended(up[1..]);
      InstallOrder(up[1..], Exec(up[0], k));
      if up[0].Append? {
        assert k.rules + [up[0].rule] + rest == k.rules + ([up[0].rule] + rest);
      } else {
        assert Appended(up) == rest;
      }
    }
  }

  lemma {:induction false} RemoveBehind<T>(s: seq<T>, t: seq<T>, x: T)
    requires x !in s
    ensures RemoveFirst(s + t, x) == s + RemoveFirst(t, x)
  {
    if s == [] {
      assert s + t == t;
    } else {
      assert (s + t)[1..] == s[1..] + t;
      RemoveBehind(s[1..], t, x);
    }
  }

  lemma {:induction false} RemoveOrder(down: seq<Command>, k: Kernel, kept: seq<Rule>, own: seq<Rule>)
    requires OnlyRemoves(down) && k.rules == kept + own
    requires multiset(Deleted(down)) == multiset(own) && multiset(own) !! multiset(kept)
    ensures ExecAll(down, k).rules == kept
  {
    if down == [] {
      assert |own| == |multiset(own)| == 0;
      assert kept + own == kept;
    } else {
      var c := down[0];
      DeletedHead(down);
      if c.Delete? {
        RemoveOne(kept, own, c.rule, multiset(Deleted(down[1..])));
        RemoveOrder(down[1..], Exec(c, k), kept, RemoveFirst(own, c.rule));
      } else {
        RemoveOrder(down[1..], Exec(c, k), kept, own);
      }
    }
  }

  lemma RemoveOne(kept: seq<Rule>, own: seq<Rule>, r: Rule, rest: multiset<Rule>)
    requires multiset(own) == multiset{r} + rest && multiset(own) !! multiset(kept)
    ensures RemoveFirst(kept + own, r) == kept + RemoveFirst(own, r)
    ensures multiset(RemoveFirst(own, r)) == rest && rest !! multiset(kept)
  {
    assert r in multiset(own) && r !in multiset(kept);
    RemoveBehind(kept, own, r);
    RemoveFirstCounts(own, r);
  }

  /** Up then down puts every chain back as a multiset. */
  lemma DownUndoesUp(up: seq<Command>, down: seq<Command>, k: Kernel)
    requires Mirrors(up, down)
    ensures multiset(ExecAll(up + down, k).rules) == multiset(k.rules)
  {
    var ups, before := multiset(Appended(up)), multiset(k.rules);
    ExecFollowsSteps(up + down, k);
    OwnAppend(up, down, before, k.items);
    Installing(up, before);
    Removing(down, before + ups, ups);
    assert (before + ups) - ups == before;
  }

  /** It keeps the order within every chain too when none of the rules was there before. */
  lemma DownRestoresOrder(up: seq<Command>, down: seq<Command>, k: Kernel)
    requires Mirrors(up, down) && forall r :: r in Appended(up) ==> r !in k.rules
    ensures ExecAll(up + down, k).rules == k.rules
  {
    assert forall r :: r in multiset(Appended(up)) ==> r in Appended(up);
    ExecAllAppend(up, down, k);
    InstallOrder(up, k);
    RemoveOrder(down, ExecAll(up, k), k.rules, Appended(up));
  }

  /** Policy rules, routes and proxy entries are back exactly when none of them was there before. */
  lemma DownRestoresItems(up: seq<Command>, down: seq<Command>, k: Kernel)
    requires Mirrors(up, down)
    ensures ExecAll(up + down, k).items == k.items - Added(up)
    ensures ExecAll(up + down, k).items == k.items <==> k.items !! Added(up)
  {
    ExecFollowsSteps(up + down, k);
    OwnAppend(up, down, multiset(k.rules), k.items);
    InstallingItems(up, k.items);
    RemovingItems(down, k.items + Added(up));
  }
}
