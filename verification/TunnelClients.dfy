/** Client rows of a tunnel server and the kernel's forwarding rules, kept in step by incremental diffs. */
module TunnelClients {
  import opened Options
  import opened Text
  import opened Firewall
  import opened PortForward
  import opened Tunnel
  import opened Hooks
  import opened HookLines
  import opened Ipam
  import HookReader
  import QuickConfig

  /** rows is the client table in id order and enabled the server's flag; up holds while the interface exists, and conf
      is the text of the config file on disk, whose hooks awg-quick runs. */
  datatype State = State(rows: seq<Client>, nextId: int, enabled: bool, up: bool, conf: string, k: Kernel)

  /** The settings that stay fixed: the server row, the default route's interface, and the parsed pools. */
  datatype Setup = Setup(server: Server, detected: string, pool4: Pool4, hasPool6: bool,
                         pool6: Pool6, notation: Notation)

  // ---------- the table ----------

  ghost predicate Sorted(rows: seq<Client>) { forall i, j :: 0 <= i < j < |rows| ==> rows[i].id < rows[j].id }

  function Find(rows: seq<Client>, id: int): Option<Client> {
    if rows == [] then None
    else if rows[|rows| - 1].id == id then Some(rows[|rows| - 1])
    else Find(rows[..|rows| - 1], id)
  }

  /** Saving replaces the row with that id, or inserts it in id order. */
  function Saved(rows: seq<Client>, c: Client): seq<Client> {
    if rows == [] || rows[|rows| - 1].id < c.id then rows + [c]
    else if rows[|rows| - 1].id == c.id then rows[..|rows| - 1] + [c]
    else Saved(rows[..|rows| - 1], c) + [rows[|rows| - 1]]
  }

  function Without(rows: seq<Client>, id: int): seq<Client> {
    if rows == [] then []
    else if rows[|rows| - 1].id == id then rows[..|rows| - 1]
    else Without(rows[..|rows| - 1], id) + [rows[|rows| - 1]]
  }

  // ---------- the kernel ----------

  function Forwards(u: Setup, c: Client): seq<Rule> {
    ForwardRules(ExternalName(u.server, u.detected), TunnelName(u.server), c)
  }

  function ForwardsOf(u: Setup, c: Option<Client>): seq<Rule> {
    match c case None => [] case Some(x) => Forwards(u, x)
  }

  /** applyForwardingDiff: the old rules are deleted, then the new ones appended. */
  function Diffed(u: Setup, k: Kernel, old': Option<Client>, new': Option<Client>): Kernel {
    ExecAll(Appends(ForwardsOf(u, new')), ExecAll(Deletes(ForwardsOf(u, old')), k))
  }

  /** The text of the config file for a table. */
  function FileFor(u: Setup, rows: seq<Client>): string { QuickConfig.ConfigText(u.server, rows, u.detected) }

  /** The config is rewritten; a missing interface is brought up, which runs the PostUp hook that the file holds. */
  function Configured(u: Setup, s: State): State {
    var t := s.(conf := FileFor(u, s.rows));
    if s.up then t else t.(up := true, k := ExecAll(HookReader.HookCommands(t.conf, "PostUp"), s.k))
  }

  // ---------- the operations ----------

  datatype Answer = Done | Failed

  /** The row a request becomes, its addresses allocated. */
  function NewRow(u: Setup, req: Client, id: int, ipv4: string, ipv6: string): Client {
    req.(id := id, ipv4Address := ipv4, ipv6Address := ipv6,
         allowedIPs := if ipv6 != "" then ipv4 + ", " + ipv6 else ipv4,
         forwardedPorts := Canonical(req.forwardedPorts))
  }

  /** The config is reapplied for the table; live rules are only changed where the interface was up before, since
      bringing it up runs the hook for the whole table. */
  function Reapplied(u: Setup, s: State, old': Option<Client>, new': Option<Client>): State {
    var t := Configured(u, s);
    if s.up then t.(k := Diffed(u, t.k, old', new')) else t
  }

  function AfterAdd(u: Setup, s: State, c: Client): State {
    Reapplied(u, s.(rows := s.rows + [c], nextId := s.nextId + 1, enabled := true), None, Some(c))
  }

  function AfterUpdate(u: Setup, s: State, req: Client): State {
    var c := req.(forwardedPorts := Canonical(req.forwardedPorts));
    var t := s.(rows := Saved(s.rows, c), nextId := if c.id >= s.nextId then c.id + 1 else s.nextId);
    if s.enabled then Reapplied(u, t, Find(s.rows, c.id), Some(c)) else t
  }

  function AfterDelete(u: Setup, s: State, id: int): State {
    if Find(s.rows, id).None? then s
    else
      var t := s.(rows := Without(s.rows, id));
      if s.enabled then Reapplied(u, t, Find(s.rows, id), None) else t
  }

  function AfterToggle(u: Setup, s: State, id: int, enable: bool): State {
    match Find(s.rows, id)
    case None => s
    case Some(c) => AfterUpdate(u, s, c.(enable := enable))
  }

  /** Enabling brings the interface up, disabling runs the PostDown hook of the file on disk. */
  function AfterSwitch(u: Setup, s: State, on: bool): State {
    if on then Configured(u, s.(enabled := true)) else TakenDown(u, s.(enabled := false))
  }

  /** awg-quick down, by the service or by hand: without an interface it fails. */
  function TakenDown(u: Setup, s: State): State {
    if s.up then s.(up := false, k := ExecAll(HookReader.HookCommands(s.conf, "PostDown"), s.k)) else s
  }

  // ---------- the table and its rules ----------

  function TableRules(u: Setup, rows: seq<Client>): seq<Rule> {
    AllForwardRules(ExternalName(u.server, u.detected), TunnelName(u.server), rows)
  }

  lemma TableRulesLast(u: Setup, rows: seq<Client>, c: Client)
    ensures TableRules(u, rows + [c]) == TableRules(u, rows) + Forwards(u, c) && TableRules(u, []) == []
  {
    hide ForwardRules;
    assert (rows + [c])[..|rows|] == rows;
  }

  lemma Exchange(a: multiset<Rule>, b: multiset<Rule>, x: multiset<Rule>, y: multiset<Rule>, z: multiset<Rule>)
    requires a + x == b + y
    ensures (a + z) + x == (b + z) + y
  {
    assert (a + z) + x == (a + x) + z && (b + z) + y == (b + y) + z;
  }

  /** Saving a row exchanges its rules for those of the row it replaces. */
  lemma {:induction false} SavedRules(u: Setup, rows: seq<Client>, c: Client)
    requires Sorted(rows)
    ensures multiset(TableRules(u, Saved(rows, c))) + multiset(ForwardsOf(u, Find(rows, c.id)))
         == multiset(TableRules(u, rows)) + multiset(Forwards(u, c))
  {
    hide TableRules, Forwards;
    if rows == [] {
      TableRulesLast(u, rows, c);
    } else {
      var front, last := rows[..|rows| - 1], rows[|rows| - 1];
      assert rows == front + [last];
      TableRulesLast(u, front, last);
      if last.id < c.id {
        TableRulesLast(u, rows, c);
        NotBelow(rows, c.id);
      } else if last.id == c.id {
        TableRulesLast(u, front, c);
        Exchange(multiset(TableRules(u, front)), multiset(TableRules(u, front)), multiset{}, multiset{},
                 multiset(Forwards(u, c)));
      } else {
        SavedRules(u, front, c);
        TableRulesLast(u, Saved(front, c), last);
        Exchange(multiset(TableRules(u, Saved(front, c))), multiset(TableRules(u, front)),
                 multiset(ForwardsOf(u, Find(front, c.id))), multiset(Forwards(u, c)), multiset(Forwards(u, last)));
      }
    }
  }

  /** Deleting a row takes its rules away. */
  lemma {:induction false} WithoutRules(u: Setup, rows: seq<Client>, id: int)
    requires Sorted(rows)
    ensures multiset(TableRules(u, Without(rows, id))) + multiset(ForwardsOf(u, Find(rows, id)))
         == multiset(TableRules(u, rows))
  {
    hide TableRules, Forwards;
    if rows == [] {
      TableRulesNone(u);
    } else {
      var front, last := rows[..|rows| - 1], rows[|rows| - 1];
      assert rows == front + [last];
      TableRulesLast(u, front, last);
      if last.id != id {
        WithoutRules(u, front, id);
        TableRulesLast(u, Without(front, id), last);
        Exchange(multiset(TableRules(u, Without(front, id))), multiset(TableRules(u, front)),
                 multiset(ForwardsOf(u, Find(front, id))), multiset{}, multiset(Forwards(u, last)));
      }
    }
  }

  lemma TableRulesNone(u: Setup)
    ensures TableRules(u, []) == []
  {}

  ghost predicate Below(rows: seq<Client>, hi: int) { forall i :: 0 <= i < |rows| ==> rows[i].id < hi }

  lemma {:induction false} SavedKeepsOrder(rows: seq<Client>, c: Client, hi: int)
    requires Sorted(rows) && Below(rows, hi) && c.id < hi
    ensures Sorted(Saved(rows, c)) && Below(Saved(rows, c), hi)
  {
    if rows != [] && rows[|rows| - 1].id > c.id {
      var front, last := rows[..|rows| - 1], rows[|rows| - 1];
      SavedKeepsOrder(front, c, last.id);
      hide Saved;
    }
  }

  lemma {:induction false} WithoutKeepsOrder(rows: seq<Client>, id: int, hi: int)
    requires Sorted(rows) && Below(rows, hi)
    ensures Sorted(Without(rows, id)) && Below(Without(rows, id), hi)
  {
    if rows != [] && rows[|rows| - 1].id != id {
      var front, last := rows[..|rows| - 1], rows[|rows| - 1];
      WithoutKeepsOrder(front, id, last.id);
    }
  }

  lemma {:induction false} NotBelow(rows: seq<Client>, id: int)
    requires forall i :: 0 <= i < |rows| ==> rows[i].id != id
    ensures Find(rows, id).None?
  {
    if rows != [] { NotBelow(rows[..|rows| - 1], id); }
  }

  // ---------- live rules equal a fresh bring-up ----------

  function Rest(u: Setup): seq<Rule> {
    var ext, name := ExternalName(u.server, u.detected), TunnelName(u.server);
    BaseRules(u.server, ext, name)
    + (if u.server.ipv6Enabled then Ipv6Rules(ExternalName6(u.server, u.detected), name) else [])
  }

  /** PostUp appends the table's forwarding rules between rules that do not depend on the table. */
  lemma HookRules(u: Setup, rows: seq<Client>)
    ensures Appended(UpCommands(u.server, rows, u.detected))
         == Rest(u) + TableRules(u, rows) + Appended(XrayUp(u.server, TunnelName(u.server)))
  {
    hide BaseRules, Ipv6Rules, Proxies, Appended, AllForwardRules, XrayUp, Appends, Adds;
    var s, ext, name, ext6 := u.server, ExternalName(u.server, u.detected), TunnelName(u.server),
      ExternalName6(u.server, u.detected);
    var base, forwards := Appends(BaseRules(s, ext, name)), Appends(TableRules(u, rows));
    var up6 := if s.ipv6Enabled then Ipv6Up(rows, ext6, name) else [];
    var ip := [Sysctl("net.ipv4.ip_forward")];
    EffectOfAppends(BaseRules(s, ext, name));
    EffectOfAppends(TableRules(u, rows));
    AppendedNone("net.ipv4.ip_forward");
    Ipv6Appends(rows, ext6, name);
    EffectsAppend(base, up6);
    EffectsAppend(base + up6, ip);
    EffectsAppend(base + up6 + ip, forwards);
    EffectsAppend(base + up6 + ip + forwards, XrayUp(s, name));
  }

  lemma AppendedNone(key: string)
    ensures Appended([Sysctl(key)]) == [] && Appended([]) == []
  {
    assert [Sysctl(key)][1..] == [];
  }

  lemma Ipv6Appends(rows: seq<Client>, ext6: string, name: string)
    ensures Appended(Ipv6Up(rows, ext6, name)) == Ipv6Rules(ext6, name)
  {
    hide Ipv6Rules, Proxies, Appended, Appends, Adds;
    var a, b := Sysctl("net.ipv6.conf.all.forwarding"), Sysctl("net.ipv6.conf." + ext6 + ".proxy_ndp");
    EffectOfAppends(Ipv6Rules(ext6, name));
    EffectOfAdds(Proxies(rows, ext6));
    AppendedNone(a.key);
    AppendedNone(b.key);
    EffectsAppend([a], [b]);
    assert [a] + [b] == [a, b];
    EffectsAppend(Appends(Ipv6Rules(ext6, name)), [a, b]);
    EffectsAppend(Appends(Ipv6Rules(ext6, name)) + [a, b], Adds(Proxies(rows, ext6)));
  }

  /** What the kernel holds beyond base: nothing while the tunnel is down, the rules of a fresh PostUp for the
      current table while it is up. */
  ghost predicate InStep(u: Setup, s: State, base: multiset<Rule>) {
    multiset(s.k.rules) == base + RulesLeft(UpCommands(u.server, s.rows, u.detected), s.up)
  }

  ghost predicate Inv(u: Setup, s: State, base: multiset<Rule>) {
    Sorted(s.rows) && Below(s.rows, s.nextId)
    && (s.up ==> s.enabled && s.conf == FileFor(u, s.rows)) && InStep(u, s, base)
  }

  /** The file for the table holds the default hooks, and the shell reads them as what they are meant to be. */
  ghost predicate Runs(u: Setup, rows: seq<Client>) { HookReader.HooksRun(u.server, rows, u.detected) }

  lemma WhatRuns(u: Setup, rows: seq<Client>)
    requires Runs(u, rows)
    ensures HookReader.HookCommands(FileFor(u, rows), "PostUp") == UpCommands(u.server, rows, u.detected)
    ensures HookReader.HookCommands(FileFor(u, rows), "PostDown") == DownCommands(u.server, rows, u.detected)
  {
    hide UpCommands, DownCommands, QuickConfig.ConfigText, HookReader.HookCommands;
  }

  lemma DiffRules(u: Setup, k: Kernel, old': Option<Client>, new': Option<Client>)
    requires multiset(ForwardsOf(u, old')) <= multiset(k.rules)
    ensures multiset(Diffed(u, k, old', new').rules)
         == multiset(k.rules) - multiset(ForwardsOf(u, old')) + multiset(ForwardsOf(u, new'))
  {
    hide ForwardsOf, Appends, Deletes, ExecAll, OwnRules, Appended, Firewall.Deleted;
    var gone, come := ForwardsOf(u, old'), ForwardsOf(u, new');
    var mid := ExecAll(Deletes(gone), k);
    EffectOfDeletes(gone);
    EffectOfAppends(come);
    ExecFollowsSteps(Deletes(gone), k);
    Removing(Deletes(gone), multiset(k.rules), multiset(gone));
    ExecFollowsSteps(Appends(come), mid);
    Installing(Appends(come), multiset(mid.rules));
  }

  lemma ConfiguredStep(u: Setup, s: State, base: multiset<Rule>)
    requires Sorted(s.rows) && Below(s.rows, s.nextId) && s.enabled && (!s.up ==> multiset(s.k.rules) == base)
    requires Runs(u, s.rows)
    ensures var t := Configured(u, s);
            t.up && t.enabled && t.conf == FileFor(u, s.rows) && t.rows == s.rows && t.nextId == s.nextId
            && (s.up ==> t.k == s.k) && (!s.up ==> Inv(u, t, base))
  {
    hide UpCommands, DownCommands, ExecAll, OwnRules, Appended, Sorted, Below, Firewall.Deleted,
         Firewall.Added, Removed, FileFor, HookReader.HookCommands, Runs;
    WhatRuns(u, s.rows);
    var up := UpCommands(u.server, s.rows, u.detected);
    HooksMirror(u.server, s.rows, u.detected);
    Installing(up, multiset(s.k.rules));
    ExecFollowsSteps(up, s.k);
  }

  /** Changing the table and applying the difference keeps the kernel in step. */
  lemma DiffKeepsStep(u: Setup, s: State, rows: seq<Client>, old': Option<Client>,
      new': Option<Client>, base: multiset<Rule>)
    requires s.up && InStep(u, s, base)
    requires multiset(TableRules(u, rows)) + multiset(ForwardsOf(u, old'))
          == multiset(TableRules(u, s.rows)) + multiset(ForwardsOf(u, new'))
    requires multiset(ForwardsOf(u, old')) <= multiset(TableRules(u, s.rows))
    ensures InStep(u, s.(rows := rows, k := Diffed(u, s.k, old', new')), base)
  {
    hide ForwardsOf, TableRules, Diffed, UpCommands, Appended, Rest, XrayUp;
    HookRules(u, s.rows);
    HookRules(u, rows);
    var x := Appended(XrayUp(u.server, TunnelName(u.server)));
    Reshuffle(multiset(s.k.rules), base, Rest(u), x, TableRules(u, s.rows), TableRules(u, rows),
              ForwardsOf(u, old'), ForwardsOf(u, new'));
    DiffRules(u, s.k, old', new');
  }

  lemma Reshuffle(k: multiset<Rule>, base: multiset<Rule>, a: seq<Rule>, x: seq<Rule>, t: seq<Rule>, t': seq<Rule>,
      gone: seq<Rule>, come: seq<Rule>)
    requires k == base + multiset(a + t + x) && multiset(gone) <= multiset(t)
    requires multiset(t') + multiset(gone) == multiset(t) + multiset(come)
    ensures multiset(gone) <= k && k - multiset(gone) + multiset(come) == base + multiset(a + t' + x)
  {
    assert multiset(a + t + x) == multiset(a) + multiset(t) + multiset(x);
    assert multiset(a + t' + x) == multiset(a) + multiset(t') + multiset(x);
    Cancel(multiset(t'), multiset(gone), multiset(t), multiset(come));
  }

  lemma Cancel(t': multiset<Rule>, gone: multiset<Rule>, t: multiset<Rule>, come: multiset<Rule>)
    requires t' + gone == t + come && gone <= t
    ensures t' == t - gone + come
  {
    assert t' == (t' + gone) - gone;
    assert (t + come) - gone == t - gone + come;
  }

  lemma {:induction false} FoundIsInTable(u: Setup, rows: seq<Client>, id: int)
    ensures multiset(ForwardsOf(u, Find(rows, id))) <= multiset(TableRules(u, rows))
  {
    hide TableRules, Forwards;
    if rows != [] {
      var front, last := rows[..|rows| - 1], rows[|rows| - 1];
      assert rows == front + [last];
      TableRulesLast(u, front, last);
      FoundIsInTable(u, front, id);
    }
  }

  /** A change of the table with its diff, on an enabled server whose interface is up or missing. */
  lemma ReappliedKeepsInv(u: Setup, s: State, t: State, old': Option<Client>,
      new': Option<Client>, base: multiset<Rule>)
    requires Inv(u, s, base) && t.enabled && t.up == s.up && t.k == s.k && t.conf == s.conf
    requires Sorted(t.rows) && Below(t.rows, t.nextId)
    requires multiset(TableRules(u, t.rows)) + multiset(ForwardsOf(u, old'))
          == multiset(TableRules(u, s.rows)) + multiset(ForwardsOf(u, new'))
    requires multiset(ForwardsOf(u, old')) <= multiset(TableRules(u, s.rows)) && Runs(u, t.rows)
    ensures Inv(u, Reapplied(u, t, old', new'), base)
  {
    hide Diffed, ForwardsOf, TableRules, UpCommands, Configured, RulesLeft, FileFor, Runs;
    if s.up {
      ConfiguredStep(u, t, base);
      DiffKeepsStep(u, s, t.rows, old', new', base);
    } else {
      DownIsBare(u, s, base);
      ConfiguredStep(u, t, base);
    }
  }

  lemma AddKeepsInv(u: Setup, s: State, c: Client, base: multiset<Rule>)
    requires Inv(u, s, base) && c.id == s.nextId && Runs(u, s.rows + [c])
    ensures Inv(u, AfterAdd(u, s, c), base)
  {
    hide Reapplied, ForwardsOf, TableRules, RulesLeft, UpCommands, FileFor, Runs;
    var t := s.(rows := s.rows + [c], nextId := s.nextId + 1, enabled := true);
    TableRulesLast(u, s.rows, c);
    NoForwards(u, c);
    ReappliedKeepsInv(u, s, t, None, Some(c), base);
  }

  lemma NoForwards(u: Setup, c: Client)
    ensures ForwardsOf(u, None) == [] && ForwardsOf(u, Some(c)) == Forwards(u, c)
  {}

  lemma DownIsBare(u: Setup, s: State, base: multiset<Rule>)
    requires Inv(u, s, base) && !s.up
    ensures multiset(s.k.rules) == base
  {}

  lemma UpdateKeepsInv(u: Setup, s: State, req: Client, base: multiset<Rule>)
    requires Inv(u, s, base) && Runs(u, AfterUpdate(u, s, req).rows)
    ensures Inv(u, AfterUpdate(u, s, req), base)
  {
    hide Reapplied, ForwardsOf, TableRules, UpCommands, RulesLeft, Canonical, Find, Saved, FileFor, Runs;
    var c := req.(forwardedPorts := Canonical(req.forwardedPorts));
    var t := s.(rows := Saved(s.rows, c), nextId := if c.id >= s.nextId then c.id + 1 else s.nextId);
    SavedKeepsOrder(s.rows, c, t.nextId);
    if s.enabled {
      SavedRules(u, s.rows, c);
      FoundIsInTable(u, s.rows, c.id);
      NoForwards(u, c);
      ReappliedKeepsRows(u, t, Find(s.rows, c.id), Some(c));
      ReappliedKeepsInv(u, s, t, Find(s.rows, c.id), Some(c), base);
    } else {
      DownIsBare(u, s, base);
      StillBare(u, s, t.rows, base);
    }
  }

  lemma ReappliedKeepsRows(u: Setup, s: State, old': Option<Client>, new': Option<Client>)
    ensures Reapplied(u, s, old', new').rows == s.rows
  {
    hide Diffed, FileFor, HookReader.HookCommands;
  }

  lemma StillBare(u: Setup, s: State, rows: seq<Client>, base: multiset<Rule>)
    requires !s.up && multiset(s.k.rules) == base
    ensures InStep(u, s.(rows := rows), base)
  {}

  lemma DeleteKeepsInv(u: Setup, s: State, id: int, base: multiset<Rule>)
    requires Inv(u, s, base) && Runs(u, AfterDelete(u, s, id).rows)
    ensures Inv(u, AfterDelete(u, s, id), base)
  {
    hide Reapplied, ForwardsOf, TableRules, UpCommands, RulesLeft, Find, Without, FileFor, Runs;
    WithoutKeepsOrder(s.rows, id, s.nextId);
    if Find(s.rows, id).Some? {
      if s.enabled {
        WithoutRules(u, s.rows, id);
        FoundIsInTable(u, s.rows, id);
        NoForwards(u, Find(s.rows, id).value);
        ReappliedKeepsRows(u, s.(rows := Without(s.rows, id)), Find(s.rows, id), None);
        ReappliedKeepsInv(u, s, s.(rows := Without(s.rows, id)), Find(s.rows, id), None, base);
      } else {
        DownIsBare(u, s, base);
        StillBare(u, s, Without(s.rows, id), base);
      }
    }
  }

  lemma TakenDownKeepsInv(u: Setup, s: State, enabled: bool, base: multiset<Rule>)
    requires Inv(u, s, base) && (enabled ==> s.enabled) && Runs(u, s.rows)
    ensures Inv(u, TakenDown(u, s.(enabled := enabled)), base)
  {
    hide UpCommands, DownCommands, ExecAll, OwnRules, Appended, Sorted, Below, Firewall.Deleted,
         Firewall.Added, Removed, FileFor, HookReader.HookCommands, Runs;
    if s.up {
      WhatRuns(u, s.rows);
      var up, down := UpCommands(u.server, s.rows, u.detected), DownCommands(u.server, s.rows, u.detected);
      HooksMirror(u.server, s.rows, u.detected);
      ExecFollowsSteps(down, s.k);
      Removing(down, multiset(s.k.rules), multiset(Appended(up)));
    }
  }

  lemma DownKeepsInv(u: Setup, s: State, base: multiset<Rule>)
    requires Inv(u, s, base) && Runs(u, s.rows)
    ensures Inv(u, TakenDown(u, s), base)
  {
    hide Inv, TakenDown, Runs;
    TakenDownKeepsInv(u, s, s.enabled, base);
    assert s.(enabled := s.enabled) == s;
  }

  lemma SwitchKeepsInv(u: Setup, s: State, on: bool, base: multiset<Rule>)
    requires Inv(u, s, base) && Runs(u, s.rows)
    ensures Inv(u, AfterSwitch(u, s, on), base)
  {
    hide UpCommands, TakenDown, RulesLeft, Configured, FileFor, Runs;
    if on {
      if !s.up { DownIsBare(u, s, base); }
      ConfiguredStep(u, s.(enabled := true), base);
    } else {
      TakenDownKeepsInv(u, s, false, base);
    }
  }

  // ---------- addresses ----------

  /** No two rows, and no row and the server, share an IPv4 address. */
  ghost predicate Distinct4(u: Setup, rows: seq<Client>) {
    (forall i, j :: 0 <= i < j < |rows| ==> StripMask(rows[i].ipv4Address) != StripMask(rows[j].ipv4Address))
    && (u.server.ipv4Address != "" ==>
          forall i :: 0 <= i < |rows| ==> StripMask(rows[i].ipv4Address) != StripMask(u.server.ipv4Address))
  }

  /** Nor an IPv6 address, among the rows that have one. */
  ghost predicate Distinct6(u: Setup, rows: seq<Client>) {
    (forall i, j :: 0 <= i < j < |rows| && rows[i].ipv6Address != "" && rows[j].ipv6Address != "" ==>
      u.notation.parse(StripMask(rows[i].ipv6Address)) != u.notation.parse(StripMask(rows[j].ipv6Address)))
    && (u.server.ipv6Address != "" ==>
          forall i :: 0 <= i < |rows| && rows[i].ipv6Address != "" ==>
            u.notation.parse(StripMask(rows[i].ipv6Address)) != u.notation.parse(StripMask(u.server.ipv6Address)))
  }

  function Addresses4(rows: seq<Client>): (a: seq<string>)
    ensures |a| == |rows| && forall i :: 0 <= i < |rows| ==> a[i] == rows[i].ipv4Address
  {
    if rows == [] then [] else Addresses4(rows[..|rows| - 1]) + [rows[|rows| - 1].ipv4Address]
  }

  function Addresses6(rows: seq<Client>): (a: seq<string>) {
    if rows == [] then []
    else
      Addresses6(rows[..|rows| - 1])
      + (if rows[|rows| - 1].ipv6Address != "" then [rows[|rows| - 1].ipv6Address] else [])
  }

  lemma {:induction false} InAddresses6(rows: seq<Client>, i: nat)
    requires i < |rows| && rows[i].ipv6Address != ""
    ensures exists j :: 0 <= j < |Addresses6(rows)| && Addresses6(rows)[j] == rows[i].ipv6Address
  {
    var n := |rows| - 1;
    if i < n {
      InAddresses6(rows[..n], i);
      var j :| 0 <= j < |Addresses6(rows[..n])| && Addresses6(rows[..n])[j] == rows[i].ipv6Address;
      assert Addresses6(rows)[j] == rows[i].ipv6Address;
    } else {
      assert Addresses6(rows)[|Addresses6(rows)| - 1] == rows[i].ipv6Address;
    }
  }

  /** An address as AllocateIPv4 answers it. */
  ghost predicate Allocated4(u: Setup, rows: seq<Client>, ipv4: string) {
    u.pool4.Pool4?
    && exists off: nat :: LowestFree4(u.pool4, u.server.ipv4Address, Addresses4(rows), off)
                          && Answers4(ipv4, u.pool4.network + off)
  }

  ghost predicate Allocated6(u: Setup, rows: seq<Client>, ipv6: string) {
    u.pool6.Pool6?
    && exists off: nat :: LowestFree6(u.pool6, u.server.ipv6Address, Addresses6(rows), u.notation, off)
                          && u.pool6.network + off < TWO128 && ipv6 == u.notation.format(u.pool6.network + off) + "/128"
  }

  lemma NewRowIsDistinct4(u: Setup, rows: seq<Client>, c: Client)
    requires Distinct4(u, rows) && Allocated4(u, rows, c.ipv4Address)
    ensures Distinct4(u, rows + [c])
  {
    hide StripMask, ReadQuad, Pow2, Addresses4;
    var used := Addresses4(rows);
    var off: nat :| LowestFree4(u.pool4, u.server.ipv4Address, used, off)
      && Answers4(c.ipv4Address, u.pool4.network + off);
    forall i | 0 <= i < |rows| ensures StripMask(rows[i].ipv4Address) != StripMask(c.ipv4Address) {
      assert used[i] == rows[i].ipv4Address && !ReadsAs4(used[i], u.pool4.network + off);
    }
  }

  lemma NewRowIsDistinct6(u: Setup, rows: seq<Client>, c: Client)
    requires Faithful(u.notation) && Distinct6(u, rows) && Allocated6(u, rows, c.ipv6Address)
    ensures Distinct6(u, rows + [c])
  {
    hide StripMask, Pow2, Addresses6, Faithful;
    var as6 := Addresses6(rows);
    var off: nat :| LowestFree6(u.pool6, u.server.ipv6Address, as6, u.notation, off)
                    && u.pool6.network + off < TWO128
                    && c.ipv6Address == u.notation.format(u.pool6.network + off) + "/128";
    NewAddressIsUnused(u.pool6, u.server.ipv6Address, as6, u.notation, off, 0);
    forall i | 0 <= i < |rows| && rows[i].ipv6Address != ""
      ensures u.notation.parse(StripMask(rows[i].ipv6Address)) != u.notation.parse(StripMask(c.ipv6Address))
    {
      InAddresses6(rows, i);
      var j :| 0 <= j < |as6| && as6[j] == rows[i].ipv6Address;
      NewAddressIsUnused(u.pool6, u.server.ipv6Address, as6, u.notation, off, j);
    }
  }

  lemma WithoutLast(rows: seq<Client>, id: int)
    requires rows != []
    ensures var n := |rows| - 1;
            Without(rows, id) == if rows[n].id == id then rows[..n] else Without(rows[..n], id) + [rows[n]]
  {}

  lemma {:induction false} WithoutIsCut(rows: seq<Client>, id: int) returns (k: nat)
    ensures k <= |rows|
    ensures Without(rows, id) == if k < |rows| then rows[..k] + rows[k + 1..] else rows
  {
    if rows == [] {
      return 0;
    }
    hide Without;
    var n := |rows| - 1;
    WithoutLast(rows, id);
    if rows[n].id == id {
      return n;
    }
    k := WithoutIsCut(rows[..n], id);
    if k == n {
      assert rows[..n] + [rows[n]] == rows;
      return |rows|;
    }
    CutBeforeLast(rows, k);
  }

  lemma CutBeforeLast(rows: seq<Client>, k: nat)
    requires k < |rows| - 1
    ensures var n := |rows| - 1;
            rows[..n][..k] + rows[..n][k + 1..] + [rows[n]] == rows[..k] + rows[k + 1..]
  {}

  lemma CutStaysDistinct(u: Setup, rows: seq<Client>, id: int)
    ensures Distinct4(u, rows) ==> Distinct4(u, Without(rows, id))
    ensures Distinct6(u, rows) ==> Distinct6(u, Without(rows, id))
  {
    hide StripMask, Without;
    var k := WithoutIsCut(rows, id);
  }

  /** Saving a row under an id in the table leaves every other row where it is. */
  lemma {:induction false} SavedInPlace(rows: seq<Client>, c: Client) returns (k: nat)
    requires Sorted(rows) && Find(rows, c.id).Some?
    ensures k < |rows| && rows[k] == Find(rows, c.id).value && Saved(rows, c) == rows[k := c]
  {
    var n := |rows| - 1;
    if rows[n].id == c.id {
      k := n;
    } else {
      k := SavedInPlace(rows[..n], c);
      assert rows[..n][k := c] + [rows[n]] == rows[k := c];
    }
  }

  /** An edit of a stored row that leaves its addresses alone; a toggle is one. */
  predicate KeepsAddresses(rows: seq<Client>, req: Client) {
    var c := Find(rows, req.id);
    c.Some? && c.value.ipv4Address == req.ipv4Address && c.value.ipv6Address == req.ipv6Address
  }

  lemma EditKeepsDistinct(u: Setup, s: State, req: Client)
    requires Sorted(s.rows) && KeepsAddresses(s.rows, req)
    ensures var rows := AfterUpdate(u, s, req).rows;
            (Distinct4(u, s.rows) ==> Distinct4(u, rows)) && (Distinct6(u, s.rows) ==> Distinct6(u, rows))
  {
    hide StripMask, Canonical, Saved, Diffed, Configured;
    var d := req.(forwardedPorts := Canonical(req.forwardedPorts));
    var k := SavedInPlace(s.rows, d);
    ConfiguredKeepsRows(u, s.(rows := Saved(s.rows, d), nextId := if d.id >= s.nextId then d.id + 1 else s.nextId));
    assert AfterUpdate(u, s, req).rows == s.rows[k := d];
    SameAddressesDistinct(u, s.rows, s.rows[k := d]);
  }

  lemma SameAddressesDistinct(u: Setup, a: seq<Client>, b: seq<Client>)
    requires |a| == |b|
    requires forall i :: 0 <= i < |a| ==> a[i].ipv4Address == b[i].ipv4Address && a[i].ipv6Address == b[i].ipv6Address
    ensures (Distinct4(u, a) ==> Distinct4(u, b)) && (Distinct6(u, a) ==> Distinct6(u, b))
  {
    hide StripMask;
  }

  lemma ConfiguredKeepsRows(u: Setup, s: State)
    ensures Configured(u, s).rows == s.rows
  {}

  lemma {:induction false} FindHasId(rows: seq<Client>, id: int)
    ensures Find(rows, id).Some? ==> Find(rows, id).value.id == id
  {
    if rows != [] { FindHasId(rows[..|rows| - 1], id); }
  }

  // ---------- runs ----------

  /** Operations that succeed (a failed one changes nothing), and an interface that is taken down behind the service's
      back. */
  datatype Step =
    | Add(req: Client, ipv4: string, ipv6: string)
    | Update(req: Client)
    | Delete(id: int)
    | Toggle(id: int, enable: bool)
    | Switch(on: bool)
    | Down

  predicate AllocatesIPv6(u: Setup) { u.server.ipv6Enabled && u.hasPool6 }

  ghost predicate Enabled(u: Setup, s: State, step: Step) {
    match step
    case Add(req, ipv4, ipv6) =>
      Allocated4(u, s.rows, ipv4) && if AllocatesIPv6(u) then Allocated6(u, s.rows, ipv6) else ipv6 == req.ipv6Address
    case _ => true
  }

  function Next(u: Setup, s: State, step: Step): State {
    match step
    case Add(req, ipv4, ipv6) => AfterAdd(u, s, NewRow(u, req, s.nextId, ipv4, ipv6))
    case Update(req) => AfterUpdate(u, s, req)
    case Delete(id) => AfterDelete(u, s, id)
    case Toggle(id, enable) => AfterToggle(u, s, id, enable)
    case Switch(on) => AfterSwitch(u, s, on)
    case Down => TakenDown(u, s)
  }

  /** An empty table and a tunnel that is down, over any kernel. */
  predicate Begins(s: State) { s.rows == [] && !s.enabled && !s.up }

  ghost predicate IsRun(u: Setup, states: seq<State>, steps: seq<Step>) {
    |states| == |steps| + 1 && Begins(states[0])
    && forall i :: 0 <= i < |steps| ==>
        Enabled(u, states[i], steps[i]) && states[i + 1] == Next(u, states[i], steps[i])
  }

  lemma NextKeepsInv(u: Setup, s: State, step: Step, base: multiset<Rule>)
    requires Inv(u, s, base) && Runs(u, s.rows) && Runs(u, Next(u, s, step).rows)
    ensures Inv(u, Next(u, s, step), base)
  {
    hide Inv, AfterAdd, AfterUpdate, AfterDelete, AfterSwitch, TakenDown, Runs;
    match step {
      case Add(req, ipv4, ipv6) =>
        var c := NewRow(u, req, s.nextId, ipv4, ipv6);
        AddedRows(u, s, c);
        AddKeepsInv(u, s, c, base);
      case Update(req) => UpdateKeepsInv(u, s, req, base);
      case Delete(id) => DeleteKeepsInv(u, s, id, base);
      case Toggle(id, enable) =>
        if Find(s.rows, id).Some? {
          UpdateKeepsInv(u, s, Find(s.rows, id).value.(enable := enable), base);
        }
      case Switch(on) => SwitchKeepsInv(u, s, on, base);
      case Down => DownKeepsInv(u, s, base);
    }
  }

  /** At every moment the hooks of the table's file are run as they are meant. */
  ghost predicate AlwaysRuns(u: Setup, states: seq<State>) {
    forall i :: 0 <= i < |states| ==> Runs(u, states[i].rows)
  }

  lemma {:induction false} RunKeepsInv(u: Setup, states: seq<State>, steps: seq<Step>, n: nat)
    requires IsRun(u, states, steps) && AlwaysRuns(u, states) && n <= |steps|
    ensures Inv(u, states[n], multiset(states[0].k.rules))
  {
    hide Inv, Next, Enabled, Runs;
    if n == 0 {
      BeginsInStep(u, states[0]);
    } else {
      RunKeepsInv(u, states, steps, n - 1);
      assert states[n - 1 + 1] == Next(u, states[n - 1], steps[n - 1]) && Runs(u, states[n].rows);
      NextKeepsInv(u, states[n - 1], steps[n - 1], multiset(states[0].k.rules));
    }
  }

  ghost predicate Ordered(s: State) { Sorted(s.rows) && Below(s.rows, s.nextId) }

  lemma NextKeepsOrder(u: Setup, s: State, step: Step)
    requires Ordered(s)
    ensures Ordered(Next(u, s, step))
  {
    hide Sorted, Below, Saved, Without, Diffed, FileFor, HookReader.HookCommands, Canonical, Find;
    match step {
      case Add(req, ipv4, ipv6) => AddedInOrder(s.rows, NewRow(u, req, s.nextId, ipv4, ipv6), s.nextId);
      case Update(req) => UpdateInOrder(u, s, req);
      case Delete(id) => WithoutKeepsOrder(s.rows, id, s.nextId);
      case Toggle(id, enable) =>
        if Find(s.rows, id).Some? { UpdateInOrder(u, s, Find(s.rows, id).value.(enable := enable)); }
      case Switch(_) =>
      case Down =>
    }
  }

  lemma AddedInOrder(rows: seq<Client>, c: Client, hi: int)
    requires Sorted(rows) && Below(rows, hi) && c.id == hi
    ensures Sorted(rows + [c]) && Below(rows + [c], hi + 1)
  {}

  lemma UpdateInOrder(u: Setup, s: State, req: Client)
    requires Ordered(s)
    ensures Ordered(AfterUpdate(u, s, req))
  {
    hide Sorted, Below, Saved, Diffed, FileFor, HookReader.HookCommands, Canonical, Find;
    var next := if req.id >= s.nextId then req.id + 1 else s.nextId;
    BelowMore(s.rows, s.nextId, next);
    SavedKeepsOrder(s.rows, req.(forwardedPorts := Canonical(req.forwardedPorts)), next);
  }

  lemma BelowMore(rows: seq<Client>, hi: int, higher: int)
    requires Below(rows, hi) && hi <= higher
    ensures Below(rows, higher)
  {}

  lemma {:induction false} RunKeepsOrder(u: Setup, states: seq<State>, steps: seq<Step>, n: nat)
    requires IsRun(u, states, steps) && n <= |steps|
    ensures Ordered(states[n])
  {
    hide Next, Enabled, Ordered;
    if n == 0 {
      NoRowsInOrder(states[0]);
    } else {
      RunKeepsOrder(u, states, steps, n - 1);
      NextKeepsOrder(u, states[n - 1], steps[n - 1]);
    }
  }

  lemma NoRowsInOrder(s: State)
    requires s.rows == []
    ensures Ordered(s)
  {}

  lemma BeginsInStep(u: Setup, s: State)
    requires Begins(s)
    ensures Inv(u, s, multiset(s.k.rules))
  {}

  /** After any run of additions, edits, toggles, deletions and interface switches: while the tunnel is up, the live
      rules are those a fresh PostUp for the current table would install over the kernel's own; while it is down,
      they are the kernel's own. */
  lemma IncrementalIsFromScratch(u: Setup, states: seq<State>, steps: seq<Step>)
    requires IsRun(u, states, steps) && AlwaysRuns(u, states)
    ensures var s := states[|steps|];
            multiset(s.k.rules)
            == multiset((if s.up then ExecAll(UpCommands(u.server, s.rows, u.detected), states[0].k)
                         else states[0].k).rules)
  {
    hide UpCommands, DownCommands, ExecAll, OwnRules, Appended, Sorted, Below, Next, Enabled, FileFor, Runs;
    RunKeepsInv(u, states, steps, |steps|);
    var s := states[|steps|];
    var up := UpCommands(u.server, s.rows, u.detected);
    HooksMirror(u.server, s.rows, u.detected);
    Installing(up, multiset(states[0].k.rules));
    ExecFollowsSteps(up, states[0].k);
  }

  /** As long as edits leave the addresses of their row alone, addresses stay distinct. */
  lemma {:induction false} AddressesStayDistinct(u: Setup, states: seq<State>, steps: seq<Step>, n: nat)
    requires IsRun(u, states, steps) && n <= |steps|
    requires forall i :: 0 <= i < |steps| && steps[i].Update? ==> KeepsAddresses(states[i].rows, steps[i].req)
    ensures Distinct4(u, states[n].rows)
    ensures AllocatesIPv6(u) && IsPrefix6(u.pool6) && Faithful(u.notation) ==> Distinct6(u, states[n].rows)
  {
    hide Ordered, Distinct4, Distinct6, Faithful, IsPrefix6, Allocated4, Allocated6, AfterAdd, AfterUpdate,
         AfterDelete, AfterSwitch, Find;
    if n == 0 {
      NoRowsAreDistinct(u);
    } else {
      AddressesStayDistinct(u, states, steps, n - 1);
      RunKeepsOrder(u, states, steps, n - 1);
      var s := states[n - 1];
      assert Enabled(u, s, steps[n - 1]);
      match steps[n - 1] {
        case Add(req, ipv4, ipv6) =>
          var c := NewRow(u, req, s.nextId, ipv4, ipv6);
          AddedRows(u, s, c);
          NewRowIsDistinct4(u, s.rows, c);
          if AllocatesIPv6(u) && IsPrefix6(u.pool6) && Faithful(u.notation) {
            NewRowIsDistinct6(u, s.rows, c);
          }
        case Delete(id) =>
          DeletedRows(u, s, id);
          CutStaysDistinct(u, s.rows, id);
        case Toggle(id, enable) =>
          OrderedIsSorted(s);
          FindHasId(s.rows, id);
          if Find(s.rows, id).Some? {
            EditKeepsDistinct(u, s, Find(s.rows, id).value.(enable := enable));
          }
        case Update(req) =>
          OrderedIsSorted(s);
          EditKeepsDistinct(u, s, req);
        case Switch(on) => SwitchedRows(u, s, on);
        case Down => SwitchedRows(u, s, false);
      }
    }
  }

  lemma OrderedIsSorted(s: State)
    requires Ordered(s)
    ensures Sorted(s.rows)
  {}

  lemma NoRowsAreDistinct(u: Setup)
    ensures Distinct4(u, []) && Distinct6(u, [])
  {}

  lemma AddedRows(u: Setup, s: State, c: Client)
    ensures AfterAdd(u, s, c).rows == s.rows + [c]
  {
    hide FileFor, HookReader.HookCommands, Diffed;
  }

  lemma DeletedRows(u: Setup, s: State, id: int)
    ensures AfterDelete(u, s, id).rows == s.rows || AfterDelete(u, s, id).rows == Without(s.rows, id)
  {
    hide FileFor, HookReader.HookCommands, Diffed, Without, Find;
  }

  lemma SwitchedRows(u: Setup, s: State, on: bool)
    ensures AfterSwitch(u, s, on).rows == s.rows && TakenDown(u, s).rows == s.rows
  {
    hide FileFor, HookReader.HookCommands;
  }
}
