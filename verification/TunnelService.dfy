/** The service object over the client table: each call changes the rows, the config and the kernel step by step. */
module TunnelService {
  import opened Options
  import opened Text
  import opened Firewall
  import opened PortForward
  import opened Tunnel
  import opened Hooks
  import opened Ipam
  import opened TunnelClients
  import HookReader
  import QuickConfig

  class Service {
    const u: Setup
    var rows: seq<Client>
    var nextId: int
    var enabled: bool
    // The system: the interface, the config file, the kernel.
    var up: bool
    var conf: string
    var k: Kernel

    function Value(): State
      reads this
    {
      State(rows, nextId, enabled, up, conf, k)
    }

    constructor (u: Setup, k: Kernel)
      ensures this.u == u && Begins(Value()) && this.k == k
    {
      this.u := u;
      rows, nextId, enabled, up, conf, this.k := [], 1, false, false, "", k;
    }

    /** portfwd.Apply and portfwd.Revoke: one iptables call per rule; a rule that is missing is only logged. */
    method RunIptables(rules: seq<Rule>, install: bool)
      modifies this`k
      ensures k == ExecAll(if install then Appends(rules) else Deletes(rules), old(k))
    {
      hide ExecAll, Appends, Deletes;
      ghost var before := k;
      ghost var cmds := if install then Appends(rules) else Deletes(rules);
      ExecNone(before);
      assert cmds[..0] == [];
      for i := 0 to |rules|
        invariant k == ExecAll(cmds[..i], before)
      {
        var cmd := if install then Append(rules[i]) else Command.Delete(rules[i]);
        ExecAllAppend(cmds[..i], [cmd], before);
        ExecOne(cmd, k);
        assert cmds[..i + 1] == cmds[..i] + [cmd];
        k := Exec(cmd, k);
      }
      assert cmds[..|rules|] == cmds;
    }

    method ApplyForwardingDiff(old': Option<Client>, new': Option<Client>)
      modifies this`k
      ensures k == Diffed(u, old(k), old', new')
    {
      hide ExecAll, Appends, Deletes, ClientRules, ParseResult;
      var iface, name := ExternalName(u.server, u.detected), TunnelName(u.server);
      if old'.Some? && old'.value.enable && old'.value.forwardedPorts != "" && old'.value.ipv4Address != "" {
        var specs := Parse(old'.value.forwardedPorts);
        RunIptables(ClientRules(iface, name, old'.value.ipv4Address, old'.value.uuid, specs), false);
      } else {
        NoAddressNoRules(u, old');
        NothingToRun(k);
      }
      ghost var mid := k;
      if new'.Some? && new'.value.enable && new'.value.forwardedPorts != "" && new'.value.ipv4Address != "" {
        var specs := Parse(new'.value.forwardedPorts);
        RunIptables(ClientRules(iface, name, new'.value.ipv4Address, new'.value.uuid, specs), true);
      } else {
        NoAddressNoRules(u, new');
        NothingToRun(k);
      }
    }

    method ApplyServerConfig()
      modifies this
      ensures Value() == Configured(u, old(Value()))
    {
      hide ExecAll, QuickConfig.ConfigText, HookReader.HookCommands;
      conf := QuickConfig.GenerateServerConfig(u.server, rows, u.detected);
      if !up {
        up := true;
        k := ExecAll(HookReader.HookCommands(conf, "PostUp"), k);
      }
    }

    /** Failed exactly when the id is malformed or in use, or a pool is invalid or exhausted. */
    method AddClient(req: Client, uuidOk: bool) returns (a: Answer)
      requires IsPrefix4(u.pool4) && IsPrefix6(u.pool6)
      modifies this
      ensures a.Failed? ==> Value() == old(Value())
      ensures a.Done? ==> exists ipv4, ipv6 ::
        Enabled(u, old(Value()), Step.Add(req, ipv4, ipv6))
        && Value() == Next(u, old(Value()), Step.Add(req, ipv4, ipv6))
      ensures a.Failed? <==>
        !uuidOk || HasUuid(old(rows), req.uuid) || NoRoom4(u, old(rows)) || (AllocatesIPv6(u) && NoRoom6(u, old(rows)))
    {
      hide Allocated4, Allocated6, NoRoom4, NoRoom6, Diffed, Canonical, Configured;
      if !uuidOk {
        return Failed;
      }
      for i := 0 to |rows|
        invariant forall j :: 0 <= j < i ==> rows[j].uuid != req.uuid
      {
        if rows[i].uuid == req.uuid {
          assert HasUuid(rows, req.uuid);
          return Failed;
        }
      }
      var ok, ipv4, ipv6 := Allocate(req);
      if !ok {
        return Failed;
      }
      ghost var s := Value();
      var c := NewRow(u, req, nextId, ipv4, ipv6);
      rows, nextId, enabled := rows + [c], nextId + 1, true;
      var wasUp := up;
      ApplyServerConfig();
      if wasUp {
        ApplyForwardingDiff(None, Some(c));
      }
      assert Value() == Next(u, s, Step.Add(req, ipv4, ipv6));
      return Done;
    }

    /** The new row's addresses: IPv6 is allocated only when enabled. */
    method Allocate(req: Client) returns (ok: bool, ipv4: string, ipv6: string)
      requires IsPrefix4(u.pool4) && IsPrefix6(u.pool6)
      ensures ok ==> Enabled(u, Value(), Step.Add(req, ipv4, ipv6))
      ensures !ok <==> NoRoom4(u, rows) || (AllocatesIPv6(u) && NoRoom6(u, rows))
    {
      hide Pow2, Limit6, Full4, Full6, Addresses4, Addresses6, LowestFree4, LowestFree6, Answers4;
      var used4, used6 := Used();
      ok, ipv4, ipv6 := false, "", req.ipv6Address;
      var v4 := AllocateIPv4(u.pool4, u.server.ipv4Address, used4);
      if !v4.Address? {
        return;
      }
      ipv4 := v4.value;
      if u.server.ipv6Enabled && u.hasPool6 {
        var v6 := AllocateIPv6(u.pool6, u.server.ipv6Address, used6, u.notation);
        if !v6.Address? {
          return;
        }
        ipv6 := v6.value;
      }
      ok := true;
    }

    /** The addresses in the table, as AddClient collects them. */
    method Used() returns (used4: seq<string>, used6: seq<string>)
      ensures used4 == Addresses4(rows) && used6 == Addresses6(rows)
    {
      used4, used6 := [], [];
      for i := 0 to |rows|
        invariant used4 == Addresses4(rows[..i]) && used6 == Addresses6(rows[..i])
      {
        assert rows[..i + 1][..i] == rows[..i];
        used4 := used4 + [rows[i].ipv4Address];
        if rows[i].ipv6Address != "" {
          used6 := used6 + [rows[i].ipv6Address];
        }
      }
      assert rows[..|rows|] == rows;
    }

    /** uuidOk says whether a non-empty id is well formed; an empty one is replaced by a generated id. */
    method UpdateClient(req: Client, uuidOk: bool, generated: string) returns (a: Answer)
      modifies this
      ensures a.Failed? <==> req.uuid != "" && !uuidOk
      ensures Value() == if a.Failed? then old(Value()) else Next(u, old(Value()), Step.Update(WithId(req, generated)))
    {
      hide Diffed, Canonical, Find, Saved, Configured;
      if req.uuid != "" && !uuidOk {
        return Failed;
      }
      var before := Find(rows, req.id);
      var ports := Normalize(req.forwardedPorts);
      var c := WithId(req, generated).(forwardedPorts := ports);
      rows := Saved(rows, c);
      nextId := if c.id >= nextId then c.id + 1 else nextId;
      if enabled {
        var wasUp := up;
        ApplyServerConfig();
        if wasUp {
          ApplyForwardingDiff(before, Some(c));
        }
      }
      return Done;
    }

    method DeleteClient(id: int) returns (a: Answer)
      modifies this
      ensures Value() == Next(u, old(Value()), Step.Delete(id))
      ensures a.Failed? <==> Find(old(rows), id).None?
    {
      hide Diffed, Find, Without;
      var client := Find(rows, id);
      if client.None? {
        return Failed;
      }
      rows := Without(rows, id);
      if enabled {
        var wasUp := up;
        ApplyServerConfig();
        if wasUp {
          ApplyForwardingDiff(client, None);
        }
      }
      return Done;
    }

    /** The stored row is saved again with the flag; uuidOk and generated are about its id, as in UpdateClient. */
    method ToggleClient(id: int, enable: bool, uuidOk: bool, generated: string) returns (a: Answer)
      modifies this
      ensures var c := Find(old(rows), id);
              && (a.Failed? <==> c.None? || (c.value.uuid != "" && !uuidOk))
              && (a.Failed? ==> Value() == old(Value()))
              && (a.Done? ==>
                    Value() == Next(u, old(Value()), Step.Update(WithId(c.value.(enable := enable), generated))))
              && (a.Done? && c.value.uuid != "" ==> Value() == Next(u, old(Value()), Step.Toggle(id, enable)))
    {
      hide AfterUpdate, Find;
      var client := Find(rows, id);
      if client.None? {
        return Failed;
      }
      a := UpdateClient(client.value.(enable := enable), uuidOk, generated);
    }

    method ToggleServer(on: bool)
      modifies this
      ensures Value() == Next(u, old(Value()), Step.Switch(on))
    {
      hide ExecAll, QuickConfig.ConfigText, HookReader.HookCommands;
      enabled := on;
      if on {
        ApplyServerConfig();
      } else if up {
        k := ExecAll(HookReader.HookCommands(conf, "PostDown"), k);
        up := false;
      }
    }
  }

  function WithId(req: Client, generated: string): Client {
    if req.uuid == "" then req.(uuid := generated) else req
  }

  predicate HasUuid(rows: seq<Client>, uuid: string) { exists i :: 0 <= i < |rows| && rows[i].uuid == uuid }

  ghost predicate NoRoom4(u: Setup, rows: seq<Client>) {
    u.pool4.Pool4? ==> Full4(u.pool4, u.server.ipv4Address, Addresses4(rows))
  }

  ghost predicate NoRoom6(u: Setup, rows: seq<Client>) {
    u.pool6.Pool6? ==> Full6(u.pool6, u.server.ipv6Address, Addresses6(rows), u.notation)
  }

  lemma ExecNone(k: Kernel)
    ensures ExecAll([], k) == k
  {}

  lemma ExecOne(cmd: Command, k: Kernel)
    ensures ExecAll([cmd], k) == Exec(cmd, k)
  {
    assert [cmd][1..] == [];
  }

  lemma NothingToRun(k: Kernel)
    ensures ExecAll(Appends([]), k) == k && ExecAll(Deletes([]), k) == k
  {}

  /** A client that is missing, disabled, without ports or without an address has no rules. */
  lemma NoAddressNoRules(u: Setup, c: Option<Client>)
    requires c.Some? ==> !c.value.enable || c.value.forwardedPorts == "" || c.value.ipv4Address == ""
    ensures ForwardsOf(u, c) == []
  {
    hide ParseResult, RuleSetOf;
    assert StripMask("") == "";
  }
}
