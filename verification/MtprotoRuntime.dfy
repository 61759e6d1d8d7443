/** The manager object: its methods change the fields step by step and refine the operations on values. */
module MtprotoRuntime {
  import opened Counters
  import opened MtprotoConfig
  import opened MtprotoManager
  import opened MtprotoTraffic

  class Manager {
    var procs: map<int, Managed>
    // The operating system as the manager sees it: running processes, the next pid, the config files.
    var live: set<nat>
    var next: nat
    var configs: map<int, string>

    function State(): World
      reads this
    {
      World(procs, live, next, configs)
    }

    constructor ()
      ensures State() == Init().w
    {
      procs, live, next, configs := map[], {}, 0, map[];
    }

    /** Stop and delete; a missing id is left alone. */
    method StopAndForget(id: int)
      modifies this
      ensures State() == Drop(old(State()), {id})
    {
      ghost var w := State();
      if id in procs {
        assert (set i | i in w.procs && i in {id} :: w.procs[i].pid) == {w.procs[id].pid};
        live := live - {procs[id].pid};
        procs := procs - {id};
      } else {
        assert Drop(w, {id}).live == w.live;
        assert w.procs - {id} == w.procs;
      }
    }

    method EnsureLocked(inst: Instance, start: Start, quote: Quote) returns (ok: bool)
      modifies this
      ensures State() == Ensured(old(State()), inst, start, quote)
      ensures ok == (Current(old(State()), inst) || start.Started?)
    {
      hide Rendered, Fingerprint, Drop;
      ghost var w := State();
      var fp := ComputeFingerprint(inst);
      if inst.id in procs {
        if procs[inst.id].fingerprint == fp && procs[inst.id].pid in live {
          procs := procs[inst.id := procs[inst.id].(tag := inst.tag)];
          return true;
        }
        StopAndForget(inst.id);
      } else {
        DropAbsent(w, inst.id);
      }
      assert State() == Drop(w, {inst.id});
      match start {
        case NoPort =>
          return false;
        case WriteFailed(left) =>
          configs := configs[inst.id := left];
          return false;
        case StartFailed(port) =>
          var text := RenderConfig(inst, port, quote);
          configs := configs[inst.id := text];
          return false;
        case Started(port) =>
          var text := RenderConfig(inst, port, quote);
          configs := configs[inst.id := text];
          var pid := next;
          live, next := live + {pid}, next + 1;
          procs := procs[inst.id := Managed(pid, inst.tag, fp, port, inst.multiUser,
                                            inst.ActiveClients(), ZERO, false, map[])];
          return true;
      }
    }

    /** Remove, and each removal of Reconcile and StopAll. */
    method Remove(id: int)
      modifies this
      ensures State() == DropFiles(old(State()), {id})
    {
      ghost var w := State();
      if id in procs {
        StopAndForget(id);
        configs := configs - {id};
        assert {id} * w.procs.Keys == {id};
      } else {
        DropAbsent(w, id);
        assert {id} * w.procs.Keys == {};
        assert w.configs - {} == w.configs;
      }
    }

    /** Removes every managed id in ids, in any order. */
    method RemoveAll(ids: set<int>)
      requires ids <= procs.Keys
      modifies this
      ensures State() == DropFiles(old(State()), ids)
    {
      hide DropFiles;
      ghost var w := State();
      var left, done := ids, {};
      DropNothing(w, {});
      while exists id :: id in left
        invariant left + done == ids && left !! done
        invariant State() == DropFiles(w, done)
        decreases left
      {
        var id :| id in left;
        Remove(id);
        DropOneMore(w, done, id);
        left, done := left - {id}, done + {id};
      }
      assert done == ids;
    }

    method EnsureEach(desired: seq<Instance>, starts: seq<Start>, quote: Quote)
      requires |starts| == |desired|
      modifies this
      ensures State() == EnsuredAll(old(State()), desired, starts, quote)
    {
      hide Ensured, EnsuredAll;
      ghost var m := State();
      EnsuredAllNone(m, [], quote);
      assert desired[..0] == [] && starts[..0] == [];
      for i := 0 to |desired|
        invariant State() == EnsuredAll(m, desired[..i], starts[..i], quote)
      {
        EnsuredAllLast(m, desired[..i + 1], starts[..i + 1], quote);
        assert desired[..i + 1][..i] == desired[..i] && starts[..i + 1][..i] == starts[..i];
        var _ := EnsureLocked(desired[i], starts[i], quote);
      }
      assert desired[..|desired|] == desired && starts[..|starts|] == starts;
    }

    method Reconcile(desired: seq<Instance>, starts: seq<Start>, quote: Quote)
      requires |starts| == |desired|
      modifies this
      ensures State() == Reconciled(old(State()), desired, starts, quote)
    {
      hide EnsuredAll, DropFiles;
      ghost var w := State();
      var want := {};
      for i := 0 to |desired|
        invariant want == Wanted(desired[..i]) && State() == w
      {
        assert desired[..i + 1][..i] == desired[..i];
        WantedLast(desired[..i + 1]);
        want := want + {desired[i].id};
      }
      assert desired[..|desired|] == desired;
      RemoveAll(procs.Keys - want);
      EnsureEach(desired, starts, quote);
    }

    method StopAll()
      modifies this
      ensures State() == DropFiles(old(State()), old(procs).Keys)
      ensures procs == map[]
    {
      RemoveAll(procs.Keys);
    }

    /** The running processes once each, in the map's iteration order. */
    method Snapshot() returns (snaps: seq<Snap>)
      ensures exists order :: RunningOrder(State(), order) && snaps == SnapsOf(procs, order)
    {
      snaps := [];
      ghost var order: seq<int> := [];
      var left := procs.Keys;
      while exists id :: id in left
        invariant left <= procs.Keys
        invariant forall i :: 0 <= i < |order| ==> order[i] in procs && order[i] !in left && procs[order[i]].pid in live
        invariant forall i, j :: 0 <= i < j < |order| ==> order[i] != order[j]
        invariant forall id :: id in procs && id !in left && procs[id].pid in live ==> id in order
        invariant snaps == SnapsOf(procs, order)
        decreases left
      {
        var id :| id in left;
        left := left - {id};
        if procs[id].pid in live {
          assert (order + [id])[..|order|] == order;
          snaps, order := snaps + [SnapOf(id, procs[id])], order + [id];
        }
      }
      assert RunningOrder(State(), order);
    }

    /** The deltas of one scraped process, and the write-back of its counters under the inbound's id. */
    method Collect(s: Snap, r: Reading) returns (out: seq<Traffic>)
      modifies this`procs
      ensures out == Deltas(s, r) && procs == WrittenBack(old(procs), s, r)
      ensures Told(s, r, out)
    {
      DeltasTell(s, r);
      match r {
        case Users(users, now) =>
          var newByClient;
          newByClient, out := UserDeltas(s, users, now);
          if s.id in procs {
            procs := procs[s.id := procs[s.id].(lastByClient := newByClient)];
          }
        case Totals(total) =>
          if s.id in procs {
            procs := procs[s.id := procs[s.id].(last := total, haveLast := true)];
          }
          out := TotalTraffic(s, total);
      }
    }
  }

  method UserDeltas(s: Snap, users: map<string, UserStat>, now: int)
    returns (newByClient: map<string, Counter>, out: seq<Traffic>)
    ensures newByClient == NewByClient(s.clients, users) && out == UsersTraffic(s, users, now, s.clients)
    ensures UsersTold(s, users, now, s.clients, out)
  {
    AllUsersTold(s, users, now, s.clients);
    hide UsersTraffic, NewByClient, HasId, UsersTold;
    newByClient, out := map[], [];
    NoUsers(s, users, now);
    for i := 0 to |s.clients|
      invariant newByClient == NewByClient(s.clients[..i], users)
      invariant out == UsersTraffic(s, users, now, s.clients[..i])
    {
      var c := s.clients[i];
      UsersTrafficLast(s, users, now, s.clients[..i + 1]);
      assert s.clients[..i + 1][..i] == s.clients[..i];
      NewByClientStep(s.clients, users, i);
      if c.id in users {
        var u := users[c.id];
        newByClient := newByClient[c.id := u.bytes];
        var d := ZERO;
        if c.id in s.lastByClient {
          d := Growth(u.bytes, s.lastByClient[c.id]);
        }
        var lastSeen := 0;
        if u.connections > 0 {
          lastSeen := now;
        }
        if d.up > 0 || d.down > 0 || lastSeen > 0 {
          out := out + [Traffic(s.tag, c.id, c.email, d, lastSeen)];
        }
      }
    }
    assert s.clients[..|s.clients|] == s.clients;
  }

  lemma NoUsers(s: Snap, users: map<string, UserStat>, now: int)
    ensures NewByClient(s.clients[..0], users) == map[] && UsersTraffic(s, users, now, s.clients[..0]) == []
  {}

  lemma NewByClientStep(cs: seq<ClientSecret>, users: map<string, UserStat>, i: nat)
    requires i < |cs|
    ensures NewByClient(cs[..i + 1], users)
         == if cs[i].id in users then NewByClient(cs[..i], users)[cs[i].id := users[cs[i].id].bytes]
            else NewByClient(cs[..i], users)
  {
    hide HasId;
    HasIdStep(cs, i);
  }

  lemma HasIdStep(cs: seq<ClientSecret>, i: nat)
    requires i < |cs|
    ensures forall c :: HasId(cs[..i + 1], c) <==> HasId(cs[..i], c) || cs[i].id == c
  {
    forall c ensures HasId(cs[..i + 1], c) <==> HasId(cs[..i], c) || cs[i].id == c {
      if HasId(cs[..i], c) {
        var k :| 0 <= k < i && cs[..i][k].id == c;
        assert cs[..i + 1][k].id == c;
      }
      if cs[i].id == c {
        assert cs[..i + 1][i].id == c;
      }
      if HasId(cs[..i + 1], c) {
        var k :| 0 <= k < i + 1 && cs[..i + 1][k].id == c;
        assert k == i || cs[..i][..][k].id == c;
      }
    }
  }

  lemma DropAbsent(w: World, id: int)
    requires id !in w.procs
    ensures Drop(w, {id}) == w
  {
    assert Drop(w, {id}).live == w.live;
    assert w.procs - {id} == w.procs;
  }

  lemma DropOneMore(w: World, done: set<int>, id: int)
    requires id in w.procs && id !in done
    ensures DropFiles(DropFiles(w, done), {id}) == DropFiles(w, done + {id})
  {
    var a, b := DropFiles(DropFiles(w, done), {id}), DropFiles(w, done + {id});
    assert a.procs == b.procs;
    assert a.live == b.live;
    assert a.configs == b.configs;
  }
}
