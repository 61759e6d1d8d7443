/** The manager of the MTProto sidecars: which processes run, for which inbound, with which config file. */
module MtprotoManager {
  import opened Counters
  import opened MtprotoConfig
  import opened Options

  /** pid names a process; a fresh one is drawn at every start. */
  datatype Managed = Managed(
    pid: nat,
    tag: string,
    fingerprint: string,
    statsPort: int,
    multiUser: bool,
    clients: seq<ClientSecret>,
    last: Counter,
    haveLast: bool,
    lastByClient: map<string, Counter>)

  /** live holds the running processes, next the first unused pid, configs the files on disk by inbound id. */
  datatype World = World(procs: map<int, Managed>, live: set<nat>, next: nat, configs: map<int, string>)

  /** What the operating system answers when a sidecar is started; a failed write leaves some text behind. */
  datatype Start = NoPort | WriteFailed(left: string) | StartFailed(port: int) | Started(port: int)

  // ---------- the operations on values ----------

  function Fresh(inst: Instance, pid: nat, port: int): Managed {
    Managed(pid, inst.tag, Fingerprint(inst), port, inst.multiUser, inst.ActiveClients(), ZERO, false, map[])
  }

  function Pids(w: World): set<nat> { set id | id in w.procs :: w.procs[id].pid }

  /** The given ids are stopped and forgotten. */
  function Drop(w: World, ids: set<int>): World {
    w.(procs := w.procs - ids, live := w.live - set id | id in w.procs && id in ids :: w.procs[id].pid)
  }

  function DropFiles(w: World, ids: set<int>): World {
    Drop(w, ids).(configs := w.configs - (ids * w.procs.Keys))
  }

  function Launch(w: World, inst: Instance, start: Start, quote: Quote): World {
    match start
    case NoPort => w
    case WriteFailed(left) => w.(configs := w.configs[inst.id := left])
    case StartFailed(port) => w.(configs := w.configs[inst.id := Rendered(inst, port, quote)])
    case Started(port) =>
      World(w.procs[inst.id := Fresh(inst, w.next, port)], w.live + {w.next}, w.next + 1,
            w.configs[inst.id := Rendered(inst, port, quote)])
  }

  /** The wanted process already runs with the wanted configuration. */
  predicate Current(w: World, inst: Instance) {
    inst.id in w.procs && w.procs[inst.id].fingerprint == Fingerprint(inst) && w.procs[inst.id].pid in w.live
  }

  function Ensured(w: World, inst: Instance, start: Start, quote: Quote): World {
    if Current(w, inst) then w.(procs := w.procs[inst.id := w.procs[inst.id].(tag := inst.tag)])
    else Launch(Drop(w, {inst.id}), inst, start, quote)
  }

  function EnsuredAll(w: World, desired: seq<Instance>, starts: seq<Start>, quote: Quote): World
    requires |starts| == |desired|
  {
    if desired == [] then w
    else
      var n := |desired| - 1;
      Ensured(EnsuredAll(w, desired[..n], starts[..n], quote), desired[n], starts[n], quote)
  }

  function Wanted(desired: seq<Instance>): (ids: set<int>)
    ensures forall id :: id in ids <==> exists k :: 0 <= k < |desired| && desired[k].id == id
  {
    set k | 0 <= k < |desired| :: desired[k].id
  }

  function Reconciled(w: World, desired: seq<Instance>, starts: seq<Start>, quote: Quote): World
    requires |starts| == |desired|
  {
    EnsuredAll(DropFiles(w, w.procs.Keys - Wanted(desired)), desired, starts, quote)
  }

  // ---------- what every operation keeps ----------

  /** Every managed entry has its own process, and no process runs outside the managed entries. */
  ghost predicate Inv(w: World) {
    (forall id :: id in w.procs ==> w.procs[id].pid < w.next)
    && (forall id, jd :: id in w.procs && jd in w.procs && w.procs[id].pid == w.procs[jd].pid ==> id == jd)
    && w.live <= Pids(w)
  }

  lemma DropKeepsInv(w: World, ids: set<int>)
    requires Inv(w)
    ensures Inv(Drop(w, ids))
    ensures forall id :: id in w.procs && id !in ids ==>
              (w.procs[id].pid in Drop(w, ids).live <==> w.procs[id].pid in w.live)
  {
    var r := Drop(w, ids);
    forall p | p in r.live ensures p in Pids(r) {
      var id :| id in w.procs && w.procs[id].pid == p;
      assert id !in ids;
      assert id in r.procs && r.procs[id].pid == p;
    }
  }

  lemma LaunchKeepsInv(w: World, inst: Instance, start: Start, quote: Quote)
    requires Inv(w) && inst.id !in w.procs
    ensures Inv(Launch(w, inst, start, quote))
  {
    hide Rendered, Fingerprint;
    if start.Started? {
      var r := Launch(w, inst, start, quote);
      forall p | p in r.live ensures p in Pids(r) {
        if p == w.next {
          assert r.procs[inst.id].pid == p;
        } else {
          var id :| id in w.procs && w.procs[id].pid == p;
          assert id in r.procs && r.procs[id].pid == p;
        }
      }
    } else {
      assert Pids(Launch(w, inst, start, quote)) == Pids(w);
    }
  }

  /** Neither the entry nor its process changed. */
  predicate Untouched(w: World, r: World, id: int) {
    (id in r.procs <==> id in w.procs)
    && (id in w.procs ==> r.procs[id] == w.procs[id] && (w.procs[id].pid in r.live <==> w.procs[id].pid in w.live))
  }

  /** One step of ensureLocked: its own entry settles, every other entry and its process are untouched. */
  lemma EnsuredStep(w: World, inst: Instance, start: Start, quote: Quote)
    requires Inv(w)
    ensures var r := Ensured(w, inst, start, quote);
            && Inv(r) && w.next <= r.next
            && (inst.id in r.procs <==> Current(w, inst) || start.Started?)
            && (Current(w, inst) ==> r == w.(procs := w.procs[inst.id := w.procs[inst.id].(tag := inst.tag)]))
            && (inst.id in r.procs ==> Current(r, inst) && r.procs[inst.id].tag == inst.tag)
            && (forall id :: id != inst.id ==> Untouched(w, r, id))
  {
    hide Rendered, Fingerprint;
    if Current(w, inst) {
      RetaggedKeepsInv(w, inst);
    } else {
      hide Inv;
      DropKeepsInv(w, {inst.id});
      LaunchKeepsInv(Drop(w, {inst.id}), inst, start, quote);
      RestartStep(w, inst, start, quote);
    }
  }

  lemma RetaggedKeepsInv(w: World, inst: Instance)
    requires Inv(w) && inst.id in w.procs
    ensures Inv(w.(procs := w.procs[inst.id := w.procs[inst.id].(tag := inst.tag)]))
  {
    var r := w.(procs := w.procs[inst.id := w.procs[inst.id].(tag := inst.tag)]);
    forall p | p in r.live ensures p in Pids(r) {
      var id :| id in w.procs && w.procs[id].pid == p;
      assert id in r.procs && r.procs[id].pid == p;
    }
  }

  lemma RestartStep(w: World, inst: Instance, start: Start, quote: Quote)
    requires Inv(w)
    ensures var r := Launch(Drop(w, {inst.id}), inst, start, quote);
            && w.next <= r.next && (inst.id in r.procs <==> start.Started?)
            && (inst.id in r.procs ==> Current(r, inst) && r.procs[inst.id].tag == inst.tag)
            && (forall id :: id != inst.id ==> Untouched(w, r, id))
  {
    hide Rendered, Fingerprint;
    DropKeepsInv(w, {inst.id});
  }

  function FileOf(w: World, id: int): Option<string> { if id in w.configs then Some(w.configs[id]) else None }

  /** Of the given ids the managed ones are stopped, forgotten and cleaned up; nothing else changes. */
  lemma DroppedExactly(w: World, ids: set<int>)
    requires Inv(w)
    ensures var r := DropFiles(w, ids);
            && (forall id :: id in ids && id in w.procs ==>
                  id !in r.procs && w.procs[id].pid !in r.live && FileOf(r, id) == None)
            && (forall id :: id !in ids || id !in w.procs ==> Untouched(w, r, id) && FileOf(r, id) == FileOf(w, id))
  {
    DropKeepsInv(w, ids);
  }

  /** What a start leaves behind for an instance that was not current: nothing new without a port, what the failed
      write wrote, or the text for the port, which a new running process then serves. */
  predicate StartedAs(w: World, r: World, inst: Instance, start: Start, quote: Quote) {
    match start
    case NoPort => FileOf(r, inst.id) == FileOf(w, inst.id)
    case WriteFailed(left) => FileOf(r, inst.id) == Some(left)
    case StartFailed(port) => FileOf(r, inst.id) == Some(Rendered(inst, port, quote))
    case Started(port) =>
      FileOf(r, inst.id) == Some(Rendered(inst, port, quote)) && inst.id in r.procs
      && var m := r.procs[inst.id];
         w.next <= m.pid && m.pid in r.live && m.statsPort == port && !m.haveLast && m.lastByClient == map[]
  }

  predicate SettledAs(w: World, r: World, inst: Instance, start: Start, quote: Quote) {
    if Current(w, inst) then FileOf(r, inst.id) == FileOf(w, inst.id) else StartedAs(w, r, inst, start, quote)
  }

  lemma EnsuredSettlesAs(w: World, inst: Instance, start: Start, quote: Quote)
    requires Inv(w)
    ensures var r := Ensured(w, inst, start, quote);
            SettledAs(w, r, inst, start, quote) && forall id :: id != inst.id ==> FileOf(r, id) == FileOf(w, id)
  {
    hide Rendered, Fingerprint;
  }

  // ---------- Reconcile ----------

  predicate DistinctIds(desired: seq<Instance>) {
    forall j, k :: 0 <= j < k < |desired| ==> desired[j].id != desired[k].id
  }

  /** The entry serves the instance: same configuration, same tag, its process running. */
  predicate Serves(w: World, inst: Instance) {
    Current(w, inst) && w.procs[inst.id].tag == inst.tag
  }

  lemma {:induction false} EnsuredAllSettles(w: World, desired: seq<Instance>, starts: seq<Start>, quote: Quote)
    requires Inv(w) && |starts| == |desired| && DistinctIds(desired)
    ensures var r := EnsuredAll(w, desired, starts, quote);
            && Inv(r) && w.next <= r.next
            && (forall k :: 0 <= k < |desired| ==>
                  && (desired[k].id in r.procs <==> Current(w, desired[k]) || starts[k].Started?)
                  && (desired[k].id in r.procs ==> Serves(r, desired[k]))
                  && (Current(w, desired[k]) ==>
                        r.procs[desired[k].id] == w.procs[desired[k].id].(tag := desired[k].tag)))
            && (forall id :: id !in Wanted(desired) ==> Untouched(w, r, id))
  {
    hide Rendered, Fingerprint, Ensured, Inv, EnsuredAll;
    if desired == [] {
      EnsuredAllNone(w, starts, quote);
    } else {
      var n := |desired| - 1;
      var ds, inst := desired[..n], desired[n];
      EnsuredAllSettles(w, ds, starts[..n], quote);
      EnsuredAllLast(w, desired, starts, quote);
      var m := EnsuredAll(w, ds, starts[..n], quote);
      var r := Ensured(m, inst, starts[n], quote);
      EnsuredStep(m, inst, starts[n], quote);
      assert Wanted(desired) == Wanted(ds) + {inst.id} by { WantedLast(desired); }
      assert inst.id !in Wanted(ds);
      assert Untouched(w, m, inst.id);
      forall id | id !in Wanted(desired) ensures Untouched(w, r, id) {
        assert Untouched(w, m, id) && Untouched(m, r, id);
      }
      forall k | 0 <= k < n
        ensures desired[k].id in r.procs <==> Current(w, desired[k]) || starts[k].Started?
        ensures desired[k].id in r.procs ==> Serves(r, desired[k])
        ensures Current(w, desired[k]) ==> r.procs[desired[k].id] == w.procs[desired[k].id].(tag := desired[k].tag)
      {
        assert ds[k] == desired[k] && starts[..n][k] == starts[k] && desired[k].id != inst.id;
        assert Untouched(m, r, desired[k].id);
      }
    }
  }

  lemma EnsuredAllNone(w: World, starts: seq<Start>, quote: Quote)
    requires starts == []
    ensures EnsuredAll(w, [], starts, quote) == w
  {}

  lemma EnsuredAllLast(w: World, desired: seq<Instance>, starts: seq<Start>, quote: Quote)
    requires |starts| == |desired| && desired != []
    ensures var n := |desired| - 1;
            EnsuredAll(w, desired, starts, quote)
            == Ensured(EnsuredAll(w, desired[..n], starts[..n], quote), desired[n], starts[n], quote)
  {}

  lemma WantedLast(desired: seq<Instance>)
    requires desired != []
    ensures Wanted(desired) == Wanted(desired[..|desired| - 1]) + {desired[|desired| - 1].id}
  {}

  /** The instance is already served before the pass and its entry survives the removal of the unwanted. */
  lemma DropKeepsCurrent(w: World, ids: set<int>, inst: Instance)
    requires Inv(w) && inst.id !in ids
    ensures Current(DropFiles(w, ids), inst) <==> Current(w, inst)
    ensures inst.id in w.procs ==>
              inst.id in DropFiles(w, ids).procs && DropFiles(w, ids).procs[inst.id] == w.procs[inst.id]
  {
    hide Fingerprint;
    DropKeepsInv(w, ids);
  }

  /** What one pass achieves whatever starts fail: the managed ids are exactly the desired ones that were already
      current or whose start succeeded; each serves its instance; an unchanged running entry keeps its process and
      its traffic baselines; and the running processes are exactly the managed ones, so none leaks. */
  lemma ReconcileSettles(w: World, desired: seq<Instance>, starts: seq<Start>, quote: Quote)
    requires Inv(w) && |starts| == |desired| && DistinctIds(desired)
    ensures var r := Reconciled(w, desired, starts, quote);
            && Inv(r)
            && (forall id :: id in r.procs ==> id in Wanted(desired))
            && (forall k :: 0 <= k < |desired| ==>
                  && (desired[k].id in r.procs <==> Current(w, desired[k]) || starts[k].Started?)
                  && (desired[k].id in r.procs ==> Serves(r, desired[k]))
                  && (Current(w, desired[k]) ==>
                        r.procs[desired[k].id] == w.procs[desired[k].id].(tag := desired[k].tag)))
            && r.live == Pids(r)
  {
    hide Rendered, Fingerprint, Ensured, EnsuredAll;
    var gone := w.procs.Keys - Wanted(desired);
    var m := DropFiles(w, gone);
    DropKeepsInv(w, gone);
    assert Inv(m);
    forall k | 0 <= k < |desired|
      ensures Current(m, desired[k]) <==> Current(w, desired[k])
      ensures Current(w, desired[k]) ==> m.procs[desired[k].id] == w.procs[desired[k].id]
    {
      DropKeepsCurrent(w, gone, desired[k]);
    }
    EnsuredAllSettles(m, desired, starts, quote);
    var r := Reconciled(w, desired, starts, quote);
    forall id | id in r.procs ensures id in Wanted(desired) && r.procs[id].pid in r.live {
      assert id in Wanted(desired) || Untouched(m, r, id);
      var k :| 0 <= k < |desired| && desired[k].id == id;
      assert Serves(r, desired[k]);
    }
  }

  predicate AllStarted(starts: seq<Start>) { forall k :: 0 <= k < |starts| ==> starts[k].Started? }

  /** A pass in which every start succeeds manages exactly the desired ids. */
  lemma ReconcileConverges(w: World, desired: seq<Instance>, starts: seq<Start>, quote: Quote)
    requires Inv(w) && |starts| == |desired| && DistinctIds(desired) && AllStarted(starts)
    ensures var r := Reconciled(w, desired, starts, quote);
            r.procs.Keys == Wanted(desired) && forall k :: 0 <= k < |desired| ==> Serves(r, desired[k])
  {
    hide Rendered, Fingerprint, Inv, Reconciled, Serves;
    ReconcileSettles(w, desired, starts, quote);
    var r := Reconciled(w, desired, starts, quote);
    forall id | id in Wanted(desired) ensures id in r.procs {
      var k :| 0 <= k < |desired| && desired[k].id == id;
      assert starts[k].Started?;
    }
    assert forall k :: 0 <= k < |desired| ==> starts[k].Started? && desired[k].id in r.procs;
  }

  lemma {:induction false} AllServedIsFixed(w: World, desired: seq<Instance>, starts: seq<Start>, quote: Quote)
    requires |starts| == |desired| && forall k :: 0 <= k < |desired| ==> Serves(w, desired[k])
    ensures EnsuredAll(w, desired, starts, quote) == w
  {
    hide Rendered, Fingerprint;
    if desired != [] {
      var n := |desired| - 1;
      forall k | 0 <= k < n ensures Serves(w, desired[..n][k]) {
        assert desired[..n][k] == desired[k];
      }
      AllServedIsFixed(w, desired[..n], starts[..n], quote);
      var inst := desired[n];
      assert Serves(w, inst);
      assert w.procs[inst.id := w.procs[inst.id].(tag := inst.tag)] == w.procs;
    }
  }

  lemma DropNothing(w: World, ids: set<int>)
    requires ids == {}
    ensures DropFiles(w, ids) == w
  {
    assert DropFiles(w, ids).live == w.live;
    assert w.procs - ids == w.procs;
    assert w.configs - (ids * w.procs.Keys) == w.configs;
  }

  /** After a pass with successful starts, a second pass for the same instances starts and stops nothing,
      whatever starts it would have been granted. */
  lemma SecondReconcileIsIdle(w: World, desired: seq<Instance>, starts: seq<Start>, again: seq<Start>, quote: Quote)
    requires Inv(w) && |starts| == |desired| == |again| && DistinctIds(desired) && AllStarted(starts)
    ensures var r := Reconciled(w, desired, starts, quote);
            Reconciled(r, desired, again, quote) == r
  {
    hide Rendered, Fingerprint, Inv, Serves, EnsuredAll;
    var r := Reconciled(w, desired, starts, quote);
    ReconcileConverges(w, desired, starts, quote);
    DropNothing(r, r.procs.Keys - Wanted(desired));
    AllServedIsFixed(r, desired, again, quote);
  }

  // ---------- the config files ----------

  /** The entry and its file on disk were made from this instance, for the entry's stats port. */
  ghost predicate StartedFrom(w: World, id: int, inst: Instance, quote: Quote)
    requires id in w.procs && id in w.configs
  {
    var m := w.procs[id];
    Clean(inst) && Fingerprint(inst) == m.fingerprint && m.multiUser == inst.multiUser
    && m.clients == inst.ActiveClients()
    && w.configs[id] == Rendered(inst, m.statsPort, quote)
  }

  ghost predicate FileMatches(w: World, id: int, quote: Quote)
    requires id in w.procs
  {
    id in w.configs
    && exists inst :: StartedFrom(w, id, inst, quote)
  }

  ghost predicate FilesMatch(w: World, quote: Quote) {
    forall id :: id in w.procs ==> FileMatches(w, id, quote)
  }

  lemma EnsuredKeepsFiles(w: World, inst: Instance, start: Start, quote: Quote)
    requires FilesMatch(w, quote) && Clean(inst)
    ensures FilesMatch(Ensured(w, inst, start, quote), quote)
  {
    hide Rendered, Fingerprint, Clean;
    var r := Ensured(w, inst, start, quote);
    forall id | id in r.procs ensures FileMatches(r, id, quote) {
      if id != inst.id || Current(w, inst) {
        assert FileMatches(w, id, quote);
        var from :| StartedFrom(w, id, from, quote);
        assert StartedFrom(r, id, from, quote);
      } else {
        assert StartedFrom(r, id, inst, quote);
      }
    }
  }

  lemma {:induction false} EnsuredAllKeepsFiles(w: World, desired: seq<Instance>, starts: seq<Start>, quote: Quote)
    requires FilesMatch(w, quote) && |starts| == |desired|
    requires forall k :: 0 <= k < |desired| ==> Clean(desired[k])
    ensures FilesMatch(EnsuredAll(w, desired, starts, quote), quote)
  {
    hide FilesMatch, Ensured, Clean;
    if desired != [] {
      var n := |desired| - 1;
      EnsuredAllKeepsFiles(w, desired[..n], starts[..n], quote);
      EnsuredKeepsFiles(EnsuredAll(w, desired[..n], starts[..n], quote), desired[n], starts[n], quote);
    }
  }

  lemma DropKeepsFiles(w: World, ids: set<int>, quote: Quote)
    requires FilesMatch(w, quote)
    ensures FilesMatch(DropFiles(w, ids), quote)
  {
    hide Rendered, Fingerprint, Clean;
    var r := DropFiles(w, ids);
    forall id | id in r.procs ensures FileMatches(r, id, quote) {
      assert FileMatches(w, id, quote);
      var from :| StartedFrom(w, id, from, quote);
      assert StartedFrom(r, id, from, quote);
    }
  }

  /** After a pass, every managed proxy reads exactly the config its desired instance renders to, and its traffic is
      attributed to exactly that instance's active clients, also where the fingerprint comparison decided to leave the
      running process alone. */
  lemma ReconcileConfigs(w: World, desired: seq<Instance>, starts: seq<Start>, quote: Quote)
    requires Inv(w) && FilesMatch(w, quote) && |starts| == |desired| && DistinctIds(desired)
    requires forall k :: 0 <= k < |desired| ==> Clean(desired[k])
    ensures var r := Reconciled(w, desired, starts, quote);
            FilesMatch(r, quote)
            && forall k :: 0 <= k < |desired| && desired[k].id in r.procs ==>
              var m := r.procs[desired[k].id];
              desired[k].id in r.configs && r.configs[desired[k].id] == Rendered(desired[k], m.statsPort, quote)
              && m.multiUser == desired[k].multiUser && m.clients == desired[k].ActiveClients()
  {
    hide Rendered, Fingerprint, Clean, Inv, EnsuredAll, DropFiles;
    DropKeepsFiles(w, w.procs.Keys - Wanted(desired), quote);
    var r := Reconciled(w, desired, starts, quote);
    EnsuredAllKeepsFiles(DropFiles(w, w.procs.Keys - Wanted(desired)), desired, starts, quote);
    ReconcileSettles(w, desired, starts, quote);
    forall k | 0 <= k < |desired| && desired[k].id in r.procs
      ensures desired[k].id in r.configs
      ensures var m := r.procs[desired[k].id];
              r.configs[desired[k].id] == Rendered(desired[k], m.statsPort, quote)
              && m.multiUser == desired[k].multiUser && m.clients == desired[k].ActiveClients()
    {
      var id := desired[k].id;
      assert FileMatches(r, id, quote) && Serves(r, desired[k]);
      var inst :| StartedFrom(r, id, inst, quote);
      EqualFingerprintsRenderAlike(inst, desired[k], r.procs[id].statsPort, quote);
      FingerprintExact(inst, desired[k]);
    }
  }

  lemma {:induction false} EnsuredAllSettlesAs(w: World, desired: seq<Instance>, starts: seq<Start>, quote: Quote)
    requires Inv(w) && |starts| == |desired| && DistinctIds(desired)
    ensures var r := EnsuredAll(w, desired, starts, quote);
            && (forall k :: 0 <= k < |desired| ==> SettledAs(w, r, desired[k], starts[k], quote))
            && (forall id :: id !in Wanted(desired) ==> FileOf(r, id) == FileOf(w, id))
  {
    hide Rendered, Fingerprint, Ensured, Inv, EnsuredAll, SettledAs, FileOf;
    if desired == [] {
      EnsuredAllNone(w, starts, quote);
    } else {
      var n := |desired| - 1;
      var ds, inst := desired[..n], desired[n];
      EnsuredAllSettlesAs(w, ds, starts[..n], quote);
      EnsuredAllSettles(w, ds, starts[..n], quote);
      EnsuredAllLast(w, desired, starts, quote);
      var m := EnsuredAll(w, ds, starts[..n], quote);
      var r := Ensured(m, inst, starts[n], quote);
      EnsuredStep(m, inst, starts[n], quote);
      EnsuredSettlesAs(m, inst, starts[n], quote);
      assert Wanted(desired) == Wanted(ds) + {inst.id} by { WantedLast(desired); }
      assert Untouched(w, m, inst.id) && FileOf(m, inst.id) == FileOf(w, inst.id);
      LaterSettlesAs(w, m, r, inst, starts[n], quote);
      forall k | 0 <= k < n ensures SettledAs(w, r, desired[k], starts[k], quote) {
        assert ds[k] == desired[k] && starts[..n][k] == starts[k] && desired[k].id != inst.id;
        EarlierSettlesAs(w, m, r, desired[k], starts[k], quote);
      }
    }
  }

  /** What was settled from a later world with the same entry and file is settled from the earlier one. */
  lemma LaterSettlesAs(w: World, m: World, r: World, inst: Instance, start: Start, quote: Quote)
    requires SettledAs(m, r, inst, start, quote) && Untouched(w, m, inst.id) && w.next <= m.next
    requires FileOf(m, inst.id) == FileOf(w, inst.id)
    ensures SettledAs(w, r, inst, start, quote)
  {
    hide Rendered, Fingerprint;
  }

  lemma EarlierSettlesAs(w: World, m: World, r: World, inst: Instance, start: Start, quote: Quote)
    requires SettledAs(w, m, inst, start, quote) && Untouched(m, r, inst.id) && FileOf(r, inst.id) == FileOf(m, inst.id)
    ensures SettledAs(w, r, inst, start, quote)
  {
    hide Rendered, Fingerprint;
  }

  /** What a pass leaves on disk, whatever starts fail: the files of the managed ids that are no longer desired are
      gone, files of ids that were not managed are left alone, the file of an unchanged running proxy stays, and each
      start that was needed has left what such a start leaves. */
  lemma ReconcileCleansUp(w: World, desired: seq<Instance>, starts: seq<Start>, quote: Quote)
    requires Inv(w) && |starts| == |desired| && DistinctIds(desired)
    ensures var r := Reconciled(w, desired, starts, quote);
            && (forall id :: id !in Wanted(desired) ==> FileOf(r, id) == if id in w.procs then None else FileOf(w, id))
            && (forall k :: 0 <= k < |desired| ==> SettledAs(w, r, desired[k], starts[k], quote))
  {
    hide Rendered, Fingerprint, EnsuredAll, FileOf, SettledAs, DropFiles, Inv;
    var gone := w.procs.Keys - Wanted(desired);
    var m := DropFiles(w, gone);
    DroppedExactly(w, gone);
    DroppedKeepsInv(w, gone);
    EnsuredAllSettlesAs(m, desired, starts, quote);
    var r := Reconciled(w, desired, starts, quote);
    forall k | 0 <= k < |desired| ensures SettledAs(w, r, desired[k], starts[k], quote) {
      assert desired[k].id !in gone;
      LaterSettlesAs(w, m, r, desired[k], starts[k], quote);
    }
    forall id | id !in Wanted(desired) ensures FileOf(r, id) == if id in w.procs then None else FileOf(w, id) {
      assert id in w.procs ==> id in gone;
    }
  }

  lemma DroppedKeepsInv(w: World, ids: set<int>)
    requires Inv(w)
    ensures Inv(DropFiles(w, ids)) && DropFiles(w, ids).next == w.next
  {
    DropKeepsInv(w, ids);
  }
}
