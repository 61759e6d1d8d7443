/** Traffic collection: counters are scraped with the manager's lock released, so every other operation can come
    between the snapshot, the scrape and the write-back. */
module MtprotoTraffic {
  import opened Counters
  import opened MtprotoConfig
  import opened MtprotoManager

  lemma AddZero(a: Counter)
    ensures Add(a, ZERO) == a == Add(ZERO, a) && Add(ZERO, ZERO) == ZERO
  {}

  /** The growth since the baseline, each direction clamped at zero. */
  function Growth(now: Counter, prev: Counter): Counter {
    Counter(if now.up < prev.up then 0 else now.up - prev.up, if now.down < prev.down then 0 else now.down - prev.down)
  }

  // ---------- one collection ----------

  /** What the collector copies under the lock; the stats port is that of process pid. */
  datatype Snap = Snap(
    id: int,
    pid: nat,
    statsPort: int,
    tag: string,
    multiUser: bool,
    clients: seq<ClientSecret>,
    haveLast: bool,
    last: Counter,
    lastByClient: map<string, Counter>)

  datatype UserStat = UserStat(bytes: Counter, connections: int)

  /** The answer of a stats endpoint: users of the multi-user backend, or the totals of the single-secret one. */
  datatype Reading = Users(users: map<string, UserStat>, now: int) | Totals(total: Counter)

  datatype Traffic = Traffic(tag: string, uuid: string, email: string, bytes: Counter, lastSeen: int)

  function SnapOf(id: int, m: Managed): Snap {
    Snap(id, m.pid, m.statsPort, m.tag, m.multiUser, m.clients, m.haveLast, m.last, m.lastByClient)
  }

  predicate HasId(cs: seq<ClientSecret>, c: string) { exists i :: 0 <= i < |cs| && cs[i].id == c }

  predicate UniqueIds(cs: seq<ClientSecret>) { forall i, j :: 0 <= i < j < |cs| ==> cs[i].id != cs[j].id }

  /** The one client a single-secret process serves. */
  function SoleId(cs: seq<ClientSecret>): string { if cs == [] then "" else cs[0].id }

  function NewByClient(cs: seq<ClientSecret>, users: map<string, UserStat>): map<string, Counter> {
    map c | c in users && HasId(cs, c) :: users[c].bytes
  }

  function UserGrowth(s: Snap, users: map<string, UserStat>, c: string): Counter {
    if c in users && c in s.lastByClient then Growth(users[c].bytes, s.lastByClient[c]) else ZERO
  }

  function UserTraffic(s: Snap, users: map<string, UserStat>, now: int, c: ClientSecret): seq<Traffic> {
    if c.id !in users then []
    else
      var d := UserGrowth(s, users, c.id);
      var lastSeen := if users[c.id].connections > 0 then now else 0;
      if d.up > 0 || d.down > 0 || lastSeen > 0 then [Traffic(s.tag, c.id, c.email, d, lastSeen)] else []
  }

  function UsersTraffic(s: Snap, users: map<string, UserStat>, now: int, cs: seq<ClientSecret>): seq<Traffic> {
    if cs == [] then []
    else UsersTraffic(s, users, now, cs[..|cs| - 1]) + UserTraffic(s, users, now, cs[|cs| - 1])
  }

  function TotalTraffic(s: Snap, total: Counter): seq<Traffic> {
    var d := Growth(total, s.last);
    if s.haveLast && (d.up > 0 || d.down > 0) && s.clients != []
    then [Traffic(s.tag, s.clients[0].id, s.clients[0].email, d, 0)] else []
  }

  /** The deltas one snapshot and one reading yield. */
  function Deltas(s: Snap, r: Reading): seq<Traffic> {
    match r
    case Users(users, now) => UsersTraffic(s, users, now, s.clients)
    case Totals(total) => TotalTraffic(s, total)
  }

  /** The write-back finds its entry by inbound id, so it can hit the replacement of the scraped process. */
  function WrittenBack(procs: map<int, Managed>, s: Snap, r: Reading): map<int, Managed> {
    if s.id !in procs then procs
    else
      match r
      case Users(users, _) => procs[s.id := procs[s.id].(lastByClient := NewByClient(s.clients, users))]
      case Totals(total) => procs[s.id := procs[s.id].(last := total, haveLast := true)]
  }

  function SnapsOf(procs: map<int, Managed>, order: seq<int>): (snaps: seq<Snap>)
    requires forall i :: 0 <= i < |order| ==> order[i] in procs
    ensures |snaps| == |order| && forall i :: 0 <= i < |order| ==> snaps[i] == SnapOf(order[i], procs[order[i]])
  {
    if order == [] then []
    else SnapsOf(procs, order[..|order| - 1]) + [SnapOf(order[|order| - 1], procs[order[|order| - 1]])]
  }

  /** Each running managed process once, in some order. */
  predicate RunningOrder(w: World, order: seq<int>) {
    (forall i :: 0 <= i < |order| ==> order[i] in w.procs && w.procs[order[i]].pid in w.live)
    && (forall i, j :: 0 <= i < j < |order| ==> order[i] != order[j])
    && (forall id :: id in w.procs && w.procs[id].pid in w.live ==> id in order)
  }

  /** What one client is credited with in a list of deltas. */
  function Credited(ts: seq<Traffic>, c: string): Counter {
    if ts == [] then ZERO
    else
      var before := Credited(ts[..|ts| - 1], c);
      if ts[|ts| - 1].uuid == c then Add(before, ts[|ts| - 1].bytes) else before
  }

  lemma {:induction false} CreditedConcat(a: seq<Traffic>, b: seq<Traffic>, c: string)
    ensures Credited(a + b, c) == Add(Credited(a, c), Credited(b, c))
  {
    if b == [] {
      assert a + b == a;
    } else {
      hide Credited;
      var n := |b| - 1;
      assert (a + b)[..|a + b| - 1] == a + b[..n] && (a + b)[|a + b| - 1] == b[n];
      CreditedConcat(a, b[..n], c);
      CreditedLast(a + b, c);
      CreditedLast(b, c);
    }
  }

  lemma CreditedLast(ts: seq<Traffic>, c: string)
    requires ts != []
    ensures var n := |ts| - 1;
            Credited(ts, c) == if ts[n].uuid == c then Add(Credited(ts[..n], c), ts[n].bytes) else Credited(ts[..n], c)
  {}

  lemma CreditedUser(s: Snap, users: map<string, UserStat>, now: int, k: ClientSecret, c: string)
    ensures Credited(UserTraffic(s, users, now, k), c) == if k.id == c then UserGrowth(s, users, c) else ZERO
  {
    var ts := UserTraffic(s, users, now, k);
    if ts != [] {
      assert ts[..0] == [];
      assert Credited(ts[..0], c) == ZERO;
    }
  }

  lemma HasIdLast(cs: seq<ClientSecret>, c: string)
    requires cs != [] && UniqueIds(cs)
    ensures HasId(cs, c) <==> HasId(cs[..|cs| - 1], c) || cs[|cs| - 1].id == c
    ensures !(HasId(cs[..|cs| - 1], c) && cs[|cs| - 1].id == c)
    ensures UniqueIds(cs[..|cs| - 1])
  {
    var n := |cs| - 1;
    assert forall j :: 0 <= j < n ==> cs[..n][j] == cs[j];
    if HasId(cs[..n], c) {
      var i :| 0 <= i < n && cs[..n][i].id == c;
      assert cs[i].id == c;
    } else if HasId(cs, c) {
      var i :| 0 <= i < |cs| && cs[i].id == c;
    }
  }

  lemma UsersTrafficLast(s: Snap, users: map<string, UserStat>, now: int, cs: seq<ClientSecret>)
    requires cs != []
    ensures UsersTraffic(s, users, now, cs)
         == UsersTraffic(s, users, now, cs[..|cs| - 1]) + UserTraffic(s, users, now, cs[|cs| - 1])
  {}

  /** Distinct ids mean one delta per client. */
  lemma {:induction false} CreditedUsers(s: Snap, users: map<string, UserStat>, now: int,
      cs: seq<ClientSecret>, c: string)
    requires UniqueIds(cs)
    ensures Credited(UsersTraffic(s, users, now, cs), c) == if HasId(cs, c) then UserGrowth(s, users, c) else ZERO
    decreases |cs|
  {
    hide *;
    if cs == [] {
      CreditedNoUsers(s, users, now, c);
    } else {
      var n := |cs| - 1;
      HasIdLast(cs, c);
      UsersTrafficLast(s, users, now, cs);
      CreditedUsers(s, users, now, cs[..n], c);
      CreditedConcat(UsersTraffic(s, users, now, cs[..n]), UserTraffic(s, users, now, cs[n]), c);
      CreditedUser(s, users, now, cs[n], c);
      AddZero(UserGrowth(s, users, c));
    }
  }

  lemma CreditedNoUsers(s: Snap, users: map<string, UserStat>, now: int, c: string)
    ensures Credited(UsersTraffic(s, users, now, []), c) == ZERO && !HasId([], c)
  {}

  lemma CreditedTotal(s: Snap, total: Counter, c: string)
    ensures Credited(TotalTraffic(s, total), c)
         == if s.haveLast && s.clients != [] && c == s.clients[0].id then Growth(total, s.last) else ZERO
  {
    var ts := TotalTraffic(s, total);
    if ts != [] {
      assert ts[..0] == [];
      assert Credited(ts[..0], c) == ZERO;
    }
  }

  // ---------- what a collection tells ----------

  predicate Connected(users: map<string, UserStat>, c: string) { c in users && users[c].connections > 0 }

  predicate Moved(s: Snap, users: map<string, UserStat>, c: string) {
    MovedUp(s, users, c) > 0 || MovedDown(s, users, c) > 0
  }

  /** The bytes of a client beyond its baseline; nothing without one, or when the counter fell below it. */
  function MovedUp(s: Snap, users: map<string, UserStat>, c: string): int {
    if c in users && c in s.lastByClient && users[c].bytes.up > s.lastByClient[c].up
    then users[c].bytes.up - s.lastByClient[c].up else 0
  }

  function MovedDown(s: Snap, users: map<string, UserStat>, c: string): int {
    if c in users && c in s.lastByClient && users[c].bytes.down > s.lastByClient[c].down
    then users[c].bytes.down - s.lastByClient[c].down else 0
  }

  /** There is something to tell about the client. */
  predicate Noteworthy(s: Snap, users: map<string, UserStat>, now: int, c: string) {
    (Connected(users, c) && now > 0) || Moved(s, users, c)
  }

  /** The delta is about this client: its id and email, the bytes it moved, and now if it is connected. */
  predicate TellsOf(s: Snap, users: map<string, UserStat>, now: int, c: ClientSecret, d: Traffic) {
    d.tag == s.tag && d.uuid == c.id && d.email == c.email
    && d.bytes.up == MovedUp(s, users, c.id) && d.bytes.down == MovedDown(s, users, c.id)
    && d.lastSeen == if Connected(users, c.id) then now else 0
  }

  predicate HasDelta(s: Snap, users: map<string, UserStat>, now: int, c: ClientSecret, out: seq<Traffic>) {
    exists k :: 0 <= k < |out| && TellsOf(s, users, now, c, out[k])
  }

  predicate IsOfServed(s: Snap, users: map<string, UserStat>, now: int, cs: seq<ClientSecret>, d: Traffic) {
    exists i :: 0 <= i < |cs| && Noteworthy(s, users, now, cs[i].id) && TellsOf(s, users, now, cs[i], d)
  }

  /** Every delta tells of a served client that is connected or moved bytes, every such client has one, and, ids being
      distinct, only one. */
  ghost predicate UsersTold(s: Snap, users: map<string, UserStat>, now: int, cs: seq<ClientSecret>, out: seq<Traffic>) {
    (forall k :: 0 <= k < |out| ==> IsOfServed(s, users, now, cs, out[k]))
    && (forall i :: 0 <= i < |cs| && Noteworthy(s, users, now, cs[i].id) ==> HasDelta(s, users, now, cs[i], out))
    && (UniqueIds(cs) ==> forall k, l :: 0 <= k < l < |out| ==> out[k].uuid != out[l].uuid)
  }

  /** Totals are told of the one client served, once there is a baseline that they exceed. */
  predicate TotalTold(s: Snap, total: Counter, out: seq<Traffic>) {
    if s.haveLast && s.clients != [] && (total.up > s.last.up || total.down > s.last.down) then
      |out| == 1 && out[0].tag == s.tag && out[0].uuid == s.clients[0].id && out[0].email == s.clients[0].email
      && out[0].bytes.up == (if total.up > s.last.up then total.up - s.last.up else 0)
      && out[0].bytes.down == (if total.down > s.last.down then total.down - s.last.down else 0)
      && out[0].lastSeen == 0
    else out == []
  }

  ghost predicate Told(s: Snap, r: Reading, out: seq<Traffic>) {
    match r
    case Users(users, now) => UsersTold(s, users, now, s.clients, out)
    case Totals(total) => TotalTold(s, total, out)
  }

  lemma UserTold(s: Snap, users: map<string, UserStat>, now: int, c: ClientSecret)
    ensures var ts := UserTraffic(s, users, now, c);
            if Noteworthy(s, users, now, c.id) then |ts| == 1 && TellsOf(s, users, now, c, ts[0]) else ts == []
  {}

  lemma {:induction false} AllUsersTold(s: Snap, users: map<string, UserStat>, now: int, cs: seq<ClientSecret>)
    ensures UsersTold(s, users, now, cs, UsersTraffic(s, users, now, cs))
    decreases |cs|
  {
    hide UsersTraffic, UserTraffic, Noteworthy, TellsOf, UsersTold;
    if cs == [] {
      NobodyTold(s, users, now);
    } else {
      var n := |cs| - 1;
      AllUsersTold(s, users, now, cs[..n]);
      UsersTrafficLast(s, users, now, cs);
      UserTold(s, users, now, cs[n]);
      OneMoreTold(s, users, now, cs, UsersTraffic(s, users, now, cs[..n]), UserTraffic(s, users, now, cs[n]));
    }
  }

  lemma NobodyTold(s: Snap, users: map<string, UserStat>, now: int)
    ensures UsersTold(s, users, now, [], UsersTraffic(s, users, now, []))
  {}

  lemma OneMoreTold(s: Snap, users: map<string, UserStat>, now: int, cs: seq<ClientSecret>, out: seq<Traffic>,
      more: seq<Traffic>)
    requires cs != [] && UsersTold(s, users, now, cs[..|cs| - 1], out)
    requires var c := cs[|cs| - 1];
             if Noteworthy(s, users, now, c.id) then |more| == 1 && TellsOf(s, users, now, c, more[0]) else more == []
    ensures UsersTold(s, users, now, cs, out + more)
  {
    hide Noteworthy, TellsOf, IsOfServed, HasDelta, UniqueIds;
    var n := |cs| - 1;
    var all := out + more;
    forall k | 0 <= k < |all| ensures IsOfServed(s, users, now, cs, all[k]) {
      if k < |out| {
        ServedLonger(s, users, now, cs, out[k]);
      } else {
        ServedLast(s, users, now, cs, more[0]);
      }
    }
    forall i | 0 <= i < |cs| && Noteworthy(s, users, now, cs[i].id) ensures HasDelta(s, users, now, cs[i], all) {
      if i < n {
        assert cs[..n][i] == cs[i];
        DeltaStays(s, users, now, cs[i], out, more);
      } else {
        DeltaLast(s, users, now, cs[n], out, more);
      }
    }
    if UniqueIds(cs) && more != [] {
      TellsItsId(s, users, now, cs[n], more[0]);
      forall k | 0 <= k < |out| ensures out[k].uuid != more[0].uuid {
        ServedHasId(s, users, now, cs, out[k]);
      }
    }
    FrontIsUnique(cs);
  }

  lemma FrontIsUnique(cs: seq<ClientSecret>)
    requires cs != []
    ensures UniqueIds(cs) ==> UniqueIds(cs[..|cs| - 1])
  {}

  lemma ServedLonger(s: Snap, users: map<string, UserStat>, now: int, cs: seq<ClientSecret>, d: Traffic)
    requires cs != [] && IsOfServed(s, users, now, cs[..|cs| - 1], d)
    ensures IsOfServed(s, users, now, cs, d)
  {
    hide Noteworthy, TellsOf;
    var front := cs[..|cs| - 1];
    var i :| 0 <= i < |front| && Noteworthy(s, users, now, front[i].id) && TellsOf(s, users, now, front[i], d);
    assert cs[i] == front[i];
  }

  lemma ServedLast(s: Snap, users: map<string, UserStat>, now: int, cs: seq<ClientSecret>, d: Traffic)
    requires cs != [] && Noteworthy(s, users, now, cs[|cs| - 1].id) && TellsOf(s, users, now, cs[|cs| - 1], d)
    ensures IsOfServed(s, users, now, cs, d)
  {
    hide Noteworthy, TellsOf;
  }

  lemma ServedHasId(s: Snap, users: map<string, UserStat>, now: int, cs: seq<ClientSecret>, d: Traffic)
    requires cs != [] && UniqueIds(cs) && IsOfServed(s, users, now, cs[..|cs| - 1], d)
    ensures d.uuid != cs[|cs| - 1].id
  {
    hide Noteworthy;
    var front := cs[..|cs| - 1];
    var i :| 0 <= i < |front| && TellsOf(s, users, now, front[i], d);
    assert cs[i] == front[i];
  }

  lemma TellsItsId(s: Snap, users: map<string, UserStat>, now: int, c: ClientSecret, d: Traffic)
    requires TellsOf(s, users, now, c, d)
    ensures d.uuid == c.id
  {}

  lemma DeltaStays(s: Snap, users: map<string, UserStat>, now: int, c: ClientSecret,
      out: seq<Traffic>, more: seq<Traffic>)
    requires HasDelta(s, users, now, c, out)
    ensures HasDelta(s, users, now, c, out + more)
  {
    hide TellsOf;
    var k :| 0 <= k < |out| && TellsOf(s, users, now, c, out[k]);
    assert (out + more)[k] == out[k];
  }

  lemma DeltaLast(s: Snap, users: map<string, UserStat>, now: int, c: ClientSecret,
      out: seq<Traffic>, more: seq<Traffic>)
    requires |more| == 1 && TellsOf(s, users, now, c, more[0])
    ensures HasDelta(s, users, now, c, out + more)
  {
    hide TellsOf;
    assert (out + more)[|out|] == more[0];
  }

  /** What a collection returns tells exactly of the served clients there is something to tell about. */
  lemma DeltasTell(s: Snap, r: Reading)
    ensures Told(s, r, Deltas(s, r))
  {
    hide UsersTold, UsersTraffic;
    match r {
      case Users(users, now) => AllUsersTold(s, users, now, s.clients);
      case Totals(_) =>
    }
  }

  /** What a reading says about a client. */
  predicate Reports(snap: Snap, r: Reading, c: string) {
    match r
    case Users(users, _) => snap.multiUser && HasId(snap.clients, c) && c in users
    case Totals(_) => !snap.multiUser && snap.clients != [] && c == SoleId(snap.clients)
  }

  function ReportOf(snap: Snap, r: Reading, c: string): Counter
    requires Reports(snap, r, c)
  {
    match r case Users(users, _) => users[c].bytes case Totals(total) => total
  }

  /** A process's first scrape only sets its baseline. */
  lemma FirstScrapeCreditsNothing(id: int, inst: Instance, pid: nat, port: int, r: Reading, c: string)
    requires UniqueIds(inst.ActiveClients())
    ensures Credited(Deltas(SnapOf(id, Fresh(inst, pid, port)), r), c) == ZERO
  {
    hide UsersTraffic, TotalTraffic, Credited, HasId, UniqueIds, Fingerprint;
    var snap := SnapOf(id, Fresh(inst, pid, port));
    match r {
      case Users(users, now) => CreditedUsers(snap, users, now, snap.clients, c);
      case Totals(total) => CreditedTotal(snap, total, c);
    }
  }

  /** Each following scrape of an undisturbed process credits exactly the growth between the two readings. */
  lemma ScrapesAreExact(m: Managed, id: int, r: Reading, again: Reading, c: string)
    requires UniqueIds(m.clients) && Reports(SnapOf(id, m), r, c) && Reports(SnapOf(id, m), again, c)
    requires Le(ReportOf(SnapOf(id, m), r, c), ReportOf(SnapOf(id, m), again, c))
    ensures var procs := WrittenBack(map[id := m], SnapOf(id, m), r);
            Add(ReportOf(SnapOf(id, m), r, c), Credited(Deltas(SnapOf(id, procs[id]), again), c))
            == ReportOf(SnapOf(id, m), again, c)
  {
    hide UsersTraffic, TotalTraffic, Credited, HasId, UniqueIds;
    var snap := SnapOf(id, WrittenBack(map[id := m], SnapOf(id, m), r)[id]);
    match again {
      case Users(users, now) => CreditedUsers(snap, users, now, snap.clients, c);
      case Totals(total) => CreditedTotal(snap, total, c);
    }
  }

  // ---------- the system ----------

  datatype Collector = Idle | Scraping(snaps: seq<Snap>) | Scraped(snap: Snap, reading: Reading, rest: seq<Snap>)

  /** carried and reported are histories: the bytes a process moved for a client, and those of them already returned.
      sent is everything CollectTraffic has returned. */
  datatype State = State(
    w: World,
    col: Collector,
    carried: (nat, string) -> Counter,
    reported: (nat, string) -> Counter,
    sent: seq<Traffic>)

  datatype Step =
    | Carry(pid: nat, client: string, bytes: Counter)
    | Crash(pid: nat)
    | Ensure(inst: Instance, start: Start)
    | Remove(id: int)
    | Reconcile(desired: seq<Instance>, starts: seq<Start>)
    | StopAll
    | Snapshot(order: seq<int>)
    | Scrape(reading: Reading)
    | ScrapeFails
    | WriteBack
    | Return

  function Init(): State {
    State(World(map[], {}, 0, map[]), Idle, (p: nat, c: string) => ZERO, (p: nat, c: string) => ZERO, [])
  }

  /** The endpoint answers with the counters of the process the snapshot was taken of. */
  predicate Reads(s: State, snap: Snap, r: Reading) {
    match r
    case Users(users, _) => snap.multiUser && forall c :: c in users ==> users[c].bytes == s.carried(snap.pid, c)
    case Totals(total) => !snap.multiUser && total == s.carried(snap.pid, SoleId(snap.clients))
  }

  ghost predicate Enabled(s: State, step: Step) {
    match step
    case Carry(pid, _, bytes) => pid in s.w.live && Le(ZERO, bytes)
    case Crash(pid) => pid in s.w.live
    case Ensure(inst, _) => UniqueIds(inst.ActiveClients())
    case Remove(_) => true
    case Reconcile(desired, starts) =>
      |starts| == |desired| && forall k :: 0 <= k < |desired| ==> UniqueIds(desired[k].ActiveClients())
    case StopAll => true
    case Snapshot(order) => s.col.Idle? && RunningOrder(s.w, order)
    case Scrape(reading) => s.col.Scraping? && s.col.snaps != [] && Reads(s, s.col.snaps[0], reading)
    case ScrapeFails => s.col.Scraping? && s.col.snaps != []
    case WriteBack => s.col.Scraped?
    case Return => s.col.Scraping? && s.col.snaps == []
  }

  function Next(s: State, step: Step, quote: Quote): State
    requires Enabled(s, step)
  {
    match step
    case Carry(pid, client, bytes) =>
      s.(carried := (p: nat, c: string) =>
           if p == pid && c == client then Add(s.carried(p, c), bytes) else s.carried(p, c))
    case Crash(pid) => s.(w := s.w.(live := s.w.live - {pid}))
    case Ensure(inst, start) => s.(w := Ensured(s.w, inst, start, quote))
    case Remove(id) => s.(w := DropFiles(s.w, {id}))
    case Reconcile(desired, starts) => s.(w := Reconciled(s.w, desired, starts, quote))
    case StopAll => s.(w := DropFiles(s.w, s.w.procs.Keys))
    case Snapshot(order) => s.(col := Scraping(SnapsOf(s.w.procs, order)))
    case Scrape(reading) => s.(col := Scraped(s.col.snaps[0], reading, s.col.snaps[1..]))
    case ScrapeFails => s.(col := Scraping(s.col.snaps[1..]))
    case WriteBack =>
      var ts := Deltas(s.col.snap, s.col.reading);
      var pid := s.col.snap.pid;
      s.(w := s.w.(procs := WrittenBack(s.w.procs, s.col.snap, s.col.reading)),
         col := Scraping(s.col.rest),
         reported := (p: nat, c: string) =>
           if p == pid then Add(s.reported(p, c), Credited(ts, c)) else s.reported(p, c),
         sent := s.sent + ts)
    case Return => s.(col := Idle)
  }

  // ---------- the invariant ----------

  /** The baseline the entry will be compared with, in the mode it is scraped in. */
  predicate Baseline(snap: Snap, c: string) {
    if snap.multiUser then c in snap.lastByClient else snap.haveLast && c == SoleId(snap.clients)
  }

  function BaselineOf(snap: Snap, c: string): Counter
    requires Baseline(snap, c)
  {
    if snap.multiUser then snap.lastByClient[c] else snap.last
  }

  /** No baseline lies below what its process was already credited with. */
  ghost predicate Covered(s: State, snap: Snap) {
    UniqueIds(snap.clients)
    && forall c :: Baseline(snap, c) ==> Le(s.reported(snap.pid, c), BaselineOf(snap, c))
  }

  /** A snapshot still to be worked on: its process is managed under its id only and unchanged, and a process that
      replaced it under its id has been credited with nothing. */
  ghost predicate Pending(s: State, snap: Snap) {
    Covered(s, snap) && snap.pid < s.w.next
    && (forall id :: id in s.w.procs && s.w.procs[id].pid == snap.pid ==>
          id == snap.id && s.w.procs[id].multiUser == snap.multiUser && s.w.procs[id].clients == snap.clients)
    && (snap.id in s.w.procs && s.w.procs[snap.id].pid != snap.pid
        ==> forall c :: s.reported(s.w.procs[snap.id].pid, c) == ZERO)
  }

  function Todo(col: Collector): seq<Snap> {
    match col
    case Idle => []
    case Scraping(snaps) => snaps
    case Scraped(snap, _, rest) => [snap] + rest
  }

  predicate Apart(snaps: seq<Snap>) {
    forall i, j :: 0 <= i < j < |snaps| ==> snaps[i].id != snaps[j].id && snaps[i].pid != snaps[j].pid
  }

  /** A reading lies between what was credited and what was carried. */
  ghost predicate ReadingOk(s: State, snap: Snap, r: Reading) {
    match r
    case Users(users, _) =>
      snap.multiUser
      && forall c :: c in users ==>
           Le(s.reported(snap.pid, c), users[c].bytes) && Le(users[c].bytes, s.carried(snap.pid, c))
    case Totals(total) =>
      !snap.multiUser
      && Le(s.reported(snap.pid, SoleId(snap.clients)), total) && Le(total, s.carried(snap.pid, SoleId(snap.clients)))
  }

  ghost predicate Histories(s: State) {
    (forall p, c :: Le(ZERO, s.reported(p, c)) && Le(s.reported(p, c), s.carried(p, c)))
    && (forall p, c :: p >= s.w.next ==> s.reported(p, c) == ZERO)
  }

  ghost predicate Entries(s: State) {
    forall id :: id in s.w.procs ==> Covered(s, SnapOf(id, s.w.procs[id]))
  }

  ghost predicate Tasks(s: State) {
    Apart(Todo(s.col)) && forall i :: 0 <= i < |Todo(s.col)| ==> Pending(s, Todo(s.col)[i])
  }

  ghost predicate Safe(s: State) {
    Inv(s.w) && Histories(s) && Entries(s) && Tasks(s)
    && (s.col.Scraped? ==> ReadingOk(s, s.col.snap, s.col.reading))
  }

  // ---------- every step keeps it ----------

  /** How the manager's own operations change the world: an entry is an old one, at most retagged, or belongs to a
      process started meanwhile and has no baseline. */
  ghost predicate Evolves(w: World, v: World) {
    Inv(v) && w.next <= v.next
    && forall id :: id in v.procs ==>
      (id in w.procs && SameButTag(w.procs[id], v.procs[id])) || Brandnew(v.procs[id], w.next)
  }

  predicate SameButTag(m: Managed, k: Managed) { k == m.(tag := k.tag) }

  predicate Brandnew(m: Managed, next: nat) {
    m.pid >= next && UniqueIds(m.clients) && !m.haveLast && m.lastByClient == map[]
  }

  lemma DropEvolves(w: World, ids: set<int>)
    requires Inv(w)
    ensures Evolves(w, DropFiles(w, ids))
  {
    DropKeepsInv(w, ids);
  }

  lemma EnsuredEvolves(w: World, inst: Instance, start: Start, quote: Quote)
    requires Inv(w) && UniqueIds(inst.ActiveClients())
    ensures Evolves(w, Ensured(w, inst, start, quote))
  {
    hide Rendered, Fingerprint, UniqueIds;
    EnsuredStep(w, inst, start, quote);
  }

  lemma EvolvesTransitive(u: World, v: World, w: World)
    requires Evolves(u, v) && Evolves(v, w)
    ensures Evolves(u, w)
  {
    hide Inv, UniqueIds;
  }

  lemma {:induction false} EnsuredAllEvolves(w: World, desired: seq<Instance>, starts: seq<Start>, quote: Quote)
    requires Inv(w) && |starts| == |desired|
    requires forall k :: 0 <= k < |desired| ==> UniqueIds(desired[k].ActiveClients())
    ensures Evolves(w, EnsuredAll(w, desired, starts, quote))
  {
    hide Ensured, UniqueIds;
    if desired != [] {
      var n := |desired| - 1;
      EnsuredAllEvolves(w, desired[..n], starts[..n], quote);
      var m := EnsuredAll(w, desired[..n], starts[..n], quote);
      EnsuredEvolves(m, desired[n], starts[n], quote);
      EvolvesTransitive(w, m, EnsuredAll(w, desired, starts, quote));
    }
  }

  lemma EvolvingIsSafe(s: State, w: World)
    requires Safe(s) && Evolves(s.w, w)
    ensures Safe(s.(w := w))
  {
    hide Inv, UniqueIds;
    var t := s.(w := w);
    forall id | id in w.procs ensures Covered(t, SnapOf(id, w.procs[id])) {
      if id in s.w.procs && SameButTag(s.w.procs[id], w.procs[id]) {
        assert Covered(s, SnapOf(id, s.w.procs[id]));
      }
    }
    forall i | 0 <= i < |Todo(t.col)| ensures Pending(t, Todo(t.col)[i]) {
      assert Pending(s, Todo(s.col)[i]);
    }
  }

  lemma CarryIsSafe(s: State, step: Step, quote: Quote)
    requires Safe(s) && step.Carry? && Enabled(s, step)
    ensures Safe(Next(s, step, quote))
  {
    hide Inv, UniqueIds;
    var t := Next(s, step, quote);
    assert forall p, c :: Le(s.carried(p, c), t.carried(p, c));
    forall id | id in t.w.procs ensures Covered(t, SnapOf(id, t.w.procs[id])) {
      assert Covered(s, SnapOf(id, s.w.procs[id]));
    }
    forall i | 0 <= i < |Todo(t.col)| ensures Pending(t, Todo(t.col)[i]) {
      assert Pending(s, Todo(s.col)[i]);
    }
  }

  lemma SnapshotIsSafe(s: State, step: Step, quote: Quote)
    requires Safe(s) && step.Snapshot? && Enabled(s, step)
    ensures Safe(Next(s, step, quote))
  {
    hide UniqueIds, Baseline;
    var t := Next(s, step, quote);
    var order := step.order;
    forall i | 0 <= i < |order| ensures Pending(t, t.col.snaps[i]) {
      assert Covered(s, SnapOf(order[i], s.w.procs[order[i]]));
    }
    forall id | id in t.w.procs ensures Covered(t, SnapOf(id, t.w.procs[id])) {
      assert Covered(s, SnapOf(id, s.w.procs[id]));
    }
  }

  lemma ApartTail(snaps: seq<Snap>, k: nat)
    requires Apart(snaps) && k <= |snaps|
    ensures Apart(snaps[k..])
  {
    assert forall i :: 0 <= i < |snaps| - k ==> snaps[k..][i] == snaps[i + k];
  }

  lemma SameTasks(s: State, t: State, k: nat)
    requires Safe(s) && t == s.(col := t.col) && k <= |Todo(s.col)| && Todo(t.col) == Todo(s.col)[k..]
    requires t.col.Scraped? ==> ReadingOk(s, t.col.snap, t.col.reading)
    ensures Safe(t)
  {
    hide Inv, UniqueIds;
    forall id | id in t.w.procs ensures Covered(t, SnapOf(id, t.w.procs[id])) {
      assert Covered(s, SnapOf(id, s.w.procs[id]));
    }
    ApartTail(Todo(s.col), k);
    forall i | 0 <= i < |Todo(t.col)| ensures Pending(t, Todo(t.col)[i]) {
      assert Todo(t.col)[i] == Todo(s.col)[i + k];
      assert Pending(s, Todo(s.col)[i + k]);
    }
  }

  lemma ReadsIsOk(s: State, snap: Snap, r: Reading)
    requires Histories(s) && Reads(s, snap, r)
    ensures ReadingOk(s, snap, r)
  {}

  lemma CollectorStepIsSafe(s: State, step: Step, quote: Quote)
    requires Safe(s) && (step.Scrape? || step.ScrapeFails? || step.Return?) && Enabled(s, step)
    ensures Safe(Next(s, step, quote))
  {
    hide Inv, UniqueIds, Histories, Tasks, Entries, Reads, ReadingOk;
    var t := Next(s, step, quote);
    var snaps := s.col.snaps;
    if step.Scrape? {
      ReadsIsOk(s, snaps[0], step.reading);
      assert [snaps[0]] + snaps[1..] == snaps;
      SameTasks(s, t, 0);
    } else if step.ScrapeFails? {
      SameTasks(s, t, 1);
    } else {
      SameTasks(s, t, 0);
    }
  }

  /** What a write-back credits is covered by what the process carried and by the baseline it leaves. */
  lemma DeltaBound(s: State, snap: Snap, r: Reading, c: string)
    requires Histories(s) && Covered(s, snap) && ReadingOk(s, snap, r)
    ensures var d := Credited(Deltas(snap, r), c);
            && Le(ZERO, d)
            && Le(Add(s.reported(snap.pid, c), d), s.carried(snap.pid, c))
            && (r.Users? && c in r.users ==> Le(Add(s.reported(snap.pid, c), d), r.users[c].bytes))
            && (r.Totals? && c == SoleId(snap.clients) ==> Le(Add(s.reported(snap.pid, c), d), r.total))
  {
    hide UsersTraffic, TotalTraffic, Credited, HasId, UniqueIds;
    assert Baseline(snap, c) ==> Le(s.reported(snap.pid, c), BaselineOf(snap, c));
    match r {
      case Users(users, now) => CreditedUsers(snap, users, now, snap.clients, c);
      case Totals(total) => CreditedTotal(snap, total, c);
    }
  }

  /** t is s after the write-back of snap and r: only the scraped process gains credit, bounded as in DeltaBound. */
  ghost predicate WroteBack(s: State, t: State, snap: Snap, r: Reading) {
    t.w == s.w.(procs := WrittenBack(s.w.procs, snap, r)) && t.carried == s.carried
    && (forall p, c :: p != snap.pid ==> t.reported(p, c) == s.reported(p, c))
    && (forall c :: Le(ZERO, t.reported(snap.pid, c)) && Le(t.reported(snap.pid, c), s.carried(snap.pid, c)))
    && (r.Users? ==> forall c :: c in r.users ==> Le(t.reported(snap.pid, c), r.users[c].bytes))
    && (r.Totals? ==> Le(t.reported(snap.pid, SoleId(snap.clients)), r.total))
  }

  lemma WriteBackCredits(s: State, quote: Quote)
    requires Safe(s) && s.col.Scraped?
    ensures WroteBack(s, Next(s, WriteBack, quote), s.col.snap, s.col.reading)
  {
    hide UniqueIds, Deltas, Credited, Inv, Entries, WrittenBack, ReadingOk, Covered;
    var t := Next(s, WriteBack, quote);
    var snap, r := s.col.snap, s.col.reading;
    assert Todo(s.col)[0] == snap && Pending(s, snap);
    forall c ensures Le(ZERO, t.reported(snap.pid, c)) && Le(t.reported(snap.pid, c), s.carried(snap.pid, c))
      ensures r.Users? && c in r.users ==> Le(t.reported(snap.pid, c), r.users[c].bytes)
      ensures r.Totals? && c == SoleId(snap.clients) ==> Le(t.reported(snap.pid, c), r.total)
    {
      DeltaBound(s, snap, r, c);
    }
  }

  lemma WriteBackEntries(s: State, t: State, snap: Snap, r: Reading)
    requires Entries(s) && Histories(s) && Pending(s, snap) && ReadingOk(s, snap, r) && WroteBack(s, t, snap, r)
    ensures Entries(t)
  {
    hide UniqueIds, HasId;
    forall id | id in t.w.procs ensures Covered(t, SnapOf(id, t.w.procs[id])) {
      assert Covered(s, SnapOf(id, s.w.procs[id]));
      forall c | Baseline(SnapOf(id, t.w.procs[id]), c)
        ensures Le(t.reported(t.w.procs[id].pid, c), BaselineOf(SnapOf(id, t.w.procs[id]), c))
      {
        assert Le(ZERO, s.reported(snap.pid, c));
        if id == snap.id {
          assert Baseline(SnapOf(id, s.w.procs[id]), c)
            ==> Le(s.reported(s.w.procs[id].pid, c), BaselineOf(SnapOf(id, s.w.procs[id]), c));
        }
      }
    }
  }

  lemma CoveredElsewhere(s: State, t: State, snap: Snap, r: Reading)
    requires WroteBack(s, t, snap, r)
    ensures forall k: Snap :: k.pid != snap.pid && Covered(s, k) ==> Covered(t, k)
  {
    hide UniqueIds, WrittenBack;
  }

  lemma WriteBackTasks(s: State, t: State, snap: Snap, r: Reading)
    requires Tasks(s) && s.col.Scraped? && s.col.snap == snap && t.col == Scraping(s.col.rest)
    requires WroteBack(s, t, snap, r)
    ensures Tasks(t)
  {
    hide UniqueIds, NewByClient, Covered;
    assert Todo(s.col)[1..] == Todo(t.col);
    ApartTail(Todo(s.col), 1);
    CoveredElsewhere(s, t, snap, r);
    forall i | 0 <= i < |Todo(t.col)| ensures Pending(t, Todo(t.col)[i]) {
      assert Todo(t.col)[i] == Todo(s.col)[i + 1];
      assert Pending(s, Todo(s.col)[i + 1]) && Pending(s, Todo(s.col)[0]);
      assert Todo(s.col)[i + 1].id != snap.id && Todo(s.col)[i + 1].pid != snap.pid;
    }
  }

  lemma WriteBackIsSafe(s: State, quote: Quote)
    requires Safe(s) && s.col.Scraped?
    ensures Safe(Next(s, WriteBack, quote))
  {
    hide UniqueIds, Deltas, Credited, Inv, Entries, WrittenBack, ReadingOk, Covered;
    var t := Next(s, WriteBack, quote);
    var snap, r := s.col.snap, s.col.reading;
    assert Todo(s.col)[0] == snap && Pending(s, snap);
    WriteBackCredits(s, quote);
    WrittenBackInv(s.w, snap, r);
    WriteBackEntries(s, t, snap, r);
    WriteBackTasks(s, t, snap, r);
  }

  lemma WrittenBackInv(w: World, snap: Snap, r: Reading)
    requires Inv(w)
    ensures Inv(w.(procs := WrittenBack(w.procs, snap, r)))
  {
    var v := w.(procs := WrittenBack(w.procs, snap, r));
    assert v.procs.Keys == w.procs.Keys;
    assert forall id :: id in w.procs ==> v.procs[id].pid == w.procs[id].pid;
    assert Pids(v) == Pids(w);
  }

  lemma NextIsSafe(s: State, step: Step, quote: Quote)
    requires Safe(s) && Enabled(s, step)
    ensures Safe(Next(s, step, quote))
  {
    hide Safe, UniqueIds, Evolves, DropFiles, EnsuredAll, Ensured;
    assert Inv(s.w) by { SafeInv(s); }
    match step {
      case Carry(_, _, _) => CarryIsSafe(s, step, quote);
      case Crash(pid) => CrashEvolves(s.w, pid); EvolvingIsSafe(s, s.w.(live := s.w.live - {pid}));
      case Ensure(inst, start) =>
        EnsuredEvolves(s.w, inst, start, quote);
        EvolvingIsSafe(s, Ensured(s.w, inst, start, quote));
      case Remove(id) => DropEvolves(s.w, {id}); EvolvingIsSafe(s, DropFiles(s.w, {id}));
      case Reconcile(desired, starts) =>
        ReconcileEvolves(s.w, desired, starts, quote);
        EvolvingIsSafe(s, Reconciled(s.w, desired, starts, quote));
      case StopAll => DropEvolves(s.w, s.w.procs.Keys); EvolvingIsSafe(s, DropFiles(s.w, s.w.procs.Keys));
      case Snapshot(_) => SnapshotIsSafe(s, step, quote);
      case Scrape(_) => CollectorStepIsSafe(s, step, quote);
      case ScrapeFails => CollectorStepIsSafe(s, step, quote);
      case WriteBack => WriteBackIsSafe(s, quote);
      case Return => CollectorStepIsSafe(s, step, quote);
    }
  }

  lemma SafeInv(s: State)
    requires Safe(s)
    ensures Inv(s.w)
  {}

  lemma CrashEvolves(w: World, pid: nat)
    requires Inv(w)
    ensures Evolves(w, w.(live := w.live - {pid}))
  {
    assert Pids(w.(live := w.live - {pid})) == Pids(w);
  }

  lemma ReconcileEvolves(w: World, desired: seq<Instance>, starts: seq<Start>, quote: Quote)
    requires Inv(w) && |starts| == |desired|
    requires forall k :: 0 <= k < |desired| ==> UniqueIds(desired[k].ActiveClients())
    ensures Evolves(w, Reconciled(w, desired, starts, quote))
  {
    hide UniqueIds, EnsuredAll, DropFiles;
    var gone := w.procs.Keys - Wanted(desired);
    DropEvolves(w, gone);
    EnsuredAllEvolves(DropFiles(w, gone), desired, starts, quote);
    EvolvesTransitive(w, DropFiles(w, gone), Reconciled(w, desired, starts, quote));
  }

  // ---------- runs ----------

  /** Sum of f(p, c) over the first n processes. */
  ghost function Sum(f: (nat, string) -> Counter, n: nat, c: string): Counter {
    if n == 0 then ZERO else Add(Sum(f, n - 1, c), f(n - 1, c))
  }

  lemma {:induction false} SumMonotone(f: (nat, string) -> Counter, g: (nat, string) -> Counter, n: nat, c: string)
    requires forall p: nat :: Le(f(p, c), g(p, c))
    ensures Le(Sum(f, n, c), Sum(g, n, c))
  {
    if n > 0 { SumMonotone(f, g, n - 1, c); }
  }

  lemma {:induction false} SumPadded(f: (nat, string) -> Counter, n: nat, m: nat, c: string)
    requires n <= m && forall p: nat :: p >= n ==> f(p, c) == ZERO
    ensures Sum(f, m, c) == Sum(f, n, c)
    decreases m
  {
    if n < m {
      assert f(m - 1, c) == ZERO;
      SumPadded(f, n, m - 1, c);
    }
  }

  lemma {:induction false} SumBumped(f: (nat, string) -> Counter, g: (nat, string) -> Counter, q: nat,
      d: Counter, n: nat, c: string)
    requires forall p: nat :: g(p, c) == if p == q then Add(f(p, c), d) else f(p, c)
    ensures Sum(g, n, c) == if q < n then Add(Sum(f, n, c), d) else Sum(f, n, c)
  {
    if n > 0 { SumBumped(f, g, q, d, n - 1, c); }
  }

  /** Every byte ever returned for a client is credited to exactly one process. */
  ghost predicate Booked(s: State, c: string) {
    Credited(s.sent, c) == Sum(s.reported, s.w.next, c)
  }

  lemma NextKeepsPids(s: State, step: Step, quote: Quote)
    requires Safe(s) && Enabled(s, step)
    ensures s.w.next <= Next(s, step, quote).w.next
    ensures !step.WriteBack? ==> Next(s, step, quote).reported == s.reported && Next(s, step, quote).sent == s.sent
  {
    hide Entries, Tasks, Histories, UniqueIds, EnsuredAll, Ensured;
    match step {
      case Ensure(inst, start) => EnsuredEvolves(s.w, inst, start, quote);
      case Reconcile(desired, starts) => ReconcileEvolves(s.w, desired, starts, quote);
      case _ =>
    }
  }

  lemma NextKeepsBooks(s: State, step: Step, quote: Quote, c: string)
    requires Safe(s) && Enabled(s, step) && Booked(s, c)
    ensures Booked(Next(s, step, quote), c)
  {
    hide Entries, Inv, UniqueIds, EnsuredAll, Ensured, Deltas, Credited;
    var t := Next(s, step, quote);
    if step.WriteBack? {
      var ts := Deltas(s.col.snap, s.col.reading);
      CreditedConcat(s.sent, ts, c);
      SumBumped(s.reported, t.reported, s.col.snap.pid, Credited(ts, c), s.w.next, c);
      assert Pending(s, Todo(s.col)[0]);
    } else {
      NextKeepsPids(s, step, quote);
      SumPadded(s.reported, s.w.next, t.w.next, c);
    }
  }

  ghost predicate IsRun(states: seq<State>, steps: seq<Step>, quote: Quote) {
    |states| == |steps| + 1 && states[0] == Init()
    && forall i :: 0 <= i < |steps| ==>
         Enabled(states[i], steps[i]) && states[i + 1] == Next(states[i], steps[i], quote)
  }

  lemma {:induction false} RunIsSafe(states: seq<State>, steps: seq<Step>, quote: Quote, c: string, n: nat)
    requires IsRun(states, steps, quote) && n <= |steps|
    ensures Safe(states[n]) && Booked(states[n], c)
  {
    hide Safe, Booked, Next, Enabled;
    if n == 0 {
      InitIsSafe(c);
    } else {
      RunIsSafe(states, steps, quote, c, n - 1);
      NextIsSafe(states[n - 1], steps[n - 1], quote);
      NextKeepsBooks(states[n - 1], steps[n - 1], quote, c);
    }
  }

  lemma InitIsSafe(c: string)
    ensures Safe(Init()) && Booked(Init(), c)
  {}

  /** Never over-counted: after any interleaving of collections with starts, restarts, removals and crashes, all the
      deltas returned for a client sum to at most the bytes its processes carried for it, and each process is
      credited with at most its own. */
  lemma NeverOverCounted(states: seq<State>, steps: seq<Step>, quote: Quote, c: string)
    requires IsRun(states, steps, quote)
    ensures var s := states[|steps|];
            && Le(Credited(s.sent, c), Sum(s.carried, s.w.next, c))
            && forall p: nat :: Le(s.reported(p, c), s.carried(p, c))
  {
    hide Inv, Entries, Tasks, Credited, Next;
    RunIsSafe(states, steps, quote, c, |steps|);
    var s := states[|steps|];
    SumMonotone(s.reported, s.carried, s.w.next, c);
  }

  // ---------- runs without mix-ups ----------

  /** What the step writes back for client c of process p. */
  ghost function Wrote(s: State, step: Step, p: nat, c: string): seq<Counter> {
    if step.WriteBack? && s.col.Scraped? && s.col.snap.pid == p && Reports(s.col.snap, s.col.reading, c)
    then [ReportOf(s.col.snap, s.col.reading, c)] else []
  }

  /** The readings of c's bytes that the first n steps write back for process p. */
  ghost function Readings(states: seq<State>, steps: seq<Step>, n: nat, p: nat, c: string): seq<Counter>
    requires n <= |steps| < |states|
  {
    if n == 0 then [] else Readings(states, steps, n - 1, p, c) + Wrote(states[n - 1], steps[n - 1], p, c)
  }

  /** No write-back meant for another process hits p's entry, and p's own ones tell about c. */
  ghost predicate Attributed(s: State, step: Step, p: nat, c: string) {
    step.WriteBack? && s.col.Scraped? ==>
      (s.col.snap.id in s.w.procs && s.w.procs[s.col.snap.id].pid == p ==> s.col.snap.pid == p)
      && (s.col.snap.pid == p ==> Reports(s.col.snap, s.col.reading, c))
  }

  /** The next scrape is compared with the last reading, if there is one. */
  predicate AtLast(snap: Snap, readings: seq<Counter>, c: string) {
    (Baseline(snap, c) <==> readings != []) && (readings != [] ==> BaselineOf(snap, c) == readings[|readings| - 1])
  }

  /** What process p is credited with so far leads from its first reading to its last one. */
  predicate CreditExact(credit: Counter, carried: Counter, readings: seq<Counter>) {
    if readings == [] then credit == ZERO
    else Add(readings[0], credit) == readings[|readings| - 1] && Le(readings[|readings| - 1], carried)
  }

  predicate EntriesExact(procs: map<int, Managed>, readings: seq<Counter>, p: nat, c: string) {
    forall id :: id in procs && procs[id].pid == p ==> AtLast(SnapOf(id, procs[id]), readings, c)
  }

  predicate TasksExact(snaps: seq<Snap>, readings: seq<Counter>, p: nat, c: string) {
    forall i :: 0 <= i < |snaps| && snaps[i].pid == p ==> AtLast(snaps[i], readings, c)
  }

  ghost predicate Exact(s: State, readings: seq<Counter>, p: nat, c: string) {
    && CreditExact(s.reported(p, c), s.carried(p, c), readings)
    && (p >= s.w.next ==> readings == [])
    && EntriesExact(s.w.procs, readings, p, c)
    && TasksExact(Todo(s.col), readings, p, c)
    && (s.col.Scraped? && s.col.snap.pid == p && Reports(s.col.snap, s.col.reading, c) && readings != [] ==>
          Le(readings[|readings| - 1], ReportOf(s.col.snap, s.col.reading, c)))
  }

  lemma EvolvingIsExact(s: State, w: World, readings: seq<Counter>, p: nat, c: string)
    requires Exact(s, readings, p, c) && Evolves(s.w, w)
    ensures Exact(s.(w := w), readings, p, c)
  {
    hide Inv, UniqueIds;
    forall id | id in w.procs && w.procs[id].pid == p ensures AtLast(SnapOf(id, w.procs[id]), readings, c) {
      if id in s.w.procs && SameButTag(s.w.procs[id], w.procs[id]) {
        assert AtLast(SnapOf(id, s.w.procs[id]), readings, c);
      }
    }
  }

  lemma CollectorStepIsExact(s: State, step: Step, quote: Quote, readings: seq<Counter>, p: nat, c: string)
    requires Exact(s, readings, p, c) && Enabled(s, step)
    requires step.Carry? || step.Snapshot? || step.Scrape? || step.ScrapeFails? || step.Return?
    ensures Exact(Next(s, step, quote), readings, p, c)
  {
    hide Baseline, BaselineOf, HasId;
    var t := Next(s, step, quote);
    if step.ScrapeFails? {
      assert forall i :: 0 <= i < |Todo(t.col)| ==> Todo(t.col)[i] == Todo(s.col)[i + 1];
    } else if step.Scrape? {
      assert Todo(t.col) == Todo(s.col);
    }
  }

  /** The entry of a process that is written back holds the reading as its baseline. */
  lemma WrittenBackIsLast(m: Managed, id: int, snap: Snap, r: Reading, readings: seq<Counter>, c: string)
    requires snap.id == id && m.multiUser == snap.multiUser && m.clients == snap.clients && Reports(snap, r, c)
    ensures var procs := WrittenBack(map[id := m], snap, r);
            AtLast(SnapOf(id, procs[id]), readings + [ReportOf(snap, r, c)], c)
  {}

  /** The scraped process itself is credited with the growth since its last reading. */
  lemma CreditsTheGrowth(snap: Snap, r: Reading, readings: seq<Counter>, c: string)
    requires UniqueIds(snap.clients) && Reports(snap, r, c) && AtLast(snap, readings, c)
    requires readings != [] ==> Le(readings[|readings| - 1], ReportOf(snap, r, c))
    ensures var d := Credited(Deltas(snap, r), c);
            if readings == [] then d == ZERO else Add(readings[|readings| - 1], d) == ReportOf(snap, r, c)
  {
    hide UsersTraffic, TotalTraffic, Credited, HasId, UniqueIds;
    match r {
      case Users(users, now) => CreditedUsers(snap, users, now, snap.clients, c);
      case Totals(total) => CreditedTotal(snap, total, c);
    }
  }

  lemma WriteBackIsExact(s: State, quote: Quote, readings: seq<Counter>, p: nat, c: string)
    requires Safe(s) && s.col.Scraped? && Exact(s, readings, p, c) && Attributed(s, WriteBack, p, c)
    ensures Exact(Next(s, WriteBack, quote), readings + Wrote(s, WriteBack, p, c), p, c)
  {
    hide Safe, Pending, Deltas, Credited, AtLast, Reports, WrittenBack, EntriesExact, TasksExact, CreditExact, Apart;
    var snap, r := s.col.snap, s.col.reading;
    TaskIsPending(s);
    if snap.pid == p {
      WriteBackOwn(s, readings, c);
    } else {
      assert readings + Wrote(s, WriteBack, p, c) == readings;
      EntriesElsewhere(s.w.procs, snap, r, readings, p, c);
      assert Todo(s.col)[1..] == s.col.rest;
      TasksTail(Todo(s.col), readings, p, c);
    }
  }

  lemma TaskIsPending(s: State)
    requires Safe(s) && s.col.Scraped?
    ensures Pending(s, s.col.snap) && Apart(Todo(s.col))
  {
    hide Inv, Histories, Entries, Pending, Apart;
    assert Todo(s.col)[0] == s.col.snap;
  }

  /** The write-back for the process itself: credit, entry and the tasks that are left. */
  lemma WriteBackOwn(s: State, readings: seq<Counter>, c: string)
    requires Safe(s) && s.col.Scraped? && Pending(s, s.col.snap) && Apart(Todo(s.col))
    requires Exact(s, readings, s.col.snap.pid, c) && Reports(s.col.snap, s.col.reading, c)
    ensures var snap, r := s.col.snap, s.col.reading;
            var more := readings + [ReportOf(snap, r, c)];
            && CreditExact(Add(s.reported(snap.pid, c), Credited(Deltas(snap, r), c)), s.carried(snap.pid, c), more)
            && snap.pid < s.w.next && EntriesExact(WrittenBack(s.w.procs, snap, r), more, snap.pid, c)
            && TasksExact(s.col.rest, more, snap.pid, c)
  {
    hide *;
    var snap, r := s.col.snap, s.col.reading;
    ExactMeans(s, readings, snap.pid, c);
    PendingMeans(s, snap);
    FirstTask(s, readings, c);
    CreditsTheGrowth(snap, r, readings, c);
    ReadingIsCarried(s, c);
    CreditGrows(s.reported(snap.pid, c), s.carried(snap.pid, c), readings, Credited(Deltas(snap, r), c),
                ReportOf(snap, r, c));
    NoOtherTask(s, readings + [ReportOf(snap, r, c)], c);
    EntryIsLast(s, readings, c);
  }

  lemma ExactMeans(s: State, readings: seq<Counter>, p: nat, c: string)
    requires Exact(s, readings, p, c)
    ensures CreditExact(s.reported(p, c), s.carried(p, c), readings) && TasksExact(Todo(s.col), readings, p, c)
    ensures s.col.Scraped? && s.col.snap.pid == p && Reports(s.col.snap, s.col.reading, c) && readings != []
            ==> Le(readings[|readings| - 1], ReportOf(s.col.snap, s.col.reading, c))
  {
    hide CreditExact, TasksExact, EntriesExact, Reports, Le;
  }

  lemma PendingMeans(s: State, snap: Snap)
    requires Pending(s, snap)
    ensures UniqueIds(snap.clients) && snap.pid < s.w.next
  {
    hide UniqueIds;
  }

  lemma CreditGrows(credit: Counter, carried: Counter, readings: seq<Counter>, d: Counter, x: Counter)
    requires CreditExact(credit, carried, readings) && Le(x, carried)
    requires if readings == [] then d == ZERO else Add(readings[|readings| - 1], d) == x
    ensures CreditExact(Add(credit, d), carried, readings + [x])
  {}

  lemma FirstTask(s: State, readings: seq<Counter>, c: string)
    requires s.col.Scraped? && TasksExact(Todo(s.col), readings, s.col.snap.pid, c)
    ensures AtLast(s.col.snap, readings, c)
  {
    hide AtLast;
    assert Todo(s.col)[0] == s.col.snap;
  }

  lemma NoOtherTask(s: State, readings: seq<Counter>, c: string)
    requires s.col.Scraped? && Apart(Todo(s.col))
    ensures TasksExact(s.col.rest, readings, s.col.snap.pid, c)
  {
    hide AtLast;
    assert Todo(s.col)[0] == s.col.snap;
    forall i | 0 <= i < |s.col.rest| ensures s.col.rest[i].pid != s.col.snap.pid {
      assert Todo(s.col)[i + 1] == s.col.rest[i];
    }
  }

  lemma EntryIsLast(s: State, readings: seq<Counter>, c: string)
    requires s.col.Scraped? && Pending(s, s.col.snap) && Reports(s.col.snap, s.col.reading, c)
    ensures var snap, r := s.col.snap, s.col.reading;
            EntriesExact(WrittenBack(s.w.procs, snap, r), readings + [ReportOf(snap, r, c)], snap.pid, c)
  {
    hide AtLast, WrittenBack, Covered, Reports;
    var snap, r := s.col.snap, s.col.reading;
    OthersUnwritten(s.w.procs, snap, r);
    if snap.id in s.w.procs && s.w.procs[snap.id].pid == snap.pid {
      WrittenBackIsLast(s.w.procs[snap.id], snap.id, snap, r, readings, c);
      SameEntry(s.w.procs, snap, r);
    }
  }

  lemma EntriesElsewhere(procs: map<int, Managed>, snap: Snap, r: Reading, readings: seq<Counter>, p: nat, c: string)
    requires EntriesExact(procs, readings, p, c) && snap.pid != p
    requires snap.id in procs ==> procs[snap.id].pid != p
    ensures EntriesExact(WrittenBack(procs, snap, r), readings, p, c)
  {
    hide AtLast, WrittenBack;
    OthersUnwritten(procs, snap, r);
  }

  lemma TasksTail(snaps: seq<Snap>, readings: seq<Counter>, p: nat, c: string)
    requires snaps != [] && TasksExact(snaps, readings, p, c)
    ensures TasksExact(snaps[1..], readings, p, c)
  {
    hide AtLast;
  }

  lemma OthersUnwritten(procs: map<int, Managed>, snap: Snap, r: Reading)
    ensures var after := WrittenBack(procs, snap, r);
            after.Keys == procs.Keys
            && forall id :: id in procs ==> after[id].pid == procs[id].pid && (id != snap.id ==> after[id] == procs[id])
  {}

  lemma SameEntry(procs: map<int, Managed>, snap: Snap, r: Reading)
    requires snap.id in procs
    ensures WrittenBack(procs, snap, r)[snap.id] == WrittenBack(map[snap.id := procs[snap.id]], snap, r)[snap.id]
  {}

  lemma ReadingIsCarried(s: State, c: string)
    requires Safe(s) && s.col.Scraped? && Reports(s.col.snap, s.col.reading, c)
    ensures Le(ReportOf(s.col.snap, s.col.reading, c), s.carried(s.col.snap.pid, c))
  {
    hide Inv, Histories, Entries, Tasks;
  }

  lemma NextIsExact(s: State, step: Step, quote: Quote, readings: seq<Counter>, p: nat, c: string)
    requires Safe(s) && Enabled(s, step) && Exact(s, readings, p, c) && Attributed(s, step, p, c)
    ensures Exact(Next(s, step, quote), readings + Wrote(s, step, p, c), p, c)
  {
    hide Safe, UniqueIds, Evolves, DropFiles, EnsuredAll, Ensured, Exact, Attributed, Reports;
    assert Inv(s.w) by { SafeInv(s); }
    assert !step.WriteBack? ==> readings + Wrote(s, step, p, c) == readings;
    match step {
      case Crash(pid) =>
        CrashEvolves(s.w, pid);
        EvolvingIsExact(s, s.w.(live := s.w.live - {pid}), readings, p, c);
      case Ensure(inst, start) =>
        EnsuredEvolves(s.w, inst, start, quote);
        EvolvingIsExact(s, Ensured(s.w, inst, start, quote), readings, p, c);
      case Remove(id) =>
        DropEvolves(s.w, {id});
        EvolvingIsExact(s, DropFiles(s.w, {id}), readings, p, c);
      case Reconcile(desired, starts) =>
        ReconcileEvolves(s.w, desired, starts, quote);
        EvolvingIsExact(s, Reconciled(s.w, desired, starts, quote), readings, p, c);
      case StopAll =>
        DropEvolves(s.w, s.w.procs.Keys);
        EvolvingIsExact(s, DropFiles(s.w, s.w.procs.Keys), readings, p, c);
      case WriteBack => WriteBackIsExact(s, quote, readings, p, c);
      case _ => CollectorStepIsExact(s, step, quote, readings, p, c);
    }
  }

  lemma {:induction false} RunIsExact(states: seq<State>, steps: seq<Step>, quote: Quote, p: nat, c: string, n: nat)
    requires IsRun(states, steps, quote) && n <= |steps|
    requires forall i :: 0 <= i < |steps| ==> Attributed(states[i], steps[i], p, c)
    ensures Exact(states[n], Readings(states, steps, n, p, c), p, c)
  {
    hide Safe, Booked, Next, Enabled, Exact, Attributed, Wrote;
    if n == 0 {
      InitIsExact(p, c);
    } else {
      RunIsExact(states, steps, quote, p, c, n - 1);
      RunIsSafe(states, steps, quote, c, n - 1);
      NextIsExact(states[n - 1], steps[n - 1], quote, Readings(states, steps, n - 1, p, c), p, c);
    }
  }

  lemma InitIsExact(p: nat, c: string)
    ensures Exact(Init(), [], p, c)
  {}

  /** Never under-counted between readings: in every run in which no write-back meant for another process hits p's entry
      and each one for p tells about c, the deltas returned for c from p sum to its last reading less its first. */
  lemma DeltasAreExact(states: seq<State>, steps: seq<Step>, quote: Quote, p: nat, c: string)
    requires IsRun(states, steps, quote)
    requires forall i :: 0 <= i < |steps| ==> Attributed(states[i], steps[i], p, c)
    ensures var readings, credit := Readings(states, steps, |steps|, p, c), states[|steps|].reported(p, c);
            if readings == [] then credit == ZERO else Add(readings[0], credit) == readings[|readings| - 1]
  {
    hide Next, Enabled, Attributed, Readings;
    RunIsExact(states, steps, quote, p, c, |steps|);
  }

  // ---------- who is scraped ----------

  /** The scraped process serves the instance under its tag, and its config file tells it the port that is scraped. */
  predicate Scrapes(s: Snap, w: World, inst: Instance, quote: Quote) {
    && s.id == inst.id && s.tag == inst.tag && s.multiUser == inst.multiUser && s.clients == inst.ActiveClients()
    && s.id in w.configs && w.configs[s.id] == Rendered(inst, s.statsPort, quote)
  }

  predicate ScrapesOneOf(s: Snap, w: World, desired: seq<Instance>, quote: Quote) {
    exists k :: 0 <= k < |desired| && Scrapes(s, w, desired[k], quote)
  }

  predicate IsScraped(snaps: seq<Snap>, w: World, inst: Instance, quote: Quote) {
    exists i :: 0 <= i < |snaps| && Scrapes(snaps[i], w, inst, quote)
  }

  /** After a pass the collector scrapes each desired instance that runs, and nothing else, on the port that the
      instance's config file names. */
  lemma ScrapesWhatIsServed(w: World, desired: seq<Instance>, starts: seq<Start>, quote: Quote, order: seq<int>)
    requires Inv(w) && FilesMatch(w, quote) && |starts| == |desired| && DistinctIds(desired)
    requires forall k :: 0 <= k < |desired| ==> Clean(desired[k])
    requires RunningOrder(Reconciled(w, desired, starts, quote), order)
    ensures var r := Reconciled(w, desired, starts, quote);
            var snaps := SnapsOf(r.procs, order);
            && (forall i :: 0 <= i < |snaps| ==> ScrapesOneOf(snaps[i], r, desired, quote))
            && (forall k :: 0 <= k < |desired| && desired[k].id in r.procs ==> IsScraped(snaps, r, desired[k], quote))
  {
    hide *;
    var r := Reconciled(w, desired, starts, quote);
    RunningAreDesired(w, desired, starts, quote);
    ManagedAreDescribed(w, desired, starts, quote);
    SnapsDescribe(r, desired, quote, order);
  }

  lemma RunningAreDesired(w: World, desired: seq<Instance>, starts: seq<Start>, quote: Quote)
    requires Inv(w) && |starts| == |desired| && DistinctIds(desired)
    ensures var r := Reconciled(w, desired, starts, quote);
            && (forall id :: id in r.procs ==> exists k :: 0 <= k < |desired| && desired[k].id == id)
            && (forall k :: 0 <= k < |desired| && desired[k].id in r.procs ==>
                  r.procs[desired[k].id].pid in r.live && r.procs[desired[k].id].tag == desired[k].tag)
  {
    hide Rendered, Fingerprint, Reconciled, Inv;
    ReconcileSettles(w, desired, starts, quote);
    var r := Reconciled(w, desired, starts, quote);
    forall id | id in r.procs ensures exists k :: 0 <= k < |desired| && desired[k].id == id {
      assert id in Wanted(desired);
    }
  }

  /** The managed entry and its file are what SnapOf turns into a snap that scrapes the instance. */
  predicate Describes(w: World, inst: Instance, quote: Quote) {
    inst.id in w.procs ==>
      var m := w.procs[inst.id];
      m.pid in w.live && m.tag == inst.tag && m.multiUser == inst.multiUser && m.clients == inst.ActiveClients()
      && inst.id in w.configs && w.configs[inst.id] == Rendered(inst, m.statsPort, quote)
  }

  lemma ManagedAreDescribed(w: World, desired: seq<Instance>, starts: seq<Start>, quote: Quote)
    requires Inv(w) && FilesMatch(w, quote) && |starts| == |desired| && DistinctIds(desired)
    requires forall k :: 0 <= k < |desired| ==> Clean(desired[k])
    ensures forall k :: 0 <= k < |desired| ==> Describes(Reconciled(w, desired, starts, quote), desired[k], quote)
  {
    hide Rendered, Fingerprint, Reconciled, Inv, FilesMatch, Clean;
    RunningAreDesired(w, desired, starts, quote);
    ReconcileConfigs(w, desired, starts, quote);
  }

  lemma SnapsDescribe(r: World, desired: seq<Instance>, quote: Quote, order: seq<int>)
    requires RunningOrder(r, order)
    requires forall id :: id in r.procs ==> exists k :: 0 <= k < |desired| && desired[k].id == id
    requires forall k :: 0 <= k < |desired| ==> Describes(r, desired[k], quote)
    ensures var snaps := SnapsOf(r.procs, order);
            && (forall i :: 0 <= i < |snaps| ==> ScrapesOneOf(snaps[i], r, desired, quote))
            && (forall k :: 0 <= k < |desired| && desired[k].id in r.procs ==> IsScraped(snaps, r, desired[k], quote))
  {
    hide Rendered, Scrapes, Describes;
    var snaps := SnapsOf(r.procs, order);
    forall i | 0 <= i < |snaps| ensures ScrapesOneOf(snaps[i], r, desired, quote) {
      var k :| 0 <= k < |desired| && desired[k].id == order[i];
      SnapScrapes(r, desired[k], quote, order, i);
    }
    forall k | 0 <= k < |desired| && desired[k].id in r.procs ensures IsScraped(snaps, r, desired[k], quote) {
      RunningIsListed(r, order, desired[k], quote);
      var i :| 0 <= i < |order| && order[i] == desired[k].id;
      SnapScrapes(r, desired[k], quote, order, i);
    }
  }

  lemma RunningIsListed(r: World, order: seq<int>, inst: Instance, quote: Quote)
    requires RunningOrder(r, order) && Describes(r, inst, quote) && inst.id in r.procs
    ensures inst.id in order
  {
    hide Rendered;
  }

  lemma SnapScrapes(r: World, inst: Instance, quote: Quote, order: seq<int>, i: nat)
    requires RunningOrder(r, order) && i < |order| && order[i] == inst.id && Describes(r, inst, quote)
    ensures Scrapes(SnapsOf(r.procs, order)[i], r, inst, quote)
  {
    hide Rendered;
  }
}
