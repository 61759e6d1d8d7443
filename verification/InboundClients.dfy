/** Client lists of the inbounds and the traffic rows that have to track them. */
module InboundClients {
  import opened Options

  datatype Protocol = Vmess | Vless | Trojan | Shadowsocks | Mixed | Http | Hysteria | Hysteria2 | Mtproto | Other

  datatype Client = Client(id: string, password: string, auth: string, email: string,
                           enable: bool, totalGB: int, expiryTime: int, reset: int, subId: string)

  datatype Inbound = Inbound(protocol: Protocol, clients: seq<Client>)

  datatype Stat = Stat(inboundId: int, up: int, down: int, enable: bool, total: int, expiryTime: int, reset: int)

  /** The inbounds by id, and the traffic rows by their unique email. */
  datatype Tables = Tables(inbounds: map<int, Inbound>, stats: map<string, Stat>)

  /** strings.ToLower. */
  type Lower = string -> string

  /** The field that identifies a client of an inbound. */
  function KeyOf(p: Protocol, c: Client): string {
    match p
    case Trojan => c.password
    case Shadowsocks | Mixed | Http => c.email
    case Hysteria | Hysteria2 => c.auth
    case _ => c.id
  }

  // ---------- what has to hold ----------

  predicate HasEmail(cs: seq<Client>, e: string) { exists k :: 0 <= k < |cs| && cs[k].email == e }

  ghost predicate Distinct(cs: seq<Client>) {
    forall k, l :: 0 <= k < l < |cs| && cs[k].email != "" ==> cs[k].email != cs[l].email
  }

  /** Every non-empty email in a client list has its row, under its inbound, and every row is for such an email. */
  ghost predicate Covered(s: Tables) {
    (forall i, k :: i in s.inbounds && 0 <= k < |s.inbounds[i].clients| && s.inbounds[i].clients[k].email != "" ==>
      s.inbounds[i].clients[k].email in s.stats && s.stats[s.inbounds[i].clients[k].email].inboundId == i)
    && (forall e :: e in s.stats ==>
          e != "" && s.stats[e].inboundId in s.inbounds && HasEmail(s.inbounds[s.stats[e].inboundId].clients, e))
  }

  /** The rows of each inbound are in bijection with the non-empty emails of its list. */
  ghost predicate Tracked(s: Tables) {
    Covered(s) && forall i :: i in s.inbounds ==> Distinct(s.inbounds[i].clients)
  }

  /** Rows of other inbounds are untouched. */
  ghost predicate OthersKept(s: Tables, t: Tables, id: int) {
    (forall e :: e in s.stats && s.stats[e].inboundId != id ==> e in t.stats && t.stats[e] == s.stats[e])
    && (forall e :: e in t.stats && t.stats[e].inboundId != id ==> e in s.stats && t.stats[e] == s.stats[e])
    && (forall i :: i != id ==>
          (i in t.inbounds <==> i in s.inbounds) && (i in s.inbounds ==> t.inbounds[i] == s.inbounds[i]))
  }

  /** The row carries the client's limits. */
  predicate RowFor(r: Stat, id: int, c: Client) {
    r.inboundId == id && r.enable == c.enable && r.total == c.totalGB
    && r.expiryTime == c.expiryTime && r.reset == c.reset
  }

  // ---------- duplicate check ----------

  ghost predicate InUse(s: Tables, e: string, lower: Lower) {
    exists i, k ::
      i in s.inbounds && 0 <= k < |s.inbounds[i].clients| && lower(s.inbounds[i].clients[k].email) == lower(e)
  }

  /** No non-empty email of the list is in use or repeated, ignoring case. */
  ghost predicate NoDuplicates(s: Tables, cs: seq<Client>, lower: Lower) {
    (forall k :: 0 <= k < |cs| && cs[k].email != "" ==> !InUse(s, cs[k].email, lower))
    && (forall k, l :: 0 <= k < l < |cs| && cs[k].email != "" && cs[l].email != "" ==>
          lower(cs[k].email) != lower(cs[l].email))
  }

  // ---------- the operations ----------

  function NewStat(id: int, c: Client): Stat { Stat(id, 0, 0, c.enable, c.totalGB, c.expiryTime, c.reset) }

  /** A row that would violate the unique email is not created. */
  function WithStat(stats: map<string, Stat>, id: int, c: Client): map<string, Stat> {
    if c.email == "" || c.email in stats then stats else stats[c.email := NewStat(id, c)]
  }

  function WithStats(stats: map<string, Stat>, id: int, cs: seq<Client>): map<string, Stat> {
    if cs == [] then stats else WithStat(WithStats(stats, id, cs[..|cs| - 1]), id, cs[|cs| - 1])
  }

  ghost function AfterAdd(s: Tables, id: int, req: seq<Client>, lower: Lower): Option<Tables> {
    if NoDuplicates(s, req, lower) && id in s.inbounds && !s.inbounds[id].protocol.Mtproto?
       && forall k :: 0 <= k < |req| ==> KeyOf(s.inbounds[id].protocol, req[k]) != ""
    then
      var ib := s.inbounds[id];
      Some(Tables(s.inbounds[id := ib.(clients := ib.clients + req)], WithStats(s.stats, id, req)))
    else None
  }

  /** The first client with the key, or -1. */
  function IndexOfKey(p: Protocol, cs: seq<Client>, key: string): (k: int)
    ensures -1 <= k < |cs| && (k >= 0 ==> KeyOf(p, cs[k]) == key)
    ensures forall l :: 0 <= l < (if k >= 0 then k else |cs|) ==> KeyOf(p, cs[l]) != key
  {
    if cs == [] then -1
    else
      var k := IndexOfKey(p, cs[..|cs| - 1], key);
      if k >= 0 then k else if KeyOf(p, cs[|cs| - 1]) == key then |cs| - 1 else -1
  }

  function UpdatedStat(r: Stat, c: Client): Stat {
    r.(enable := c.enable, total := c.totalGB, expiryTime := c.expiryTime, reset := c.reset)
  }

  /** UpdateClientStat renames the row; None if the unique email is violated. */
  function MovedStat(stats: map<string, Stat>, oldEmail: string, c: Client): Option<map<string, Stat>> {
    if oldEmail !in stats then Some(stats)
    else if c.email != oldEmail && c.email in stats then None
    else Some((stats - {oldEmail})[c.email := UpdatedStat(stats[oldEmail], c)])
  }

  ghost function AfterUpdate(s: Tables, id: int, req: seq<Client>, key: string, lower: Lower): Option<Tables>
    requires req != []
  {
    if id !in s.inbounds || s.inbounds[id].protocol.Mtproto? then None
    else
      var ib, c := s.inbounds[id], req[0];
      var k := IndexOfKey(ib.protocol, ib.clients, key);
      if k < 0 || KeyOf(ib.protocol, c) == "" then None
      else
        var oldEmail := ib.clients[k].email;
        var inbounds := s.inbounds[id := ib.(clients := ib.clients[k := c])];
        if c.email != "" && c.email != oldEmail && !NoDuplicates(s, req, lower) then None
        else if c.email == "" then Some(Tables(inbounds, s.stats - {oldEmail}))
        else if oldEmail == "" then Some(Tables(inbounds, WithStat(s.stats, id, c)))
        else
          match MovedStat(s.stats, oldEmail, c)
          case None => None
          case Some(stats) => Some(Tables(inbounds, stats))
  }

  function WithoutKey(p: Protocol, cs: seq<Client>, key: string): seq<Client> {
    if cs == [] then []
    else
      WithoutKey(p, cs[..|cs| - 1], key) + (if KeyOf(p, cs[|cs| - 1]) == key then [] else [cs[|cs| - 1]])
  }

  /** The last client with the key, or -1: its email is the one whose row goes. */
  function LastOfKey(p: Protocol, cs: seq<Client>, key: string): (k: int)
    ensures -1 <= k < |cs| && (k >= 0 ==> KeyOf(p, cs[k]) == key)
    ensures forall l :: k < l < |cs| ==> KeyOf(p, cs[l]) != key
  {
    if cs == [] then -1
    else if KeyOf(p, cs[|cs| - 1]) == key then |cs| - 1
    else LastOfKey(p, cs[..|cs| - 1], key)
  }

  function AfterDel(s: Tables, id: int, key: string): Option<Tables> {
    if id !in s.inbounds || s.inbounds[id].protocol.Mtproto? then None
    else
      var ib := s.inbounds[id];
      var k, rest := LastOfKey(ib.protocol, ib.clients, key), WithoutKey(ib.protocol, ib.clients, key);
      if k < 0 || rest == [] then None
      else
        var email := ib.clients[k].email;
        if email != "" && email !in s.stats then None
        else Some(Tables(s.inbounds[id := ib.(clients := rest)], if email == "" then s.stats else s.stats - {email}))
  }

  function EmailsOf(cs: seq<Client>): (es: set<string>)
    ensures forall e :: e in es <==> e != "" && HasEmail(cs, e)
  {
    set k | 0 <= k < |cs| && cs[k].email != "" :: cs[k].email
  }

  /** Creates the rows of the added emails in list order; None at the first violation of the unique email. */
  function AddedStats(stats: map<string, Stat>, id: int, cs: seq<Client>,
      known: set<string>): Option<map<string, Stat>> {
    if cs == [] then Some(stats)
    else
      var c := cs[|cs| - 1];
      match AddedStats(stats, id, cs[..|cs| - 1], known)
      case None => None
      case Some(m) =>
        if c.email == "" || c.email in known then Some(m)
        else if c.email in m then None
        else Some(m[c.email := NewStat(id, c)])
  }

  /** UpdateInbound: the row sync, and the protocol and list that it stores. A request for a sidecar takes another path,
      which stores the settings without a client list, leaves the protocol and syncs no rows. */
  function AfterSync(s: Tables, id: int, p: Protocol, cs: seq<Client>): Option<Tables> {
    if id !in s.inbounds then None
    else if p.Mtproto? then Some(Tables(s.inbounds[id := s.inbounds[id].(clients := [])], s.stats))
    else
      var was, will := EmailsOf(s.inbounds[id].clients), EmailsOf(cs);
      match AddedStats(s.stats - (was - will), id, cs, was)
      case None => None
      case Some(stats) => Some(Tables(s.inbounds[id := Inbound(p, cs)], stats))
  }

  // ---------- adding ----------

  /** m is stats with a fresh row for each non-empty email of cs. */
  ghost predicate Gains(stats: map<string, Stat>, id: int, cs: seq<Client>, m: map<string, Stat>) {
    (forall e :: e in m <==> e in stats || (e != "" && HasEmail(cs, e)))
    && (forall e :: e in stats ==> m[e] == stats[e])
    && (forall k :: 0 <= k < |cs| && cs[k].email != "" ==> cs[k].email in m && m[cs[k].email] == NewStat(id, cs[k]))
  }

  lemma GainsOneMore(stats: map<string, Stat>, id: int, cs: seq<Client>, m: map<string, Stat>)
    requires cs != [] && Distinct(cs) && Gains(stats, id, cs[..|cs| - 1], m)
    requires cs[|cs| - 1].email !in stats
    ensures Gains(stats, id, cs, WithStat(m, id, cs[|cs| - 1]))
  {
    hide HasEmail, Distinct;
    var n := |cs| - 1;
    LastIsNew(cs);
    HasEmailLast(cs);
    var r := WithStat(m, id, cs[n]);
    assert cs[n].email != "" ==> r == m[cs[n].email := NewStat(id, cs[n])];
    forall k | 0 <= k < |cs| && cs[k].email != "" ensures cs[k].email in r && r[cs[k].email] == NewStat(id, cs[k]) {
      if k < n {
        assert cs[..n][k] == cs[k];
        EmailInList(cs[..n], k);
        assert cs[k].email in m;
      }
    }
  }

  lemma EmailInList(cs: seq<Client>, k: nat)
    requires k < |cs|
    ensures HasEmail(cs, cs[k].email)
  {}

  lemma {:induction false} WithStatsMeaning(stats: map<string, Stat>, id: int, cs: seq<Client>)
    requires Distinct(cs) && forall k :: 0 <= k < |cs| ==> cs[k].email !in stats
    ensures Gains(stats, id, cs, WithStats(stats, id, cs))
  {
    if cs != [] {
      hide *;
      var n := |cs| - 1;
      LastIsNew(cs);
      assert forall k :: 0 <= k < n ==> cs[..n][k] == cs[k];
      WithStatsMeaning(stats, id, cs[..n]);
      WithStatsLast(stats, id, cs);
      GainsOneMore(stats, id, cs, WithStats(stats, id, cs[..n]));
    }
  }

  lemma LastIsNew(cs: seq<Client>)
    requires cs != [] && Distinct(cs)
    ensures Distinct(cs[..|cs| - 1])
    ensures cs[|cs| - 1].email != "" ==> !HasEmail(cs[..|cs| - 1], cs[|cs| - 1].email)
  {}

  lemma WithStatsLast(stats: map<string, Stat>, id: int, cs: seq<Client>)
    requires cs != []
    ensures WithStats(stats, id, cs) == WithStat(WithStats(stats, id, cs[..|cs| - 1]), id, cs[|cs| - 1])
  {}

  lemma HasEmailLast(cs: seq<Client>)
    requires cs != []
    ensures forall e :: HasEmail(cs, e) <==> HasEmail(cs[..|cs| - 1], e) || cs[|cs| - 1].email == e
  {
    var n := |cs| - 1;
    forall e ensures HasEmail(cs, e) <==> HasEmail(cs[..n], e) || cs[n].email == e {
      if HasEmail(cs, e) {
        var k :| 0 <= k < |cs| && cs[k].email == e;
        assert k < n ==> cs[..n][k].email == e;
      }
      if HasEmail(cs[..n], e) {
        var k :| 0 <= k < n && cs[..n][k].email == e;
        assert cs[k].email == e;
      }
    }
  }

  lemma HasEmailConcat(a: seq<Client>, b: seq<Client>, e: string)
    ensures HasEmail(a + b, e) <==> HasEmail(a, e) || HasEmail(b, e)
  {
    if HasEmail(a, e) {
      var k :| 0 <= k < |a| && a[k].email == e;
      assert (a + b)[k].email == e;
    }
    if HasEmail(b, e) {
      var k :| 0 <= k < |b| && b[k].email == e;
      assert (a + b)[|a| + k].email == e;
    }
    if HasEmail(a + b, e) {
      var k :| 0 <= k < |a + b| && (a + b)[k].email == e;
      assert k < |a| ==> a[k].email == e;
      assert k >= |a| ==> b[k - |a|].email == e;
    }
  }

  lemma EqualIsInUse(s: Tables, i: int, l: nat, lower: Lower)
    requires i in s.inbounds && l < |s.inbounds[i].clients|
    ensures InUse(s, s.inbounds[i].clients[l].email, lower)
  {}

  lemma RowIsInUse(s: Tables, e: string, lower: Lower)
    requires Covered(s) && e in s.stats
    ensures InUse(s, e, lower)
  {
    var i := s.stats[e].inboundId;
    var l :| 0 <= l < |s.inbounds[i].clients| && s.inbounds[i].clients[l].email == e;
    EqualIsInUse(s, i, l, lower);
  }

  /** A list that passes the check is new to the table. */
  lemma CheckedIsNew(s: Tables, req: seq<Client>, lower: Lower)
    requires Covered(s) && NoDuplicates(s, req, lower)
    ensures Distinct(req)
    ensures forall k :: 0 <= k < |req| ==> req[k].email !in s.stats
    ensures forall i, l, k ::
              i in s.inbounds && 0 <= l < |s.inbounds[i].clients| && 0 <= k < |req| && req[k].email != "" ==>
                s.inbounds[i].clients[l].email != req[k].email
  {
    hide InUse;
    forall e | e in s.stats ensures InUse(s, e, lower) {
      RowIsInUse(s, e, lower);
    }
    forall i, l | i in s.inbounds && 0 <= l < |s.inbounds[i].clients|
      ensures InUse(s, s.inbounds[i].clients[l].email, lower)
    {
      EqualIsInUse(s, i, l, lower);
    }
  }

  lemma DistinctConcat(a: seq<Client>, b: seq<Client>)
    requires Distinct(a) && Distinct(b)
    requires forall l, k :: 0 <= l < |a| && 0 <= k < |b| && b[k].email != "" ==> a[l].email != b[k].email
    ensures Distinct(a + b)
  {}

  /** A successful addition gives every added email a fresh row and keeps everything else. */
  lemma AddKeepsTracked(s: Tables, id: int, req: seq<Client>, lower: Lower)
    requires Tracked(s) && AfterAdd(s, id, req, lower).Some?
    ensures var t := AfterAdd(s, id, req, lower).value;
            && Tracked(t) && OthersKept(s, t, id)
            && t.inbounds[id].protocol == s.inbounds[id].protocol
            && t.inbounds[id].clients == s.inbounds[id].clients + req
            && (forall e :: e in s.stats ==> e in t.stats && t.stats[e] == s.stats[e])
            && (forall k :: 0 <= k < |req| && req[k].email != "" ==>
                  req[k].email in t.stats && RowFor(t.stats[req[k].email], id, req[k])
                  && t.stats[req[k].email].up == 0 && t.stats[req[k].email].down == 0)
  {
    hide NoDuplicates, WithStats, Distinct, HasEmail;
    var t := AfterAdd(s, id, req, lower).value;
    var cs := s.inbounds[id].clients;
    CheckedIsNew(s, req, lower);
    WithStatsMeaning(s.stats, id, req);
    DistinctConcat(cs, req);
    AddCovers(s, t, id, req);
    forall e | e in t.stats && t.stats[e].inboundId != id ensures e in s.stats && t.stats[e] == s.stats[e] {
      if e !in s.stats {
        EmailAt(req, e);
        assert false;
      }
    }
  }

  lemma EmailAt(cs: seq<Client>, e: string)
    requires HasEmail(cs, e)
    ensures exists k :: 0 <= k < |cs| && cs[k].email == e
  {}

  lemma AddCovers(s: Tables, t: Tables, id: int, req: seq<Client>)
    requires Covered(s) && id in s.inbounds
    requires t.inbounds == s.inbounds[id := s.inbounds[id].(clients := s.inbounds[id].clients + req)]
    requires forall e :: e in t.stats <==> e in s.stats || (e != "" && HasEmail(req, e))
    requires forall e :: e in s.stats ==> t.stats[e] == s.stats[e]
    requires forall k :: 0 <= k < |req| && req[k].email != "" ==>
               req[k].email in t.stats && t.stats[req[k].email] == NewStat(id, req[k])
    ensures Covered(t)
  {
    var cs := s.inbounds[id].clients;
    forall e | e in t.stats
      ensures e != "" && t.stats[e].inboundId in t.inbounds && HasEmail(t.inbounds[t.stats[e].inboundId].clients, e)
    {
      HasEmailConcat(cs, req, e);
      if e !in s.stats {
        var k :| 0 <= k < |req| && req[k].email == e;
      }
    }
  }

  // ---------- editing ----------

  lemma HasEmailReplaced(cs: seq<Client>, k: nat, c: Client, e: string)
    requires k < |cs| && Distinct(cs) && e != ""
    ensures HasEmail(cs[k := c], e) <==> e == c.email || (e != cs[k].email && HasEmail(cs, e))
  {
    if HasEmail(cs[k := c], e) {
      var l :| 0 <= l < |cs| && cs[k := c][l].email == e;
      assert l != k ==> cs[l].email == e;
    }
    if e == c.email {
      assert cs[k := c][k].email == e;
    }
    if e != cs[k].email && HasEmail(cs, e) {
      var l :| 0 <= l < |cs| && cs[l].email == e;
      assert cs[k := c][l].email == e;
    }
  }

  lemma DistinctReplaced(cs: seq<Client>, k: nat, c: Client)
    requires k < |cs| && Distinct(cs) && (c.email == "" || c.email == cs[k].email || !HasEmail(cs, c.email))
    ensures Distinct(cs[k := c])
  {
    var r := cs[k := c];
    forall a, b | 0 <= a < b < |r| && r[a].email != "" ensures r[a].email != r[b].email {
      if a == k {
        assert cs[b].email != c.email;
      } else if b == k {
        assert cs[a].email != c.email;
      }
    }
  }

  /** The edited client's row moves along with its email, counters kept; a client that had none gets a fresh row. */
  lemma UpdateKeepsTracked(s: Tables, id: int, req: seq<Client>, key: string, lower: Lower)
    requires req != [] && Tracked(s) && AfterUpdate(s, id, req, key, lower).Some?
    ensures var t := AfterUpdate(s, id, req, key, lower).value;
            && Tracked(t) && OthersKept(s, t, id)
            && var c, k := req[0], IndexOfKey(s.inbounds[id].protocol, s.inbounds[id].clients, key);
               var was := s.inbounds[id].clients[k].email;
            && k >= 0 && t.inbounds[id] == s.inbounds[id].(clients := s.inbounds[id].clients[k := c])
            && (forall e :: e in s.stats && e != was ==> e in t.stats && t.stats[e] == s.stats[e])
            && (c.email != "" ==> c.email in t.stats && RowFor(t.stats[c.email], id, c))
            && (c.email != "" ==>
                  t.stats[c.email].up == (if was != "" then s.stats[was].up else 0)
                  && t.stats[c.email].down == (if was != "" then s.stats[was].down else 0))
  {
    hide NoDuplicates, Distinct, HasEmail, IndexOfKey, KeyOf;
    var t := AfterUpdate(s, id, req, key, lower).value;
    var ib, c := s.inbounds[id], req[0];
    var cs, k := ib.clients, IndexOfKey(ib.protocol, ib.clients, key);
    var was := cs[k].email;
    if c.email != "" && c.email != was {
      CheckedIsNew(s, req, lower);
      NoSuchEmail(cs, c.email);
    }
    DistinctReplaced(cs, k, c);
    forall e | e != "" ensures HasEmail(cs[k := c], e) <==> e == c.email || (e != was && HasEmail(cs, e)) {
      HasEmailReplaced(cs, k, c, e);
    }
    UpdateStats(s, id, req, key, lower);
    UpdateCovers(s, t, id, k, c);
  }

  lemma NoSuchEmail(cs: seq<Client>, e: string)
    requires forall l :: 0 <= l < |cs| ==> cs[l].email != e
    ensures !HasEmail(cs, e)
  {}

  /** What an edit does to the rows, given that a new email is free. */
  lemma UpdateStats(s: Tables, id: int, req: seq<Client>, key: string, lower: Lower)
    requires req != [] && Covered(s) && AfterUpdate(s, id, req, key, lower).Some?
    requires var k := IndexOfKey(s.inbounds[id].protocol, s.inbounds[id].clients, key);
             req[0].email == s.inbounds[id].clients[k].email || req[0].email !in s.stats
    ensures var t := AfterUpdate(s, id, req, key, lower).value;
            var c, k := req[0], IndexOfKey(s.inbounds[id].protocol, s.inbounds[id].clients, key);
            var was := s.inbounds[id].clients[k].email;
            && (forall e :: e in t.stats <==> (e in s.stats && e != was) || (e == c.email && e != ""))
            && (forall e :: e in s.stats && e != was ==> t.stats[e] == s.stats[e])
            && (c.email != "" ==>
                  t.stats[c.email] == if was != "" then UpdatedStat(s.stats[was], c) else NewStat(id, c))
  {
    hide NoDuplicates, Distinct, HasEmail, IndexOfKey, KeyOf;
  }

  lemma UpdateCovers(s: Tables, t: Tables, id: int, k: nat, c: Client)
    requires Covered(s) && id in s.inbounds && k < |s.inbounds[id].clients| && Distinct(s.inbounds[id].clients)
    requires t.inbounds == s.inbounds[id := s.inbounds[id].(clients := s.inbounds[id].clients[k := c])]
    requires var was := s.inbounds[id].clients[k].email;
             && (forall e :: e in t.stats <==> (e in s.stats && e != was) || (e == c.email && e != ""))
             && (forall e :: e in s.stats && e != was ==> t.stats[e] == s.stats[e])
             && (c.email != "" ==> t.stats[c.email].inboundId == id)
    requires c.email != "" && c.email != s.inbounds[id].clients[k].email ==> c.email !in s.stats
    ensures Covered(t)
  {
    hide HasEmail;
    var cs := s.inbounds[id].clients;
    var was := cs[k].email;
    forall i, l | i in t.inbounds && 0 <= l < |t.inbounds[i].clients| && t.inbounds[i].clients[l].email != ""
      ensures t.inbounds[i].clients[l].email in t.stats && t.stats[t.inbounds[i].clients[l].email].inboundId == i
    {
      var e := t.inbounds[i].clients[l].email;
      if i != id {
        assert s.inbounds[i].clients[l].email == e && s.stats[e].inboundId == i;
        assert e != was;
      } else if l != k {
        assert cs[l].email == e && s.stats[e].inboundId == id;
      }
    }
    forall e | e in t.stats
      ensures e != "" && t.stats[e].inboundId in t.inbounds && HasEmail(t.inbounds[t.stats[e].inboundId].clients, e)
    {
      HasEmailReplaced(cs, k, c, e);
    }
  }

  // ---------- deleting ----------

  /** The removed clients other than the last one with the key have no email. */
  ghost predicate OnlyLastHasEmail(p: Protocol, cs: seq<Client>, key: string) {
    forall l :: 0 <= l < |cs| && KeyOf(p, cs[l]) == key && l != LastOfKey(p, cs, key) ==> cs[l].email == ""
  }

  /** A client with another key has the email. */
  predicate HasOther(p: Protocol, cs: seq<Client>, key: string, e: string) {
    exists k :: 0 <= k < |cs| && cs[k].email == e && KeyOf(p, cs[k]) != key
  }

  lemma HasOtherLast(p: Protocol, cs: seq<Client>, key: string, e: string)
    requires cs != []
    ensures var n := |cs| - 1;
            HasOther(p, cs, key, e) <==> HasOther(p, cs[..n], key, e) || (KeyOf(p, cs[n]) != key && cs[n].email == e)
  {
    hide KeyOf;
    var n := |cs| - 1;
    var front := cs[..n];
    assert forall j :: 0 <= j < n ==> front[j] == cs[j];
    if HasOther(p, front, key, e) {
      var k :| 0 <= k < n && front[k].email == e && KeyOf(p, front[k]) != key;
      assert cs[k].email == e;
    } else if HasOther(p, cs, key, e) {
      var k :| 0 <= k < |cs| && cs[k].email == e && KeyOf(p, cs[k]) != key;
    }
  }

  lemma WithoutKeyLast(p: Protocol, cs: seq<Client>, key: string)
    requires cs != []
    ensures var n := |cs| - 1;
            WithoutKey(p, cs, key) == WithoutKey(p, cs[..n], key) + if KeyOf(p, cs[n]) == key then [] else [cs[n]]
  {}

  /** Every client with the key is gone, and the others are all still there, as often as before. */
  lemma {:induction false} WithoutKeyCounts(p: Protocol, cs: seq<Client>, key: string, c: Client)
    ensures multiset(WithoutKey(p, cs, key))[c] == if KeyOf(p, c) == key then 0 else multiset(cs)[c]
    decreases |cs|
  {
    if cs != [] {
      hide WithoutKey, KeyOf;
      var n := |cs| - 1;
      WithoutKeyCounts(p, cs[..n], key, c);
      WithoutKeyLast(p, cs, key);
      assert cs == cs[..n] + [cs[n]];
    }
  }

  lemma {:induction false} WithoutKeyHas(p: Protocol, cs: seq<Client>, key: string, e: string)
    ensures HasEmail(WithoutKey(p, cs, key), e) <==> HasOther(p, cs, key, e)
    decreases |cs|
  {
    if cs != [] {
      hide WithoutKey, KeyOf, HasEmail, HasOther;
      var n := |cs| - 1;
      WithoutKeyHas(p, cs[..n], key, e);
      WithoutKeyLast(p, cs, key);
      HasOtherLast(p, cs, key, e);
      SingleEmail(cs[n], e);
      HasEmailConcat(WithoutKey(p, cs[..n], key), if KeyOf(p, cs[n]) == key then [] else [cs[n]], e);
    }
  }

  lemma SingleEmail(c: Client, e: string)
    ensures HasEmail([c], e) <==> c.email == e
    ensures !HasEmail([], e)
  {
    assert [c][0].email == c.email;
  }

  lemma {:induction false} WithoutKeyDistinct(p: Protocol, cs: seq<Client>, key: string)
    requires Distinct(cs)
    ensures Distinct(WithoutKey(p, cs, key))
    decreases |cs|
  {
    if cs != [] {
      hide WithoutKey, KeyOf;
      var n := |cs| - 1;
      var front := WithoutKey(p, cs[..n], key);
      WithoutKeyDistinct(p, cs[..n], key);
      WithoutKeyLast(p, cs, key);
      if KeyOf(p, cs[n]) != key && cs[n].email != "" {
        LastIsNew(cs);
        WithoutKeyHas(p, cs[..n], key, cs[n].email);
        assert !HasEmail(front, cs[n].email);
      }
    }
  }

  lemma LastKeyIn(p: Protocol, cs: seq<Client>, key: string, l: nat)
    requires l < |cs| && KeyOf(p, cs[l]) == key
    ensures 0 <= l <= LastOfKey(p, cs, key)
  {
    hide KeyOf;
  }

  /** The emails whose rows go are those of the removed clients: the two agree when only the last has one. */
  lemma DelRows(p: Protocol, cs: seq<Client>, key: string, e: string)
    requires Distinct(cs) && e != "" && LastOfKey(p, cs, key) >= 0
    ensures HasEmail(WithoutKey(p, cs, key), e) ==> HasEmail(cs, e) && e != cs[LastOfKey(p, cs, key)].email
    ensures OnlyLastHasEmail(p, cs, key) && HasEmail(cs, e) && e != cs[LastOfKey(p, cs, key)].email
            ==> HasEmail(WithoutKey(p, cs, key), e)
  {
    hide KeyOf, WithoutKey, LastOfKey;
    WithoutKeyHas(p, cs, key, e);
    var last := LastOfKey(p, cs, key);
    if HasOther(p, cs, key, e) {
      var k :| 0 <= k < |cs| && cs[k].email == e && KeyOf(p, cs[k]) != key;
      assert k != last;
      assert cs[k].email != cs[last].email by {
        if k < last {
          assert cs[k].email != cs[last].email;
        } else if cs[last].email != "" {
          assert cs[last].email != cs[k].email;
        }
      }
    }
    if OnlyLastHasEmail(p, cs, key) && HasEmail(cs, e) && e != cs[last].email {
      var k :| 0 <= k < |cs| && cs[k].email == e;
      assert k != last;
      assert KeyOf(p, cs[k]) != key;
      assert HasOther(p, cs, key, e);
    }
  }

  lemma DelCovers(s: Tables, id: int, key: string)
    requires Tracked(s) && AfterDel(s, id, key).Some?
    requires OnlyLastHasEmail(s.inbounds[id].protocol, s.inbounds[id].clients, key)
    ensures Tracked(AfterDel(s, id, key).value)
  {
    hide Distinct, KeyOf, OnlyLastHasEmail, HasEmail, WithoutKey, LastOfKey;
    var ib, t := s.inbounds[id], AfterDel(s, id, key).value;
    var rest, last := WithoutKey(ib.protocol, ib.clients, key), LastOfKey(ib.protocol, ib.clients, key);
    WithoutKeyDistinct(ib.protocol, ib.clients, key);
    forall k | 0 <= k < |rest| && rest[k].email != ""
      ensures rest[k].email in t.stats && t.stats[rest[k].email].inboundId == id
    {
      EmailInList(rest, k);
      DelRows(ib.protocol, ib.clients, key, rest[k].email);
      EmailAt(ib.clients, rest[k].email);
    }
    forall i, k | i in t.inbounds && 0 <= k < |t.inbounds[i].clients| && t.inbounds[i].clients[k].email != ""
      ensures t.inbounds[i].clients[k].email in t.stats && t.stats[t.inbounds[i].clients[k].email].inboundId == i
    {
      if i != id {
        assert s.inbounds[i].clients[k].email in s.stats;
      }
    }
    forall e | e in t.stats
      ensures e != "" && t.stats[e].inboundId in t.inbounds && HasEmail(t.inbounds[t.stats[e].inboundId].clients, e)
    {
      if t.stats[e].inboundId == id {
        DelRows(ib.protocol, ib.clients, key, e);
      }
    }
  }

  lemma DifferentEmails(cs: seq<Client>, k: nat, l: nat)
    requires Distinct(cs) && k < |cs| && l < |cs| && k != l && cs[k].email != ""
    ensures cs[k].email != cs[l].email
  {}

  /** If another removed client has an email, its row is left behind. */
  lemma DelLeavesRow(s: Tables, id: int, key: string, l: nat)
    requires Tracked(s) && AfterDel(s, id, key).Some?
    requires var ib := s.inbounds[id];
             l < |ib.clients| && KeyOf(ib.protocol, ib.clients[l]) == key
             && l != LastOfKey(ib.protocol, ib.clients, key)
             && ib.clients[l].email != ""
    ensures !Tracked(AfterDel(s, id, key).value)
  {
    hide KeyOf, WithoutKey, LastOfKey, Distinct;
    var ib, t := s.inbounds[id], AfterDel(s, id, key).value;
    var cs, last := ib.clients, LastOfKey(ib.protocol, ib.clients, key);
    var e := cs[l].email;
    LastKeyIn(ib.protocol, cs, key, l);
    DifferentEmails(cs, l, last);
    assert e in t.stats && t.stats[e].inboundId == id;
    WithoutKeyHas(ib.protocol, cs, key, e);
    if HasOther(ib.protocol, cs, key, e) {
      var k :| 0 <= k < |cs| && cs[k].email == e && KeyOf(ib.protocol, cs[k]) != key;
      DifferentEmails(cs, l, k);
      assert false;
    }
  }

  /** Deleting keeps the bijection exactly when at most the last of the removed clients has an email, as it is when
      keys are unique; rows of other inbounds and other emails stay in any case. */
  lemma DelKeepsTracked(s: Tables, id: int, key: string)
    requires Tracked(s) && AfterDel(s, id, key).Some?
    ensures var t := AfterDel(s, id, key).value;
            && (Tracked(t) <==> OnlyLastHasEmail(s.inbounds[id].protocol, s.inbounds[id].clients, key))
            && OthersKept(s, t, id)
            && t.inbounds[id].protocol == s.inbounds[id].protocol
            && (forall c :: multiset(t.inbounds[id].clients)[c]
                            == if KeyOf(s.inbounds[id].protocol, c)
                            == key then 0 else multiset(s.inbounds[id].clients)[c])
            && (forall e :: e in t.stats ==> e in s.stats && t.stats[e] == s.stats[e])
  {
    hide Distinct, KeyOf, HasEmail, WithoutKey, LastOfKey;
    var ib, t := s.inbounds[id], AfterDel(s, id, key).value;
    if OnlyLastHasEmail(ib.protocol, ib.clients, key) {
      DelCovers(s, id, key);
    } else {
      var l :| 0 <= l < |ib.clients| && KeyOf(ib.protocol, ib.clients[l]) == key
               && l != LastOfKey(ib.protocol, ib.clients, key) && ib.clients[l].email != "";
      DelLeavesRow(s, id, key, l);
    }
    forall c
      ensures multiset(t.inbounds[id].clients)[c]
              == if KeyOf(ib.protocol, c) == key then 0 else multiset(ib.clients)[c]
    {
      WithoutKeyCounts(ib.protocol, ib.clients, key, c);
    }
    var last := LastOfKey(ib.protocol, ib.clients, key);
    assert ib.clients[last].email != "" ==> s.stats[ib.clients[last].email].inboundId == id;
  }

  // ---------- replacing the list ----------

  /** m is stats with a fresh row for each email of cs that is not known. */
  ghost predicate Fills(stats: map<string, Stat>, id: int, cs: seq<Client>, known: set<string>, m: map<string, Stat>) {
    (forall e :: e in m <==> e in stats || (e != "" && e !in known && HasEmail(cs, e)))
    && (forall e :: e in stats ==> m[e] == stats[e])
    && (forall e :: e in m && e !in stats ==> m[e].inboundId == id && m[e].up == 0 && m[e].down == 0)
    && (forall k :: 0 <= k < |cs| && cs[k].email != "" && cs[k].email !in known ==>
          cs[k].email in m && RowFor(m[cs[k].email], id, cs[k]))
    && (forall e :: e != "" && e !in known && HasEmail(cs, e) ==> e !in stats)
  }

  lemma AddedStatsLast(stats: map<string, Stat>, id: int, cs: seq<Client>, known: set<string>)
    requires cs != [] && AddedStats(stats, id, cs, known).Some?
    ensures var n := |cs| - 1;
            AddedStats(stats, id, cs[..n], known).Some?
            && var m, c := AddedStats(stats, id, cs[..n], known).value, cs[n];
               (c.email == "" || c.email in known || c.email !in m)
               && AddedStats(stats, id, cs, known).value
                  == if c.email == "" || c.email in known then m else m[c.email := NewStat(id, c)]
  {}

  lemma {:induction false} AddedStatsMeaning(stats: map<string, Stat>, id: int, cs: seq<Client>, known: set<string>)
    requires AddedStats(stats, id, cs, known).Some?
    ensures Fills(stats, id, cs, known, AddedStats(stats, id, cs, known).value)
    decreases |cs|
  {
    if cs != [] {
      hide AddedStats, Fills, HasEmail;
      AddedStatsLast(stats, id, cs, known);
      AddedStatsMeaning(stats, id, cs[..|cs| - 1], known);
      FillsOneMore(stats, id, cs, known, AddedStats(stats, id, cs[..|cs| - 1], known).value);
    } else {
      assert !exists e :: HasEmail(cs, e);
    }
  }

  lemma FillsOneMore(stats: map<string, Stat>, id: int, cs: seq<Client>, known: set<string>, m: map<string, Stat>)
    requires cs != [] && Fills(stats, id, cs[..|cs| - 1], known, m)
    requires var c := cs[|cs| - 1]; c.email == "" || c.email in known || c.email !in m
    ensures var c := cs[|cs| - 1];
            Fills(stats, id, cs, known, if c.email == "" || c.email in known then m else m[c.email := NewStat(id, c)])
  {
    hide HasEmail;
    HasEmailLast(cs);
    forall k | 0 <= k < |cs| - 1 ensures HasEmail(cs[..|cs| - 1], cs[k].email) {
      assert cs[..|cs| - 1][k] == cs[k];
      EmailInList(cs[..|cs| - 1], k);
    }
  }

  /** Two unknown emails in a list that was accepted differ. */
  lemma {:induction false} UnknownAreDistinct(stats: map<string, Stat>, id: int, cs: seq<Client>,
      known: set<string>, k: nat, l: nat)
    requires AddedStats(stats, id, cs, known).Some? && k < l < |cs| && cs[k].email != "" && cs[k].email !in known
    ensures cs[k].email != cs[l].email
    decreases |cs|
  {
    var n := |cs| - 1;
    hide AddedStats, HasEmail;
    AddedStatsLast(stats, id, cs, known);
    if l < n {
      UnknownAreDistinct(stats, id, cs[..n], known, k, l);
    } else {
      AddedStatsMeaning(stats, id, cs[..n], known);
      EmailInList(cs[..n], k);
    }
  }

  /** No email of the old list occurs twice in the new one. */
  ghost predicate KeptOnce(was: seq<Client>, cs: seq<Client>) {
    forall k, l :: 0 <= k < l < |cs| && cs[k].email in EmailsOf(was) ==> cs[k].email != cs[l].email
  }

  lemma KeptOnceIsDistinct(stats: map<string, Stat>, id: int, was: seq<Client>, cs: seq<Client>)
    requires AddedStats(stats, id, cs, EmailsOf(was)).Some?
    ensures KeptOnce(was, cs) <==> Distinct(cs)
  {
    hide AddedStats, HasEmail;
    forall k, l | 0 <= k < l < |cs| && cs[k].email != "" && cs[k].email !in EmailsOf(was)
      ensures cs[k].email != cs[l].email
    {
      UnknownAreDistinct(stats, id, cs, EmailsOf(was), k, l);
    }
  }

  /** After a row sync the rows cover the new list again, kept emails keep their rows as they were, and the list
      matches the rows one to one exactly when it repeats no email that the old list had; the sync itself refuses
      repeated new ones. */
  lemma SyncKeepsTracked(s: Tables, id: int, p: Protocol, cs: seq<Client>)
    requires Tracked(s) && !p.Mtproto? && AfterSync(s, id, p, cs).Some?
    ensures var t := AfterSync(s, id, p, cs).value;
            && t.inbounds[id] == Inbound(p, cs) && Covered(t) && OthersKept(s, t, id)
            && (Tracked(t) <==> KeptOnce(s.inbounds[id].clients, cs))
            && (forall e :: e in s.stats && e in t.stats ==> t.stats[e] == s.stats[e])
            && (forall e :: e in t.stats && e !in s.stats ==> t.stats[e].up == 0 && t.stats[e].down == 0)
            && (forall k :: 0 <= k < |cs| && cs[k].email != "" && cs[k].email !in EmailsOf(s.inbounds[id].clients) ==>
                  cs[k].email in t.stats && RowFor(t.stats[cs[k].email], id, cs[k]))
  {
    hide AddedStats, HasEmail, EmailsOf, Distinct, KeptOnce;
    var t := AfterSync(s, id, p, cs).value;
    var was, will := EmailsOf(s.inbounds[id].clients), EmailsOf(cs);
    var kept := s.stats - (was - will);
    AddedStatsMeaning(kept, id, cs, was);
    forall e | e in s.stats && e !in kept ensures e !in t.stats && s.stats[e].inboundId == id {
      OwnerOf(s, id, e);
    }
    SyncCovers(s, t, id, p, cs);
    KeptOnceIsDistinct(kept, id, s.inbounds[id].clients, cs);
    assert t.inbounds[id].clients == cs;
    assert forall i :: i in t.inbounds && i != id ==> t.inbounds[i] == s.inbounds[i];
  }

  lemma OwnerOf(s: Tables, id: int, e: string)
    requires Covered(s) && id in s.inbounds && e in EmailsOf(s.inbounds[id].clients)
    ensures e in s.stats && s.stats[e].inboundId == id
  {
    var k :| 0 <= k < |s.inbounds[id].clients| && s.inbounds[id].clients[k].email == e;
  }

  lemma SyncCovers(s: Tables, t: Tables, id: int, p: Protocol, cs: seq<Client>)
    requires Covered(s) && id in s.inbounds && t.inbounds == s.inbounds[id := Inbound(p, cs)]
    requires Fills(s.stats - (EmailsOf(s.inbounds[id].clients) - EmailsOf(cs)), id, cs,
                   EmailsOf(s.inbounds[id].clients), t.stats)
    ensures Covered(t)
  {
    hide HasEmail, EmailsOf;
    var was := EmailsOf(s.inbounds[id].clients);
    forall i, k | i in t.inbounds && 0 <= k < |t.inbounds[i].clients| && t.inbounds[i].clients[k].email != ""
      ensures t.inbounds[i].clients[k].email in t.stats && t.stats[t.inbounds[i].clients[k].email].inboundId == i
    {
      var e := t.inbounds[i].clients[k].email;
      if i == id {
        EmailInList(cs, k);
        if e in was { OwnerOf(s, id, e); }
      } else {
        assert s.inbounds[i].clients[k].email == e;
        if e in was { OwnerOf(s, id, e); }
      }
    }
    forall e | e in t.stats
      ensures e != "" && t.stats[e].inboundId in t.inbounds && HasEmail(t.inbounds[t.stats[e].inboundId].clients, e)
    {
    }
  }

  /** A sidecar request for an inbound keeps the bijection exactly when the inbound has no email: others lose their
      clients but not their rows. */
  lemma SidecarKeepsTracked(s: Tables, id: int, cs: seq<Client>)
    requires Tracked(s) && id in s.inbounds
    ensures var t := AfterSync(s, id, Mtproto, cs);
            t.Some? && (Tracked(t.value) <==> EmailsOf(s.inbounds[id].clients) == {})
  {
    hide HasEmail, EmailsOf;
    var t := AfterSync(s, id, Mtproto, cs).value;
    var was := s.inbounds[id].clients;
    forall e | e in EmailsOf(was) ensures e in s.stats && s.stats[e].inboundId == id {
      OwnerOf(s, id, e);
    }
    forall e | e in s.stats && s.stats[e].inboundId == id ensures e in EmailsOf(was) {}
    NoEmail();
  }

  lemma NoEmail()
    ensures forall e :: !HasEmail([], e)
  {}

  /** Why the condition matters: a list that keeps an email twice is accepted, and renaming one of the two afterwards
      takes the row away from the other. */
  lemma RenameAfterDuplicate(s: Tables, id: int, req: seq<Client>, key: string, lower: Lower, l: nat)
    requires req != [] && Covered(s) && AfterUpdate(s, id, req, key, lower).Some?
    requires var cs, k := s.inbounds[id].clients, IndexOfKey(s.inbounds[id].protocol, s.inbounds[id].clients, key);
             l < |cs| && l != k && cs[l].email == cs[k].email != "" && req[0].email != cs[k].email
    ensures !Covered(AfterUpdate(s, id, req, key, lower).value)
  {
    hide NoDuplicates, HasEmail, IndexOfKey, KeyOf;
    var t := AfterUpdate(s, id, req, key, lower).value;
    var e := s.inbounds[id].clients[l].email;
    assert t.inbounds[id].clients[l].email == e;
    assert e !in t.stats;
  }

  // ---------- inputs that fail ----------

  /** A client that is told apart by its id. */
  function Plain(id: string, email: string): Client { Client(id, "", "", email, true, 0, 0, 0, "") }

  function ZeroStat(id: int): Stat { Stat(id, 0, 0, true, 0, 0, 0) }

  function OneClient(): Tables { Tables(map[1 := Inbound(Vless, [Plain("k", "a")])], map["a" := ZeroStat(1)]) }

  function Repeated(): seq<Client> { [Plain("k", "a"), Plain("l", "a")] }

  function TwoOnOneRow(): Tables { Tables(map[1 := Inbound(Vless, Repeated())], map["a" := ZeroStat(1)]) }

  lemma RepeatedIsAccepted()
    ensures AfterSync(OneClient(), 1, Vless, Repeated()) == Some(TwoOnOneRow())
  {
    var s, cs := OneClient(), Repeated();
    assert s.inbounds[1].clients[0].email == "a" && cs[0].email == "a" && cs[1].email == "a";
    var was, will := EmailsOf(s.inbounds[1].clients), EmailsOf(cs);
    assert HasEmail(s.inbounds[1].clients, "a") && HasEmail(cs, "a");
    assert was == {"a"} && will == {"a"} && was - will == {};
    assert s.stats - {} == s.stats;
    AddedStatsRepeated(s.stats, was);
    assert s.inbounds[1 := Inbound(Vless, cs)] == TwoOnOneRow().inbounds;
  }

  lemma AddedStatsRepeated(stats: map<string, Stat>, known: set<string>)
    requires "a" in known
    ensures AddedStats(stats, 1, Repeated(), known) == Some(stats)
  {
    var cs := Repeated();
    assert cs[..1] == [Plain("k", "a")] && cs[..1][..0] == [];
    assert AddedStats(stats, 1, cs[..1], known) == Some(stats);
  }

  lemma OneClientIsTracked()
    ensures Tracked(OneClient())
  {
    assert OneClient().inbounds[1].clients[0].email == "a";
    assert HasEmail(OneClient().inbounds[1].clients, "a");
  }

  /** A list that repeats a kept email is accepted by the sync, and then the list has one email more than there are
      rows. */
  lemma SyncAcceptsRepetition()
    ensures Tracked(OneClient()) && AfterSync(OneClient(), 1, Vless, Repeated()) == Some(TwoOnOneRow())
    ensures Covered(TwoOnOneRow()) && !Tracked(TwoOnOneRow())
  {
    hide Covered, AfterSync;
    OneClientIsTracked();
    RepeatedIsAccepted();
    var cs := Repeated();
    SyncKeepsTracked(OneClient(), 1, Vless, cs);
    assert !Distinct(cs) by { assert cs[0].email == cs[1].email == "a"; }
    assert TwoOnOneRow().inbounds[1].clients == cs;
  }

  lemma RenameIsAccepted(lower: Lower)
    requires lower("z") != lower("a")
    ensures IndexOfKey(Vless, Repeated(), "k") == 0
    ensures NoDuplicates(TwoOnOneRow(), [Plain("k", "z")], lower)
  {
    var cs := Repeated();
    assert cs[..1] == [Plain("k", "a")] && cs[..1][..0] == [];
    assert IndexOfKey(Vless, cs[..1], "k") == 0;
  }

  /** Renaming one of the two then takes the row away from the other, which is left with no row at all. */
  lemma RepetitionThenRename(lower: Lower)
    requires lower("z") != lower("a")
    ensures var t := AfterSync(OneClient(), 1, Vless, Repeated());
            t.Some? && AfterUpdate(t.value, 1, [Plain("k", "z")], "k", lower).Some?
            && !Covered(AfterUpdate(t.value, 1, [Plain("k", "z")], "k", lower).value)
  {
    hide Covered, AfterSync, NoDuplicates, IndexOfKey, AfterUpdate, Tracked;
    SyncAcceptsRepetition();
    RenameIsAccepted(lower);
    AcceptedRename(lower);
    assert Repeated()[0].email == "a" && Repeated()[1].email == "a" && "z" != "a";
    RenameAfterDuplicate(TwoOnOneRow(), 1, [Plain("k", "z")], "k", lower, 1);
  }

  lemma AcceptedRename(lower: Lower)
    requires IndexOfKey(Vless, Repeated(), "k") == 0 && NoDuplicates(TwoOnOneRow(), [Plain("k", "z")], lower)
    ensures AfterUpdate(TwoOnOneRow(), 1, [Plain("k", "z")], "k", lower).Some?
  {
    hide IndexOfKey, NoDuplicates;
    assert "z" != "a" && "k" != "" && Repeated()[0].email == "a";
  }

  function SharedKey(): Tables {
    Tables(map[1 := Inbound(Vless, [Plain("k", "a"), Plain("k", "b"), Plain("l", "c")])],
           map["a" := ZeroStat(1), "b" := ZeroStat(1), "c" := ZeroStat(1)])
  }

  /** Deleting a key that two clients share removes both but only the row of the second. */
  lemma DelLeavesFirstRow()
    ensures Tracked(SharedKey()) && AfterDel(SharedKey(), 1, "k").Some? && !Tracked(AfterDel(SharedKey(), 1, "k").value)
    ensures "a" in AfterDel(SharedKey(), 1, "k").value.stats
    ensures AfterDel(SharedKey(), 1, "k").value.inbounds[1].clients == [Plain("l", "c")]
  {
    var s := SharedKey();
    var cs := s.inbounds[1].clients;
    SharedKeyIsTracked();
    assert cs[..2] == [cs[0], cs[1]] && cs[..2][..1] == [cs[0]] && cs[..2][..1][..0] == [];
    assert LastOfKey(Vless, cs[..2], "k") == 1;
    assert LastOfKey(Vless, cs, "k") == 1;
    assert WithoutKey(Vless, cs[..2][..1], "k") == [];
    assert WithoutKey(Vless, cs[..2], "k") == [];
    assert WithoutKey(Vless, cs, "k") == [Plain("l", "c")];
    assert "a" != "b";
    DelLeavesRow(s, 1, "k", 0);
  }

  lemma SharedKeyIsTracked()
    ensures Tracked(SharedKey())
  {
    hide Covered, Distinct;
    SharedKeyIsDistinct();
    SharedKeyIsCovered();
  }

  lemma SharedKeyIsDistinct()
    ensures Distinct(SharedKey().inbounds[1].clients)
  {
    assert "a" != "b" && "a" != "c" && "b" != "c";
  }

  lemma SharedKeyIsCovered()
    ensures Covered(SharedKey())
  {
    var s := SharedKey();
    var cs := s.inbounds[1].clients;
    assert cs[0].email == "a" && cs[1].email == "b" && cs[2].email == "c";
    EmailInList(cs, 0);
    EmailInList(cs, 1);
    EmailInList(cs, 2);
    hide HasEmail;
    forall e | e in s.stats ensures e != "" && s.stats[e].inboundId == 1 && HasEmail(cs, e) {
      assert e == "a" || e == "b" || e == "c";
    }
  }

  // ---------- runs ----------

  datatype Step =
    | Add(id: int, req: seq<Client>)
    | Update(id: int, req: seq<Client>, key: string)
    | Del(id: int, key: string)
    | Sync(id: int, p: Protocol, cs: seq<Client>)

  ghost function After(s: Tables, step: Step, lower: Lower): Option<Tables>
    requires step.Update? ==> step.req != []
  {
    match step
    case Add(id, req) => AfterAdd(s, id, req, lower)
    case Update(id, req, key) => AfterUpdate(s, id, req, key, lower)
    case Del(id, key) => AfterDel(s, id, key)
    case Sync(id, p, cs) => AfterSync(s, id, p, cs)
  }

  /** What a caller has to see to: a key that is deleted stands for one client with an email, and a replaced list does
      not repeat an email it keeps; a request for a sidecar is for an inbound without emails. */
  ghost predicate Careful(s: Tables, step: Step) {
    match step
    case Add(_, _) => true
    case Update(_, req, _) => req != []
    case Del(id, key) => id in s.inbounds ==> OnlyLastHasEmail(s.inbounds[id].protocol, s.inbounds[id].clients, key)
    case Sync(id, p, cs) =>
      id in s.inbounds ==>
        if p.Mtproto? then EmailsOf(s.inbounds[id].clients) == {} else KeptOnce(s.inbounds[id].clients, cs)
  }

  ghost predicate IsRun(states: seq<Tables>, steps: seq<Step>, lower: Lower) {
    |states| == |steps| + 1
    && forall i :: 0 <= i < |steps| ==>
        Careful(states[i], steps[i])
        && states[i + 1] == match After(states[i], steps[i], lower) case None => states[i] case Some(t) => t
  }

  /** Over any run of careful edits, failed ones included, the rows stay in bijection with the emails. */
  lemma {:induction false} RowsTrackClients(states: seq<Tables>, steps: seq<Step>, lower: Lower, n: nat)
    requires IsRun(states, steps, lower) && n <= |steps| && Tracked(states[0])
    ensures Tracked(states[n])
  {
    hide Tracked, AfterAdd, AfterUpdate, AfterDel, AfterSync, OnlyLastHasEmail, KeptOnce;
    if n > 0 {
      RowsTrackClients(states, steps, lower, n - 1);
      var s, step := states[n - 1], steps[n - 1];
      assert Careful(s, step);
      if After(s, step, lower).Some? {
        match step {
          case Add(id, req) => AddKeepsTracked(s, id, req, lower);
          case Update(id, req, key) => UpdateKeepsTracked(s, id, req, key, lower);
          case Del(id, key) =>
            KnownInbound(s, step, lower);
            DelKeepsTracked(s, id, key);
          case Sync(id, p, cs) =>
            KnownInbound(s, step, lower);
            if p.Mtproto? {
              SidecarKeepsTracked(s, id, cs);
            } else {
              SyncKeepsTracked(s, id, p, cs);
            }
        }
      }
    }
  }

  lemma KnownInbound(s: Tables, step: Step, lower: Lower)
    requires (step.Del? || step.Sync?) && After(s, step, lower).Some?
    ensures step.id in s.inbounds
  {}
}
