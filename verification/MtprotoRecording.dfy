/** From a scrape to the client table: what a collection tells is what the rows record. */
module MtprotoRecording {
  import opened MtprotoConfig
  import opened MtprotoTraffic
  import opened Accounting
  import opened Enforcement

  function UsageOf(d: Traffic): Usage { Usage(d.uuid, d.bytes.up, d.bytes.down, d.lastSeen) }

  function UsagesOf(ds: seq<Traffic>): (us: seq<Usage>)
    ensures |us| == |ds| && forall i :: 0 <= i < |ds| ==> us[i] == UsageOf(ds[i])
  {
    seq(|ds|, i requires 0 <= i < |ds| => UsageOf(ds[i]))
  }

  predicate Mentions(deltas: seq<Usage>, key: string) { exists k :: 0 <= k < |deltas| && deltas[k].key == key }

  /** Deltas of others leave a row alone. */
  lemma {:induction false} UnmentionedIsKept(rows: seq<Account>, deltas: seq<Usage>, now: int, i: nat)
    requires i < |rows| && !Mentions(deltas, rows[i].key)
    ensures CreditedAll(rows, deltas, now)[i] == rows[i]
  {
    if deltas != [] {
      hide CreditedAll, Enforcement.Credited;
      var n := |deltas| - 1;
      MentionsLast(deltas, rows[i].key);
      UnmentionedIsKept(rows, deltas[..n], now, i);
      CreditedAllLast(rows, deltas, now);
    }
  }

  lemma MentionsLast(deltas: seq<Usage>, key: string)
    requires deltas != []
    ensures var n := |deltas| - 1; Mentions(deltas, key) <==> Mentions(deltas[..n], key) || deltas[n].key == key
  {
    var n := |deltas| - 1;
    if k :| 0 <= k < n && deltas[..n][k].key == key {
      assert deltas[k].key == key;
    }
    if k :| 0 <= k < |deltas| && deltas[k].key == key {
      assert k < n ==> deltas[..n][k].key == key;
    }
  }

  /** A row that one delta mentions records that one alone. */
  lemma {:induction false} OneDeltaIsRecorded(rows: seq<Account>, deltas: seq<Usage>, now: int, i: nat, k: nat)
    requires i < |rows| && k < |deltas| && deltas[k].key == rows[i].key != ""
    requires forall l :: 0 <= l < |deltas| && l != k ==> deltas[l].key != rows[i].key
    ensures CreditedAll(rows, deltas, now)[i] == Enforcement.Credited(rows[i], deltas[k], now)
  {
    hide CreditedAll, Enforcement.Credited;
    var n := |deltas| - 1;
    CreditedAllLast(rows, deltas, now);
    if k < n {
      OneDeltaIsRecorded(rows, deltas[..n], now, i, k);
    } else {
      UnmentionedIsKept(rows, deltas[..n], now, i);
    }
  }

  /** What recording a collection has to make of the row of a served client: its traffic grows by the bytes it moved,
      and it was last online now if it moved any, or at the scrape if it was connected. */
  predicate Records(s: Snap, users: map<string, UserStat>, seen: int, now: int, c: string, row: Account, r: Account) {
    && r.upload == row.upload + MovedUp(s, users, c)
    && r.download == row.download + MovedDown(s, users, c)
    && r.allTime == row.allTime + MovedUp(s, users, c) + MovedDown(s, users, c)
    && r.lastOnline == (if Moved(s, users, c) then now else if Connected(users, c) then seen else row.lastOnline)
    && r == row.(upload := r.upload, download := r.download, allTime := r.allTime, lastOnline := r.lastOnline)
  }

  lemma CreditedRecords(s: Snap, users: map<string, UserStat>, seen: int, now: int, c: ClientSecret, row: Account,
      d: Traffic)
    requires 0 < seen <= now && TellsOf(s, users, seen, c, d)
    ensures Records(s, users, seen, now, c.id, row, Enforcement.Credited(row, UsageOf(d), now))
  {}

  lemma NothingToRecord(s: Snap, users: map<string, UserStat>, seen: int, now: int, c: string, row: Account)
    requires 0 < seen && !Noteworthy(s, users, seen, c)
    ensures Records(s, users, seen, now, c, row, row)
  {}

  /** Where the deltas of one scrape stand among those of a collection. */
  function Collected(before: seq<Usage>, s: Snap, users: map<string, UserStat>, seen: int,
      after: seq<Usage>): seq<Usage> {
    before + UsagesOf(Deltas(s, Users(users, seen))) + after
  }

  lemma CollectedAt(before: seq<Usage>, s: Snap, users: map<string, UserStat>, seen: int,
      after: seq<Usage>, key: string)
    requires !Mentions(before, key) && !Mentions(after, key)
    ensures var all, ts := Collected(before, s, users, seen, after), Deltas(s, Users(users, seen));
            Around(all, |before|, ts, key)
  {
    hide Deltas;
    var all, ts := Collected(before, s, users, seen, after), Deltas(s, Users(users, seen));
    forall l | 0 <= l < |all| && !(|before| <= l < |before| + |ts|) ensures all[l].key != key {
      if l < |before| {
        assert all[l] == before[l];
      } else {
        assert all[l] == after[l - |before| - |ts|];
      }
    }
  }

  /** Collecting and recording: the row of a client that a multi-user proxy serves grows by exactly the bytes the client
      moved since the last scrape,
        and its time last online is set exactly if the client was connected or moved bytes. */
  lemma ScrapeIsRecorded(rows: seq<Account>, s: Snap, users: map<string, UserStat>, seen: int, now: int,
      before: seq<Usage>, after: seq<Usage>, i: nat, c: nat)
    requires UniqueIds(s.clients) && 0 < seen <= now
    requires i < |rows| && c < |s.clients| && rows[i].key == s.clients[c].id != ""
    requires !Mentions(before, rows[i].key) && !Mentions(after, rows[i].key)
    ensures var deltas := Collected(before, s, users, seen, after);
            Records(s, users, seen, now, rows[i].key, rows[i], CreditedAll(rows, deltas, now)[i])
  {
    hide Deltas, Noteworthy, Records, CreditedAll, Enforcement.Credited, Collected, UniqueIds, Around, Mentions;
    var deltas, ts := Collected(before, s, users, seen, after), Deltas(s, Users(users, seen));
    DeltasTell(s, Users(users, seen));
    CollectedAt(before, s, users, seen, after, rows[i].key);
    if Noteworthy(s, users, seen, s.clients[c].id) {
      DeltaIsRecorded(rows, s, users, seen, now, deltas, |before|, ts, i, c);
    } else {
      NobodyElseTells(s, users, seen, ts, c);
      NotAmong(deltas, |before|, ts, rows[i].key);
      UnmentionedIsKept(rows, deltas, now, i);
      NothingToRecord(s, users, seen, now, rows[i].key, rows[i]);
    }
  }

  lemma DeltaIsRecorded(rows: seq<Account>, s: Snap, users: map<string, UserStat>, seen: int, now: int,
      deltas: seq<Usage>, m: nat, ts: seq<Traffic>, i: nat, c: nat)
    requires UniqueIds(s.clients) && 0 < seen <= now && UsersTold(s, users, seen, s.clients, ts)
    requires i < |rows| && c < |s.clients| && rows[i].key == s.clients[c].id != ""
    requires Around(deltas, m, ts, rows[i].key) && Noteworthy(s, users, seen, s.clients[c].id)
    ensures Records(s, users, seen, now, rows[i].key, rows[i], CreditedAll(rows, deltas, now)[i])
  {
    hide Noteworthy, Records, CreditedAll, Enforcement.Credited, UniqueIds, Around, TellsOf, IsOfServed;
    assert HasDelta(s, users, seen, s.clients[c], ts);
    var k :| 0 <= k < |ts| && TellsOf(s, users, seen, s.clients[c], ts[k]);
    TellsItsId(s, users, seen, s.clients[c], ts[k]);
    OnlyOneTells(ts, k);
    NoOtherAmong(deltas, m, ts, k, rows[i].key);
    OneDeltaIsRecorded(rows, deltas, now, i, m + k);
    CreditedRecords(s, users, seen, now, s.clients[c], rows[i], ts[k]);
  }

  lemma OnlyOneTells(ts: seq<Traffic>, k: nat)
    requires k < |ts| && forall i, j :: 0 <= i < j < |ts| ==> ts[i].uuid != ts[j].uuid
    ensures forall l :: 0 <= l < |ts| && l != k ==> ts[l].uuid != ts[k].uuid
  {}

  lemma NobodyElseTells(s: Snap, users: map<string, UserStat>, seen: int, ts: seq<Traffic>, c: nat)
    requires c < |s.clients| && UsersTold(s, users, seen, s.clients, ts)
    requires !Noteworthy(s, users, seen, s.clients[c].id)
    ensures forall k :: 0 <= k < |ts| ==> ts[k].uuid != s.clients[c].id
  {
    hide Noteworthy;
    forall k | 0 <= k < |ts| ensures ts[k].uuid != s.clients[c].id {
      assert IsOfServed(s, users, seen, s.clients, ts[k]);
    }
  }

  /** Deltas told from ts stand from m on; those around them are of other keys. */
  predicate Around(deltas: seq<Usage>, m: nat, ts: seq<Traffic>, key: string) {
    m + |ts| <= |deltas|
    && (forall k :: 0 <= k < |ts| ==> deltas[m + k] == UsageOf(ts[k]))
    && (forall l :: 0 <= l < |deltas| && !(m <= l < m + |ts|) ==> deltas[l].key != key)
  }

  lemma NotAmong(deltas: seq<Usage>, m: nat, ts: seq<Traffic>, key: string)
    requires Around(deltas, m, ts, key) && forall k :: 0 <= k < |ts| ==> ts[k].uuid != key
    ensures !Mentions(deltas, key)
  {
    forall l | 0 <= l < |deltas| ensures deltas[l].key != key {
      if m <= l < m + |ts| { assert deltas[m + (l - m)] == UsageOf(ts[l - m]); }
    }
  }

  lemma NoOtherAmong(deltas: seq<Usage>, m: nat, ts: seq<Traffic>, k: nat, key: string)
    requires Around(deltas, m, ts, key) && k < |ts| && forall l :: 0 <= l < |ts| && l != k ==> ts[l].uuid != key
    ensures forall l :: 0 <= l < |deltas| && l != m + k ==> deltas[l].key != key
    ensures m + k < |deltas| && deltas[m + k] == UsageOf(ts[k])
  {
    forall l | 0 <= l < |deltas| && l != m + k ensures deltas[l].key != key {
      if m <= l < m + |ts| { assert deltas[m + (l - m)] == UsageOf(ts[l - m]); }
    }
  }

  /** The same of the finished row, unless its period was renewed: enforcement afterwards leaves the recorded time,
      and the collector reports nothing negative. */
  lemma OnlineAfterwards(rows: seq<Account>, s: Snap, users: map<string, UserStat>, seen: int, now: int,
      before: seq<Usage>, after: seq<Usage>, i: nat, c: nat)
    requires UniqueIds(s.clients) && 0 < seen <= now
    requires i < |rows| && c < |s.clients| && rows[i].key == s.clients[c].id != ""
    requires !Mentions(before, rows[i].key) && !Mentions(after, rows[i].key)
    ensures var key, deltas := rows[i].key, Collected(before, s, users, seen, after);
            EnforcedMtproto(CreditedAll(rows, deltas, now)[i], now).lastOnline
            == if Moved(s, users, key) then now else if Connected(users, key) then seen else rows[i].lastOnline
    ensures NonNegative(UsagesOf(Deltas(s, Users(users, seen))))
  {
    hide Deltas, Noteworthy, CreditedAll, Collected, UniqueIds, EnforcedMtproto, MovedUp, MovedDown, Connected;
    var deltas := Collected(before, s, users, seen, after);
    ScrapeIsRecorded(rows, s, users, seen, now, before, after, i, c);
    OtherFieldsKept(CreditedAll(rows, deltas, now)[i], now);
    DeltasTell(s, Users(users, seen));
    var ts := Deltas(s, Users(users, seen));
    forall k | 0 <= k < |ts| ensures ts[k].bytes.up >= 0 && ts[k].bytes.down >= 0 {
      assert IsOfServed(s, users, seen, s.clients, ts[k]);
      NothingNegative(s, users);
    }
  }

  lemma NothingNegative(s: Snap, users: map<string, UserStat>)
    ensures forall c :: MovedUp(s, users, c) >= 0 && MovedDown(s, users, c) >= 0
  {}
}
