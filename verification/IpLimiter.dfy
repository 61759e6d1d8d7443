/** The per-client IP limiter: which addresses of a client are kept, banned and remembered after a log scan. */
module IpLimiter {
  datatype Seen = Seen(ip: string, ts: int)

  const STALE_AFTER := 30 * 60

  // ---------- merging ----------

  /** The stored list: fresh entries by address, the last one winning. */
  function FromOld(old': seq<Seen>, cutoff: int): map<string, int> {
    if old' == [] then map[]
    else
      var m, e := FromOld(old'[..|old'| - 1], cutoff), old'[|old'| - 1];
      if e.ts < cutoff then m else m[e.ip := e.ts]
  }

  /** Observed entries replace older ones. */
  function Merged(old': seq<Seen>, new': seq<Seen>, cutoff: int): map<string, int> {
    if new' == [] then FromOld(old', cutoff)
    else
      var m, e := Merged(old', new'[..|new'| - 1], cutoff), new'[|new'| - 1];
      if e.ts < cutoff || (e.ip in m && e.ts <= m[e.ip]) then m else m[e.ip := e.ts]
  }

  method MergeClientIps(old': seq<Seen>, new': seq<Seen>, cutoff: int) returns (ipMap: map<string, int>)
    ensures ipMap == Merged(old', new', cutoff)
  {
    ipMap := map[];
    for i := 0 to |old'|
      invariant ipMap == FromOld(old'[..i], cutoff)
    {
      assert old'[..i + 1][..i] == old'[..i];
      if old'[i].ts < cutoff {
        continue;
      }
      ipMap := ipMap[old'[i].ip := old'[i].ts];
    }
    assert old'[..|old'|] == old';
    for i := 0 to |new'|
      invariant ipMap == Merged(old', new'[..i], cutoff)
    {
      assert new'[..i + 1][..i] == new'[..i];
      if new'[i].ts < cutoff {
        continue;
      }
      if new'[i].ip !in ipMap || new'[i].ts > ipMap[new'[i].ip] {
        ipMap := ipMap[new'[i].ip := new'[i].ts];
      }
    }
    assert new'[..|new'|] == new';
  }

  predicate UniqueIps(s: seq<Seen>) { forall i, j :: 0 <= i < j < |s| ==> s[i].ip != s[j].ip }

  /** A fresh entry of the list. */
  predicate HasFresh(s: seq<Seen>, cutoff: int, ip: string, ts: int) {
    exists i :: 0 <= i < |s| && s[i] == Seen(ip, ts) && ts >= cutoff
  }

  lemma HasFreshLast(s: seq<Seen>, cutoff: int, ip: string, ts: int)
    requires s != []
    ensures HasFresh(s, cutoff, ip, ts)
            <==> HasFresh(s[..|s| - 1], cutoff, ip, ts) || (s[|s| - 1] == Seen(ip, ts) && ts >= cutoff)
  {
    var n := |s| - 1;
    assert forall j :: 0 <= j < n ==> s[..n][j] == s[j];
    if HasFresh(s[..n], cutoff, ip, ts) {
      var i :| 0 <= i < n && s[..n][i] == Seen(ip, ts);
      assert s[i] == Seen(ip, ts);
    }
  }

  lemma {:induction false} FromOldMeaning(old': seq<Seen>, cutoff: int, ip: string)
    requires UniqueIps(old')
    ensures ip in FromOld(old', cutoff) ==> HasFresh(old', cutoff, ip, FromOld(old', cutoff)[ip])
    ensures forall ts :: HasFresh(old', cutoff, ip, ts) ==>
              ip in FromOld(old', cutoff) && FromOld(old', cutoff)[ip] == ts
    decreases |old'|
  {
    if old' != [] {
      var n := |old'| - 1;
      FromOldMeaning(old'[..n], cutoff, ip);
      hide HasFresh;
      forall ts ensures HasFresh(old', cutoff, ip, ts)
                        <==> HasFresh(old'[..n], cutoff, ip, ts) || (old'[n] == Seen(ip, ts) && ts >= cutoff) {
        HasFreshLast(old', cutoff, ip, ts);
      }
      if old'[n].ip == ip {
        NoneBefore(old', old'[..n], cutoff, ip);
      }
    }
  }

  lemma NoneBefore(s: seq<Seen>, front: seq<Seen>, cutoff: int, ip: string)
    requires UniqueIps(s) && s != [] && s[|s| - 1].ip == ip && front == s[..|s| - 1]
    ensures forall ts :: !HasFresh(front, cutoff, ip, ts)
  {}

  /** Of a list with unique addresses and any observations, the merge keeps exactly the addresses with a fresh entry,
      each with its latest fresh timestamp. */
  lemma {:induction false} MergeKeepsLatest(old': seq<Seen>, new': seq<Seen>, cutoff: int, ip: string)
    requires UniqueIps(old')
    ensures var m := Merged(old', new', cutoff);
            && (ip in m ==> HasFresh(old', cutoff, ip, m[ip]) || HasFresh(new', cutoff, ip, m[ip]))
            && forall ts :: HasFresh(old', cutoff, ip, ts) || HasFresh(new', cutoff, ip, ts) ==> ip in m && ts <= m[ip]
    decreases |new'|
  {
    if new' == [] {
      FromOldMeaning(old', cutoff, ip);
    } else {
      var n := |new'| - 1;
      MergeKeepsLatest(old', new'[..n], cutoff, ip);
      hide HasFresh;
      MergedLast(old', new', cutoff);
      hide Merged;
      forall ts ensures HasFresh(new', cutoff, ip, ts)
                        <==> HasFresh(new'[..n], cutoff, ip, ts) || (new'[n] == Seen(ip, ts) && ts >= cutoff) {
        HasFreshLast(new', cutoff, ip, ts);
      }
    }
  }

  lemma MergedLast(old': seq<Seen>, new': seq<Seen>, cutoff: int)
    requires new' != []
    ensures var n := |new'| - 1;
            var m, e := Merged(old', new'[..n], cutoff), new'[n];
            Merged(old', new', cutoff) == if e.ts < cutoff || (e.ip in m && e.ts <= m[e.ip]) then m else m[e.ip := e.ts]
  {}

  /** With a repeated address the stored list can lose the latest one: the order decides. */
  lemma RepeatedOldEntryLosesTheLatest()
    ensures Merged([Seen("a", 9), Seen("a", 5)], [], 0) == map["a" := 5]
  {
    var s := [Seen("a", 9), Seen("a", 5)];
    assert s[..1] == [Seen("a", 9)] && s[..1][..0] == [];
    assert FromOld(s[..1], 0) == map["a" := 9];
  }

  // ---------- partitioning ----------

  predicate Ascending(s: seq<Seen>) { forall i, j :: 0 <= i < j < |s| ==> s[i].ts <= s[j].ts }

  /** sort.Slice by timestamp: some ascending permutation. */
  ghost predicate Sorts(sort: seq<Seen> -> seq<Seen>) {
    forall s :: Ascending(sort(s)) && multiset(sort(s)) == multiset(s)
  }

  /** The entries of the map whose address passes, each once. */
  ghost predicate Lists(s: seq<Seen>, m: map<string, int>, ips: set<string>) {
    UniqueIps(s) && (forall i :: 0 <= i < |s| ==> s[i].ip in m && s[i].ip in ips && m[s[i].ip] == s[i].ts)
    && forall ip :: ip in m && ip in ips ==> exists i :: 0 <= i < |s| && s[i].ip == ip
  }

  lemma PermutedUnique(s: seq<Seen>, t: seq<Seen>, i: nat, j: nat)
    requires UniqueIps(s) && multiset(s) == multiset(t) && i < j < |t|
    ensures t[i].ip != t[j].ip
  {
    if t[i].ip == t[j].ip {
      InBoth(t, s, i);
      InBoth(t, s, j);
      var a :| 0 <= a < |s| && s[a] == t[i];
      var b :| 0 <= b < |s| && s[b] == t[j];
      assert a == b;
      OccursOnce(s, t[i]);
      TwiceInMultiset(t, i, j);
    }
  }

  lemma PermutedLists(s: seq<Seen>, t: seq<Seen>, m: map<string, int>, ips: set<string>)
    requires Lists(s, m, ips) && multiset(s) == multiset(t)
    ensures Lists(t, m, ips)
  {
    forall i, j | 0 <= i < j < |t| ensures t[i].ip != t[j].ip {
      PermutedUnique(s, t, i, j);
    }
    forall i | 0 <= i < |t| ensures t[i].ip in m && t[i].ip in ips && m[t[i].ip] == t[i].ts {
      InBoth(t, s, i);
    }
    forall ip | ip in m && ip in ips ensures exists i :: 0 <= i < |t| && t[i].ip == ip {
      var k :| 0 <= k < |s| && s[k].ip == ip;
      InBoth(s, t, k);
    }
  }

  lemma InBoth(s: seq<Seen>, t: seq<Seen>, i: nat)
    requires i < |s| && multiset(s) == multiset(t)
    ensures exists j :: 0 <= j < |t| && t[j] == s[i]
  {
    assert s[i] in multiset(s);
    assert s[i] in t;
  }

  lemma {:induction false} OccursOnce(s: seq<Seen>, e: Seen)
    requires UniqueIps(s)
    ensures multiset(s)[e] <= 1
    decreases |s|
  {
    if s != [] {
      var n := |s| - 1;
      OccursOnce(s[..n], e);
      assert s == s[..n] + [s[n]];
      if s[n] == e {
        assert e !in s[..n];
      }
    }
  }

  lemma TwiceInMultiset(t: seq<Seen>, i: nat, j: nat)
    requires i < j < |t| && t[i] == t[j]
    ensures multiset(t)[t[i]] >= 2
  {
    assert t == t[..i] + [t[i]] + t[i + 1..j] + [t[j]] + t[j + 1..];
  }

  method PartitionLiveIps(ipMap: map<string, int>, observed: set<string>, sort: seq<Seen> -> seq<Seen>)
    returns (live: seq<Seen>, historical: seq<Seen>)
    requires Sorts(sort)
    ensures Ascending(live) && Ascending(historical)
    ensures Lists(live, ipMap, observed) && Lists(historical, ipMap, ipMap.Keys - observed)
  {
    hide Sorts;
    live, historical := [], [];
    var left := ipMap.Keys;
    while exists ip :: ip in left
      invariant left <= ipMap.Keys
      invariant Lists(live, ipMap, observed - left)
      invariant Lists(historical, ipMap, ipMap.Keys - observed - left)
      decreases left
    {
      var ip :| ip in left;
      var entry := Seen(ip, ipMap[ip]);
      if ip in observed {
        OneMoreListed(live, ipMap, observed - left, entry);
        live := live + [entry];
        assert observed - left + {ip} == observed - (left - {ip});
        assert ipMap.Keys - observed - (left - {ip}) == ipMap.Keys - observed - left;
      } else {
        OneMoreListed(historical, ipMap, ipMap.Keys - observed - left, entry);
        historical := historical + [entry];
        assert ipMap.Keys - observed - left + {ip} == ipMap.Keys - observed - (left - {ip});
        assert observed - (left - {ip}) == observed - left;
      }
      left := left - {ip};
    }
    AllListed(live, ipMap, observed, left);
    assert ipMap.Keys - observed - left == ipMap.Keys - observed;
    SortedLists(live, ipMap, observed, sort);
    SortedLists(historical, ipMap, ipMap.Keys - observed, sort);
    live, historical := sort(live), sort(historical);
  }

  lemma OneMoreListed(s: seq<Seen>, m: map<string, int>, ips: set<string>, e: Seen)
    requires Lists(s, m, ips) && e.ip in m && m[e.ip] == e.ts && e.ip !in ips
    ensures Lists(s + [e], m, ips + {e.ip})
  {
    var t := s + [e];
    forall ip | ip in m && ip in ips + {e.ip} ensures exists i :: 0 <= i < |t| && t[i].ip == ip {
      if ip == e.ip {
        assert t[|s|].ip == ip;
      } else {
        var i :| 0 <= i < |s| && s[i].ip == ip;
        assert t[i].ip == ip;
      }
    }
  }

  lemma AllListed(s: seq<Seen>, m: map<string, int>, ips: set<string>, left: set<string>)
    requires Lists(s, m, ips - left) && forall ip :: ip !in left
    ensures Lists(s, m, ips)
  {
    assert ips - left == ips;
  }

  lemma SortedLists(s: seq<Seen>, m: map<string, int>, ips: set<string>, sort: seq<Seen> -> seq<Seen>)
    requires Sorts(sort) && Lists(s, m, ips)
    ensures Lists(sort(s), m, ips) && Ascending(sort(s))
  {
    hide Lists;
    PermutedLists(s, sort(s), m, ips);
  }

  // ---------- keep, ban, store ----------

  function Ips(s: seq<Seen>): (r: seq<string>)
    ensures |r| == |s| && forall i :: 0 <= i < |s| ==> r[i] == s[i].ip
  {
    seq(|s|, i requires 0 <= i < |s| => s[i].ip)
  }

  function Observed(new': seq<Seen>): (o: set<string>)
    ensures forall ip :: ip in o <==> exists i :: 0 <= i < |new'| && new'[i].ip == ip
  {
    set i | 0 <= i < |new'| :: new'[i].ip
  }

  /** A limited scan: from the merged map, kept and banned split the live entries at the limit, and the kept ones and
      the historical ones are stored. */
  ghost predicate Limited(m: map<string, int>, observed: set<string>, limit: int,
      kept: seq<Seen>, banned: seq<Seen>, historical: seq<Seen>)
  {
    Lists(kept + banned, m, observed) && Ascending(kept + banned)
    && Lists(historical, m, m.Keys - observed) && Ascending(historical)
    && |kept| <= limit && (banned != [] ==> |kept| == limit)
  }

  ghost predicate LimitedScan(stored: seq<Seen>, new': seq<Seen>, limit: int, now: int,
      kept: seq<Seen>, banned: seq<Seen>, historical: seq<Seen>)
  {
    Limited(Merged(stored, new', now - STALE_AFTER), Observed(new'), limit, kept, banned, historical)
  }

  class Job {
    var disAllowedIps: seq<string>

    constructor ()
      ensures disAllowedIps == []
    {
      disAllowedIps := [];
    }

    /** updateInboundClientIps: stored is the record's list, limit that of the client (0 if none applies); without the
        ban log nobody is banned and the record stays as it was. */
    method UpdateInboundClientIps(stored: seq<Seen>, new': seq<Seen>, limit: int, now: int, logOpens: bool,
        sort: seq<Seen> -> seq<Seen>)
      returns (stored': seq<Seen>, shouldClean: bool)
      requires Sorts(sort)
      modifies this
      ensures limit <= 0 ==> stored' == new' && !shouldClean && disAllowedIps == old(disAllowedIps)
      ensures limit > 0 && !logOpens ==> stored' == stored && !shouldClean && disAllowedIps == []
      ensures limit > 0 && logOpens ==> exists kept, banned, historical ::
        LimitedScan(stored, new', limit, now, kept, banned, historical)
        && stored' == kept + historical && disAllowedIps == Ips(banned) && (shouldClean <==> banned != [])
    {
      if limit <= 0 {
        return new', false;
      }
      hide Sorts, Lists;
      var ipMap := MergeClientIps(stored, new', now - STALE_AFTER);
      var observed := {};
      for i := 0 to |new'|
        invariant observed == Observed(new'[..i])
      {
        ObservedStep(new', i);
        observed := observed + {new'[i].ip};
      }
      assert new'[..|new'|] == new';
      var live, history := PartitionLiveIps(ipMap, observed, sort);
      var keptLive := live;
      shouldClean := false;
      disAllowedIps := [];
      if !logOpens {
        return stored, false;
      }
      ghost var bannedLive := [];
      assert live + [] == live;
      if |live| > limit {
        shouldClean := true;
        keptLive := live[..limit];
        var excess := live[limit..];
        for i := 0 to |excess|
          invariant disAllowedIps == Ips(excess[..i])
        {
          assert Ips(excess[..i + 1]) == Ips(excess[..i]) + [excess[i].ip];
          disAllowedIps := disAllowedIps + [excess[i].ip];
        }
        assert excess[..|excess|] == excess;
        assert keptLive + excess == live;
        bannedLive := excess;
      }
      stored' := keptLive + history;
      assert LimitedScan(stored, new', limit, now, keptLive, bannedLive, history);
    }
  }

  lemma ObservedStep(new': seq<Seen>, i: nat)
    requires i < |new'|
    ensures Observed(new'[..i + 1]) == Observed(new'[..i]) + {new'[i].ip}
  {
    var a, b := new'[..i + 1], new'[..i];
    assert forall j :: 0 <= j < i ==> a[j] == b[j];
    assert a[i] == new'[i];
    forall ip ensures ip in Observed(a) <==> ip in Observed(b) + {new'[i].ip} {
      if ip in Observed(b) {
        var j :| 0 <= j < |b| && b[j].ip == ip;
        assert a[j].ip == ip;
      }
    }
  }

  // ---------- what a scan achieves ----------

  /** The oldest live addresses are kept, at most limit of them, and none is newer than any banned one. */
  lemma OldestAreKept(m: map<string, int>, observed: set<string>, limit: int,
      kept: seq<Seen>, banned: seq<Seen>, historical: seq<Seen>)
    requires Limited(m, observed, limit, kept, banned, historical)
    ensures forall i, j :: 0 <= i < |kept| && 0 <= j < |banned| ==> kept[i].ts <= banned[j].ts
    ensures |kept| <= limit && (banned != [] ==> |kept| == limit)
  {
    forall i, j | 0 <= i < |kept| && 0 <= j < |banned| ensures kept[i].ts <= banned[j].ts {
      assert (kept + banned)[i] == kept[i] && (kept + banned)[|kept| + j] == banned[j];
    }
  }

  /** The stored list is the merge without the banned addresses, each address once. */
  lemma StoredIsMergeMinusBanned(m: map<string, int>, observed: set<string>, limit: int,
      kept: seq<Seen>, banned: seq<Seen>, historical: seq<Seen>)
    requires Limited(m, observed, limit, kept, banned, historical)
    ensures UniqueIps(kept + historical)
    ensures forall ip, ts :: Seen(ip, ts) in kept + historical <==> ip in m && m[ip] == ts && ip !in Ips(banned)
  {
    var live, s := kept + banned, kept + historical;
    assert forall i :: 0 <= i < |kept| ==> live[i] == kept[i];
    assert forall i :: 0 <= i < |banned| ==> live[|kept| + i] == banned[i];
    forall i, j | 0 <= i < j < |s| ensures s[i].ip != s[j].ip {
      StoredApart(m, observed, kept, banned, historical, i, j);
    }
    forall ip, ts ensures Seen(ip, ts) in s <==> ip in m && m[ip] == ts && ip !in Ips(banned) {
      StoredEntry(m, observed, kept, banned, historical, ip, ts);
    }
  }

  lemma StoredApart(m: map<string, int>, observed: set<string>, kept: seq<Seen>, banned: seq<Seen>,
      historical: seq<Seen>, i: nat, j: nat)
    requires Lists(kept + banned, m, observed) && Lists(historical, m, m.Keys - observed) && i < j < |kept + historical|
    ensures (kept + historical)[i].ip != (kept + historical)[j].ip
  {
    var live := kept + banned;
    assert i < |kept| ==> live[i] == kept[i];
    assert j < |kept| ==> live[j] == kept[j];
  }

  lemma ListedIff(s: seq<Seen>, m: map<string, int>, ips: set<string>, ip: string, ts: int)
    requires Lists(s, m, ips)
    ensures Seen(ip, ts) in s <==> ip in m && ip in ips && m[ip] == ts
  {
    if ip in m && ip in ips {
      var i :| 0 <= i < |s| && s[i].ip == ip;
      assert s[i] == Seen(ip, m[ip]);
    }
  }

  lemma KeptOrBanned(kept: seq<Seen>, banned: seq<Seen>, m: map<string, int>,
      observed: set<string>, ip: string, ts: int)
    requires Lists(kept + banned, m, observed)
    ensures Seen(ip, ts) in kept <==> Seen(ip, ts) in kept + banned && ip !in Ips(banned)
    ensures ip in Ips(banned) ==> ip in observed
  {
    var live := kept + banned;
    forall j | 0 <= j < |banned| ensures banned[j].ip in Ips(banned) {
      assert Ips(banned)[j] == banned[j].ip;
    }
    if ip in Ips(banned) {
      var j :| 0 <= j < |banned| && Ips(banned)[j] == ip;
      assert live[|kept| + j] == banned[j];
      forall i | 0 <= i < |kept| ensures kept[i].ip != ip {
        assert live[i] == kept[i];
      }
    }
  }

  lemma StoredEntry(m: map<string, int>, observed: set<string>, kept: seq<Seen>, banned: seq<Seen>,
      historical: seq<Seen>, ip: string, ts: int)
    requires Lists(kept + banned, m, observed) && Lists(historical, m, m.Keys - observed)
    ensures Seen(ip, ts) in kept + historical <==> ip in m && m[ip] == ts && ip !in Ips(banned)
  {
    hide Lists;
    ListedIff(kept + banned, m, observed, ip, ts);
    ListedIff(historical, m, m.Keys - observed, ip, ts);
    KeptOrBanned(kept, banned, m, observed, ip, ts);
  }

  /** Addresses not seen in this scan take no slot: nobody is banned unless more fresh addresses than the limit were
      seen in it. */
  lemma IdleTakesNoSlot(m: map<string, int>, observed: set<string>, limit: int,
      kept: seq<Seen>, banned: seq<Seen>, historical: seq<Seen>)
    requires Limited(m, observed, limit, kept, banned, historical)
    ensures |kept| + |banned| == |m.Keys * observed|
    ensures limit >= 0 ==> (banned != [] <==> |m.Keys * observed| > limit)
  {
    ListedCount(kept + banned, m, observed);
  }

  lemma {:induction false} ListedCount(s: seq<Seen>, m: map<string, int>, ips: set<string>)
    requires Lists(s, m, ips)
    ensures |s| == |m.Keys * ips|
    decreases |s|
  {
    if s == [] {
      assert m.Keys * ips == {};
    } else {
      var n := |s| - 1;
      var rest := ips - {s[n].ip};
      assert forall i :: 0 <= i < n ==> s[..n][i] == s[i];
      forall ip | ip in m && ip in rest ensures exists i :: 0 <= i < n && s[..n][i].ip == ip {
        var i :| 0 <= i < |s| && s[i].ip == ip;
        assert s[..n][i].ip == ip;
      }
      ListedCount(s[..n], m, rest);
      assert m.Keys * ips == m.Keys * rest + {s[n].ip};
    }
  }

  // ---------- runs ----------

  /** One scan's effect on a client's record, with or without a limit. */
  ghost predicate Scanned(stored: seq<Seen>, new': seq<Seen>, limit: int, now: int,
      logOpens: bool, stored': seq<Seen>) {
    if limit <= 0 then stored' == new'
    else if !logOpens then stored' == stored
    else exists kept, banned, historical ::
      LimitedScan(stored, new', limit, now, kept, banned, historical) && stored' == kept + historical
  }

  datatype Scan = Scan(new': seq<Seen>, limit: int, now: int, logOpens: bool)

  /** Over any run of scans stored addresses stay unique, so every merge keeps the latest timestamps. */
  lemma {:induction false} StoredStayUnique(records: seq<seq<Seen>>, scans: seq<Scan>, n: nat)
    requires |records| == |scans| + 1 && n <= |scans| && UniqueIps(records[0])
    requires forall i :: 0 <= i < |scans| ==> UniqueIps(scans[i].new')
    requires forall i :: 0 <= i < |scans| ==>
      Scanned(records[i], scans[i].new', scans[i].limit, scans[i].now, scans[i].logOpens, records[i + 1])
    ensures UniqueIps(records[n])
  {
    hide Limited, UniqueIps, Merged;
    if n > 0 {
      StoredStayUnique(records, scans, n - 1);
      var c := scans[n - 1];
      assert Scanned(records[n - 1], c.new', c.limit, c.now, c.logOpens, records[n]);
      if c.limit > 0 && c.logOpens {
        var m, o := Merged(records[n - 1], c.new', c.now - STALE_AFTER), Observed(c.new');
        var kept, banned, historical :|
          LimitedScan(records[n - 1], c.new', c.limit, c.now, kept, banned, historical)
          && records[n] == kept + historical;
        StoredIsMergeMinusBanned(m, o, c.limit, kept, banned, historical);
      }
    }
  }
}
