/** The clients a copy adds: whose settings they carry, and with which credential they can authenticate. */
module CopiedClients {
  import opened Options
  import opened Text
  import opened InboundClients
  import opened CopiedEmails
  import opened CopyRefusal

  // ---------- one copied client ----------

  /** The three places where a client can hold a credential. */
  datatype Field = Id | Password | Auth

  /** Where a protocol looks for it; the second Hysteria is treated like those with an id. */
  function AuthField(p: Protocol): Field {
    if p.Trojan? || p.Shadowsocks? then Password else if p.Hysteria? then Auth else Id
  }

  function ValueIn(c: Client, f: Field): string {
    match f
    case Id => c.id
    case Password => c.password
    case Auth => c.auth
  }

  /** A client is found by the credential it authenticates with, or by its email where the panel shows that; the second
      Hysteria is looked up by a field in which no copy puts its credential. */
  lemma FoundByCredential(p: Protocol, c: Client)
    ensures KeyOf(p, c) == if p.Shadowsocks? || p.Mixed? || p.Http? then c.email
                           else ValueIn(c, if p.Hysteria2? then Auth else AuthField(p))
  {}

  /** The lookup for a write-back agrees with that of the edit it uses for exactly seven of the ten protocols. */
  lemma LookupsAgreeExactly(p: Protocol)
    ensures (forall c :: PrimaryKey(p, c) == KeyOf(p, c)) <==> !p.Mixed? && !p.Http? && !p.Hysteria2?
  {
    var c := Client("id", "", "", "", true, 0, 0, 0, "");
    assert |c.id| == 2 && c.auth == c.email == "";
    if p.Mixed? || p.Http? || p.Hysteria2? { assert PrimaryKey(p, c) != KeyOf(p, c); }
  }

  /** The settings of the source, and one fresh credential in the one field where the protocol looks for it. */
  ghost predicate IsCopy(p: Protocol, source: Client, subId: string, credential: string, email: string, c: Client) {
    && c.email == email && c.subId == subId
    && c.enable == source.enable && c.totalGB == source.totalGB
    && c.expiryTime == source.expiryTime && c.reset == source.reset
    && forall f :: ValueIn(c, f) == if f == AuthField(p) then credential else ""
  }

  lemma TargetIsCopy(p: Protocol, source: Client, email: string, credential: string)
    ensures IsCopy(p, source, source.subId, credential, email, TargetClient(p, source, email, credential))
  {}

  // ---------- which clients are copied ----------

  /** The positions of the copied clients among the first n of the source. */
  function CopiedAt(lower: char -> char, u: Copy, source: Inbound, n: nat): (at: seq<nat>)
    requires n <= |source.clients|
    ensures forall j :: 0 <= j < |at| ==> at[j] < n
  {
    if n == 0 then []
    else CopiedAt(lower, u, source, n - 1) + if Copied(lower, u, source, n - 1) then [n - 1] else []
  }

  /** Each copied client once, in the order of the list. */
  lemma {:induction false} CopiedAtExactly(lower: char -> char, u: Copy, source: Inbound, n: nat)
    requires n <= |source.clients|
    ensures var at := CopiedAt(lower, u, source, n);
            && (forall m: nat :: m in at <==> m < n && Copied(lower, u, source, m))
            && (forall i, j :: 0 <= i < j < |at| ==> at[i] < at[j])
  {
    hide Copied;
    if n > 0 {
      CopiedAtExactly(lower, u, source, n - 1);
      var front, at := CopiedAt(lower, u, source, n - 1), CopiedAt(lower, u, source, n);
      assert at == front + if Copied(lower, u, source, n - 1) then [n - 1] else [];
    }
  }

  /** The subscription id of the source client: its own, or the one generated for it and written back. */
  function SubIdOf(u: Copy, source: Inbound, n: nat): string
    requires n < |source.clients|
  {
    if source.clients[n].subId == "" then u.subIds(n) else source.clients[n].subId
  }

  /** The copy of the source's n-th client, with an email named after it. */
  ghost predicate CopyOf(u: Copy, p: Protocol, source: Inbound, n: nat, email: string, c: Client)
    requires n < |source.clients|
  {
    IsCopy(p, source.clients[n], SubIdOf(u, source, n), u.credentials(n), email, c)
    && exists suffix: nat :: email == Candidate(BaseOf(TrimSpace(source.clients[n].email), u.targetID), suffix)
  }

  /** One copy for each copied client, in the order of the source's list. */
  ghost predicate Copies(lower: char -> char, u: Copy, p: Protocol, source: Inbound, n: nat, emails: seq<string>,
      clients: seq<Client>)
    requires n <= |source.clients|
  {
    var at := CopiedAt(lower, u, source, n);
    |clients| == |emails| == |at|
    && forall j :: 0 <= j < |at| ==> CopyOf(u, p, source, at[j], emails[j], clients[j])
  }

  /** What a round adds: a client and its email if the source's client is copied, otherwise nothing. */
  lemma RoundAdds(lower: char -> char, u: Copy, p: Protocol, source: Inbound, n: nat, st: CopyState)
    requires Caseless(lower) && n < |source.clients| && Follows(lower, u, source, n, st)
    ensures var t, c := CopiedOne(lower, u, p, st, source.clients[n], n), source.clients[n];
            if Copied(lower, u, source, n) then
              var email := NextEmail(lower, BaseOf(TrimSpace(c.email), u.targetID), st.occupied, 0);
              var full := if c.subId == "" then WithSubId(u, source.clients, n) else c;
              t.added == st.added + [email]
              && t.clients == st.clients + [TargetClient(p, full, email, u.credentials(n))]
            else t.added == st.added && t.clients == st.clients
  {
    hide Caseless, LowerAll, TrimSpace, BaseOf, NextEmail, WrittenBack, Writes, Written, TargetClient, IsWanted, Held,
         StartsWithQuote, AnyCopied, ListAfter, QuotedBefore;
    var c := source.clients[n];
    if IsWanted(lower, u.allowed, c.email) && c.subId == "" {
      WantedIsNotBlank(lower, u, c.email);
      EmptyIsBlank(c.email);
      ListKeepsEmails(lower, u, source, n);
      EmailInList(ListAfter(lower, u, source, n), n);
      WriteBackExactly(lower, st.s, u.sourceID, WithSubId(u, source.clients, n));
    }
  }

  lemma TargetIsCopyOf(lower: char -> char, u: Copy, p: Protocol, source: Inbound, n: nat, occupied: set<string>)
    requires Caseless(lower) && n < |source.clients|
    ensures var c := source.clients[n];
            var email := NextEmail(lower, BaseOf(TrimSpace(c.email), u.targetID), occupied, 0);
            var full := if c.subId == "" then WithSubId(u, source.clients, n) else c;
            CopyOf(u, p, source, n, email, TargetClient(p, full, email, u.credentials(n)))
  {
    hide Caseless, LowerAll, TrimSpace, BaseOf, NextEmail, TargetClient, IsCopy, Candidate;
    var c := source.clients[n];
    var email := NextEmail(lower, BaseOf(TrimSpace(c.email), u.targetID), occupied, 0);
    var suffix := NextIsForm(lower, TrimSpace(c.email), u.targetID, occupied);
    var full := if c.subId == "" then WithSubId(u, source.clients, n) else c;
    var t := TargetClient(p, full, email, u.credentials(n));
    TargetIsCopy(p, full, email, u.credentials(n));
    SubIdAside(p, full, c, SubIdOf(u, source, n), u.credentials(n), email, t);
  }

  lemma CopiedAtNext(lower: char -> char, u: Copy, source: Inbound, n: nat)
    requires n < |source.clients|
    ensures CopiedAt(lower, u, source, n + 1)
            == CopiedAt(lower, u, source, n) + if Copied(lower, u, source, n) then [n] else []
  {
    hide Copied;
  }

  lemma OneMoreCopy(lower: char -> char, u: Copy, p: Protocol, source: Inbound, n: nat, st: CopyState)
    requires Caseless(lower) && n < |source.clients|
    requires Follows(lower, u, source, n, st) && Copies(lower, u, p, source, n, st.added, st.clients)
    ensures var t := CopiedOne(lower, u, p, st, source.clients[n], n);
            Copies(lower, u, p, source, n + 1, t.added, t.clients)
  {
    hide *;
    RoundAdds(lower, u, p, source, n, st);
    TargetIsCopyOf(lower, u, p, source, n, st.occupied);
    var t := CopiedOne(lower, u, p, st, source.clients[n], n);
    if Copied(lower, u, source, n) {
      CopiesExtend(lower, u, p, source, n, st.added, st.clients, t.added[|st.added|], t.clients[|st.clients|]);
    } else {
      CopiesStay(lower, u, p, source, n, st.added, st.clients);
    }
  }

  lemma CopiesExtend(lower: char -> char, u: Copy, p: Protocol, source: Inbound, n: nat, emails: seq<string>,
      clients: seq<Client>, email: string, c: Client)
    requires n < |source.clients| && Copies(lower, u, p, source, n, emails, clients)
    requires Copied(lower, u, source, n) && CopyOf(u, p, source, n, email, c)
    ensures Copies(lower, u, p, source, n + 1, emails + [email], clients + [c])
  {
    hide CopyOf, Copied, CopiedAt;
    CopiedAtNext(lower, u, source, n);
  }

  lemma CopiesStay(lower: char -> char, u: Copy, p: Protocol, source: Inbound, n: nat, emails: seq<string>,
      clients: seq<Client>)
    requires n < |source.clients| && Copies(lower, u, p, source, n, emails, clients) && !Copied(lower, u, source, n)
    ensures Copies(lower, u, p, source, n + 1, emails, clients)
  {
    hide CopyOf, Copied, CopiedAt;
    CopiedAtNext(lower, u, source, n);
    assert CopiedAt(lower, u, source, n) + [] == CopiedAt(lower, u, source, n);
  }

  lemma SubIdAside(p: Protocol, full: Client, c: Client, subId: string, credential: string, email: string, t: Client)
    requires full == c.(subId := subId) && IsCopy(p, full, full.subId, credential, email, t)
    ensures IsCopy(p, c, subId, credential, email, t)
  {}

  lemma {:induction false} LoopCopies(lower: char -> char, u: Copy, p: Protocol, s: Tables, n: nat)
    requires Caseless(lower) && u.sourceID in s.inbounds && n <= |s.inbounds[u.sourceID].clients|
    ensures var source := s.inbounds[u.sourceID];
            var st := CopiedAll(lower, u, p, CopyState(s, OccupiedBy(lower, s), [], []), source.clients[..n]);
            Copies(lower, u, p, source, n, st.added, st.clients)
  {
    hide Caseless, OccupiedBy, CopiedOne, Follows, Copies;
    var source, st := s.inbounds[u.sourceID], CopyState(s, OccupiedBy(lower, s), [], []);
    if n == 0 {
      NoCopies(lower, u, p, source);
    } else {
      LoopCopies(lower, u, p, s, n - 1);
      CopyFollows(lower, u, p, s, n - 1);
      CopiedLast(lower, u, p, st, source.clients[..n]);
      assert source.clients[..n][..n - 1] == source.clients[..n - 1];
      OneMoreCopy(lower, u, p, source, n - 1, CopiedAll(lower, u, p, st, source.clients[..n - 1]));
    }
  }

  lemma NoCopies(lower: char -> char, u: Copy, p: Protocol, source: Inbound)
    ensures Copies(lower, u, p, source, 0, [], [])
  {}

  // ---------- the other lists ----------

  lemma WriteBackKeepsOthers(lower: char -> char, s: Tables, id: int, c: Client)
    requires WrittenBack(lower, s, id, c).Some?
    ensures var t := WrittenBack(lower, s, id, c).value;
            t.inbounds.Keys == s.inbounds.Keys && forall i :: i in s.inbounds && i != id ==>
              t.inbounds[i] == s.inbounds[i]
  {
    hide IndexOfKey, KeyOf, PrimaryKey, WithStat, NoDuplicates, LowerOf, MovedStat;
  }

  lemma {:induction false} LoopKeepsOthers(lower: char -> char, u: Copy, p: Protocol,
      st: CopyState, sources: seq<Client>)
    requires Caseless(lower)
    ensures var t := CopiedAll(lower, u, p, st, sources);
            t.s.inbounds.Keys == st.s.inbounds.Keys
            && forall i :: i in st.s.inbounds && i != u.sourceID ==> t.s.inbounds[i] == st.s.inbounds[i]
    decreases |sources|
  {
    if sources != [] {
      hide Caseless, CopiedAll, TrimSpace, LowerAll, NextEmail, WrittenBack, TargetClient, IsWanted;
      var n := |sources| - 1;
      LoopKeepsOthers(lower, u, p, st, sources[..n]);
      CopiedLast(lower, u, p, st, sources);
      var before, c := CopiedAll(lower, u, p, st, sources[..n]), sources[n];
      var source := c.(subId := u.subIds(n));
      if c.subId == "" && WrittenBack(lower, before.s, u.sourceID, source).Some? {
        WriteBackKeepsOthers(lower, before.s, u.sourceID, source);
      }
    }
  }

  // ---------- the table after a copy ----------

  /** The source's list with the subscription ids written back, the target's list with one copy for each copied client
      at its end, and every other list as it was. */
  ghost predicate CopiedInto(lower: char -> char, u: Copy, s: Tables, emails: seq<string>, t: Tables)
    requires u.sourceID in s.inbounds && u.targetID in s.inbounds && u.sourceID != u.targetID
  {
    var source, target := s.inbounds[u.sourceID], s.inbounds[u.targetID];
    && t.inbounds.Keys == s.inbounds.Keys
    && (forall i :: i in s.inbounds && i != u.sourceID && i != u.targetID ==> t.inbounds[i] == s.inbounds[i])
    && t.inbounds[u.sourceID] == source.(clients := ListAfter(lower, u, source, |source.clients|))
    && t.inbounds[u.targetID].protocol == target.protocol
    && |t.inbounds[u.targetID].clients| >= |target.clients|
    && t.inbounds[u.targetID].clients[..|target.clients|] == target.clients
    && Copies(lower, u, target.protocol, source, |source.clients|, emails,
              t.inbounds[u.targetID].clients[|target.clients|..])
  }

  /** After a successful copy every added client has the flag, quota, expiry, reset and subscription id of its source,
      the fresh credential in exactly the field where the target's protocol looks for it, and no credential of the
      source. */
  lemma CopiedClientsAreCopies(lower: char -> char, u: Copy, s: Tables)
    requires Caseless(lower) && u.sourceID in s.inbounds && u.targetID in s.inbounds && u.sourceID != u.targetID
    ensures var st := CopiedFrom(lower, u, s);
            var r := if st.clients == [] then Some(st.s) else AfterAdd(st.s, u.targetID, st.clients, LowerOf(lower));
            r.Some? ==> CopiedInto(lower, u, s, st.added, r.value)
  {
    hide Caseless, OccupiedBy, CopiedAll, LowerOf, ListAfter, Copies, NoDuplicates, WithStats, KeyOf,
         AnyCopied, StartsWithQuote;
    var p, source, target := s.inbounds[u.targetID].protocol, s.inbounds[u.sourceID], s.inbounds[u.targetID];
    var st0 := CopyState(s, OccupiedBy(lower, s), [], []);
    var n := |source.clients|;
    assert source.clients[..n] == source.clients;
    LoopCopies(lower, u, p, s, n);
    CopyFollows(lower, u, p, s, n);
    LoopKeepsOthers(lower, u, p, st0, source.clients);
    var st := CopiedFrom(lower, u, s);
    assert st.s.inbounds[u.targetID] == target;
    var all := target.clients + st.clients;
    assert all[..|target.clients|] == target.clients && all[|target.clients|..] == st.clients;
    assert target.clients[|target.clients|..] == [] && target.clients[..|target.clients|] == target.clients;
  }
}
