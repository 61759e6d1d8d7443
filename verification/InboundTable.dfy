/** The inbound service's object: client lists and traffic rows, edited in place. */
module InboundTable {
  import opened Options
  import opened InboundClients
  import opened CopiedEmails
  import opened CopiedClients
  import opened Text

  /** contains: membership ignoring case. */
  method Contains(slice: seq<string>, str: string, lower: Lower) returns (found: bool)
    ensures found <==> exists i :: 0 <= i < |slice| && lower(slice[i]) == lower(str)
  {
    for i := 0 to |slice|
      invariant forall j :: 0 <= j < i ==> lower(slice[j]) != lower(str)
    {
      if lower(slice[i]) == lower(str) {
        return true;
      }
    }
    return false;
  }

  class Table {
    var inbounds: map<int, Inbound>
    var stats: map<string, Stat>

    function Value(): Tables
      reads this
    {
      Tables(inbounds, stats)
    }

    constructor (s: Tables)
      ensures Value() == s
    {
      inbounds, stats := s.inbounds, s.stats;
    }

    /** Every email of every client list, the empty ones included. */
    method GetAllEmails() returns (all: seq<string>)
      ensures forall e :: e in all <==> exists i :: i in inbounds && HasEmail(inbounds[i].clients, e)
    {
      all := [];
      var left, done := inbounds.Keys, {};
      while exists i :: i in left
        invariant left + done == inbounds.Keys
        invariant forall e :: e in all <==> exists i :: i in done && HasEmail(inbounds[i].clients, e)
        decreases left
      {
        var i :| i in left;
        var more := Emails(inbounds[i].clients);
        ghost var before := all;
        all := all + more;
        left, done := left - {i}, done + {i};
        forall e ensures e in all <==> exists j :: j in done && HasEmail(inbounds[j].clients, e) {
          assert e in all <==> e in before || e in more;
          if e in more { assert i in done && HasEmail(inbounds[i].clients, e); }
        }
      }
      assert done == inbounds.Keys;
    }

    /** The first offending email, or "": used by every operation that introduces emails. */
    method CheckEmailsExist(clients: seq<Client>, lower: Lower) returns (dup: string)
      ensures dup == "" <==> NoDuplicates(Value(), clients, lower)
      ensures dup != "" ==> HasEmail(clients, dup)
    {
      hide NoDuplicates, InUse, HasEmail;
      var all := GetAllEmails();
      var emails: seq<string> := [];
      PrefixClean(Value(), clients, lower);
      for k := 0 to |clients|
        invariant NoDuplicates(Value(), clients[..k], lower)
        invariant forall x :: x in emails <==> x != "" && HasEmail(clients[..k], x)
      {
        var e := clients[k].email;
        HasEmailStep(clients, k);
        if e != "" {
          var repeated := Contains(emails, e, lower);
          var used := Contains(all, e, lower);
          RepeatedMeans(clients, k, emails, lower);
          UsedMeans(Value(), e, all, lower);
          NextIsClean(Value(), clients, k, lower);
          if repeated || used {
            AtIndex(clients, k);
            return e;
          }
          ghost var before := emails;
          emails := emails + [e];
          assert forall x :: x in emails <==> x in before || x == e;
        } else {
          NextIsClean(Value(), clients, k, lower);
        }
      }
      assert clients[..|clients|] == clients;
      return "";
    }

    /** AddClientStat: the unique email makes the creation fail when the row exists. */
    method AddClientStat(id: int, c: Client) returns (ok: bool)
      requires c.email != ""
      modifies this`stats
      ensures ok <==> c.email !in old(stats)
      ensures stats == WithStat(old(stats), id, c)
    {
      ok := c.email !in stats;
      if ok {
        stats := stats[c.email := Stat(id, 0, 0, c.enable, c.totalGB, c.expiryTime, c.reset)];
      }
    }

    /** UpdateClientStat: no row is no error, a violated unique email is. */
    method UpdateClientStat(email: string, c: Client) returns (ok: bool)
      modifies this`stats
      ensures ok <==> MovedStat(old(stats), email, c).Some?
      ensures stats == if ok then MovedStat(old(stats), email, c).value else old(stats)
    {
      if email !in stats {
        return true;
      }
      if c.email != email && c.email in stats {
        return false;
      }
      var row := stats[email].(enable := c.enable, total := c.totalGB, expiryTime := c.expiryTime, reset := c.reset);
      stats := (stats - {email})[c.email := row];
      return true;
    }

    method AddInboundClient(id: int, req: seq<Client>, lower: Lower) returns (ok: bool)
      modifies this
      ensures ok <==> AfterAdd(old(Value()), id, req, lower).Some?
      ensures Value() == if ok then AfterAdd(old(Value()), id, req, lower).value else old(Value())
    {
      hide NoDuplicates, HasEmail, KeyOf, WithStat, WithStats;
      ghost var s := Value();
      var dup := CheckEmailsExist(req, lower);
      if dup != "" {
        return false;
      }
      if id !in inbounds || inbounds[id].protocol.Mtproto? {
        return false;
      }
      for k := 0 to |req|
        invariant forall j :: 0 <= j < k ==> KeyOf(inbounds[id].protocol, req[j]) != ""
        invariant Value() == s
      {
        if KeyOf(inbounds[id].protocol, req[k]) == "" {
          return false;
        }
      }
      WithStatsNone(stats, id);
      assert req[..0] == [];
      for k := 0 to |req|
        invariant inbounds == s.inbounds && stats == WithStats(s.stats, id, req[..k])
      {
        WithStatsLast(s.stats, id, req[..k + 1]);
        assert req[..k + 1][..k] == req[..k];
        WithoutEmail(stats, id, req[k]);
        if req[k].email != "" {
          var _ := AddClientStat(id, req[k]);
        }
      }
      assert req[..|req|] == req;
      inbounds := inbounds[id := inbounds[id].(clients := inbounds[id].clients + req)];
      return true;
    }

    method UpdateInboundClient(id: int, req: seq<Client>, key: string, lower: Lower) returns (ok: bool)
      requires req != []
      modifies this
      ensures ok <==> AfterUpdate(old(Value()), id, req, key, lower).Some?
      ensures Value() == if ok then AfterUpdate(old(Value()), id, req, key, lower).value else old(Value())
    {
      hide NoDuplicates, HasEmail, KeyOf, IndexOfKey, WithStat, MovedStat;
      if id !in inbounds || inbounds[id].protocol.Mtproto? {
        return false;
      }
      var cs, p, c := inbounds[id].clients, inbounds[id].protocol, req[0];
      var index := FindKey(p, cs, key);
      if KeyOf(p, c) == "" || index == -1 {
        return false;
      }
      var oldEmail := cs[index].email;
      if c.email != "" && c.email != oldEmail {
        var dup := CheckEmailsExist(req, lower);
        if dup != "" {
          return false;
        }
      }
      if c.email != "" {
        if oldEmail != "" {
          ok := UpdateClientStat(oldEmail, c);
          if !ok {
            return;
          }
        } else {
          var _ := AddClientStat(id, c);
        }
      } else {
        stats := stats - {oldEmail};
      }
      inbounds := inbounds[id := inbounds[id].(clients := cs[index := c])];
      return true;
    }

    method DelInboundClient(id: int, key: string) returns (ok: bool)
      modifies this
      ensures ok <==> AfterDel(old(Value()), id, key).Some?
      ensures Value() == if ok then AfterDel(old(Value()), id, key).value else old(Value())
    {
      hide KeyOf;
      if id !in inbounds || inbounds[id].protocol.Mtproto? {
        return false;
      }
      var cs, p := inbounds[id].clients, inbounds[id].protocol;
      var found, email, rest := SplitOff(p, cs, key);
      if !found || rest == [] {
        return false;
      }
      if email != "" {
        if email !in stats {
          return false;
        }
        stats := stats - {email};
      }
      inbounds := inbounds[id := inbounds[id].(clients := rest)];
      return true;
    }

    /** UpdateInbound as far as the clients go: the row sync in a transaction, then the new protocol and list; a request
        for a sidecar only drops the list. */
    method UpdateInbound(id: int, p: Protocol, cs: seq<Client>) returns (ok: bool)
      modifies this
      ensures ok <==> AfterSync(old(Value()), id, p, cs).Some?
      ensures Value() == if ok then AfterSync(old(Value()), id, p, cs).value else old(Value())
    {
      hide HasEmail, EmailsOf, AddedStats;
      if id !in inbounds {
        return false;
      }
      if p.Mtproto? {
        inbounds := inbounds[id := inbounds[id].(clients := [])];
        return true;
      }
      ghost var s := Value();
      var was := NonEmpty(inbounds[id].clients);
      var will := NonEmpty(cs);
      var cleaned := WithoutRemoved(stats, inbounds[id].clients, will);
      var added := cleaned;
      AddedStatsNone(cleaned, id, was);
      assert cs[..0] == [];
      for k := 0 to |cs|
        invariant Value() == s
        invariant AddedStats(cleaned, id, cs[..k], was) == Some(added)
      {
        AddedStatsStep(cleaned, id, cs, was, k);
        var e := cs[k].email;
        if e == "" || e in was {
          continue;
        }
        if e in added {
          AddedStatsStuck(cleaned, id, cs, was, k + 1);
          return false;
        }
        added := added[e := NewStat(id, cs[k])];
      }
      assert cs[..|cs|] == cs;
      stats := added;
      inbounds := inbounds[id := Inbound(p, cs)];
      return true;
    }

    /** writeBackClientSubID: the client, its subscription id already set, is saved under its key. */
    method WriteBackClientSubID(lower: char -> char, sourceID: int, c: Client) returns (ok: bool)
      requires sourceID in inbounds
      modifies this
      ensures ok <==> WrittenBack(lower, old(Value()), sourceID, c).Some?
      ensures Value() == if ok then WrittenBack(lower, old(Value()), sourceID, c).value else old(Value())
      ensures inbounds.Keys == old(inbounds).Keys
    {
      hide AfterUpdate, LowerOf, PrimaryKey;
      var key := PrimaryKey(inbounds[sourceID].protocol, c);
      if key == "" {
        return false;
      }
      ghost var before := Value();
      ok := UpdateInboundClient(sourceID, [c], key, LowerOf(lower));
      if ok {
        UpdateKeepsInbounds(before, sourceID, [c], key, LowerOf(lower));
      }
    }

    /** CopyInboundClients: subscription ids are written back as the loop goes and stay written when the addition at the
        end is refused. */
    method CopyInboundClients(lower: char -> char, targetID: int, sourceID: int, clientEmails: seq<string>,
        subIds: nat -> string, credentials: nat -> string)
      returns (ok: bool, added: seq<string>)
      requires Caseless(lower)
      modifies this
      ensures var s := old(Value());
              if targetID == sourceID || targetID !in s.inbounds || sourceID !in s.inbounds then
                !ok && added == [] && Value() == s
              else
                var u := Copy(targetID, sourceID, Allowed(lower, clientEmails), subIds, credentials);
                var st := CopiedFrom(lower, u, s);
                var r := if st.clients == [] then Some(st.s) else AfterAdd(st.s, targetID, st.clients, LowerOf(lower));
                added == st.added && (ok <==> r.Some?) && Value() == if r.Some? then r.value else st.s
      ensures ok ==>
                var s := old(Value());
                targetID != sourceID && targetID in s.inbounds && sourceID in s.inbounds
                && CopiedInto(lower, Copy(targetID, sourceID, Allowed(lower, clientEmails), subIds,
                                          credentials), s, added,
                              Value())
    {
      hide Caseless, CopiedAll, LowerAll, TrimSpace, AfterAdd, WrittenBack, NextEmail, IsNext, TargetClient, BaseOf,
           LowerOf, OccupiedBy, Occupies, HasEmail, CopiedInto;
      ok, added := false, [];
      if targetID == sourceID || targetID !in inbounds || sourceID !in inbounds {
        return;
      }
      ghost var s := Value();
      var sources, p := inbounds[sourceID].clients, inbounds[targetID].protocol;
      var allowed := AllowedEmails(lower, clientEmails);
      var all := GetAllEmails();
      var taken := Occupied(lower, all);
      TakenOccupies(lower, s, all);
      ghost var u := Copy(targetID, sourceID, allowed, subIds, credentials);
      ghost var st0 := CopyState(s, taken, [], []);
      var newClients: seq<Client> := [];
      NothingCopied(lower, u, p, st0);
      assert sources[..0] == [];
      for k := 0 to |sources|
        invariant CopyState(Value(), taken, added, newClients) == CopiedAll(lower, u, p, st0, sources[..k])
        invariant sourceID in inbounds
      {
        assert sources[..k + 1][..k] == sources[..k];
        CopiedLast(lower, u, p, st0, sources[..k + 1]);
        var c := sources[k];
        var originalEmail := TrimSpace(c.email);
        if originalEmail == "" || (allowed != {} && LowerAll(lower, originalEmail) !in allowed) {
          continue;
        }
        if c.subId == "" {
          c := c.(subId := subIds(k));
          var written := WriteBackClientSubID(lower, sourceID, c);
          if !written {
            continue;
          }
        }
        ghost var base, before := BaseOf(originalEmail, targetID), taken;
        var email;
        email, taken := NextAvailableCopiedEmail(lower, originalEmail, targetID, taken);
        NextIsUnique(lower, base, before, email, NextEmail(lower, base, before, 0));
        added := added + [email];
        newClients := newClients + [TargetClient(p, c, email, credentials(k))];
      }
      assert sources[..|sources|] == sources;
      CopiedClientsAreCopies(lower, u, s);
      if newClients == [] {
        return true, added;
      }
      ok := AddInboundClient(targetID, newClients, LowerOf(lower));
    }
  }

  /** The allowed emails as given, trimmed and in lower case. */
  function Allowed(lower: char -> char, clientEmails: seq<string>): set<string> {
    set i | 0 <= i < |clientEmails| :: LowerAll(lower, TrimSpace(clientEmails[i]))
  }

  method AllowedEmails(lower: char -> char, clientEmails: seq<string>) returns (allowed: set<string>)
    ensures allowed == Allowed(lower, clientEmails)
  {
    hide LowerAll, TrimSpace;
    allowed := {};
    for i := 0 to |clientEmails|
      invariant forall x :: x in allowed <==> exists j :: 0 <= j < i && x == LowerAll(lower, TrimSpace(clientEmails[j]))
    {
      allowed := allowed + {LowerAll(lower, TrimSpace(clientEmails[i]))};
    }
  }

  lemma NothingCopied(lower: char -> char, u: Copy, p: Protocol, st: CopyState)
    requires Caseless(lower)
    ensures CopiedAll(lower, u, p, st, []) == st
  {}

  lemma UpdateKeepsInbounds(s: Tables, id: int, req: seq<Client>, key: string, lower: Lower)
    requires req != [] && AfterUpdate(s, id, req, key, lower).Some?
    ensures var t := AfterUpdate(s, id, req, key, lower).value;
            t.inbounds.Keys == s.inbounds.Keys
            && forall i :: i in s.inbounds ==> t.inbounds[i].protocol == s.inbounds[i].protocol
  {
    hide NoDuplicates, KeyOf, IndexOfKey, MovedStat, WithStat;
  }

  method FindKey(p: Protocol, cs: seq<Client>, key: string) returns (index: int)
    ensures index == IndexOfKey(p, cs, key)
  {
    hide KeyOf;
    for k := 0 to |cs|
      invariant forall j :: 0 <= j < k ==> KeyOf(p, cs[j]) != key
    {
      if KeyOf(p, cs[k]) == key {
        return k;
      }
    }
    return -1;
  }

  /** The loop of DelInboundClient: every client with the key goes, and the last of them leaves its email. */
  method SplitOff(p: Protocol, cs: seq<Client>, key: string) returns (found: bool, email: string, rest: seq<Client>)
    ensures found <==> LastOfKey(p, cs, key) >= 0
    ensures found ==> email == cs[LastOfKey(p, cs, key)].email
    ensures rest == WithoutKey(p, cs, key)
  {
    hide KeyOf;
    found, email, rest := false, "", [];
    for k := 0 to |cs|
      invariant found <==> LastOfKey(p, cs[..k], key) >= 0
      invariant found ==> email == cs[LastOfKey(p, cs[..k], key)].email
      invariant rest == WithoutKey(p, cs[..k], key)
    {
      assert cs[..k + 1][..k] == cs[..k];
      if KeyOf(p, cs[k]) == key {
        found, email := true, cs[k].email;
      } else {
        rest := rest + [cs[k]];
      }
    }
    assert cs[..|cs|] == cs;
  }

  method NonEmpty(cs: seq<Client>) returns (es: set<string>)
    ensures es == EmailsOf(cs)
  {
    hide HasEmail;
    es := {};
    for k := 0 to |cs|
      invariant es == EmailsOf(cs[..k])
    {
      HasEmailStep(cs, k);
      if cs[k].email != "" {
        es := es + {cs[k].email};
      }
    }
    assert cs[..|cs|] == cs;
  }

  /** DelClientStat for every old email that the new list lacks. */
  method WithoutRemoved(stats: map<string, Stat>, was: seq<Client>, will: set<string>) returns (r: map<string, Stat>)
    ensures r == stats - (EmailsOf(was) - will)
  {
    hide HasEmail;
    r := stats;
    for k := 0 to |was|
      invariant r == stats - (EmailsOf(was[..k]) - will)
    {
      HasEmailStep(was, k);
      var email := was[k].email;
      ghost var before, after := EmailsOf(was[..k]), EmailsOf(was[..k + 1]);
      assert after == if email == "" then before else before + {email};
      if email == "" || email in will {
        assert after - will == before - will;
        continue;
      }
      assert after - will == (before - will) + {email};
      r := r - {email};
    }
    assert was[..|was|] == was;
  }

  lemma WithStatsNone(stats: map<string, Stat>, id: int)
    ensures WithStats(stats, id, []) == stats
  {}

  lemma WithoutEmail(stats: map<string, Stat>, id: int, c: Client)
    ensures c.email == "" ==> WithStat(stats, id, c) == stats
  {}

  lemma AddedStatsNone(stats: map<string, Stat>, id: int, known: set<string>)
    ensures AddedStats(stats, id, [], known) == Some(stats)
  {}

  lemma AddedStatsStep(stats: map<string, Stat>, id: int, cs: seq<Client>, known: set<string>, k: nat)
    requires k < |cs| && AddedStats(stats, id, cs[..k], known).Some?
    ensures var m, c := AddedStats(stats, id, cs[..k], known).value, cs[k];
            AddedStats(stats, id, cs[..k + 1], known)
            == if c.email == "" || c.email in known then Some(m)
               else if c.email in m then None else Some(m[c.email := NewStat(id, c)])
  {
    assert cs[..k + 1][..k] == cs[..k];
  }

  /** Once a creation failed, the whole sync fails. */
  lemma {:induction false} AddedStatsStuck(stats: map<string, Stat>, id: int, cs: seq<Client>,
      known: set<string>, k: nat)
    requires k <= |cs| && AddedStats(stats, id, cs[..k], known).None?
    ensures AddedStats(stats, id, cs, known).None?
    decreases |cs| - k
  {
    if k < |cs| {
      assert cs[..k + 1][..k] == cs[..k];
      AddedStatsStuck(stats, id, cs, known, k + 1);
    } else {
      assert cs[..k] == cs;
    }
  }

  method Emails(cs: seq<Client>) returns (es: seq<string>)
    ensures forall e :: e in es <==> HasEmail(cs, e)
  {
    es := [];
    for k := 0 to |cs|
      invariant forall e :: e in es <==> exists j :: 0 <= j < k && cs[j].email == e
    {
      es := es + [cs[k].email];
    }
  }

  lemma HasEmailStep(cs: seq<Client>, k: nat)
    requires k < |cs|
    ensures forall e :: HasEmail(cs[..k + 1], e) <==> HasEmail(cs[..k], e) || cs[k].email == e
  {
    assert cs[..k + 1][..k] == cs[..k];
    HasEmailLast(cs[..k + 1]);
  }

  lemma AtIndex(cs: seq<Client>, k: nat)
    requires k < |cs|
    ensures HasEmail(cs, cs[k].email)
  {}

  lemma PrefixClean(s: Tables, cs: seq<Client>, lower: Lower)
    ensures NoDuplicates(s, cs[..0], lower) && forall e :: !HasEmail(cs[..0], e)
  {}

  ghost predicate Repeats(cs: seq<Client>, k: nat, lower: Lower)
    requires k < |cs|
  {
    exists j :: 0 <= j < k && cs[j].email != "" && lower(cs[j].email) == lower(cs[k].email)
  }

  lemma RepeatedMeans(cs: seq<Client>, k: nat, emails: seq<string>, lower: Lower)
    requires k < |cs| && forall e :: e in emails <==> e != "" && HasEmail(cs[..k], e)
    ensures (exists i :: 0 <= i < |emails| && lower(emails[i]) == lower(cs[k].email)) <==> Repeats(cs, k, lower)
  {
    if i :| 0 <= i < |emails| && lower(emails[i]) == lower(cs[k].email) {
      assert emails[i] in emails;
      var j :| 0 <= j < k && cs[..k][j].email == emails[i];
      assert cs[j].email == emails[i];
    }
    if Repeats(cs, k, lower) {
      var j :| 0 <= j < k && cs[j].email != "" && lower(cs[j].email) == lower(cs[k].email);
      assert cs[..k][j].email == cs[j].email;
      assert cs[j].email in emails;
    }
  }

  lemma UsedMeans(s: Tables, e: string, all: seq<string>, lower: Lower)
    requires forall x :: x in all <==> exists i :: i in s.inbounds && HasEmail(s.inbounds[i].clients, x)
    ensures (exists i :: 0 <= i < |all| && lower(all[i]) == lower(e)) <==> InUse(s, e, lower)
  {
    if n :| 0 <= n < |all| && lower(all[n]) == lower(e) {
      assert all[n] in all;
      var i :| i in s.inbounds && HasEmail(s.inbounds[i].clients, all[n]);
      var k :| 0 <= k < |s.inbounds[i].clients| && s.inbounds[i].clients[k].email == all[n];
    }
    if InUse(s, e, lower) {
      var i, k :|
        i in s.inbounds && 0 <= k < |s.inbounds[i].clients| && lower(s.inbounds[i].clients[k].email) == lower(e);
      assert HasEmail(s.inbounds[i].clients, s.inbounds[i].clients[k].email);
      assert s.inbounds[i].clients[k].email in all;
    }
  }

  /** Extending a clean prefix: an offending email makes every extension of the list unclean. */
  lemma NextIsClean(s: Tables, cs: seq<Client>, k: nat, lower: Lower)
    requires k < |cs| && NoDuplicates(s, cs[..k], lower)
    ensures cs[k].email == "" ==> NoDuplicates(s, cs[..k + 1], lower)
    ensures cs[k].email != "" && !Repeats(cs, k, lower) && !InUse(s, cs[k].email, lower) ==>
              NoDuplicates(s, cs[..k + 1], lower)
    ensures cs[k].email != "" && (Repeats(cs, k, lower) || InUse(s, cs[k].email, lower)) ==> !NoDuplicates(s, cs, lower)
  {
    hide InUse;
    assert forall j :: 0 <= j < k ==> cs[..k + 1][j] == cs[..k][j] == cs[j];
  }
}
