/** Fresh emails for clients copied from one inbound to another. */
module CopiedEmails {
  import opened Options
  import opened Text
  import opened InboundClients

  /** strings.ToLower works rune by rune. */
  function LowerAll(lower: char -> char, s: string): (r: string)
    ensures |r| == |s| && forall i :: 0 <= i < |s| ==> r[i] == lower(s[i])
  {
    seq(|s|, i requires 0 <= i < |s| => lower(s[i]))
  }

  /** The lower-casing of whole strings. */
  function LowerOf(lower: char -> char): Lower { e => LowerAll(lower, e) }

  lemma LowerOfMeans(lower: char -> char)
    ensures forall e :: LowerOf(lower)(e) == LowerAll(lower, e)
  {}

  /** Digits, the sign, the underscore and the quote have no case, and nothing else becomes a quote. */
  ghost predicate Caseless(lower: char -> char) {
    (forall c :: IsDigit(c) ==> lower(c) == c) && lower('-') == '-' && lower('_') == '_'
    && forall c :: lower(c) == '"' <==> c == '"'
  }

  // ---------- candidates ----------

  /** base, base_1, base_2, ... */
  function Candidate(base: string, suffix: nat): string {
    if suffix == 0 then base else base + "_" + Itoa(suffix)
  }

  function BaseOf(originalEmail: string, targetID: int): string { originalEmail + "_" + Itoa(targetID) }

  lemma LowerConcat(lower: char -> char, a: string, b: string)
    ensures LowerAll(lower, a + b) == LowerAll(lower, a) + LowerAll(lower, b)
  {}

  lemma LowerItoa(lower: char -> char, n: int)
    requires Caseless(lower)
    ensures LowerAll(lower, "_" + Itoa(n)) == "_" + Itoa(n)
  {
    ItoaRunes(n);
    var s := "_" + Itoa(n);
    forall i | 0 <= i < |s| ensures lower(s[i]) == s[i] {
      assert i > 0 ==> s[i] == Itoa(n)[i - 1] && s[i] in Itoa(n);
    }
  }

  lemma LowerCandidate(lower: char -> char, base: string, k: nat)
    requires Caseless(lower)
    ensures LowerAll(lower, Candidate(base, k))
            == if k == 0 then LowerAll(lower, base) else LowerAll(lower, base) + "_" + Itoa(k)
  {
    hide Itoa, LowerAll;
    if k > 0 {
      LowerConcat(lower, base, "_" + Itoa(k));
      LowerItoa(lower, k);
      assert Candidate(base, k) == base + ("_" + Itoa(k));
      assert LowerAll(lower, base) + ("_" + Itoa(k)) == LowerAll(lower, base) + "_" + Itoa(k);
    }
  }

  lemma SuffixedDiffer(b: string, j: nat, k: nat)
    requires b + "_" + Itoa(j) == b + "_" + Itoa(k)
    ensures j == k
  {
    hide Itoa;
    assert (b + "_" + Itoa(j))[|b| + 1..] == Itoa(j) && (b + "_" + Itoa(k))[|b| + 1..] == Itoa(k);
    ItoaInjective(j, k);
  }

  /** Candidates with different suffixes differ even when case is ignored. */
  lemma CandidatesDiffer(lower: char -> char, base: string, j: nat, k: nat)
    requires Caseless(lower) && j < k
    ensures LowerAll(lower, Candidate(base, j)) != LowerAll(lower, Candidate(base, k))
  {
    hide *;
    var b := LowerAll(lower, base);
    LowerCandidate(lower, base, j);
    LowerCandidate(lower, base, k);
    if j == 0 {
      assert |b + "_" + Itoa(k)| > |b|;
    } else if b + "_" + Itoa(j) == b + "_" + Itoa(k) {
      SuffixedDiffer(b, j, k);
    }
  }

  function Tried(lower: char -> char, base: string, n: nat): set<string> {
    set k: nat | 0 <= k < n :: LowerAll(lower, Candidate(base, k))
  }

  lemma TriedOneMore(lower: char -> char, base: string, n: nat)
    requires Caseless(lower)
    ensures Tried(lower, base, n + 1) == Tried(lower, base, n) + {LowerAll(lower, Candidate(base, n))}
    ensures LowerAll(lower, Candidate(base, n)) !in Tried(lower, base, n)
  {
    hide Candidate, LowerAll, Caseless;
    forall k: nat | k < n ensures LowerAll(lower, Candidate(base, k)) != LowerAll(lower, Candidate(base, n)) {
      CandidatesDiffer(lower, base, k, n);
    }
  }

  lemma {:induction false} TriedAreMany(lower: char -> char, base: string, n: nat)
    requires Caseless(lower)
    ensures |Tried(lower, base, n)| == n
  {
    if n == 0 {
      assert Tried(lower, base, 0) == {};
    } else {
      hide Candidate, LowerAll, Caseless, Tried;
      TriedAreMany(lower, base, n - 1);
      TriedOneMore(lower, base, n - 1);
    }
  }

  lemma {:induction false} SubsetIsSmaller<T>(a: set<T>, b: set<T>)
    requires a <= b
    ensures |a| <= |b|
  {
    if x :| x in a {
      SubsetIsSmaller(a - {x}, b - {x});
    }
  }

  /** If the first n candidates are all taken, at least n emails are occupied: the search cannot go on forever. */
  lemma Pigeonhole(lower: char -> char, base: string, n: nat, occupied: set<string>)
    requires Caseless(lower) && forall k: nat :: k < n ==> LowerAll(lower, Candidate(base, k)) in occupied
    ensures n <= |occupied|
  {
    hide Candidate, LowerAll;
    TriedAreMany(lower, base, n);
    SubsetIsSmaller(Tried(lower, base, n), occupied);
  }

  // ---------- the search ----------

  /** The first candidate whose lower-case form is free. */
  ghost predicate FirstFree(lower: char -> char, base: string, occupied: set<string>, suffix: nat) {
    LowerAll(lower, Candidate(base, suffix)) !in occupied
    && forall k: nat :: k < suffix ==> LowerAll(lower, Candidate(base, k)) in occupied
  }

  method NextAvailableCopiedEmail(lower: char -> char, originalEmail: string, targetID: int, occupied: set<string>)
    returns (email: string, occupied': set<string>)
    requires Caseless(lower)
    ensures IsNext(lower, BaseOf(originalEmail, targetID), occupied, email)
    ensures LowerAll(lower, email) !in occupied && occupied' == occupied + {LowerAll(lower, email)}
  {
    hide LowerAll, Itoa, Caseless;
    var base := originalEmail + "_" + Itoa(targetID);
    var candidate := base;
    var suffix: nat := 0;
    while LowerAll(lower, candidate) in occupied
      invariant candidate == Candidate(base, suffix)
      invariant forall k: nat :: k < suffix ==> LowerAll(lower, Candidate(base, k)) in occupied
      decreases |occupied| + 1 - suffix
    {
      Pigeonhole(lower, base, suffix, occupied);
      suffix := suffix + 1;
      candidate := base + "_" + Itoa(suffix);
    }
    assert base == BaseOf(originalEmail, targetID);
    assert FirstFree(lower, BaseOf(originalEmail, targetID), occupied, suffix);
    assert candidate == Candidate(BaseOf(originalEmail, targetID), suffix);
    return candidate, occupied + {LowerAll(lower, candidate)};
  }

  ghost predicate IsNext(lower: char -> char, base: string, occupied: set<string>, email: string) {
    exists suffix: nat :: FirstFree(lower, base, occupied, suffix) && email == Candidate(base, suffix)
  }

  /** The email the search ends with. */
  ghost function NextEmail(lower: char -> char, base: string, occupied: set<string>, suffix: nat): (email: string)
    requires Caseless(lower) && forall k: nat :: k < suffix ==> LowerAll(lower, Candidate(base, k)) in occupied
    ensures IsNext(lower, base, occupied, email)
    decreases |occupied| + 1 - suffix
  {
    if LowerAll(lower, Candidate(base, suffix)) !in occupied then
      assert FirstFree(lower, base, occupied, suffix);
      Candidate(base, suffix)
    else
      Pigeonhole(lower, base, suffix + 1, occupied);
      NextEmail(lower, base, occupied, suffix + 1)
  }

  /** The search leaves no choice. */
  lemma NextIsUnique(lower: char -> char, base: string, occupied: set<string>, a: string, b: string)
    requires IsNext(lower, base, occupied, a) && IsNext(lower, base, occupied, b)
    ensures a == b
  {
    hide LowerAll, Candidate;
    var j: nat :| FirstFree(lower, base, occupied, j) && a == Candidate(base, j);
    var k: nat :| FirstFree(lower, base, occupied, k) && b == Candidate(base, k);
    assert j == k;
  }

  // ---------- occupied emails ----------

  function TrimQuotesLeft(s: string): string { if s != "" && s[0] == '"' then TrimQuotesLeft(s[1..]) else s }

  function TrimQuotesRight(s: string): string {
    if s != "" && s[|s| - 1] == '"' then TrimQuotesRight(s[..|s| - 1]) else s
  }

  function TrimQuotes(s: string): string { TrimQuotesRight(TrimQuotesLeft(s)) }

  /** Neither starts nor ends with a quote, so the trim leaves it alone. */
  predicate Unquoted(s: string) { s == "" || (s[0] != '"' && s[|s| - 1] != '"') }

  /** The lower-case forms of the trimmed emails. */
  function Taken(lower: char -> char, all: seq<string>): set<string> {
    set i | 0 <= i < |all| && TrimQuotes(all[i]) != "" :: LowerAll(lower, TrimQuotes(all[i]))
  }

  method Occupied(lower: char -> char, all: seq<string>) returns (occupied: set<string>)
    ensures occupied == Taken(lower, all)
  {
    hide LowerAll, TrimQuotes;
    occupied := {};
    for i := 0 to |all|
      invariant forall x :: x in occupied <==>
        exists j :: 0 <= j < i && TrimQuotes(all[j]) != "" && x == LowerAll(lower, TrimQuotes(all[j]))
    {
      var clean := TrimQuotes(all[i]);
      if clean != "" {
        occupied := occupied + {LowerAll(lower, clean)};
      }
    }
  }

  /** Exactly the emails of the tables' client lists, each at least once. */
  ghost predicate ListsEmails(s: Tables, all: seq<string>) {
    forall e :: e in all <==> exists i :: i in s.inbounds && HasEmail(s.inbounds[i].clients, e)
  }

  /** The emails an occupied set stands for. */
  ghost predicate Occupies(lower: char -> char, s: Tables, occupied: set<string>) {
    forall x :: x in occupied <==> exists i, k :: TakenAt(lower, s, i, k, x)
  }

  /** Every trimmed, non-empty email of the tables, in lower case. */
  function OccupiedBy(lower: char -> char, s: Tables): (occupied: set<string>)
    ensures Occupies(lower, s, occupied)
  {
    var r := set i, k | i in s.inbounds && 0 <= k < |s.inbounds[i].clients|
                        && TakenAt(lower, s, i, k, FormAt(lower, s, i, k))
                      :: FormAt(lower, s, i, k);
    assert forall i, k, x :: TakenAt(lower, s, i, k, x) ==> x == FormAt(lower, s, i, k);
    r
  }

  function FormAt(lower: char -> char, s: Tables, i: int, k: int): string {
    if i in s.inbounds && 0 <= k < |s.inbounds[i].clients|
    then LowerAll(lower, TrimQuotes(s.inbounds[i].clients[k].email))
    else ""
  }

  predicate TakenAt(lower: char -> char, s: Tables, i: int, k: int, x: string) {
    i in s.inbounds && 0 <= k < |s.inbounds[i].clients| && TrimQuotes(s.inbounds[i].clients[k].email) != ""
    && x == LowerAll(lower, TrimQuotes(s.inbounds[i].clients[k].email))
  }

  lemma TakenOccupies(lower: char -> char, s: Tables, all: seq<string>)
    requires ListsEmails(s, all)
    ensures Taken(lower, all) == OccupiedBy(lower, s)
  {
    hide LowerAll, TrimQuotes, OccupiedBy;
    forall x | x in Taken(lower, all) ensures exists i, k :: TakenAt(lower, s, i, k, x) {
      var n :| 0 <= n < |all| && TrimQuotes(all[n]) != "" && x == LowerAll(lower, TrimQuotes(all[n]));
      assert all[n] in all;
      var i :| i in s.inbounds && HasEmail(s.inbounds[i].clients, all[n]);
      var k :| 0 <= k < |s.inbounds[i].clients| && s.inbounds[i].clients[k].email == all[n];
      assert TakenAt(lower, s, i, k, x);
    }
    forall x | exists i, k :: TakenAt(lower, s, i, k, x) ensures x in Taken(lower, all) {
      var i, k :| TakenAt(lower, s, i, k, x);
      EmailInList(s.inbounds[i].clients, k);
      assert s.inbounds[i].clients[k].email in all;
      var n :| 0 <= n < |all| && all[n] == s.inbounds[i].clients[k].email;
    }
  }

  // ---------- the copy ----------

  /** The request and its random parts: a subscription id and a credential for each source client. */
  datatype Copy = Copy(targetID: int, sourceID: int, allowed: set<string>, subIds: nat -> string,
                       credentials: nat -> string)

  /** occupied, added and clients are the locals of the loop; s changes as subscription ids are written back. */
  datatype CopyState = CopyState(s: Tables, occupied: set<string>, added: seq<string>, clients: seq<Client>)

  /** getClientPrimaryKey, which knows fewer protocols than the edit it is used for. */
  function PrimaryKey(p: Protocol, c: Client): string {
    match p
    case Trojan => c.password
    case Shadowsocks => c.email
    case Hysteria => c.auth
    case _ => c.id
  }

  function TargetClient(p: Protocol, source: Client, email: string, credential: string): Client {
    var c := source.(email := email, id := "", password := "", auth := "");
    match p
    case Trojan | Shadowsocks => c.(password := credential)
    case Hysteria => c.(auth := credential)
    case _ => c.(id := credential)
  }

  /** An email that is copied at all: not blank, and among the allowed ones if any are given. */
  predicate IsWanted(lower: char -> char, allowed: set<string>, email: string) {
    TrimSpace(email) != "" && (allowed == {} || LowerAll(lower, TrimSpace(email)) in allowed)
  }

  ghost function WrittenBack(lower: char -> char, s: Tables, sourceID: int, c: Client): Option<Tables> {
    if sourceID !in s.inbounds || PrimaryKey(s.inbounds[sourceID].protocol, c) == "" then None
    else AfterUpdate(s, sourceID, [c], PrimaryKey(s.inbounds[sourceID].protocol, c), LowerOf(lower))
  }

  /** One round of the loop, for the k-th source client and a target of protocol p. */
  ghost function CopiedOne(lower: char -> char, u: Copy, p: Protocol, st: CopyState, c: Client, k: nat): CopyState
    requires Caseless(lower)
  {
    if !IsWanted(lower, u.allowed, c.email) then st
    else
      var source := if c.subId == "" then c.(subId := u.subIds(k)) else c;
      var back := if c.subId == "" then WrittenBack(lower, st.s, u.sourceID, source) else Some(st.s);
      match back
      case None => st
      case Some(s) =>
        var email := NextEmail(lower, BaseOf(TrimSpace(c.email), u.targetID), st.occupied, 0);
        CopyState(s, st.occupied + {LowerAll(lower, email)}, st.added + [email],
                  st.clients + [TargetClient(p, source, email, u.credentials(k))])
  }

  ghost function CopiedAll(lower: char -> char, u: Copy, p: Protocol, st: CopyState, sources: seq<Client>): CopyState
    requires Caseless(lower)
  {
    if sources == [] then st
    else
      var n := |sources| - 1;
      CopiedOne(lower, u, p, CopiedAll(lower, u, p, st, sources[..n]), sources[n], n)
  }

  /** The whole loop over the source inbound's clients, with the table's own emails occupied at first. */
  ghost function CopiedFrom(lower: char -> char, u: Copy, s: Tables): CopyState
    requires Caseless(lower) && u.sourceID in s.inbounds && u.targetID in s.inbounds
  {
    CopiedAll(lower, u, s.inbounds[u.targetID].protocol, CopyState(s, OccupiedBy(lower, s), [], []),
              s.inbounds[u.sourceID].clients)
  }

  // ---------- what the loop keeps ----------

  /** The same inbounds and emails; only other fields of the clients may differ. */
  ghost predicate SameEmails(s: Tables, t: Tables) {
    t.inbounds.Keys == s.inbounds.Keys
    && forall i :: i in s.inbounds ==> SameList(s.inbounds[i], t.inbounds[i])
  }

  predicate SameList(a: Inbound, b: Inbound) {
    b.protocol == a.protocol && |b.clients| == |a.clients|
    && forall k :: 0 <= k < |a.clients| ==> b.clients[k].email == a.clients[k].email
  }

  /** A subscription id is only ever written into a client with the same email: any other one has its email in use. */
  lemma WriteBackKeepsEmails(lower: char -> char, s: Tables, sourceID: int, c: Client)
    requires WrittenBack(lower, s, sourceID, c).Some? && c.email != ""
             && HasEmail(s.inbounds[sourceID].clients, c.email)
    ensures SameEmails(s, WrittenBack(lower, s, sourceID, c).value)
  {
    hide IndexOfKey, KeyOf, PrimaryKey, MovedStat, WithStat, NoDuplicates, LowerOf, HasEmail;
    var ib := s.inbounds[sourceID];
    var j := IndexOfKey(ib.protocol, ib.clients, PrimaryKey(ib.protocol, c));
    UsedIsRefused(lower, s, sourceID, c);
    assert ib.clients[j].email == c.email;
  }

  lemma UsedIsRefused(lower: char -> char, s: Tables, i: int, c: Client)
    requires i in s.inbounds && HasEmail(s.inbounds[i].clients, c.email) && c.email != ""
    ensures !NoDuplicates(s, [c], LowerOf(lower))
  {
    var l :| 0 <= l < |s.inbounds[i].clients| && s.inbounds[i].clients[l].email == c.email;
    EqualIsInUse(s, i, l, LowerOf(lower));
    assert [c][0].email == c.email;
  }

  lemma SameEmailsTransitive(s: Tables, t: Tables, v: Tables)
    requires SameEmails(s, t) && SameEmails(t, v)
    ensures SameEmails(s, v)
  {}

  /** The chosen emails are new to the occupied ones and to each other, and each client carries its email. */
  ghost predicate Chosen(lower: char -> char, start: set<string>, st: CopyState) {
    |st.added| == |st.clients|
    && (forall j :: 0 <= j < |st.added| ==> st.added[j] != "" && st.clients[j].email == st.added[j])
    && (forall x ::
          x in st.occupied <==> x in start || exists j :: 0 <= j < |st.added| && LowerAll(lower, st.added[j]) == x)
    && (forall j :: 0 <= j < |st.added| ==> LowerAll(lower, st.added[j]) !in start)
    && (forall i, j :: 0 <= i < j < |st.added| ==> LowerAll(lower, st.added[i]) != LowerAll(lower, st.added[j]))
  }

  /** Each chosen email is named after a wanted source client. */
  ghost predicate Named(lower: char -> char, u: Copy, sources: seq<Client>, added: seq<string>) {
    forall j :: 0 <= j < |added| ==> NamedBySome(lower, u, sources, added[j])
  }

  ghost predicate NamedBySome(lower: char -> char, u: Copy, sources: seq<Client>, email: string) {
    exists k :: 0 <= k < |sources| && IsNamedAfter(lower, u, sources[k], email)
  }

  ghost predicate IsNamedAfter(lower: char -> char, u: Copy, c: Client, email: string) {
    IsWanted(lower, u.allowed, c.email)
    && exists suffix: nat :: email == Candidate(BaseOf(TrimSpace(c.email), u.targetID), suffix)
  }

  /** The clients have the key their protocol asks for, but for the second Hysteria, which gets no password. */
  predicate Keyed(p: Protocol, cs: seq<Client>) {
    forall j :: 0 <= j < |cs| ==> (KeyOf(p, cs[j]) != "" <==> !p.Hysteria2?)
  }

  lemma OneMoreChosen(lower: char -> char, start: set<string>, st: CopyState, s: Tables, email: string, c: Client)
    requires Chosen(lower, start, st) && email != "" && LowerAll(lower, email) !in st.occupied && c.email == email
    ensures Chosen(lower, start, CopyState(s, st.occupied + {LowerAll(lower, email)},
                                           st.added + [email], st.clients + [c]))
  {
    hide LowerAll;
    var t := CopyState(s, st.occupied + {LowerAll(lower, email)}, st.added + [email], st.clients + [c]);
    assert forall j :: 0 <= j < |st.added| ==> t.added[j] == st.added[j] && t.clients[j] == st.clients[j];
    assert t.added[|st.added|] == email && t.clients[|st.added|] == c;
    forall x
      ensures x in t.occupied <==> x in start || exists j :: 0 <= j < |t.added| && LowerAll(lower, t.added[j]) == x
    {
      if x in st.occupied && x !in start {
        var j :| 0 <= j < |st.added| && LowerAll(lower, st.added[j]) == x;
        assert LowerAll(lower, t.added[j]) == x;
      }
      if x == LowerAll(lower, email) {
        assert LowerAll(lower, t.added[|st.added|]) == x;
      }
    }
  }

  lemma {:induction false} CopyKeeps(lower: char -> char, u: Copy, p: Protocol, s: Tables,
      occupied: set<string>, sources: seq<Client>)
    requires Caseless(lower) && u.sourceID in s.inbounds && forall k :: u.credentials(k) != ""
    requires forall k :: 0 <= k < |sources| ==> HasEmail(s.inbounds[u.sourceID].clients, sources[k].email)
    ensures var st := CopiedAll(lower, u, p, CopyState(s, occupied, [], []), sources);
            SameEmails(s, st.s) && Chosen(lower, occupied, st) && Keyed(p, st.clients)
            && Named(lower, u, sources, st.added)
    decreases |sources|
  {
    var st0 := CopyState(s, occupied, [], []);
    if sources != [] {
      hide LowerAll, TrimSpace, SameEmails, Chosen, HasEmail, CopiedAll, WrittenBack, Caseless, Keyed, Named;
      var n := |sources| - 1;
      CopyKeeps(lower, u, p, s, occupied, sources[..n]);
      CopiedLast(lower, u, p, st0, sources);
      CopiedOneKeeps(lower, u, p, s, occupied, CopiedAll(lower, u, p, st0, sources[..n]), sources[n], n, sources);
    } else {
      assert SameEmails(s, s);
    }
  }

  lemma CopiedLast(lower: char -> char, u: Copy, p: Protocol, st: CopyState, sources: seq<Client>)
    requires Caseless(lower) && sources != []
    ensures var n := |sources| - 1;
            CopiedAll(lower, u, p, st, sources)
            == CopiedOne(lower, u, p, CopiedAll(lower, u, p, st, sources[..n]), sources[n], n)
  {}

  lemma CopiedOneKeeps(lower: char -> char, u: Copy, p: Protocol, s: Tables, occupied: set<string>, st: CopyState,
      c: Client, k: nat, sources: seq<Client>)
    requires Caseless(lower) && u.sourceID in s.inbounds && SameEmails(s, st.s) && Chosen(lower, occupied, st)
    requires HasEmail(s.inbounds[u.sourceID].clients, c.email) && Keyed(p, st.clients) && u.credentials(k) != ""
    requires |sources| == k + 1 && sources[k] == c && Named(lower, u, sources[..k], st.added)
    ensures var t := CopiedOne(lower, u, p, st, c, k);
            SameEmails(s, t.s) && Chosen(lower, occupied, t) && Keyed(p, t.clients) && Named(lower, u, sources, t.added)
  {
    hide LowerAll, TrimSpace, SameEmails, Chosen, HasEmail, WrittenBack, FirstFree, NextEmail, Candidate, BaseOf, Keyed,
         Named, TargetClient, IsNext;
    MoreSources(lower, u, sources, k, st.added);
    if IsWanted(lower, u.allowed, c.email) {
      var source := if c.subId == "" then c.(subId := u.subIds(k)) else c;
      var back := if c.subId == "" then WrittenBack(lower, st.s, u.sourceID, source) else Some(st.s);
      if back.Some? {
        if c.subId == "" {
          EmptyIsBlank(c.email);
          SameHasEmail(s, st.s, u.sourceID, c.email);
          WriteBackKeepsEmails(lower, st.s, u.sourceID, source);
          SameEmailsTransitive(s, st.s, back.value);
        }
        var base := BaseOf(TrimSpace(c.email), u.targetID);
        var email := NextEmail(lower, base, st.occupied, 0);
        NextEmailIsFree(lower, TrimSpace(c.email), u.targetID, st.occupied);
        var target := TargetClient(p, source, email, u.credentials(k));
        TargetIsKeyed(p, source, email, u.credentials(k));
        OneMoreChosen(lower, occupied, st, back.value, email, target);
        OneMoreKeyed(p, st.clients, target);
        OneMoreNamed(lower, u, sources, st.added, email, k, st.occupied);
      }
    }
  }

  lemma MoreSources(lower: char -> char, u: Copy, sources: seq<Client>, k: nat, added: seq<string>)
    requires k <= |sources| && Named(lower, u, sources[..k], added)
    ensures Named(lower, u, sources, added)
  {
    hide IsNamedAfter;
    forall j | 0 <= j < |added| ensures NamedBySome(lower, u, sources, added[j]) {
      assert NamedBySome(lower, u, sources[..k], added[j]);
      var i :| 0 <= i < k && IsNamedAfter(lower, u, sources[..k][i], added[j]);
      assert sources[i] == sources[..k][i];
    }
  }

  lemma TargetIsKeyed(p: Protocol, source: Client, email: string, credential: string)
    requires credential != "" && email != ""
    ensures var c := TargetClient(p, source, email, credential);
            c.email == email && (KeyOf(p, c) != "" <==> !p.Hysteria2?)
  {}

  lemma OneMoreKeyed(p: Protocol, cs: seq<Client>, c: Client)
    requires Keyed(p, cs) && (KeyOf(p, c) != "" <==> !p.Hysteria2?)
    ensures Keyed(p, cs + [c])
  {
    hide KeyOf;
  }

  lemma OneMoreNamed(lower: char -> char, u: Copy, sources: seq<Client>, added: seq<string>, email: string, k: nat,
      occupied: set<string>)
    requires Named(lower, u, sources, added) && k < |sources| && IsWanted(lower, u.allowed, sources[k].email)
    requires IsNext(lower, BaseOf(TrimSpace(sources[k].email), u.targetID), occupied, email)
    ensures Named(lower, u, sources, added + [email])
  {
    hide IsWanted, Candidate, BaseOf, TrimSpace, LowerAll;
    assert IsNamedAfter(lower, u, sources[k], email);
    assert NamedBySome(lower, u, sources, email);
    hide NamedBySome;
    assert forall j :: 0 <= j < |added| ==> (added + [email])[j] == added[j];
  }

  lemma EmptyIsBlank(email: string)
    ensures TrimSpace(email) != "" ==> email != ""
  {}

  lemma SameHasEmail(s: Tables, t: Tables, i: int, e: string)
    requires SameEmails(s, t) && i in s.inbounds && HasEmail(s.inbounds[i].clients, e)
    ensures i in t.inbounds && HasEmail(t.inbounds[i].clients, e)
  {
    var k :| 0 <= k < |s.inbounds[i].clients| && s.inbounds[i].clients[k].email == e;
    assert t.inbounds[i].clients[k].email == e;
  }

  lemma NextEmailIsFree(lower: char -> char, originalEmail: string, targetID: int, occupied: set<string>)
    requires Caseless(lower)
    ensures var email := NextEmail(lower, BaseOf(originalEmail, targetID), occupied, 0);
            email != "" && LowerAll(lower, email) !in occupied
  {
    hide LowerAll, Itoa;
    var base := BaseOf(originalEmail, targetID);
    assert IsNext(lower, base, occupied, NextEmail(lower, base, occupied, 0));
  }

  // ---------- the addition that follows ----------

  /** A chosen email equals, ignoring case, an existing one that starts or ends with a quote. */
  ghost predicate Collides(lower: char -> char, s: Tables, added: seq<string>) {
    exists j, i, k :: CollidesAt(lower, s, added, j, i, k)
  }

  predicate CollidesAt(lower: char -> char, s: Tables, added: seq<string>, j: int, i: int, k: int) {
    0 <= j < |added| && i in s.inbounds && 0 <= k < |s.inbounds[i].clients|
    && !Unquoted(s.inbounds[i].clients[k].email)
    && LowerAll(lower, s.inbounds[i].clients[k].email) == LowerAll(lower, added[j])
  }

  lemma UnquotedIsUntouched(e: string)
    requires Unquoted(e)
    ensures TrimQuotes(e) == e
  {}

  /** Only a quoted email can equal a chosen one. */
  lemma EqualMeansQuoted(lower: char -> char, s: Tables, occupied: set<string>, st: CopyState, j: int, i: int, k: int)
    requires Occupies(lower, s, occupied) && Chosen(lower, occupied, st)
    requires 0 <= j < |st.added| && i in s.inbounds && 0 <= k < |s.inbounds[i].clients|
    requires LowerAll(lower, s.inbounds[i].clients[k].email) == LowerAll(lower, st.added[j])
    ensures CollidesAt(lower, s, st.added, j, i, k)
  {
    hide TrimQuotes, Occupies;
    var e := s.inbounds[i].clients[k].email;
    assert |LowerAll(lower, e)| == |e| && |LowerAll(lower, st.added[j])| == |st.added[j]| > 0;
    if Unquoted(e) {
      UnquotedIsOccupied(lower, s, occupied, i, k);
    }
  }

  lemma UnquotedIsOccupied(lower: char -> char, s: Tables, occupied: set<string>, i: int, k: int)
    requires Occupies(lower, s, occupied) && i in s.inbounds && 0 <= k < |s.inbounds[i].clients|
    requires Unquoted(s.inbounds[i].clients[k].email) && s.inbounds[i].clients[k].email != ""
    ensures LowerAll(lower, s.inbounds[i].clients[k].email) in occupied
  {
    hide TrimQuotes, LowerAll;
    UnquotedIsUntouched(s.inbounds[i].clients[k].email);
    assert TakenAt(lower, s, i, k, LowerAll(lower, s.inbounds[i].clients[k].email));
  }

  /** The duplicate check of the addition passes exactly when no chosen email collides. */
  lemma CheckPassesExactly(lower: char -> char, s: Tables, occupied: set<string>, st: CopyState)
    requires Occupies(lower, s, occupied) && Chosen(lower, occupied, st) && SameEmails(s, st.s)
    ensures NoDuplicates(st.s, st.clients, LowerOf(lower)) <==> !Collides(lower, s, st.added)
  {
    hide LowerAll, Unquoted, Occupies;
    LowerOfMeans(lower);
    if Collides(lower, s, st.added) {
      var j, i, k :| CollidesAt(lower, s, st.added, j, i, k);
      assert st.s.inbounds[i].clients[k].email == s.inbounds[i].clients[k].email;
      assert InUse(st.s, st.clients[j].email, LowerOf(lower));
    } else {
      forall j | 0 <= j < |st.clients| && st.clients[j].email != ""
        ensures !InUse(st.s, st.clients[j].email, LowerOf(lower))
      {
        forall i, k | i in st.s.inbounds && 0 <= k < |st.s.inbounds[i].clients|
          ensures LowerAll(lower, st.s.inbounds[i].clients[k].email) != LowerAll(lower, st.clients[j].email)
        {
          assert st.s.inbounds[i].clients[k].email == s.inbounds[i].clients[k].email;
          if LowerAll(lower, s.inbounds[i].clients[k].email) == LowerAll(lower, st.added[j]) {
            EqualMeansQuoted(lower, s, occupied, st, j, i, k);
          }
        }
      }
    }
  }

  lemma OwnEmails(cs: seq<Client>)
    ensures forall k :: 0 <= k < |cs| ==> HasEmail(cs, cs[k].email)
  {
    forall k | 0 <= k < |cs| ensures HasEmail(cs, cs[k].email) {
      EmailInList(cs, k);
    }
  }

  /** After the loop the addition is refused exactly for a sidecar's inbound, for a client of the second Hysteria, and
      when a chosen email collides with a quoted one. */
  lemma RefusedByCollision(lower: char -> char, u: Copy, s: Tables)
    requires Caseless(lower) && u.sourceID in s.inbounds && u.targetID in s.inbounds
             && forall k :: u.credentials(k) != ""
    ensures var st, p := CopiedFrom(lower, u, s), s.inbounds[u.targetID].protocol;
            AfterAdd(st.s, u.targetID, st.clients, LowerOf(lower)).None?
            <==> p.Mtproto? || (p.Hysteria2? && st.clients != []) || Collides(lower, s, st.added)
  {
    hide Caseless, Occupies, OccupiedBy, Chosen, Collides, NoDuplicates, CopiedAll, LowerOf, KeyOf, HasEmail, Named;
    var p, sources := s.inbounds[u.targetID].protocol, s.inbounds[u.sourceID].clients;
    OwnEmails(sources);
    var occupied := OccupiedBy(lower, s);
    CopyKeeps(lower, u, p, s, occupied, sources);
    var st := CopiedFrom(lower, u, s);
    CheckPassesExactly(lower, s, occupied, st);
    assert st.s.inbounds[u.targetID].protocol == p;
    if p.Hysteria2? && st.clients != [] {
      assert KeyOf(p, st.clients[0]) == "";
    }
  }

  /** A copy that succeeds adds its clients to the target's list with emails that differ, ignoring case, from each other
      and from every email that was there, quoted ones included; all other emails stay as they were. */
  lemma CopyAddsFresh(lower: char -> char, u: Copy, s: Tables)
    requires Caseless(lower) && u.sourceID in s.inbounds && u.targetID in s.inbounds
             && forall k :: u.credentials(k) != ""
    requires var st := CopiedFrom(lower, u, s);
             AfterAdd(st.s, u.targetID, st.clients, LowerOf(lower)).Some?
    ensures var st := CopiedFrom(lower, u, s);
            var t := AfterAdd(st.s, u.targetID, st.clients, LowerOf(lower)).value;
            && (forall j, i, k :: 0 <= j < |st.added| && i in s.inbounds && 0 <= k < |s.inbounds[i].clients| ==>
                  LowerAll(lower, st.added[j]) != LowerAll(lower, s.inbounds[i].clients[k].email))
            && (forall i, j :: 0 <= i < j < |st.added| ==> LowerAll(lower, st.added[i]) != LowerAll(lower, st.added[j]))
            && EmailsAppended(s, t, u.targetID, st.added)
  {
    hide Caseless, Occupies, OccupiedBy, Collides, NoDuplicates, CopiedAll, LowerOf, KeyOf, HasEmail, Named, Keyed,
         LowerAll, WithStats, CollidesAt;
    var p, sources := s.inbounds[u.targetID].protocol, s.inbounds[u.sourceID].clients;
    OwnEmails(sources);
    var occupied := OccupiedBy(lower, s);
    CopyKeeps(lower, u, p, s, occupied, sources);
    var st := CopiedFrom(lower, u, s);
    RefusedByCollision(lower, u, s);
    forall j, i, k | 0 <= j < |st.added| && i in s.inbounds && 0 <= k < |s.inbounds[i].clients|
      ensures LowerAll(lower, st.added[j]) != LowerAll(lower, s.inbounds[i].clients[k].email)
    {
      if LowerAll(lower, st.added[j]) == LowerAll(lower, s.inbounds[i].clients[k].email) {
        EqualMeansQuoted(lower, s, occupied, st, j, i, k);
        CollisionFound(lower, s, st.added, j, i, k);
      }
    }
    AppendedEmails(lower, s, st, u.targetID, st.added);
  }

  lemma CollisionFound(lower: char -> char, s: Tables, added: seq<string>, j: int, i: int, k: int)
    requires CollidesAt(lower, s, added, j, i, k)
    ensures Collides(lower, s, added)
  {}

  /** The target's emails followed by the added ones; every other list's emails unchanged. */
  predicate EmailsAppended(s: Tables, t: Tables, id: int, added: seq<string>)
    requires id in s.inbounds
  {
    t.inbounds.Keys == s.inbounds.Keys
    && (forall i :: i in s.inbounds && i != id ==> SameList(s.inbounds[i], t.inbounds[i]))
    && var n := |s.inbounds[id].clients|;
       |t.inbounds[id].clients| == n + |added|
       && (forall k :: 0 <= k < n ==> t.inbounds[id].clients[k].email == s.inbounds[id].clients[k].email)
       && (forall j :: 0 <= j < |added| ==> t.inbounds[id].clients[n + j].email == added[j])
  }

  lemma AppendedEmails(lower: char -> char, s: Tables, st: CopyState, id: int, added: seq<string>)
    requires SameEmails(s, st.s) && id in s.inbounds && |added| == |st.clients|
    requires forall j :: 0 <= j < |added| ==> st.clients[j].email == added[j]
    requires AfterAdd(st.s, id, st.clients, LowerOf(lower)).Some?
    ensures EmailsAppended(s, AfterAdd(st.s, id, st.clients, LowerOf(lower)).value, id, added)
  {
    hide NoDuplicates, WithStats, KeyOf;
  }

  /** Collisions need a copied client whose own email starts with a quote: without one, a copy is never refused for its
      emails, whatever exists. */
  lemma OnlyQuotedSourcesCollide(lower: char -> char, u: Copy, s: Tables, sources: seq<Client>, added: seq<string>)
    requires Caseless(lower) && Named(lower, u, sources, added) && Collides(lower, s, added)
    ensures exists k :: 0 <= k < |sources| && IsWanted(lower, u.allowed, sources[k].email)
                        && TrimSpace(sources[k].email) != "" && TrimSpace(sources[k].email)[0] == '"'
  {
    hide TrimSpace, LowerAll, Candidate, BaseOf, IsWanted;
    var j, i, k :| CollidesAt(lower, s, added, j, i, k);
    assert NamedBySome(lower, u, sources, added[j]);
    var n :| 0 <= n < |sources| && IsNamedAfter(lower, u, sources[n], added[j]);
    var suffix: nat :| added[j] == Candidate(BaseOf(TrimSpace(sources[n].email), u.targetID), suffix);
    WantedIsNotBlank(lower, u, sources[n].email);
    CandidateEnds(TrimSpace(sources[n].email), u.targetID, suffix);
    QuoteIsKept(lower, s.inbounds[i].clients[k].email, added[j]);
  }

  lemma WantedIsNotBlank(lower: char -> char, u: Copy, email: string)
    requires IsWanted(lower, u.allowed, email)
    ensures TrimSpace(email) != ""
  {}

  lemma CandidateEnds(originalEmail: string, targetID: int, suffix: nat)
    requires originalEmail != ""
    ensures var c := Candidate(BaseOf(originalEmail, targetID), suffix);
            c != "" && c[0] == originalEmail[0] && IsDigit(c[|c| - 1])
  {
    hide Itoa;
    LastDigit(targetID);
    LastDigit(suffix);
  }

  lemma LastDigit(n: int)
    ensures Itoa(n) != "" && IsDigit(Itoa(n)[|Itoa(n)| - 1])
  {}

  lemma QuoteIsKept(lower: char -> char, e: string, c: string)
    requires Caseless(lower) && !Unquoted(e) && c != "" && IsDigit(c[|c| - 1])
             && LowerAll(lower, e) == LowerAll(lower, c)
    ensures c[0] == '"'
  {
    assert |LowerAll(lower, e)| == |e| && |LowerAll(lower, c)| == |c|;
    assert LowerAll(lower, e)[0] == lower(e[0]) && LowerAll(lower, c)[0] == lower(c[0]);
    assert LowerAll(lower, e)[|e| - 1] == lower(e[|e| - 1]) && LowerAll(lower, c)[|c| - 1] == lower(c[|c| - 1]);
  }

  /** The rows keep tracking the clients: through the write-backs and through the addition. */
  lemma {:induction false} WriteBacksKeepTracked(lower: char -> char, u: Copy, p: Protocol,
      st: CopyState, sources: seq<Client>)
    requires Caseless(lower) && Tracked(st.s)
    ensures Tracked(CopiedAll(lower, u, p, st, sources).s)
    decreases |sources|
  {
    if sources != [] {
      hide Caseless, Tracked, CopiedAll, TrimSpace, LowerAll, NextEmail, AfterUpdate, TargetClient, IsWanted;
      var n := |sources| - 1;
      WriteBacksKeepTracked(lower, u, p, st, sources[..n]);
      CopiedLast(lower, u, p, st, sources);
      var before, c := CopiedAll(lower, u, p, st, sources[..n]).s, sources[n];
      var source := c.(subId := u.subIds(n));
      if c.subId == "" && WrittenBack(lower, before, u.sourceID, source).Some? {
        UpdateKeepsTracked(before, u.sourceID, [source],
                           PrimaryKey(before.inbounds[u.sourceID].protocol, source), LowerOf(lower));
      }
    }
  }

  lemma CopyKeepsTracked(lower: char -> char, u: Copy, s: Tables)
    requires Caseless(lower) && u.sourceID in s.inbounds && u.targetID in s.inbounds && Tracked(s)
    ensures var st := CopiedFrom(lower, u, s);
            var r := AfterAdd(st.s, u.targetID, st.clients, LowerOf(lower));
            Tracked(st.s) && (r.Some? ==> Tracked(r.value))
  {
    hide Caseless, OccupiedBy, Tracked, CopiedAll, AfterAdd, LowerOf;
    var st := CopiedFrom(lower, u, s);
    WriteBacksKeepTracked(lower, u, s.inbounds[u.targetID].protocol, CopyState(s, OccupiedBy(lower, s), [], []),
                          s.inbounds[u.sourceID].clients);
    if AfterAdd(st.s, u.targetID, st.clients, LowerOf(lower)).Some? {
      AddKeepsTracked(st.s, u.targetID, st.clients, LowerOf(lower));
    }
  }

  // ---------- a copy that is refused ----------

  function QuotedTables(): Tables {
    Tables(map[1 := Inbound(Vless, [Client("k", "", "", "\"b", true, 0, 0, 0, "s")]),
               2 := Inbound(Vless, [Client("l", "", "", "\"b_2", true, 0, 0, 0, "s")])],
           map["\"b" := ZeroStat(1), "\"b_2" := ZeroStat(2)])
  }

  lemma QuotesAreTrimmed()
    ensures TrimQuotes("\"b") == "b" && TrimQuotes("\"b_2") == "b_2"
  {
    assert "\"b"[1..] == "b" && "\"b_2"[1..] == "b_2";
    assert TrimQuotesLeft("\"b") == TrimQuotesLeft("b") == "b";
    assert TrimQuotesLeft("\"b_2") == TrimQuotesLeft("b_2") == "b_2";
    assert TrimQuotesRight("b") == "b" && TrimQuotesRight("b_2") == "b_2";
  }

  /** The quote hides an existing email from the search, which then chooses it. */
  lemma HiddenEmailIsChosen(lower: char -> char, occupied: set<string>)
    requires Caseless(lower) && Occupies(lower, QuotedTables(), occupied)
    ensures NextEmail(lower, BaseOf("\"b", 2), occupied, 0) == "\"b_2"
  {
    hide TrimQuotes, LowerAll, Occupies;
    assert Itoa(2) == "2" && BaseOf("\"b", 2) == "\"b_2" && Candidate("\"b_2", 0) == "\"b_2";
    var x := LowerAll(lower, "\"b_2");
    if x in occupied {
      TakenSomewhere(lower, QuotedTables(), occupied, x);
      var i, k :| TakenAt(lower, QuotedTables(), i, k, x);
      TakenIsShort(lower, i, k, x);
    }
  }

  lemma TakenIsShort(lower: char -> char, i: int, k: int, x: string)
    requires TakenAt(lower, QuotedTables(), i, k, x)
    ensures |x| < 4
  {
    hide TrimQuotes, LowerAll;
    QuotesAreTrimmed();
    assert |x| == |TrimQuotes(QuotedTables().inbounds[i].clients[k].email)|;
  }

  lemma TakenSomewhere(lower: char -> char, s: Tables, occupied: set<string>, x: string)
    requires Occupies(lower, s, occupied) && x in occupied
    ensures exists i, k :: TakenAt(lower, s, i, k, x)
  {}

  /** Copying the client with the email `"b` to inbound 2, where `"b_2` exists, is refused. */
  lemma CopyCanBeRefused(lower: char -> char, u: Copy)
    requires Caseless(lower) && forall k :: u.credentials(k) != ""
    requires u.sourceID == 1 && u.targetID == 2 && u.allowed == {}
    ensures var st := CopiedFrom(lower, u, QuotedTables());
            st.added == ["\"b_2"] && AfterAdd(st.s, 2, st.clients, LowerOf(lower)).None?
  {
    hide Caseless, Occupies, OccupiedBy, LowerAll, NextEmail, AfterAdd, TargetClient, BaseOf, Unquoted;
    var s := QuotedTables();
    var occupied := OccupiedBy(lower, s);
    var sources := s.inbounds[1].clients;
    HiddenEmailIsChosen(lower, occupied);
    assert TrimSpace("\"b") == "\"b";
    assert sources[..0] == [];
    var st := CopiedFrom(lower, u, s);
    CopiedLast(lower, u, Vless, CopyState(s, occupied, [], []), sources);
    assert st.added == ["\"b_2"];
    QuotedIsQuoted();
    assert CollidesAt(lower, s, st.added, 0, 2, 0);
    RefusedByCollision(lower, u, s);
  }

  lemma QuotedIsQuoted()
    ensures !Unquoted("\"b_2")
  {}
}
