/** When a copy is refused, told from the tables as they are before the call. */
module CopyRefusal {
  import opened Options
  import opened Text
  import opened InboundClients
  import opened CopiedEmails

  // ---------- the suffixes of related emails ----------

  /** g is the base of a copy of some other email. */
  predicate IsBase(g: string, target: int) {
    |g| >= |BaseOf("", target)| && g[|g| - |BaseOf("", target)|..] == BaseOf("", target)
  }

  /** The email that g is the base of a copy of. */
  function Stem(g: string, target: int): string
    requires IsBase(g, target)
  {
    g[..|g| - |BaseOf("", target)|]
  }

  /** One of the prior copies is of e and took suffix k. */
  predicate Took(target: int, prior: seq<string>, e: string, k: int)
    decreases |prior|, 0
  {
    prior != []
    && (Took(target, prior[..|prior| - 1], e, k)
        || (prior[|prior| - 1] == e && Suffix(target, prior[..|prior| - 1], e) == k))
  }

  /** A copy of the email that g is the base of holds the form of g without a suffix. */
  predicate ParentTook(target: int, prior: seq<string>, g: string)
    decreases |prior|, 1
  {
    target >= 1 && IsBase(g, target) && Took(target, prior, Stem(g, target), target)
  }

  /** A copy of g's own base holds the form of g whose suffix is the target's number. */
  predicate ChildTook(target: int, prior: seq<string>, g: string)
    decreases |prior|, 1
  {
    target >= 1 && Took(target, prior, BaseOf(g, target), 0)
  }

  /** The suffix a copy of g gets after the prior ones, all of them quoted and in lower case: as many as there are equal
      prior emails, moved past the two forms that copies of related emails can hold. */
  function Suffix(target: int, prior: seq<string>, g: string): nat
    decreases |prior|, 2
  {
    var s := multiset(prior)[g] + if ParentTook(target, prior, g) then 1 else 0;
    if ChildTook(target, prior, g) && s >= target then s + 1 else s
  }

  /** The number has no separator of its own. */
  lemma OnlySeparator(a: string, m: int, i: nat)
    requires i < |BaseOf(a, m)| && BaseOf(a, m)[i] == '_'
    ensures i <= |a|
  {
    hide Itoa;
    ItoaRunes(m);
    assert forall j :: 0 <= j < |Itoa(m)| ==> Itoa(m)[j] in Itoa(m);
    assert forall j :: |a| < j < |BaseOf(a, m)| ==> BaseOf(a, m)[j] == Itoa(m)[j - |a| - 1];
  }

  /** A number without a separator is cut off in one way. */
  lemma LastCut(a: string, m: int, b: string, n: int)
    requires BaseOf(a, m) == BaseOf(b, n)
    ensures a == b && m == n
  {
    hide Itoa;
    var x, y := BaseOf(a, m), BaseOf(b, n);
    assert x[|a|] == '_' && y[|b|] == '_';
    OnlySeparator(a, m, |b|);
    OnlySeparator(b, n, |a|);
    assert x[..|a|] == a && y[..|b|] == b && x[|a| + 1..] == Itoa(m) && y[|b| + 1..] == Itoa(n);
    ItoaInjective(m, n);
  }

  lemma StemIsInverse(e: string, g: string, target: int)
    ensures BaseOf(e, target) == g <==> IsBase(g, target) && Stem(g, target) == e
  {
    hide Itoa;
    assert BaseOf(e, target) == e + BaseOf("", target);
    if IsBase(g, target) {
      assert g == Stem(g, target) + BaseOf("", target);
    }
  }

  /** Two candidates for copies to one inbound are equal only if they are the same one, or if one email is the base of a
      copy of the other, which adds the target's number as its suffix. */
  lemma CandidatesMeet(target: int, g: string, j: nat, h: string, k: nat)
    ensures Candidate(BaseOf(g, target), j) == Candidate(BaseOf(h, target), k) <==>
              (g == h && j == k) || (g == BaseOf(h, target) && j == 0 && k == target && k > 0)
              || (h == BaseOf(g, target) && k == 0 && j == target && j > 0)
  {
    hide BaseOf;
    AsBase(BaseOf(g, target), j);
    AsBase(BaseOf(h, target), k);
    if Candidate(BaseOf(g, target), j) == Candidate(BaseOf(h, target), k) {
      if j == 0 && k == 0 {
        LastCut(g, target, h, target);
      } else if j == 0 {
        LastCut(g, target, BaseOf(h, target), k);
      } else if k == 0 {
        LastCut(BaseOf(g, target), j, h, target);
      } else {
        LastCut(BaseOf(g, target), j, BaseOf(h, target), k);
        LastCut(g, target, h, target);
      }
    }
  }

  lemma AsBase(b: string, k: nat)
    ensures Candidate(b, k) == if k == 0 then b else BaseOf(b, k)
  {}

  lemma NotOwnBase(g: string, target: int)
    ensures |BaseOf(g, target)| > |g|
  {}

  lemma TookLast(target: int, prior: seq<string>, e: string, k: int)
    requires prior != []
    ensures var n := |prior| - 1;
            Took(target, prior, e, k)
            <==> Took(target, prior[..n], e, k) || (prior[n] == e && Suffix(target, prior[..n], e) == k)
  {}

  lemma CountLast(prior: seq<string>, g: string)
    requires prior != []
    ensures var n := |prior| - 1;
            multiset(prior)[g] == multiset(prior[..n])[g] + if prior[n] == g then 1 else 0
  {
    assert prior == prior[..|prior| - 1] + [prior[|prior| - 1]];
  }

  /** What one more copy, of e, changes for g. */
  lemma OneMoreTook(target: int, prior: seq<string>, g: string)
    requires prior != []
    ensures var n := |prior| - 1;
            var front, e := prior[..n], prior[n];
            && (forall k :: Took(target, prior, g, k)
                            <==> Took(target, front, g, k) || (e == g && Suffix(target, front, e) == k))
            && (ParentTook(target, prior, g) <==>
                  ParentTook(target, front, g)
                  || (target >= 1 && g == BaseOf(e, target) && Suffix(target, front, e) == target))
            && (ChildTook(target, prior, g) <==>
                  ChildTook(target, front, g)
                  || (target >= 1 && e == BaseOf(g, target) && Suffix(target, front, e) == 0))
            && multiset(prior)[g] == multiset(front)[g] + if e == g then 1 else 0
  {
    hide Took, BaseOf, IsBase, Stem, Suffix;
    forall f, k
      ensures Took(target, prior, f, k)
              <==> Took(target, prior[..|prior| - 1], f, k)
                   || (prior[|prior| - 1] == f && Suffix(target, prior[..|prior| - 1], f) == k)
    {
      TookLast(target, prior, f, k);
    }
    CountLast(prior, g);
    StemIsInverse(prior[|prior| - 1], g, target);
  }

  /** The suffixes taken for g are those below the next one, but for the two that related emails hold. */
  lemma {:induction false} TookExactly(target: int, prior: seq<string>, g: string, k: int)
    ensures Took(target, prior, g, k)
            <==> 0 <= k < Suffix(target, prior, g) && !(k == 0 && ParentTook(target, prior, g))
                 && !(k == target && ChildTook(target, prior, g))
    decreases |prior|
  {
    if prior == [] {
      assert multiset(prior)[g] == 0;
    } else {
      hide Took, BaseOf, ParentTook, ChildTook;
      var n := |prior| - 1;
      var front, e := prior[..n], prior[n];
      TookExactly(target, front, g, k);
      OneMoreTook(target, prior, g);
      NotOwnBase(g, target);
      NotOwnBase(e, target);
      if target >= 1 && e == BaseOf(g, target) {
        StemIsInverse(g, e, target);
        ParentMeans(target, front, g, e);
        TookExactly(target, front, g, target);
      } else if target >= 1 && g == BaseOf(e, target) {
        ChildMeans(target, front, e, g);
        TookExactly(target, front, g, 0);
      }
    }
  }

  lemma ParentMeans(target: int, prior: seq<string>, g: string, e: string)
    requires target >= 1 && IsBase(e, target) && Stem(e, target) == g
    ensures ParentTook(target, prior, e) <==> Took(target, prior, g, target)
  {}

  lemma ChildMeans(target: int, prior: seq<string>, e: string, g: string)
    requires target >= 1 && g == BaseOf(e, target)
    ensures ChildTook(target, prior, e) <==> Took(target, prior, g, 0)
  {}

  // ---------- the forms that are taken ----------

  /** One of the prior copies has this email, in lower case. */
  predicate Held(target: int, prior: seq<string>, x: string) {
    prior != []
    && (Held(target, prior[..|prior| - 1], x)
        || x == Candidate(BaseOf(prior[|prior| - 1], target), Suffix(target, prior[..|prior| - 1], prior[|prior| - 1])))
  }

  lemma {:induction false} HeldExactly(target: int, prior: seq<string>, g: string, k: nat)
    ensures Held(target, prior, Candidate(BaseOf(g, target), k))
            <==> Took(target, prior, g, k) || (k == 0 && ParentTook(target, prior, g))
                 || (k == target && ChildTook(target, prior, g))
    decreases |prior|
  {
    if prior != [] {
      hide Took, BaseOf, Candidate, ParentTook, ChildTook, Suffix;
      var n := |prior| - 1;
      HeldExactly(target, prior[..n], g, k);
      OneMoreTook(target, prior, g);
      CandidatesMeet(target, g, k, prior[n], Suffix(target, prior[..n], prior[n]));
    }
  }

  /** The suffix of the next copy of g is the first one that is free. */
  lemma SuffixIsFirstFree(target: int, prior: seq<string>, g: string, k: nat)
    requires k <= Suffix(target, prior, g)
    ensures Held(target, prior, Candidate(BaseOf(g, target), k)) <==> k < Suffix(target, prior, g)
  {
    hide Took, BaseOf, Candidate, ParentTook, ChildTook;
    TookExactly(target, prior, g, k);
    HeldExactly(target, prior, g, k);
    assert ParentTook(target, prior, g) ==> Suffix(target, prior, g) > 0;
    assert ChildTook(target, prior, g) ==> Suffix(target, prior, g) != target;
  }

  // ---------- the write-backs ----------

  /** The write-back of c succeeds: both keys are set, and the first client with that key has c's email. */
  predicate Writes(p: Protocol, cs: seq<Client>, c: Client) {
    !p.Mtproto? && PrimaryKey(p, c) != "" && KeyOf(p, c) != ""
    && IndexOfKey(p, cs, PrimaryKey(p, c)) >= 0 && cs[IndexOfKey(p, cs, PrimaryKey(p, c))].email == c.email
  }

  function Written(p: Protocol, cs: seq<Client>, c: Client): seq<Client> {
    if Writes(p, cs, c) then cs[IndexOfKey(p, cs, PrimaryKey(p, c)) := c] else cs
  }

  /** The n-th client with the subscription id that is generated for it. */
  function WithSubId(u: Copy, cs: seq<Client>, n: nat): Client
    requires n < |cs|
  {
    cs[n].(subId := u.subIds(n))
  }

  /** The source's list after its first n clients. */
  function ListAfter(lower: char -> char, u: Copy, source: Inbound, n: nat): seq<Client>
    requires n <= |source.clients|
  {
    if n == 0 then source.clients
    else
      var before, c := ListAfter(lower, u, source, n - 1), source.clients[n - 1];
      if IsWanted(lower, u.allowed, c.email) && c.subId == ""
      then Written(source.protocol, before, WithSubId(u, source.clients, n - 1)) else before
  }

  /** The n-th client of the source is copied. */
  predicate Copied(lower: char -> char, u: Copy, source: Inbound, n: int) {
    0 <= n < |source.clients| && IsWanted(lower, u.allowed, source.clients[n].email)
    && (source.clients[n].subId != ""
        || Writes(source.protocol, ListAfter(lower, u, source, n), WithSubId(u, source.clients, n)))
  }

  lemma WriteBackExactly(lower: char -> char, s: Tables, id: int, c: Client)
    requires id in s.inbounds && HasEmail(s.inbounds[id].clients, c.email) && c.email != ""
    ensures var source, r := s.inbounds[id], WrittenBack(lower, s, id, c);
            && (r.Some? <==> Writes(source.protocol, source.clients, c))
            && (r.Some? ==> id in r.value.inbounds
                            && r.value.inbounds[id] == source.(clients := Written(source.protocol, source.clients, c)))
  {
    hide IndexOfKey, KeyOf, PrimaryKey, WithStat, NoDuplicates, LowerOf, HasEmail;
    UsedIsRefused(lower, s, id, c);
  }

  predicate SameEmailsIn(a: seq<Client>, b: seq<Client>) {
    |a| == |b| && forall k :: 0 <= k < |a| ==> a[k].email == b[k].email
  }

  lemma {:induction false} ListKeepsEmails(lower: char -> char, u: Copy, source: Inbound, n: nat)
    requires n <= |source.clients|
    ensures SameEmailsIn(ListAfter(lower, u, source, n), source.clients)
  {
    hide ListAfter, SameEmailsIn, Written, WithSubId, IsWanted;
    if n == 0 {
      ListAtFirst(lower, u, source);
    } else {
      ListKeepsEmails(lower, u, source, n - 1);
      ListNext(lower, u, source, n - 1);
      WrittenKeepsEmails(source.protocol, ListAfter(lower, u, source, n - 1), source.clients,
                         WithSubId(u, source.clients, n - 1));
    }
  }

  lemma ListAtFirst(lower: char -> char, u: Copy, source: Inbound)
    ensures SameEmailsIn(ListAfter(lower, u, source, 0), source.clients)
  {}

  lemma WrittenKeepsEmails(p: Protocol, cs: seq<Client>, was: seq<Client>, c: Client)
    requires SameEmailsIn(cs, was)
    ensures SameEmailsIn(Written(p, cs, c), was)
  {
    hide IndexOfKey, KeyOf, PrimaryKey;
  }

  // ---------- the copies of quoted emails ----------

  predicate StartsWithQuote(s: string) { s != "" && s[0] == '"' }

  function LowerEmail(lower: char -> char, c: Client): string { LowerAll(lower, TrimSpace(c.email)) }

  /** The quoted emails copied before the n-th client, trimmed and in lower case. */
  function QuotedBefore(lower: char -> char, u: Copy, source: Inbound, n: nat): seq<string>
    requires n <= |source.clients|
  {
    if n == 0 then []
    else
      QuotedBefore(lower, u, source, n - 1)
      + if CopiesQuoted(lower, u, source, n - 1) then [LowerEmail(lower, source.clients[n - 1])] else []
  }

  predicate CopiesQuoted(lower: char -> char, u: Copy, source: Inbound, n: int) {
    Copied(lower, u, source, n) && StartsWithQuote(TrimSpace(source.clients[n].email))
  }

  /** The email of the n-th client's copy, if it is quoted. */
  function QuotedCopy(lower: char -> char, u: Copy, source: Inbound, n: nat): string
    requires n < |source.clients|
  {
    Candidate(BaseOf(TrimSpace(source.clients[n].email), u.targetID),
              Suffix(u.targetID, QuotedBefore(lower, u, source, n), LowerEmail(lower, source.clients[n])))
  }

  lemma LowerCopy(lower: char -> char, e: string, target: int, k: nat)
    requires Caseless(lower)
    ensures LowerAll(lower, Candidate(BaseOf(e, target), k)) == Candidate(BaseOf(LowerAll(lower, e), target), k)
  {
    hide Caseless, LowerAll, Itoa;
    LowerCandidate(lower, BaseOf(e, target), k);
    assert BaseOf(e, target) == e + ("_" + Itoa(target));
    LowerConcat(lower, e, "_" + Itoa(target));
    LowerItoa(lower, target);
    assert BaseOf(LowerAll(lower, e), target) == LowerAll(lower, e) + ("_" + Itoa(target));
  }

  lemma StartIsKept(lower: char -> char, e: string)
    requires Caseless(lower)
    ensures StartsWithQuote(LowerAll(lower, e)) <==> StartsWithQuote(e)
  {}

  lemma CopyKeepsStart(e: string, target: int, k: nat)
    requires e != ""
    ensures StartsWithQuote(Candidate(BaseOf(e, target), k)) <==> StartsWithQuote(e)
  {
    hide Itoa;
  }

  ghost predicate AnyCopied(lower: char -> char, u: Copy, source: Inbound, n: nat) {
    exists m :: 0 <= m < n && Copied(lower, u, source, m)
  }

  lemma AnyCopiedNext(lower: char -> char, u: Copy, source: Inbound, n: nat)
    ensures AnyCopied(lower, u, source, n + 1) <==> AnyCopied(lower, u, source, n) || Copied(lower, u, source, n)
  {
    hide Copied;
    if m :| 0 <= m < n + 1 && Copied(lower, u, source, m) {
      assert m < n || m == n;
    }
  }

  /** What the loop has done after n clients: the source's list, whether anything was copied, and the occupied forms
      that start with a quote. */
  ghost predicate Follows(lower: char -> char, u: Copy, source: Inbound, n: nat, st: CopyState)
    requires n <= |source.clients|
  {
    && u.sourceID in st.s.inbounds
    && st.s.inbounds[u.sourceID] == source.(clients := ListAfter(lower, u, source, n))
    && (st.clients != [] <==> AnyCopied(lower, u, source, n))
    && forall x :: StartsWithQuote(x) ==> (x in st.occupied <==> Held(u.targetID, QuotedBefore(lower, u, source, n), x))
  }

  lemma NoneStartWithQuote(lower: char -> char, s: Tables, occupied: set<string>)
    requires Caseless(lower) && Occupies(lower, s, occupied)
    ensures forall x :: StartsWithQuote(x) ==> x !in occupied
  {
    hide Occupies, LowerAll, TrimQuotes;
    forall x | x in occupied ensures !StartsWithQuote(x) {
      TakenSomewhere(lower, s, occupied, x);
      var i, k :| TakenAt(lower, s, i, k, x);
      StartIsKept(lower, TrimQuotes(s.inbounds[i].clients[k].email));
      TrimmedStart(s.inbounds[i].clients[k].email);
    }
  }

  lemma TrimmedStart(e: string)
    ensures !StartsWithQuote(TrimQuotes(e))
  {
    LeftTrimmed(e);
    RightTrimmed(TrimQuotesLeft(e));
  }

  lemma {:induction false} LeftTrimmed(e: string)
    ensures !StartsWithQuote(TrimQuotesLeft(e))
  {
    if StartsWithQuote(e) { LeftTrimmed(e[1..]); }
  }

  lemma {:induction false} RightTrimmed(e: string)
    requires !StartsWithQuote(e)
    ensures !StartsWithQuote(TrimQuotesRight(e))
  {
    if e != "" && e[|e| - 1] == '"' { RightTrimmed(e[..|e| - 1]); }
  }

  /** The search for a quoted email ends at the suffix told from the prior copies. */
  lemma NextIsTold(lower: char -> char, e: string, target: int, occupied: set<string>, prior: seq<string>)
    requires Caseless(lower) && StartsWithQuote(e)
    requires forall x :: StartsWithQuote(x) ==> (x in occupied <==> Held(target, prior, x))
    ensures NextEmail(lower, BaseOf(e, target), occupied, 0)
            == Candidate(BaseOf(e, target), Suffix(target, prior, LowerAll(lower, e)))
  {
    hide Caseless, LowerAll, BaseOf, Candidate, Held, Suffix;
    var g := LowerAll(lower, e);
    var told := Suffix(target, prior, g);
    forall k: nat | k <= told
      ensures LowerAll(lower, Candidate(BaseOf(e, target), k)) in occupied <==> k < told
    {
      LowerCopy(lower, e, target, k);
      QuotedForm(lower, e, target, k);
      SuffixIsFirstFree(target, prior, g, k);
    }
    var email := NextEmail(lower, BaseOf(e, target), occupied, 0);
    var k: nat :| FirstFree(lower, BaseOf(e, target), occupied, k) && email == Candidate(BaseOf(e, target), k);
    assert LowerAll(lower, Candidate(BaseOf(e, target), told)) !in occupied;
  }

  lemma QuotedForm(lower: char -> char, e: string, target: int, k: nat)
    requires Caseless(lower) && e != ""
    ensures StartsWithQuote(LowerAll(lower, Candidate(BaseOf(e, target), k))) <==> StartsWithQuote(e)
  {
    hide Caseless, LowerAll, BaseOf, Candidate;
    CopyKeepsStart(e, target, k);
    StartIsKept(lower, Candidate(BaseOf(e, target), k));
  }

  lemma NextIsForm(lower: char -> char, e: string, target: int, occupied: set<string>) returns (k: nat)
    requires Caseless(lower)
    ensures NextEmail(lower, BaseOf(e, target), occupied, 0) == Candidate(BaseOf(e, target), k)
  {
    hide Caseless, LowerAll, BaseOf, Candidate;
    var email := NextEmail(lower, BaseOf(e, target), occupied, 0);
    k :| FirstFree(lower, BaseOf(e, target), occupied, k) && email == Candidate(BaseOf(e, target), k);
  }

  /** The occupied forms that start with a quote, after one more copy. */
  lemma OccupiedFollows(lower: char -> char, e: string, target: int, occupied: set<string>, prior: seq<string>)
    requires Caseless(lower) && e != ""
    requires forall x :: StartsWithQuote(x) ==> (x in occupied <==> Held(target, prior, x))
    ensures var more := prior + if StartsWithQuote(e) then [LowerAll(lower, e)] else [];
            var email := NextEmail(lower, BaseOf(e, target), occupied, 0);
            forall x :: StartsWithQuote(x) ==> (x in occupied + {LowerAll(lower, email)} <==> Held(target, more, x))
  {
    hide Caseless, LowerAll, BaseOf, Candidate, Suffix, StartsWithQuote, NextEmail;
    var k := NextIsForm(lower, e, target, occupied);
    QuotedForm(lower, e, target, k);
    if StartsWithQuote(e) {
      NextIsTold(lower, e, target, occupied, prior);
      LowerCopy(lower, e, target, Suffix(target, prior, LowerAll(lower, e)));
      var more := prior + [LowerAll(lower, e)];
      assert more[..|more| - 1] == prior;
    } else {
      assert prior + [] == prior;
    }
  }

  lemma ListNext(lower: char -> char, u: Copy, source: Inbound, n: nat)
    requires n < |source.clients|
    ensures ListAfter(lower, u, source, n + 1)
            == var c := source.clients[n];
               if IsWanted(lower, u.allowed, c.email) && c.subId == ""
               then Written(source.protocol, ListAfter(lower, u, source, n), WithSubId(u, source.clients, n))
               else ListAfter(lower, u, source, n)
  {}

  lemma QuotedNext(lower: char -> char, u: Copy, source: Inbound, n: nat)
    requires n < |source.clients|
    ensures QuotedBefore(lower, u, source, n + 1)
            == QuotedBefore(lower, u, source, n)
               + if CopiesQuoted(lower, u, source, n) then [LowerEmail(lower, source.clients[n])] else []
  {}

  /** The next round, whether or not it copies. */
  lemma OneMoreFollows(lower: char -> char, u: Copy, p: Protocol, source: Inbound, n: nat, st: CopyState)
    requires Caseless(lower) && n < |source.clients| && Follows(lower, u, source, n, st)
    ensures Follows(lower, u, source, n + 1, CopiedOne(lower, u, p, st, source.clients[n], n))
  {
    hide Caseless, LowerAll, TrimSpace, BaseOf, NextEmail, WrittenBack, Writes, Written, TargetClient, IsWanted, Held,
         StartsWithQuote, AnyCopied, ListAfter, QuotedBefore;
    var c := source.clients[n];
    AnyCopiedNext(lower, u, source, n);
    ListNext(lower, u, source, n);
    QuotedNext(lower, u, source, n);
    assert QuotedBefore(lower, u, source, n) + [] == QuotedBefore(lower, u, source, n);
    if IsWanted(lower, u.allowed, c.email) {
      WantedIsNotBlank(lower, u, c.email);
      EmptyIsBlank(c.email);
      OccupiedFollows(lower, TrimSpace(c.email), u.targetID, st.occupied, QuotedBefore(lower, u, source, n));
      if c.subId == "" {
        ListKeepsEmails(lower, u, source, n);
        EmailInList(ListAfter(lower, u, source, n), n);
        WriteBackExactly(lower, st.s, u.sourceID, WithSubId(u, source.clients, n));
        WrittenIsSame(source.protocol, ListAfter(lower, u, source, n), WithSubId(u, source.clients, n));
      }
    }
  }

  lemma WrittenIsSame(p: Protocol, cs: seq<Client>, c: Client)
    ensures !Writes(p, cs, c) ==> Written(p, cs, c) == cs
  {}

  lemma {:induction false} CopyFollows(lower: char -> char, u: Copy, p: Protocol, s: Tables, n: nat)
    requires Caseless(lower) && u.sourceID in s.inbounds && n <= |s.inbounds[u.sourceID].clients|
    ensures var source := s.inbounds[u.sourceID];
            Follows(lower, u, source, n,
                    CopiedAll(lower, u, p, CopyState(s, OccupiedBy(lower, s), [], []), source.clients[..n]))
  {
    hide Caseless, OccupiedBy, CopiedOne, ListAfter, Follows;
    var source, st := s.inbounds[u.sourceID], CopyState(s, OccupiedBy(lower, s), [], []);
    if n == 0 {
      StartFollows(lower, u, s, st);
    } else {
      CopyFollows(lower, u, p, s, n - 1);
      CopiedLast(lower, u, p, st, source.clients[..n]);
      assert source.clients[..n][..n - 1] == source.clients[..n - 1];
      OneMoreFollows(lower, u, p, source, n - 1, CopiedAll(lower, u, p, st, source.clients[..n - 1]));
    }
  }

  lemma StartFollows(lower: char -> char, u: Copy, s: Tables, st: CopyState)
    requires Caseless(lower) && u.sourceID in s.inbounds && st == CopyState(s, OccupiedBy(lower, s), [], [])
    ensures Follows(lower, u, s.inbounds[u.sourceID], 0, st)
  {
    hide Caseless, OccupiedBy, Copied, StartsWithQuote;
    NoneStartWithQuote(lower, s, st.occupied);
  }

  // ---------- the refusal ----------

  ghost predicate IsQuotedCopy(lower: char -> char, u: Copy, source: Inbound, n: int, x: string) {
    CopiesQuoted(lower, u, source, n) && x == LowerAll(lower, QuotedCopy(lower, u, source, n))
  }

  lemma {:induction false} HeldAreCopies(lower: char -> char, u: Copy, source: Inbound, n: nat, x: string)
    requires Caseless(lower) && n <= |source.clients|
    ensures Held(u.targetID, QuotedBefore(lower, u, source, n), x)
            <==> exists m :: 0 <= m < n && IsQuotedCopy(lower, u, source, m, x)
  {
    hide IsQuotedCopy, QuotedBefore, Held;
    if n == 0 {
      NoneHeld(lower, u, source, x);
    } else {
      HeldAreCopies(lower, u, source, n - 1, x);
      HeldNext(lower, u, source, n - 1, x);
      assert forall m :: 0 <= m < n && IsQuotedCopy(lower, u, source, m, x) ==> m < n - 1 || m == n - 1;
    }
  }

  lemma NoneHeld(lower: char -> char, u: Copy, source: Inbound, x: string)
    ensures !Held(u.targetID, QuotedBefore(lower, u, source, 0), x)
  {}

  lemma HeldNext(lower: char -> char, u: Copy, source: Inbound, n: nat, x: string)
    requires Caseless(lower) && n < |source.clients|
    ensures Held(u.targetID, QuotedBefore(lower, u, source, n + 1), x)
            <==> Held(u.targetID, QuotedBefore(lower, u, source, n), x) || IsQuotedCopy(lower, u, source, n, x)
  {
    hide Caseless, LowerAll, BaseOf, Candidate, Suffix, CopiesQuoted, TrimSpace, QuotedBefore;
    var prior := QuotedBefore(lower, u, source, n);
    var g := LowerEmail(lower, source.clients[n]);
    QuotedNext(lower, u, source, n);
    LowerCopy(lower, TrimSpace(source.clients[n].email), u.targetID, Suffix(u.targetID, prior, g));
    assert (prior + [g])[..|prior + [g]| - 1] == prior && prior + [] == prior;
  }

  /** The copy of the source's n-th client gets, ignoring case, the email of the k-th client of inbound i. */
  predicate Meets(lower: char -> char, u: Copy, s: Tables, n: int, i: int, k: int) {
    u.sourceID in s.inbounds && CopiesQuoted(lower, u, s.inbounds[u.sourceID], n)
    && i in s.inbounds && 0 <= k < |s.inbounds[i].clients|
    && LowerAll(lower, s.inbounds[i].clients[k].email)
       == LowerAll(lower, QuotedCopy(lower, u, s.inbounds[u.sourceID], n))
  }

  /** The loop's chosen emails collide exactly when a quoted source meets an existing email. */
  lemma CollidesExactly(lower: char -> char, u: Copy, s: Tables, st: CopyState)
    requires Caseless(lower) && u.sourceID in s.inbounds && Chosen(lower, OccupiedBy(lower, s), st)
    requires var source := s.inbounds[u.sourceID]; Follows(lower, u, source, |source.clients|, st)
    requires forall j :: 0 <= j < |st.added| ==> st.added[j] != "" && IsDigit(st.added[j][|st.added[j]| - 1])
    ensures Collides(lower, s, st.added) <==> exists n, i, k :: Meets(lower, u, s, n, i, k)
  {
    hide Caseless, LowerAll, OccupiedBy, Held, QuotedBefore, QuotedCopy, CopiesQuoted, ListAfter, Unquoted,
         AnyCopied, StartsWithQuote;
    var source := s.inbounds[u.sourceID];
    NoneStartWithQuote(lower, s, OccupiedBy(lower, s));
    if Collides(lower, s, st.added) {
      var j, i, k :| CollidesAt(lower, s, st.added, j, i, k);
      var x := LowerAll(lower, s.inbounds[i].clients[k].email);
      QuotedStart(lower, s.inbounds[i].clients[k].email, st.added[j]);
      HeldAreCopies(lower, u, source, |source.clients|, x);
      var n :| 0 <= n < |source.clients| && IsQuotedCopy(lower, u, source, n, x);
      assert Meets(lower, u, s, n, i, k);
    }
    if n, i, k :| Meets(lower, u, s, n, i, k) {
      var x := LowerAll(lower, s.inbounds[i].clients[k].email);
      assert IsQuotedCopy(lower, u, source, n, x) && 0 <= n < |source.clients|
        by { CopiedInRange(lower, u, source, n); }
      HeldAreCopies(lower, u, source, |source.clients|, x);
      MetStart(lower, u, s, n, i, k);
      var j :| 0 <= j < |st.added| && LowerAll(lower, st.added[j]) == x;
      assert CollidesAt(lower, s, st.added, j, i, k);
    }
  }

  lemma CopiedInRange(lower: char -> char, u: Copy, source: Inbound, n: int)
    requires CopiesQuoted(lower, u, source, n)
    ensures 0 <= n < |source.clients|
  {}

  lemma QuotedStart(lower: char -> char, e: string, c: string)
    requires Caseless(lower) && !Unquoted(e) && c != "" && IsDigit(c[|c| - 1])
             && LowerAll(lower, e) == LowerAll(lower, c)
    ensures StartsWithQuote(LowerAll(lower, e))
  {
    hide Caseless, LowerAll;
    QuoteIsKept(lower, e, c);
    StartIsKept(lower, c);
  }

  /** An email that is met starts with a quote. */
  lemma MetStart(lower: char -> char, u: Copy, s: Tables, n: int, i: int, k: int)
    requires Caseless(lower) && Meets(lower, u, s, n, i, k)
    ensures StartsWithQuote(LowerAll(lower, s.inbounds[i].clients[k].email))
            && !Unquoted(s.inbounds[i].clients[k].email)
  {
    hide Caseless, LowerAll, Suffix, TrimSpace, BaseOf, Candidate, QuotedBefore, Copied;
    var source := s.inbounds[u.sourceID];
    CopiedInRange(lower, u, source, n);
    var suffix := Suffix(u.targetID, QuotedBefore(lower, u, source, n), LowerEmail(lower, source.clients[n]));
    QuotedForm(lower, TrimSpace(source.clients[n].email), u.targetID, suffix);
    StartIsKept(lower, s.inbounds[i].clients[k].email);
  }

  /** A copy is refused exactly when it copies anything to a sidecar's inbound or to one of the second Hysteria, or when
      the copy of a quoted email would get an email that exists: which clients are copied and the suffix of each quoted
      copy are told from the source's list alone. */
  lemma CopyRefusedExactly(lower: char -> char, u: Copy, s: Tables)
    requires Caseless(lower) && u.sourceID in s.inbounds && u.targetID in s.inbounds
             && forall k :: u.credentials(k) != ""
    ensures var st, source, p := CopiedFrom(lower, u, s), s.inbounds[u.sourceID], s.inbounds[u.targetID].protocol;
            st.clients != [] && AfterAdd(st.s, u.targetID, st.clients, LowerOf(lower)).None?
            <==> (AnyCopied(lower, u, source, |source.clients|) && (p.Mtproto? || p.Hysteria2?))
                 || exists n, i, k :: Meets(lower, u, s, n, i, k)
  {
    hide Caseless, Occupies, OccupiedBy, Chosen, Collides, AfterAdd, CopiedAll, LowerOf, HasEmail, Named, Meets,
         ListAfter, QuotedBefore, AnyCopied;
    var p, source := s.inbounds[u.targetID].protocol, s.inbounds[u.sourceID];
    OwnEmails(source.clients);
    CopyKeeps(lower, u, p, s, OccupiedBy(lower, s), source.clients);
    CopyFollows(lower, u, p, s, |source.clients|);
    assert source.clients[..|source.clients|] == source.clients;
    var st := CopiedFrom(lower, u, s);
    ChosenEndInDigits(lower, u, source.clients, OccupiedBy(lower, s), st);
    CollidesExactly(lower, u, s, st);
    RefusedByCollision(lower, u, s);
    if n, i, k :| Meets(lower, u, s, n, i, k) {
      MeetsMeansCopied(lower, u, s, n, i, k);
    }
  }

  lemma MeetsMeansCopied(lower: char -> char, u: Copy, s: Tables, n: int, i: int, k: int)
    requires Meets(lower, u, s, n, i, k)
    ensures u.sourceID in s.inbounds
            && AnyCopied(lower, u, s.inbounds[u.sourceID], |s.inbounds[u.sourceID].clients|)
  {}

  lemma ChosenEndInDigits(lower: char -> char, u: Copy, sources: seq<Client>, occupied: set<string>, st: CopyState)
    requires Named(lower, u, sources, st.added) && Chosen(lower, occupied, st)
    ensures forall j :: 0 <= j < |st.added| ==> st.added[j] != "" && IsDigit(st.added[j][|st.added[j]| - 1])
  {
    hide LowerAll, TrimSpace, BaseOf, Candidate, IsWanted;
    forall j | 0 <= j < |st.added| ensures st.added[j] != "" && IsDigit(st.added[j][|st.added[j]| - 1]) {
      assert NamedBySome(lower, u, sources, st.added[j]);
      var n :| 0 <= n < |sources| && IsNamedAfter(lower, u, sources[n], st.added[j]);
      var k: nat :| st.added[j] == Candidate(BaseOf(TrimSpace(sources[n].email), u.targetID), k);
      WantedIsNotBlank(lower, u, sources[n].email);
      CandidateEnds(TrimSpace(sources[n].email), u.targetID, k);
    }
  }

  // ---------- simpler conditions ----------

  /** Unless the second Hysteria is the source, where a write-back changes the keys that later ones look for, a client
      is copied exactly when its write-back would succeed in the list as it was. */
  lemma CopiedFromTheStart(lower: char -> char, u: Copy, source: Inbound, n: nat)
    requires !source.protocol.Hysteria2? && n < |source.clients|
    ensures Copied(lower, u, source, n)
            <==> IsWanted(lower, u.allowed, source.clients[n].email)
                 && (source.clients[n].subId != "" || Writes(source.protocol, source.clients, source.clients[n]))
  {
    hide IsWanted, KeyOf, PrimaryKey;
    var c := source.clients[n];
    KeysAreKept(lower, u, source, n);
    assert KeyOf(source.protocol, WithSubId(u, source.clients, n)) == KeyOf(source.protocol, c)
      && PrimaryKey(source.protocol, WithSubId(u, source.clients, n)) == PrimaryKey(source.protocol, c) by {
      KeyIgnoresSubId(source.protocol, c, u.subIds(n));
    }
    SameIndex(source.protocol, ListAfter(lower, u, source, n), source.clients, PrimaryKey(source.protocol, c));
  }

  lemma KeyIgnoresSubId(p: Protocol, c: Client, subId: string)
    ensures KeyOf(p, c.(subId := subId)) == KeyOf(p, c) && PrimaryKey(p, c.(subId := subId)) == PrimaryKey(p, c)
  {}

  lemma {:induction false} KeysAreKept(lower: char -> char, u: Copy, source: Inbound, n: nat)
    requires !source.protocol.Hysteria2? && n <= |source.clients|
    ensures SameKeys(source.protocol, ListAfter(lower, u, source, n), source.clients)
  {
    if n > 0 {
      hide IsWanted, KeyOf, PrimaryKey, SameKeys, Written, ListAfter;
      KeysAreKept(lower, u, source, n - 1);
      ListNext(lower, u, source, n - 1);
      WrittenKeepsKeys(source.protocol, ListAfter(lower, u, source, n - 1), source.clients,
                       WithSubId(u, source.clients, n - 1));
    } else {
      assert ListAfter(lower, u, source, n) == source.clients;
    }
  }

  predicate SameKeys(p: Protocol, a: seq<Client>, b: seq<Client>) {
    |a| == |b| && forall k :: 0 <= k < |a| ==> KeyOf(p, a[k]) == KeyOf(p, b[k]) && a[k].email == b[k].email
  }

  lemma WrittenKeepsKeys(p: Protocol, a: seq<Client>, b: seq<Client>, c: Client)
    requires !p.Hysteria2? && SameKeys(p, a, b)
    ensures SameKeys(p, Written(p, a, c), b)
  {
    hide IndexOfKey;
    if Writes(p, a, c) {
      var j := IndexOfKey(p, a, PrimaryKey(p, c));
      assert KeyOf(p, a[j]) == PrimaryKey(p, c) && a[j].email == c.email;
    }
  }

  lemma SameIndex(p: Protocol, a: seq<Client>, b: seq<Client>, key: string)
    requires SameKeys(p, a, b)
    ensures IndexOfKey(p, a, key) == IndexOfKey(p, b, key)
  {
    hide KeyOf;
    var j, k := IndexOfKey(p, a, key), IndexOfKey(p, b, key);
    assert j >= 0 ==> KeyOf(p, b[j]) == key;
    assert k >= 0 ==> KeyOf(p, a[k]) == key;
  }

  /** Among emails of which none is the base of a copy of another, the suffix is the number of equal ones before. */
  lemma SuffixIsCount(target: int, prior: seq<string>, g: string)
    requires forall e :: e in prior ==> e != BaseOf(g, target) && g != BaseOf(e, target)
    ensures Suffix(target, prior, g) == multiset(prior)[g]
  {
    hide Took, BaseOf, IsBase, Stem;
    TookIsPrior(target, prior, BaseOf(g, target), 0);
    if IsBase(g, target) {
      StemIsInverse(Stem(g, target), g, target);
      TookIsPrior(target, prior, Stem(g, target), target);
    }
  }

  lemma {:induction false} TookIsPrior(target: int, prior: seq<string>, e: string, k: int)
    ensures Took(target, prior, e, k) ==> e in prior
    decreases |prior|
  {
    hide Suffix;
    if prior != [] { TookIsPrior(target, prior[..|prior| - 1], e, k); }
  }

  /** With a related email the count is not enough: two copies of `"x` to inbound 1 take both `"x_1` and `"x_1_1`, so
      that the first copy of `"x_1` becomes `"x_1_1_1`. */
  lemma RelatedMovesSuffix()
    ensures Suffix(1, ["\"x", "\"x"], "\"x_1") == 1 && multiset(["\"x", "\"x"])["\"x_1"] == 0
  {
    hide Took, Itoa, NatText;
    var e, g := "\"x", "\"x_1";
    assert BaseOf("", 1) == "_1" && BaseOf(e, 1) == e + "_1" && BaseOf(g, 1) == g + "_1" by { OneIsPrinted(); }
    hide BaseOf;
    SuffixIsCount(1, [e], e);
    assert [e, e][..1] == [e];
    TookLast(1, [e, e], e, 1);
    assert g[2..] == "_1" && g[..2] == e;
    assert ParentTook(1, [e, e], g);
    TookIsPrior(1, [e, e], BaseOf(g, 1), 0);
    assert |g + "_1"| == 6;
  }

  lemma OneIsPrinted()
    ensures Itoa(1) == "1"
  {}
}
