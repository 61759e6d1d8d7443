/** Lifetime traffic accounting over kernel counters that an interface bounce resets to zero. */
module Accounting {
  import opened Counters

  /** A client row, as far as accounting and enforcement go. */
  datatype Account = Account(
    id: int,
    key: string,
    enable: bool,
    upload: int,
    download: int,
    totalGB: int,
    allTime: int,
    lastPeerUp: int,
    lastPeerDown: int,
    expiryTime: int,
    reset: int,
    lastOnline: int,
    lastIP: string)

  /** One line of the interface's dump: cumulative counters since the peer was last configured. */
  datatype Peer = Peer(key: string, tx: int, rx: int, handshake: int, endpoint: string)

  // ---------- one poll ----------

  /** A counter below its baseline has been reset, and its value is the delta. */
  function Delta(now: int, last: int): int { if now - last < 0 then now else now - last }

  function LastColon(s: string): (i: int)
    ensures -1 <= i < |s|
  {
    if s == "" then -1 else if s[|s| - 1] == ':' then |s| - 1 else LastColon(s[..|s| - 1])
  }

  /** "1.2.3.4:51820" and "[::1]:51820" without port and brackets. */
  function EndpointIP(ep: string): string {
    var host := if LastColon(ep) > 0 then ep[..LastColon(ep)] else ep;
    var open := if host != "" && host[|host| - 1] == ']' then host[..|host| - 1] else host;
    if open != "" && open[0] == '[' then open[1..] else open
  }

  function Counted(c: Account, up: int, down: int): Account {
    if up == c.lastPeerUp && down == c.lastPeerDown then c
    else
      var du, dd := Delta(up, c.lastPeerUp), Delta(down, c.lastPeerDown);
      c.(upload := c.upload + du, download := c.download + dd, allTime := c.allTime + du + dd,
         lastPeerUp := up, lastPeerDown := down)
  }

  function Seen(c: Account, p: Peer): Account {
    var a := if p.handshake > 0 then c.(lastOnline := p.handshake * 1000) else c;
    if p.endpoint != "" && p.endpoint != "(none)" then a.(lastIP := EndpointIP(p.endpoint)) else a
  }

  /** The row for a key: the last one wins, as in a map filled in row order. */
  function RowOf(rows: seq<Account>, key: string): (i: int)
    ensures -1 <= i < |rows| && (i >= 0 ==> rows[i].key == key)
    ensures i < 0 ==> forall k :: 0 <= k < |rows| ==> rows[k].key != key
    ensures i >= 0 ==> forall k :: i < k < |rows| ==> rows[k].key != key
  {
    if rows == [] then -1
    else if rows[|rows| - 1].key == key then |rows| - 1
    else RowOf(rows[..|rows| - 1], key)
  }

  function PolledOne(rows: seq<Account>, p: Peer): (r: seq<Account>)
    ensures |r| == |rows| && forall i :: 0 <= i < |rows| ==> r[i].key == rows[i].key && r[i].id == rows[i].id
  {
    var i := RowOf(rows, p.key);
    if i < 0 then rows else rows[i := Seen(Counted(rows[i], p.tx, p.rx), p)]
  }

  function Polled(rows: seq<Account>, peers: seq<Peer>): (r: seq<Account>)
    ensures |r| == |rows| && forall i :: 0 <= i < |rows| ==> r[i].key == rows[i].key && r[i].id == rows[i].id
  {
    if peers == [] then rows else PolledOne(Polled(rows, peers[..|peers| - 1]), peers[|peers| - 1])
  }

  ghost predicate UniqueKeys(rows: seq<Account>) { forall i, j :: 0 <= i < j < |rows| ==> rows[i].key != rows[j].key }

  ghost predicate UniquePeers(peers: seq<Peer>) { forall i, j :: 0 <= i < j < |peers| ==> peers[i].key != peers[j].key }

  /** A poll counts each listed peer for its own row and leaves every other row alone. */
  lemma {:induction false} PollIsPerClient(rows: seq<Account>, peers: seq<Peer>, i: nat)
    requires UniqueKeys(rows) && UniquePeers(peers) && i < |rows|
    ensures forall j :: 0 <= j < |peers| && peers[j].key == rows[i].key ==>
      Polled(rows, peers)[i] == Seen(Counted(rows[i], peers[j].tx, peers[j].rx), peers[j])
    ensures (forall j :: 0 <= j < |peers| ==> peers[j].key != rows[i].key) ==> Polled(rows, peers)[i] == rows[i]
  {
    hide Seen, Counted, Polled;
    if peers == [] {
      assert Polled(rows, peers) == rows by { PolledNone(rows); }
    } else {
      var n := |peers| - 1;
      PolledLast(rows, peers);
      PollIsPerClient(rows, peers[..n], i);
      var before := Polled(rows, peers[..n]);
      var k := RowOf(before, peers[n].key);
      assert k >= 0 ==> before[k].key == rows[k].key;
      assert forall j :: 0 <= j < n ==> peers[..n][j] == peers[j];
    }
  }

  lemma PolledNone(rows: seq<Account>)
    ensures Polled(rows, []) == rows
  {}

  lemma PolledLast(rows: seq<Account>, peers: seq<Peer>)
    requires peers != []
    ensures Polled(rows, peers) == PolledOne(Polled(rows, peers[..|peers| - 1]), peers[|peers| - 1])
  {}

  /** What a poll makes of a listed row: each direction grows by the bytes since the baseline, or by the whole counter
      if it fell below it; both baselines are the counters read; a handshake is when the client was last online. */
  lemma PolledFields(rows: seq<Account>, peers: seq<Peer>, i: nat, j: nat)
    requires UniqueKeys(rows) && UniquePeers(peers) && i < |rows| && j < |peers| && peers[j].key == rows[i].key
    ensures var c, p, r := rows[i], peers[j], Polled(rows, peers)[i];
            && r.upload - c.upload == (if p.tx >= c.lastPeerUp then p.tx - c.lastPeerUp else p.tx)
            && r.download - c.download == (if p.rx >= c.lastPeerDown then p.rx - c.lastPeerDown else p.rx)
            && r.allTime - c.allTime == r.upload - c.upload + r.download - c.download
            && r.lastPeerUp == p.tx && r.lastPeerDown == p.rx
            && r.lastOnline == (if p.handshake > 0 then p.handshake * 1000 else c.lastOnline)
            && r.lastIP == (if p.endpoint == "" || p.endpoint == "(none)" then c.lastIP else EndpointIP(p.endpoint))
            && r == c.(upload := r.upload, download := r.download, allTime := r.allTime, lastPeerUp := r.lastPeerUp,
                       lastPeerDown := r.lastPeerDown, lastOnline := r.lastOnline, lastIP := r.lastIP)
  {
    hide EndpointIP, Polled;
    PollIsPerClient(rows, peers, i);
  }

  lemma {:induction false} LastColonAt(a: string, b: string)
    requires ':' !in b
    ensures LastColon(a + ":" + b) == |a|
  {
    if b != "" {
      var s := a + ":" + b;
      assert s[..|s| - 1] == a + ":" + b[..|b| - 1];
      LastColonAt(a, b[..|b| - 1]);
    } else {
      assert a + ":" + b == a + ":";
    }
  }

  /** The address of an endpoint, without its port and without the brackets of an IPv6 address. */
  lemma EndpointIsRead(host: string, port: string)
    requires host != "" && ':' !in port && host[0] != '[' && host[|host| - 1] != ']'
    ensures EndpointIP(host + ":" + port) == EndpointIP("[" + host + "]:" + port) == host
  {
    BareHostIsRead(host, port);
    BracketedHostIsRead(host, port);
  }

  lemma BareHostIsRead(host: string, port: string)
    requires host != "" && ':' !in port && host[0] != '[' && host[|host| - 1] != ']'
    ensures EndpointIP(host + ":" + port) == host
  {
    LastColonAt(host, port);
    hide LastColon;
    assert (host + ":" + port)[..|host|] == host;
  }

  lemma BracketedHostIsRead(host: string, port: string)
    requires ':' !in port
    ensures EndpointIP("[" + host + "]:" + port) == host
  {
    var b := "[" + host + "]";
    LastColonAt(b, port);
    hide LastColon;
    assert "[" + host + "]:" + port == b + ":" + port && (b + ":" + port)[..|b|] == b;
    assert b[..|b| - 1] == "[" + host && ("[" + host)[1..] == host;
  }

  // ---------- one client over time ----------

  /** The row and the kernel's counters for its peer, with their history: what the peer carried, what of it the row has
      grown by (counted since the last reset of its traffic), what still waits in the kernel, and what no poll will ever
      count. */
  datatype State = State(row: Account, kernel: Counter, bounced: bool, counted: Counter,
                         carried: Counter, grown: Counter, waiting: Counter, lost: Counter)

  /** Renew stands for the enforcement pass, whatever it sets besides the counters; Absent for a poll whose dump does
      not list the peer. */
  datatype Step =
    | Carry(bytes: Counter)
    | Bounce
    | Poll(handshake: int, endpoint: string)
    | Absent
    | ResetTraffic
    | Renew(expiryTime: int)
    | Toggle(enable: bool)

  predicate Enabled(step: Step) { step.Carry? ==> step.bytes.up >= 0 && step.bytes.down >= 0 }

  function Base(c: Account): Counter { Counter(c.lastPeerUp, c.lastPeerDown) }

  function Growth(s: State): Counter {
    Counter(Delta(s.kernel.up, s.row.lastPeerUp), Delta(s.kernel.down, s.row.lastPeerDown))
  }

  function Next(s: State, step: Step): State {
    match step
    case Carry(b) => s.(kernel := Add(s.kernel, b), carried := Add(s.carried, b), waiting := Add(s.waiting, b))
    case Bounce => s.(kernel := ZERO, bounced := true, waiting := ZERO, lost := Add(s.lost, s.waiting))
    case Poll(handshake, endpoint) =>
      var p := Peer(s.row.key, s.kernel.up, s.kernel.down, handshake, endpoint);
      s.(row := Seen(Counted(s.row, p.tx, p.rx), p), bounced := false, counted := Add(s.counted, Growth(s)),
         grown := Add(s.grown, Growth(s)), waiting := ZERO,
         lost := Add(s.lost, Counter(s.waiting.up - Growth(s).up, s.waiting.down - Growth(s).down)))
    case Absent => s
    case ResetTraffic => s.(row := s.row.(upload := 0, download := 0), counted := ZERO)
    case Renew(expiry) =>
      s.(row := s.row.(expiryTime := expiry, upload := 0, download := 0, enable := true), counted := ZERO)
    case Toggle(enable) => s.(row := s.row.(enable := enable))
  }

  /** A new client: no baseline, no counter. */
  predicate Begins(s: State) {
    s.kernel == ZERO && Base(s.row) == ZERO && !s.bounced && s.counted == Counter(s.row.upload, s.row.download)
    && s.carried == ZERO && s.grown == ZERO && s.waiting == ZERO && s.lost == ZERO
  }

  /** The kernel's counter is the baseline plus what waits, or after a bounce just what waits. */
  predicate Balanced(kernel: int, last: int, waiting: int, bounced: bool) {
    last >= 0 && waiting >= 0 && kernel == if bounced then waiting else last + waiting
  }

  predicate Conserved(carried: int, grown: int, waiting: int, lost: int) {
    grown >= 0 && lost >= 0 && carried == grown + waiting + lost
  }

  predicate Inv(s: State, start: int) {
    Balanced(s.kernel.up, s.row.lastPeerUp, s.waiting.up, s.bounced)
    && Balanced(s.kernel.down, s.row.lastPeerDown, s.waiting.down, s.bounced)
    && Conserved(s.carried.up, s.grown.up, s.waiting.up, s.lost.up)
    && Conserved(s.carried.down, s.grown.down, s.waiting.down, s.lost.down)
    && s.row.allTime == start + s.grown.up + s.grown.down
    && s.row.upload == s.counted.up && s.row.download == s.counted.down
  }

  lemma NextKeepsInv(s: State, step: Step, start: int)
    requires Inv(s, start) && Enabled(step)
    ensures Inv(Next(s, step), start)
  {
    hide EndpointIP;
  }

  ghost predicate IsRun(states: seq<State>, steps: seq<Step>) {
    |states| == |steps| + 1 && Begins(states[0])
    && forall i :: 0 <= i < |steps| ==> Enabled(steps[i]) && states[i + 1] == Next(states[i], steps[i])
  }

  lemma {:induction false} RunKeepsInv(states: seq<State>, steps: seq<Step>, n: nat)
    requires IsRun(states, steps) && n <= |steps|
    ensures Inv(states[n], states[0].row.allTime)
  {
    hide Next, Enabled, Inv;
    if n == 0 {
      BeginsInv(states[0]);
    } else {
      RunKeepsInv(states, steps, n - 1);
      NextKeepsInv(states[n - 1], steps[n - 1], states[0].row.allTime);
    }
  }

  lemma BeginsInv(s: State)
    requires Begins(s)
    ensures Inv(s, s.row.allTime)
  {}

  /** Bounce-proof: over every run, all_time grows by at most what the peer carried, and by exactly what was counted;
      upload and download are what was counted since the last reset. */
  lemma NeverOverCounted(states: seq<State>, steps: seq<Step>)
    requires IsRun(states, steps)
    ensures var s := states[|steps|];
            0 <= s.row.allTime - states[0].row.allTime <= s.carried.up + s.carried.down
            && s.grown.up <= s.carried.up && s.grown.down <= s.carried.down
            && s.row.allTime - states[0].row.allTime == s.grown.up + s.grown.down
            && Counter(s.row.upload, s.row.download) == s.counted
  {
    RunKeepsInv(states, steps, |steps|);
  }

  /** A step that loses nothing upward, told from the kernel's counter and the stored baseline: a bounce that finds the
      counter where the last poll left it (at zero, if it bounced before and nothing flowed since), and a poll that
      after a bounce reads below the old baseline or has baseline 0. */
  predicate CleanUp(s: State, step: Step) {
    (step.Bounce? ==> s.kernel.up == if s.bounced then 0 else s.row.lastPeerUp)
    && (step.Poll? && s.bounced ==> s.kernel.up < s.row.lastPeerUp || s.row.lastPeerUp == 0)
  }

  predicate CleanDown(s: State, step: Step) {
    (step.Bounce? ==> s.kernel.down == if s.bounced then 0 else s.row.lastPeerDown)
    && (step.Poll? && s.bounced ==> s.kernel.down < s.row.lastPeerDown || s.row.lastPeerDown == 0)
  }

  lemma StepLoses(s: State, step: Step, start: int)
    requires Inv(s, start) && Enabled(step)
    ensures Next(s, step).lost.up >= s.lost.up && Next(s, step).lost.down >= s.lost.down
    ensures Next(s, step).lost.up == s.lost.up <==> CleanUp(s, step)
    ensures Next(s, step).lost.down == s.lost.down <==> CleanDown(s, step)
  {}

  lemma {:induction false} NothingLost(states: seq<State>, steps: seq<Step>, n: nat)
    requires IsRun(states, steps) && n <= |steps|
    ensures states[n].lost.up == 0 <==> forall i :: 0 <= i < n ==> CleanUp(states[i], steps[i])
    ensures states[n].lost.down == 0 <==> forall i :: 0 <= i < n ==> CleanDown(states[i], steps[i])
  {
    hide Next, Enabled, Inv, CleanUp, CleanDown;
    if n > 0 {
      NothingLost(states, steps, n - 1);
      RunKeepsInv(states, steps, n - 1);
      RunKeepsInv(states, steps, n);
      StepLoses(states[n - 1], steps[n - 1], states[0].row.allTime);
      LostIsNatural(states[n - 1], states[0].row.allTime);
    }
  }

  lemma LostIsNatural(s: State, start: int)
    requires Inv(s, start)
    ensures s.lost.up >= 0 && s.lost.down >= 0
  {}

  /** In each direction the growth is exact, but for what still waits in the kernel, if and only if every step of the
      run was clean. */
  lemma ExactIffClean(states: seq<State>, steps: seq<Step>)
    requires IsRun(states, steps)
    ensures var s := states[|steps|];
            && (s.grown.up == s.carried.up - s.waiting.up
                <==> forall i :: 0 <= i < |steps| ==> CleanUp(states[i], steps[i]))
            && (s.grown.down == s.carried.down - s.waiting.down
                <==> forall i :: 0 <= i < |steps| ==> CleanDown(states[i], steps[i]))
  {
    hide Next, CleanUp, CleanDown;
    RunKeepsInv(states, steps, |steps|);
    NothingLost(states, steps, |steps|);
  }

  /** Every bounce directly follows a poll, or nothing at all. */
  ghost predicate BouncesFollowPolls(steps: seq<Step>) {
    forall i :: 0 <= i < |steps| && steps[i].Bounce? ==> i == 0 || steps[i - 1].Poll?
  }

  /** The first poll after a bounce reads below the old baselines, or these are 0. */
  ghost predicate PollsReadBelow(states: seq<State>, steps: seq<Step>)
    requires |states| == |steps| + 1
  {
    forall i :: 0 <= i < |steps| && steps[i].Poll? && states[i].bounced ==>
      (states[i].kernel.up < states[i].row.lastPeerUp || states[i].row.lastPeerUp == 0)
      && (states[i].kernel.down < states[i].row.lastPeerDown || states[i].row.lastPeerDown == 0)
  }

  lemma BounceAfterPollIsClean(states: seq<State>, steps: seq<Step>, i: nat)
    requires IsRun(states, steps) && BouncesFollowPolls(steps) && i < |steps| && steps[i].Bounce?
    ensures CleanUp(states[i], steps[i]) && CleanDown(states[i], steps[i])
  {
    hide Seen;
    if i > 0 {
      assert states[i] == Next(states[i - 1], steps[i - 1]);
      SeenKeepsBaseline(Counted(states[i - 1].row, states[i - 1].kernel.up, states[i - 1].kernel.down),
        Peer(states[i - 1].row.key, states[i - 1].kernel.up, states[i - 1].kernel.down, steps[i - 1].handshake,
             steps[i - 1].endpoint));
    }
  }

  lemma SeenKeepsBaseline(c: Account, p: Peer)
    ensures Base(Seen(c, p)) == Base(c)
  {}

  /** Exact over whole runs: when every bounce directly follows a poll and the next poll reads below the old baselines
      or these are 0, all_time grows by exactly what the peer carried, but for what still waits in the kernel. */
  lemma ExactWhenBouncesFollowPolls(states: seq<State>, steps: seq<Step>)
    requires IsRun(states, steps) && BouncesFollowPolls(steps) && PollsReadBelow(states, steps)
    ensures var s := states[|steps|];
            s.row.allTime - states[0].row.allTime == s.carried.up + s.carried.down - s.waiting.up - s.waiting.down
            && s.grown.up == s.carried.up - s.waiting.up && s.grown.down == s.carried.down - s.waiting.down
  {
    hide Next;
    forall i | 0 <= i < |steps| ensures CleanUp(states[i], steps[i]) && CleanDown(states[i], steps[i]) {
      if steps[i].Bounce? { BounceAfterPollIsClean(states, steps, i); }
    }
    hide CleanUp, CleanDown;
    ExactIffClean(states, steps);
    NeverOverCounted(states, steps);
  }
}
