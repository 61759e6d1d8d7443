/** Renewal, delayed start and disabling of client rows, in the order the services run them. */
module Enforcement {
  import opened Accounting

  const DAY_MS := 86400000

  predicate OverQuota(c: Account) { c.totalGB > 0 && c.upload + c.download >= c.totalGB }

  predicate Expired(c: Account, now: int) { c.expiryTime > 0 && c.expiryTime <= now }

  // ---------- what each pass does to a row ----------

  predicate IsDue(c: Account, now: int) { c.reset > 0 && Expired(c, now) }

  /** The first instant after now that lies a whole number of periods after e. */
  function NextExpiry(e: int, period: int, now: int): int
    requires period > 0
    decreases now - e
  {
    if e > now then e else NextExpiry(e + period, period, now)
  }

  function Renewed(c: Account, now: int): Account {
    if IsDue(c, now)
    then c.(expiryTime := NextExpiry(c.expiryTime, c.reset * DAY_MS, now), upload := 0, download := 0, enable := true)
    else c
  }

  /** A negative expiry is a lifetime that starts with the first traffic. */
  function Activated(c: Account, now: int): Account {
    if c.enable && c.expiryTime < 0 && (c.upload > 0 || c.download > 0) then c.(expiryTime := now - c.expiryTime) else c
  }

  function Checked(c: Account, now: int): Account {
    if c.enable && (OverQuota(c) || Expired(c, now)) then c.(enable := false) else c
  }

  function Enforced(c: Account, now: int): Account { Checked(Activated(Renewed(c, now), now), now) }

  /** The MTProto service has no delayed start. */
  function EnforcedMtproto(c: Account, now: int): Account { Checked(Renewed(c, now), now) }

  // ---------- what the passes achieve ----------

  lemma {:induction false} NextExpiryIsLeast(e: int, period: int, now: int)
    requires period > 0
    ensures NextExpiry(e, period, now) > now
    ensures exists k: nat :: NextExpiry(e, period, now) == e + k * period
    ensures e <= now ==> NextExpiry(e, period, now) - period <= now
    decreases now - e
  {
    if e > now {
      assert NextExpiry(e, period, now) == e + 0 * period;
    } else {
      NextExpiryIsLeast(e + period, period, now);
      var k: nat :| NextExpiry(e + period, period, now) == e + period + k * period;
      assert NextExpiry(e, period, now) == e + (k + 1) * period;
    }
  }

  /** Of all later instants on the grid of periods it is the first. */
  lemma {:induction false} FirstOnTheGrid(e: int, period: int, now: int, k: nat)
    requires period > 0 && e + k * period > now
    ensures NextExpiry(e, period, now) <= e + k * period
    decreases k
  {
    if e > now {
      assert k * period >= 0;
    } else {
      assert k > 0;
      assert e + k * period == (e + period) + (k - 1) * period;
      if e + period <= now {
        FirstOnTheGrid(e + period, period, now, k - 1);
      } else {
        assert (k - 1) * period >= 0;
      }
    }
  }

  /** After a pass no enabled client is over its quota or expired. */
  lemma NoneOverTheLimit(c: Account, now: int)
    ensures Enforced(c, now).enable ==> !OverQuota(Enforced(c, now)) && !Expired(Enforced(c, now), now)
    ensures EnforcedMtproto(c, now).enable ==>
              !OverQuota(EnforcedMtproto(c, now)) && !Expired(EnforcedMtproto(c, now), now)
  {}

  /** A due client is renewed: it ends enabled, with zeroed traffic and the least expiry on its grid after now. */
  lemma RenewedEndsEnabled(c: Account, now: int)
    requires IsDue(c, now)
    ensures var r := Enforced(c, now);
            r == EnforcedMtproto(c, now)
            && r.enable && r.upload == 0 && r.download == 0 && r.expiryTime > now
            && r.expiryTime - c.reset * DAY_MS <= now
            && exists k: nat :: r.expiryTime == c.expiryTime + k * (c.reset * DAY_MS)
  {
    NextExpiryIsLeast(c.expiryTime, c.reset * DAY_MS, now);
  }

  /** At the same instant a second pass changes nothing; the clock stands after the epoch. */
  lemma SecondPassIsIdle(c: Account, now: int)
    requires now >= 0
    ensures Enforced(Enforced(c, now), now) == Enforced(c, now)
    ensures EnforcedMtproto(EnforcedMtproto(c, now), now) == EnforcedMtproto(c, now)
  {
    if IsDue(c, now) { NextExpiryIsLeast(c.expiryTime, c.reset * DAY_MS, now); }
  }

  /** Who is enabled after a pass: due clients, and those that were enabled within their limits. */
  lemma EnabledAfterwards(c: Account, now: int)
    ensures Enforced(c, now).enable <==> IsDue(c, now) || (c.enable && !OverQuota(c) && !Expired(c, now))
    ensures EnforcedMtproto(c, now).enable <==> IsDue(c, now) || (c.enable && !OverQuota(c) && !Expired(c, now))
  {
    if IsDue(c, now) { NextExpiryIsLeast(c.expiryTime, c.reset * DAY_MS, now); }
  }

  /** A pass touches nothing but flag, expiry and traffic, and the traffic only of due clients. */
  lemma OtherFieldsKept(c: Account, now: int)
    ensures var r := Enforced(c, now);
            r == c.(enable := r.enable, expiryTime := r.expiryTime, upload := r.upload, download := r.download)
            && (!IsDue(c, now) ==> r.upload == c.upload && r.download == c.download)
    ensures var r := EnforcedMtproto(c, now);
            r == c.(enable := r.enable, expiryTime := r.expiryTime, upload := r.upload, download := r.download)
            && (!IsDue(c, now) ==> r.upload == c.upload && r.download == c.download && r.expiryTime == c.expiryTime)
  {}

  /** Delayed start: a lifetime, stored as a negative expiry, turns into the instant that far after now with the first
      pass that sees the client enabled with traffic; until then it stays. */
  lemma LifetimeStarts(c: Account, now: int)
    requires c.expiryTime < 0
    ensures var lifetime, r := -c.expiryTime, Enforced(c, now);
            r.expiryTime == if c.enable && (c.upload > 0 || c.download > 0) then now + lifetime else -lifetime
    ensures EnforcedMtproto(c, now).expiryTime == c.expiryTime
  {}

  /** An expiry that is already an instant, or none, moves only by a renewal. */
  lemma InstantsStay(c: Account, now: int)
    requires c.expiryTime >= 0 && !IsDue(c, now)
    ensures Enforced(c, now).expiryTime == c.expiryTime
  {}

  // ---------- the tables ----------

  function RenewedAll(rows: seq<Account>, now: int): (r: seq<Account>)
    ensures |r| == |rows| && forall i :: 0 <= i < |rows| ==> r[i] == Renewed(rows[i], now)
  {
    seq(|rows|, i requires 0 <= i < |rows| => Renewed(rows[i], now))
  }

  function ActivatedAll(rows: seq<Account>, now: int): (r: seq<Account>)
    ensures |r| == |rows| && forall i :: 0 <= i < |rows| ==> r[i] == Activated(rows[i], now)
  {
    seq(|rows|, i requires 0 <= i < |rows| => Activated(rows[i], now))
  }

  function CheckedAll(rows: seq<Account>, now: int): (r: seq<Account>)
    ensures |r| == |rows| && forall i :: 0 <= i < |rows| ==> r[i] == Checked(rows[i], now)
  {
    seq(|rows|, i requires 0 <= i < |rows| => Checked(rows[i], now))
  }

  /** Some row's enable flag differs. */
  predicate FlagChanged(before: seq<Account>, after: seq<Account>)
    requires |before| == |after|
  {
    exists i :: 0 <= i < |before| && before[i].enable != after[i].enable
  }

  // ---------- MTProto deltas ----------

  datatype Usage = Usage(key: string, up: int, down: int, lastSeen: int)

  function Credited(c: Account, d: Usage, now: int): Account {
    var a := if d.up > 0 || d.down > 0
             then c.(upload := c.upload + d.up, download := c.download + d.down, allTime := c.allTime + (d.up + d.down))
             else c;
    var seen := if (d.up > 0 || d.down > 0) && d.lastSeen < now then now else d.lastSeen;
    if seen > 0 then a.(lastOnline := seen) else a
  }

  /** Every row with the delta's key is credited; a delta without a key is dropped. */
  function CreditedOne(rows: seq<Account>, d: Usage, now: int): (r: seq<Account>)
    ensures |r| == |rows|
    ensures forall i :: 0 <= i < |rows| ==>
              r[i] == if d.key != "" && rows[i].key == d.key then Credited(rows[i], d, now) else rows[i]
  {
    seq(|rows|, i requires 0 <= i < |rows| =>
      if d.key != "" && rows[i].key == d.key then Credited(rows[i], d, now) else rows[i])
  }

  function CreditedAll(rows: seq<Account>, deltas: seq<Usage>, now: int): (r: seq<Account>)
    ensures |r| == |rows|
    ensures forall i :: 0 <= i < |rows| ==>
      r[i].key == rows[i].key && r[i].enable == rows[i].enable && r[i].expiryTime == rows[i].expiryTime
  {
    if deltas == [] then rows
    else CreditedOne(CreditedAll(rows, deltas[..|deltas| - 1], now), deltas[|deltas| - 1], now)
  }

  function UpFor(deltas: seq<Usage>, key: string): int {
    if deltas == [] then 0
    else UpFor(deltas[..|deltas| - 1], key) + (if deltas[|deltas| - 1].key == key then deltas[|deltas| - 1].up else 0)
  }

  function DownFor(deltas: seq<Usage>, key: string): int {
    if deltas == [] then 0
    else
      DownFor(deltas[..|deltas| - 1], key) + (if deltas[|deltas| - 1].key == key then deltas[|deltas| - 1].down else 0)
  }

  /** The collector never reports a negative number of bytes. */
  predicate NonNegative(deltas: seq<Usage>) {
    forall k :: 0 <= k < |deltas| ==> deltas[k].up >= 0 && deltas[k].down >= 0
  }

  /** A client's traffic and its lifetime total grow by exactly the deltas recorded for it; a row without a key, and
      every field but these and the time it was last online, stays as it was. */
  lemma {:induction false} RecordedExactly(rows: seq<Account>, deltas: seq<Usage>, now: int, i: nat)
    requires i < |rows| && NonNegative(deltas)
    ensures var c, r := rows[i], CreditedAll(rows, deltas, now)[i];
            var up, down := UpFor(deltas, c.key), DownFor(deltas, c.key);
            && up >= 0 && down >= 0
            && (c.key != "" ==> r.upload == c.upload + up && r.download == c.download + down
                                && r.allTime == c.allTime + up + down)
            && (c.key == "" ==> r == c)
            && r == c.(upload := r.upload, download := r.download, allTime := r.allTime, lastOnline := r.lastOnline)
  {
    if deltas != [] {
      hide CreditedAll;
      RecordedExactly(rows, deltas[..|deltas| - 1], now, i);
      CreditedAllLast(rows, deltas, now);
    } else {
      assert CreditedAll(rows, deltas, now) == rows;
    }
  }

  lemma CreditedAllLast(rows: seq<Account>, deltas: seq<Usage>, now: int)
    requires deltas != []
    ensures var n := |deltas| - 1;
            CreditedAll(rows, deltas, now) == CreditedOne(CreditedAll(rows, deltas[..n], now), deltas[n], now)
  {}

  /** Over its quota once the deltas are recorded. */
  predicate ReachesQuota(c: Account, deltas: seq<Usage>) {
    c.totalGB > 0
    && c.upload + c.download + (if c.key == "" then 0 else UpFor(deltas, c.key) + DownFor(deltas, c.key)) >= c.totalGB
  }

  /** Who is enabled after recording, told from the table before: due clients, and those that were enabled, are not
      expired and do not reach their quota with what was recorded. */
  lemma EnabledAfterRecording(rows: seq<Account>, deltas: seq<Usage>, now: int, i: nat)
    requires i < |rows| && NonNegative(deltas)
    ensures EnforcedMtproto(CreditedAll(rows, deltas, now)[i], now).enable
            <==> IsDue(rows[i], now)
                 || (rows[i].enable && !ReachesQuota(rows[i], deltas) && !Expired(rows[i], now))
  {
    hide EnforcedMtproto, UpFor, DownFor, CreditedAll;
    RecordedExactly(rows, deltas, now, i);
    EnabledAfterwards(CreditedAll(rows, deltas, now)[i], now);
  }

  // ---------- flags and the served set ----------

  /** Whom the sidecar serves: enabled and not expired. */
  predicate Active(c: Account, now: int) { c.enable && !Expired(c, now) }

  /** Some client entered or left the served set. */
  predicate ServedChanged(before: seq<Account>, after: seq<Account>, now: int)
    requires |before| == |after|
  {
    exists i :: 0 <= i < |before| && Active(before[i], now) != Active(after[i], now)
  }

  /** Rows whose enable flag the MTProto pass flips: disabled due ones, and enabled ones over a limit that are not
      due. */
  predicate FlagFlips(c: Account, now: int) {
    if IsDue(c, now) then !c.enable else c.enable && (OverQuota(c) || Expired(c, now))
  }

  /** Rows that enter or leave the served set: due ones, and enabled unexpired ones over their quota. */
  predicate ServiceFlips(c: Account, now: int) {
    IsDue(c, now) || (c.enable && !Expired(c, now) && OverQuota(c))
  }

  predicate SomeFlagFlips(rows: seq<Account>, now: int) { exists i :: 0 <= i < |rows| && FlagFlips(rows[i], now) }

  predicate SomeServiceFlips(rows: seq<Account>, now: int) { exists i :: 0 <= i < |rows| && ServiceFlips(rows[i], now) }

  lemma FlipsAreExact(c: Account, now: int)
    ensures FlagFlips(c, now) <==> EnforcedMtproto(c, now).enable != c.enable
    ensures ServiceFlips(c, now) <==> Active(EnforcedMtproto(c, now), now) != Active(c, now)
  {
    if IsDue(c, now) { NextExpiryIsLeast(c.expiryTime, c.reset * DAY_MS, now); }
  }

  /** The pass as a whole, for the table before the deltas were credited. */
  lemma TableFlips(before: seq<Account>, rows: seq<Account>, after: seq<Account>, now: int)
    requires |before| == |rows| == |after|
    requires forall i :: 0 <= i < |rows| ==>
               before[i].enable == rows[i].enable && before[i].expiryTime == rows[i].expiryTime
    requires forall i :: 0 <= i < |rows| ==> after[i] == EnforcedMtproto(rows[i], now)
    ensures FlagChanged(before, after) <==> SomeFlagFlips(rows, now)
    ensures ServedChanged(before, after, now) <==> SomeServiceFlips(rows, now)
  {
    hide FlagFlips, ServiceFlips, EnforcedMtproto;
    forall i | 0 <= i < |rows|
      ensures FlagFlips(rows[i], now) <==> before[i].enable != after[i].enable
      ensures ServiceFlips(rows[i], now) <==> Active(before[i], now) != Active(after[i], now)
    {
      FlipsAreExact(rows[i], now);
    }
  }

  /** The answer misses a change of the served set: no flag flips, but a client is renewed while still enabled. */
  predicate Misses(rows: seq<Account>, now: int) {
    !SomeFlagFlips(rows, now) && exists i :: 0 <= i < |rows| && IsDue(rows[i], now) && rows[i].enable
  }

  /** The answer reports a change that is none: nobody is due or newly over quota, but an expired client is disabled. */
  predicate Overstates(rows: seq<Account>, now: int) {
    !SomeServiceFlips(rows, now)
    && exists i :: 0 <= i < |rows| && rows[i].enable && Expired(rows[i], now) && !IsDue(rows[i], now)
  }

  /** Over a whole table the answer about flags differs from a change of the served set in exactly these two cases. */
  lemma FlagVersusServedSet(before: seq<Account>, rows: seq<Account>, after: seq<Account>, now: int)
    requires |before| == |rows| == |after|
    requires forall i :: 0 <= i < |rows| ==>
               before[i].enable == rows[i].enable && before[i].expiryTime == rows[i].expiryTime
    requires forall i :: 0 <= i < |rows| ==> after[i] == EnforcedMtproto(rows[i], now)
    ensures !FlagChanged(before, after) && ServedChanged(before, after, now) <==> Misses(rows, now)
    ensures FlagChanged(before, after) && !ServedChanged(before, after, now) <==> Overstates(rows, now)
  {
    TableFlips(before, rows, after, now);
    hide EnforcedMtproto, FlagChanged, ServedChanged;
    if Misses(rows, now) {
      var i :| 0 <= i < |rows| && IsDue(rows[i], now) && rows[i].enable;
      assert ServiceFlips(rows[i], now);
    }
    if Overstates(rows, now) {
      var i :| 0 <= i < |rows| && rows[i].enable && Expired(rows[i], now) && !IsDue(rows[i], now);
      assert FlagFlips(rows[i], now);
    }
    if !SomeFlagFlips(rows, now) && SomeServiceFlips(rows, now) {
      var i :| 0 <= i < |rows| && ServiceFlips(rows[i], now);
      assert !FlagFlips(rows[i], now);
    }
    if SomeFlagFlips(rows, now) && !SomeServiceFlips(rows, now) {
      var i :| 0 <= i < |rows| && FlagFlips(rows[i], now);
      assert !ServiceFlips(rows[i], now);
    }
  }

  /** Both cases occur: a client that expired a moment ago and is renewed while enabled, and one that is not renewed. */
  lemma AnswerCanMislead()
    ensures var due := Account(1, "u", true, 0, 0, 0, 0, 0, 0, 5, 1, 0, "");
            && !FlagChanged([due], [EnforcedMtproto(due, 6)]) && ServedChanged([due], [EnforcedMtproto(due, 6)], 6)
            && Misses([due], 6)
    ensures var late := Account(1, "u", true, 0, 0, 0, 0, 0, 0, 5, 0, 0, "");
            && FlagChanged([late], [EnforcedMtproto(late, 6)]) && !ServedChanged([late], [EnforcedMtproto(late, 6)], 6)
            && Overstates([late], 6)
  {
    var due, late := Account(1, "u", true, 0, 0, 0, 0, 0, 0, 5, 1, 0, ""),
      Account(1, "u", true, 0, 0, 0, 0, 0, 0, 5, 0, 0, "");
    assert IsDue([due][0], 6) && [due][0].enable;
    assert [late][0].enable && Expired([late][0], 6) && !IsDue([late][0], 6);
    FlagVersusServedSet([due], [due], [EnforcedMtproto(due, 6)], 6);
    FlagVersusServedSet([late], [late], [EnforcedMtproto(late, 6)], 6);
  }

  // ---------- the object ----------

  /** A client table whose rows the services update in place. */
  class Table {
    var rows: seq<Account>

    constructor (rows: seq<Account>)
      ensures this.rows == rows
    {
      this.rows := rows;
    }

    method UpdateCounters(peers: seq<Peer>)
      modifies this
      ensures rows == Polled(old(rows), peers)
    {
      hide Polled, PolledOne;
      ghost var before := rows;
      PolledNone(rows);
      assert peers[..0] == [];
      for j := 0 to |peers|
        invariant rows == Polled(before, peers[..j])
      {
        PolledLast(before, peers[..j + 1]);
        assert peers[..j + 1][..j] == peers[..j];
        UpdateCounter(peers[j]);
      }
      assert peers[..|peers|] == peers;
    }

    /** The body of the loop over the dump. */
    method UpdateCounter(peer: Peer)
      modifies this
      ensures rows == PolledOne(old(rows), peer)
    {
      hide EndpointIP;
      var i := RowOf(rows, peer.key);
      if i < 0 {
        return;
      }
      var client := rows[i];
      if peer.tx != client.lastPeerUp || peer.rx != client.lastPeerDown {
        var deltaUp := peer.tx - client.lastPeerUp;
        if deltaUp < 0 {
          deltaUp := peer.tx;
        }
        var deltaDown := peer.rx - client.lastPeerDown;
        if deltaDown < 0 {
          deltaDown := peer.rx;
        }
        client := client.(upload := client.upload + deltaUp, download := client.download + deltaDown,
                          allTime := client.allTime + deltaUp + deltaDown,
                          lastPeerUp := peer.tx, lastPeerDown := peer.rx);
      }
      assert client == Counted(rows[i], peer.tx, peer.rx);
      if peer.handshake > 0 {
        client := client.(lastOnline := peer.handshake * 1000);
      }
      if peer.endpoint != "" && peer.endpoint != "(none)" {
        client := client.(lastIP := EndpointIP(peer.endpoint));
      }
      rows := rows[i := client];
    }

    method AutoRenew(now: int) returns (needReconfig: bool)
      modifies this
      ensures rows == RenewedAll(old(rows), now)
      ensures needReconfig <==> FlagChanged(old(rows), rows)
    {
      ghost var before := rows;
      needReconfig := false;
      for i := 0 to |rows|
        invariant |rows| == |before|
        invariant forall k :: 0 <= k < i ==> rows[k] == Renewed(before[k], now)
        invariant forall k :: i <= k < |rows| ==> rows[k] == before[k]
        invariant needReconfig <==> exists k :: 0 <= k < i && before[k].enable != rows[k].enable
      {
        var c := rows[i];
        if c.reset > 0 && c.expiryTime > 0 && c.expiryTime <= now {
          var newExpiry := RenewalExpiry(c, now);
          if !c.enable {
            needReconfig := true;
          }
          rows := rows[i := c.(expiryTime := newExpiry, upload := 0, download := 0, enable := true)];
        }
      }
    }

    method AdjustDelayedStart(now: int)
      modifies this
      ensures rows == ActivatedAll(old(rows), now)
    {
      ghost var before := rows;
      for i := 0 to |rows|
        invariant |rows| == |before|
        invariant forall k :: 0 <= k < |rows| ==> rows[k] == if k < i then Activated(before[k], now) else before[k]
      {
        var c := rows[i];
        if c.enable && c.expiryTime < 0 && (c.upload > 0 || c.download > 0) {
          rows := rows[i := c.(expiryTime := now + (-c.expiryTime))];
        }
      }
    }

    method DisableInvalid(now: int) returns (any: bool)
      modifies this
      ensures rows == CheckedAll(old(rows), now)
      ensures any <==> FlagChanged(old(rows), rows)
    {
      ghost var before := rows;
      any := false;
      for i := 0 to |rows|
        invariant |rows| == |before|
        invariant forall k :: 0 <= k < i ==> rows[k] == Checked(before[k], now)
        invariant forall k :: i <= k < |rows| ==> rows[k] == before[k]
        invariant any <==> exists k :: 0 <= k < i && before[k].enable != rows[k].enable
      {
        var c := rows[i];
        if c.enable && ((c.totalGB > 0 && c.upload + c.download >= c.totalGB)
                        || (c.expiryTime > 0 && c.expiryTime <= now)) {
          rows := rows[i := c.(enable := false)];
          any := true;
        }
      }
    }

    /** UpdateTrafficStats of a running AmneziaWG or WireGuard server: the answer says whether the config is
        reapplied. */
    method UpdateTrafficStats(peers: seq<Peer>, now: int) returns (needReconfig: bool)
      modifies this
      ensures |rows| == |old(rows)|
      ensures forall i :: 0 <= i < |rows| ==> rows[i] == Enforced(Polled(old(rows), peers)[i], now)
      ensures needReconfig <==> FlagChanged(Polled(old(rows), peers), rows)
    {
      hide Polled, Renewed, Activated, Checked;
      UpdateCounters(peers);
      ghost var polled := rows;
      needReconfig := AutoRenew(now);
      ghost var renewed := rows;
      AdjustDelayedStart(now);
      ghost var activated := rows;
      var disabled := DisableInvalid(now);
      ActivationKeepsFlags(renewed, now);
      FlagsAddUp(polled, now);
      needReconfig := needReconfig || disabled;
    }

    /** RecordTraffic of the MTProto service: the answer is about flags, and where that is not whether the served set
        changed is told from the credited rows alone. */
    method RecordTraffic(deltas: seq<Usage>, now: int) returns (changed: bool)
      modifies this
      ensures |rows| == |old(rows)|
      ensures forall i :: 0 <= i < |rows| ==> rows[i] == EnforcedMtproto(CreditedAll(old(rows), deltas, now)[i], now)
      ensures changed <==> FlagChanged(old(rows), rows)
      ensures NonNegative(deltas) ==>
                forall i :: 0 <= i < |rows| ==> RecordedRow(old(rows)[i], deltas, now, rows[i])
      ensures !changed && ServedChanged(old(rows), rows, now) <==> Misses(CreditedAll(old(rows), deltas, now), now)
      ensures changed && !ServedChanged(old(rows), rows, now) <==> Overstates(CreditedAll(old(rows), deltas, now), now)
    {
      ghost var before := rows;
      assert deltas[..0] == [];
      for j := 0 to |deltas|
        invariant rows == CreditedAll(before, deltas[..j], now)
      {
        assert deltas[..j + 1][..j] == deltas[..j];
        rows := CreditedOne(rows, deltas[j], now);
      }
      assert deltas[..|deltas|] == deltas;
      hide CreditedAll, Renewed, Checked, Misses, Overstates, ServedChanged;
      ghost var credited := rows;
      changed := AutoRenew(now);
      var disabled := DisableInvalid(now);
      MtprotoFlagsAddUp(credited, now);
      FlagVersusServedSet(before, credited, rows, now);
      if NonNegative(deltas) {
        forall i | 0 <= i < |rows| ensures RecordedRow(before[i], deltas, now, rows[i]) {
          RowIsRecorded(before, deltas, now, i);
        }
      }
      changed := changed || disabled;
    }
  }

  /** What recording makes of a row: a due client starts a new period with no traffic, every other one has its traffic
      grown by what was recorded for it; the lifetime total grows in any case; and the flag is decided by the quota with
      the recorded bytes. */
  predicate RecordedRow(c: Account, deltas: seq<Usage>, now: int, r: Account) {
    var up, down := if c.key == "" then 0 else UpFor(deltas, c.key), if c.key == "" then 0 else DownFor(deltas, c.key);
    && r.upload == (if IsDue(c, now) then 0 else c.upload + up)
    && r.download == (if IsDue(c, now) then 0 else c.download + down)
    && r.allTime == c.allTime + up + down
    && (r.enable <==> IsDue(c, now) || (c.enable && !ReachesQuota(c, deltas) && !Expired(c, now)))
  }

  lemma RowIsRecorded(rows: seq<Account>, deltas: seq<Usage>, now: int, i: nat)
    requires i < |rows| && NonNegative(deltas)
    ensures RecordedRow(rows[i], deltas, now, EnforcedMtproto(CreditedAll(rows, deltas, now)[i], now))
  {
    hide UpFor, DownFor, CreditedAll, EnforcedMtproto, ReachesQuota;
    var c := CreditedAll(rows, deltas, now)[i];
    RecordedExactly(rows, deltas, now, i);
    EnabledAfterRecording(rows, deltas, now, i);
    OtherFieldsKept(c, now);
    if IsDue(c, now) { RenewedEndsEnabled(c, now); }
  }

  /** The renewal loop. */
  method RenewalExpiry(c: Account, now: int) returns (newExpiry: int)
    requires c.reset > 0
    ensures newExpiry == NextExpiry(c.expiryTime, c.reset * DAY_MS, now)
  {
    newExpiry := c.expiryTime;
    while newExpiry <= now
      invariant NextExpiry(newExpiry, c.reset * DAY_MS, now) == NextExpiry(c.expiryTime, c.reset * DAY_MS, now)
      decreases now - newExpiry
    {
      newExpiry := newExpiry + c.reset * DAY_MS;
    }
  }

  lemma ActivationKeepsFlags(rows: seq<Account>, now: int)
    ensures forall i :: 0 <= i < |rows| ==> ActivatedAll(rows, now)[i].enable == rows[i].enable
  {}

  /** A pass never flips a flag twice. */
  lemma FlagsAddUp(rows: seq<Account>, now: int)
    ensures var a := RenewedAll(rows, now); var b := ActivatedAll(a, now); var c := CheckedAll(b, now);
            FlagChanged(rows, c) <==> FlagChanged(rows, a) || FlagChanged(b, c)
  {
    var a := RenewedAll(rows, now);
    var b := ActivatedAll(a, now);
    var c := CheckedAll(b, now);
    forall i | 0 <= i < |rows|
      ensures rows[i].enable != c[i].enable <==> rows[i].enable != a[i].enable || b[i].enable != c[i].enable
    {
      if IsDue(rows[i], now) { NextExpiryIsLeast(rows[i].expiryTime, rows[i].reset * DAY_MS, now); }
    }
  }

  lemma MtprotoFlagsAddUp(rows: seq<Account>, now: int)
    ensures var a := RenewedAll(rows, now); var c := CheckedAll(a, now);
            FlagChanged(rows, c) <==> FlagChanged(rows, a) || FlagChanged(a, c)
  {
    var a := RenewedAll(rows, now);
    var c := CheckedAll(a, now);
    forall i | 0 <= i < |rows|
      ensures rows[i].enable != c[i].enable <==> rows[i].enable != a[i].enable || a[i].enable != c[i].enable
    {
      if IsDue(rows[i], now) { NextExpiryIsLeast(rows[i].expiryTime, rows[i].reset * DAY_MS, now); }
    }
  }
}
