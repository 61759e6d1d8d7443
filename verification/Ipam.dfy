/** Allocation of tunnel addresses from a CIDR pool, in the source's 32-bit and 64-bit arithmetic. */
module Ipam {
  import opened Options
  import opened Text

  const TWO32 := 0x1_0000_0000
  const TWO63 := 0x8000_0000_0000_0000

  type uint32 = x: int | 0 <= x < TWO32

  datatype Allocation<T> = Address(value: T) | BadPool | Exhausted

  function Pow2(n: nat): (p: nat)
    ensures p >= 1
  {
    if n == 0 then 1 else 2 * Pow2(n - 1)
  }

  lemma {:induction false} Pow2Monotone(m: nat, n: nat)
    requires m <= n
    ensures Pow2(m) <= Pow2(n)
    decreases n
  {
    if m < n { Pow2Monotone(m, n - 1); }
  }

  // ---------- IPv4 ----------

  /** What net.ParseCIDR makes of the pool text: the network address and the number of host bits. */
  datatype Pool4 = Invalid | NotIPv4 | Pool4(network: uint32, hostBits: nat)

  /** The network address of a parsed prefix has its host bits cleared. */
  ghost predicate IsPrefix4(p: Pool4) {
    p.Pool4? ==> p.hostBits <= 32 && p.network + Pow2(p.hostBits) <= TWO32
  }

  /** The four bytes, the highest first. */
  function Octets(a: uint32): (o: seq<nat>)
    ensures |o| == 4
  {
    [a / 256 / 256 / 256, a / 256 / 256 % 256, a / 256 % 256, a % 256]
  }

  lemma LowByte(x: nat)
    ensures x == 256 * (x / 256) + x % 256 && x % 256 < 256
  {}

  /** They are bytes, and the address can be put together again from them. */
  lemma OctetsRejoin(a: uint32)
    ensures var o := Octets(a);
            o[0] < 256 && o[1] < 256 && o[2] < 256 && o[3] < 256
            && a == 256 * (256 * (256 * o[0] + o[1]) + o[2]) + o[3]
  {
    LowByte(a);
    LowByte(a / 256);
    LowByte(a / 256 / 256);
  }

  function DottedQuad(a: uint32): string {
    var o := Octets(a);
    Join([Itoa(o[0]), Itoa(o[1]), Itoa(o[2]), Itoa(o[3])], ".")
  }

  /** A dotted quad followed by a mask strips to itself. */
  lemma DottedQuadStrips(a: uint32)
    ensures StripMask(DottedQuad(a) + "/32") == DottedQuad(a)
  {
    hide Itoa, Join;
    var o := Octets(a);
    var s := [Itoa(o[0]), Itoa(o[1]), Itoa(o[2]), Itoa(o[3])];
    forall p | p in s ensures '/' !in p {
      ItoaRunes(o[0]);
      ItoaRunes(o[1]);
      ItoaRunes(o[2]);
      ItoaRunes(o[3]);
    }
    JoinFree(s, ".", '/');
    assert DottedQuad(a) + "/32" == DottedQuad(a) + ['/'] + "32";
    IndexOfAt(DottedQuad(a), '/', "32");
  }

  /** A byte in decimal; a zero in front is no digit of it. */
  function ReadByte(s: string): Option<nat> {
    if IsNatText(s) && NatValue(s) < 256 then Some(NatValue(s)) else None
  }

  /** The address a text stands for: four bytes between dots, the highest first. */
  function ReadQuad(s: string): (a: Option<uint32>) {
    var parts := Split(s, '.');
    if |parts| != 4 then None
    else
      match (ReadByte(parts[0]), ReadByte(parts[1]), ReadByte(parts[2]), ReadByte(parts[3]))
      case (Some(b0), Some(b1), Some(b2), Some(b3)) => Some(FromBytes(b0, b1, b2, b3))
      case _ => None
  }

  function FromBytes(b0: nat, b1: nat, b2: nat, b3: nat): uint32
    requires b0 < 256 && b1 < 256 && b2 < 256 && b3 < 256
  {
    0x100_0000 * b0 + 0x1_0000 * b1 + 0x100 * b2 + b3
  }

  lemma ByteIsRead(n: nat)
    requires n < 256
    ensures ReadByte(Itoa(n)) == Some(n) && '.' !in Itoa(n)
  {
    NatTextIsPlain(n);
    NatRoundTrip(n);
    ItoaRunes(n);
  }

  lemma ByteIsUnique(s: string)
    requires ReadByte(s).Some?
    ensures s == Itoa(ReadByte(s).value)
  {
    NatTextOfValue(s);
  }

  /** A printed address reads back. */
  lemma QuadIsRead(a: uint32)
    ensures ReadQuad(DottedQuad(a)) == Some(a)
  {
    hide Itoa, Join, ReadByte, Split, Octets;
    var o := Octets(a);
    OctetsRejoin(a);
    ByteIsRead(o[0]);
    ByteIsRead(o[1]);
    ByteIsRead(o[2]);
    ByteIsRead(o[3]);
    SplitJoin([Itoa(o[0]), Itoa(o[1]), Itoa(o[2]), Itoa(o[3])], '.');
  }

  /** Different addresses have different texts, so comparing texts compares addresses. */
  lemma DottedQuadInjective(a: uint32, b: uint32)
    requires DottedQuad(a) == DottedQuad(b)
    ensures a == b
  {
    hide DottedQuad, ReadQuad;
    QuadIsRead(a);
    QuadIsRead(b);
  }

  /** No other text reads as that address. */
  lemma QuadIsUnique(s: string, a: uint32)
    requires ReadQuad(s) == Some(a)
    ensures s == DottedQuad(a)
  {
    hide Itoa, Join, ReadByte, Split, Octets;
    var parts := Split(s, '.');
    JoinSplit(s, '.');
    ByteIsUnique(parts[0]);
    ByteIsUnique(parts[1]);
    ByteIsUnique(parts[2]);
    ByteIsUnique(parts[3]);
    BytesInRange(parts);
    var o := Octets(a);
    OctetsRejoin(a);
    SameBytes(o[0], o[1], o[2], o[3], ReadByte(parts[0]).value, ReadByte(parts[1]).value,
              ReadByte(parts[2]).value, ReadByte(parts[3]).value);
    assert parts == [parts[0], parts[1], parts[2], parts[3]];
  }

  lemma BytesInRange(parts: seq<string>)
    ensures forall i :: 0 <= i < |parts| && ReadByte(parts[i]).Some? ==> ReadByte(parts[i]).value < 256
  {}

  lemma SameBytes(a0: nat, a1: nat, a2: nat, a3: nat, b0: nat, b1: nat, b2: nat, b3: nat)
    requires a0 < 256 && a1 < 256 && a2 < 256 && a3 < 256 && b0 < 256 && b1 < 256 && b2 < 256 && b3 < 256
    requires 256 * (256 * (256 * a0 + a1) + a2) + a3 == FromBytes(b0, b1, b2, b3)
    ensures a0 == b0 && a1 == b1 && a2 == b2 && a3 == b3
  {}

  /** Some text to avoid stands for the address. */
  ghost predicate Reads4(serverAddr: string, usedIPs: seq<string>, a: int) {
    (serverAddr != "" && ReadsAs4(serverAddr, a))
    || exists i :: 0 <= i < |usedIPs| && ReadsAs4(usedIPs[i], a)
  }

  predicate ReadsAs4(addr: string, a: int) {
    ReadQuad(StripMask(addr)).Some? && ReadQuad(StripMask(addr)).value == a
  }

  ghost predicate Taken4(p: Pool4, serverAddr: string, usedIPs: seq<string>, off: int)
    requires p.Pool4?
  {
    Reads4(serverAddr, usedIPs, p.network + off)
  }

  /** The allocated address is that of the lowest offset that no text to avoid stands for; the network address, the one
      after it and the last address of the pool are never candidates. */
  ghost predicate LowestFree4(p: Pool4, serverAddr: string, usedIPs: seq<string>, off: nat)
    requires p.Pool4?
  {
    2 <= off < Pow2(p.hostBits) - 1 && !Taken4(p, serverAddr, usedIPs, off)
    && forall k :: 2 <= k < off ==> Taken4(p, serverAddr, usedIPs, k)
  }

  /** Every candidate is taken. */
  ghost predicate Full4(p: Pool4, serverAddr: string, usedIPs: seq<string>)
    requires p.Pool4?
  {
    forall k :: 2 <= k < Pow2(p.hostBits) - 1 ==> Taken4(p, serverAddr, usedIPs, k)
  }

  /** The texts the allocator looks candidates up in. */
  ghost predicate Collects(used: set<string>, serverAddr: string, usedIPs: seq<string>) {
    forall x :: x in used <==>
      (serverAddr != "" && x == StripMask(serverAddr)) || exists i :: 0 <= i < |usedIPs| && x == StripMask(usedIPs[i])
  }

  /** Looking up the text of an address is the same as reading the texts. */
  lemma LookupReads(used: set<string>, serverAddr: string, usedIPs: seq<string>, a: uint32)
    requires Collects(used, serverAddr, usedIPs)
    ensures DottedQuad(a) in used <==> Reads4(serverAddr, usedIPs, a)
  {
    hide DottedQuad, ReadQuad, StripMask;
    QuadIsRead(a);
    if Reads4(serverAddr, usedIPs, a) {
      if serverAddr != "" && ReadsAs4(serverAddr, a) {
        QuadIsUnique(StripMask(serverAddr), a);
      } else {
        var i :| 0 <= i < |usedIPs| && ReadsAs4(usedIPs[i], a);
        QuadIsUnique(StripMask(usedIPs[i]), a);
      }
    }
    if DottedQuad(a) in used && !(serverAddr != "" && DottedQuad(a) == StripMask(serverAddr)) {
      var i :| 0 <= i < |usedIPs| && DottedQuad(a) == StripMask(usedIPs[i]);
      assert ReadsAs4(usedIPs[i], a);
    }
  }

  /** The answer is an address with a full mask. */
  ghost predicate Answers4(value: string, a: int) { ReadsAs4(value, a) && value == StripMask(value) + "/32" }

  lemma PrintedAnswers(a: uint32)
    ensures Answers4(DottedQuad(a) + "/32", a)
  {
    hide DottedQuad, ReadQuad, StripMask;
    DottedQuadStrips(a);
    QuadIsRead(a);
  }

  method AllocateIPv4(pool: Pool4, serverAddr: string, usedIPs: seq<string>) returns (r: Allocation<string>)
    requires IsPrefix4(pool)
    ensures r.BadPool? <==> !pool.Pool4?
    ensures r.Address? ==> exists off: nat :: LowestFree4(pool, serverAddr, usedIPs, off)
                                              && Answers4(r.value, pool.network + off)
    ensures r.Exhausted? <==> pool.Pool4? && Full4(pool, serverAddr, usedIPs)
  {
    hide DottedQuad, StripMask, Pow2, Reads4, Answers4;
    if pool.Invalid? {
      return BadPool;
    }
    var used := {};
    if serverAddr != "" {
      var sip := StripMask(serverAddr);
      used := used + {sip};
    }
    for j := 0 to |usedIPs|
      invariant forall x :: x in used <==>
        (serverAddr != "" && x == StripMask(serverAddr)) || exists i :: 0 <= i < j && x == StripMask(usedIPs[i])
    {
      used := used + {StripMask(usedIPs[j])};
    }
    if pool.NotIPv4? {
      return BadPool;
    }
    Limit4(pool.hostBits);
    var hostCount: uint32 := Pow2(pool.hostBits) % TWO32;
    var limit: uint32 := (hostCount - 1) % TWO32;
    var i: uint32 := 2;
    while i < limit
      invariant 2 <= i && (i <= limit || i == 2)
      invariant forall k :: 2 <= k < i ==> Taken4(pool, serverAddr, usedIPs, k)
    {
      var candidate: uint32 := (pool.network + i) % TWO32;
      LookupReads(used, serverAddr, usedIPs, candidate);
      if DottedQuad(candidate) !in used {
        assert LowestFree4(pool, serverAddr, usedIPs, i);
        PrintedAnswers(candidate);
        return Address(DottedQuad(candidate) + "/32");
      }
      assert Taken4(pool, serverAddr, usedIPs, i);
      i := i + 1;
    }
    return Exhausted;
  }

  /** For 32 host bits uint32(1) << hostBits is zero, and zero minus one wraps back to the right limit. */
  lemma Limit4(hostBits: nat)
    requires hostBits <= 32
    ensures (Pow2(hostBits) % TWO32 - 1) % TWO32 == Pow2(hostBits) - 1
  {
    hide Pow2;
    Pow2Is32();
    Pow2Monotone(hostBits, 32);
    WrapMinusOne(Pow2(hostBits));
  }

  lemma WrapMinusOne(p: nat)
    requires 1 <= p <= TWO32
    ensures (p % TWO32 - 1) % TWO32 == p - 1
  {
    if p < TWO32 {
      assert p % TWO32 == p && (p - 1) % TWO32 == p - 1;
    }
  }

  lemma Pow2Is32()
    ensures Pow2(31) == TWO32 / 2 && Pow2(32) == TWO32
  {
    assert Pow2(8) == 256;
    assert Pow2(16) == 0x1_0000;
    assert Pow2(24) == 0x100_0000;
    assert Pow2(31) == TWO32 / 2;
  }

  // ---------- IPv6 ----------

  /** Addresses are numbers; parse and format are net.ParseIP and net.IP.String, inverse to each other on addresses. */
  datatype Notation = Notation(parse: string -> int, format: nat -> string)

  const TWO128 := 0x1_0000_0000_0000_0000_0000_0000_0000_0000

  /** parse answers -1 for a text that is no address. */
  ghost predicate Faithful(n: Notation) {
    (forall s :: -1 <= n.parse(s) < TWO128)
    && forall a: nat :: a < TWO128 ==> '/' !in n.format(a) && n.parse(n.format(a)) == a
  }

  datatype Pool6 = Invalid6 | Pool6(network: nat, hostBits: nat)

  ghost predicate IsPrefix6(p: Pool6) {
    p.Pool6? ==>
      p.hostBits <= 128 && p.network < TWO128 && (p.hostBits <= 62 ==> p.network + Pow2(p.hostBits) <= TWO128)
  }

  /** Some text to avoid stands for the address; a text that is no address does not count. */
  ghost predicate Reads6(serverAddr: string, usedIPs: seq<string>, n: Notation, a: nat) {
    (serverAddr != "" && n.parse(StripMask(serverAddr)) == a)
    || exists i :: 0 <= i < |usedIPs| && n.parse(StripMask(usedIPs[i])) == a
  }

  /** int64(1) << hostBits: the sign bit at 63, nothing above. */
  function ShiftedOne(hostBits: nat): int {
    if hostBits < 63 then Pow2(hostBits) else if hostBits == 63 then -TWO63 else 0
  }

  function Limit6(hostBits: nat): int {
    if ShiftedOne(hostBits) > 65536 then 65536 else ShiftedOne(hostBits)
  }

  ghost predicate Taken6(p: Pool6, serverAddr: string, usedIPs: seq<string>, n: Notation, off: nat)
    requires p.Pool6?
  {
    Reads6(serverAddr, usedIPs, n, p.network + off)
  }

  ghost predicate LowestFree6(p: Pool6, serverAddr: string, usedIPs: seq<string>, n: Notation, off: nat)
    requires p.Pool6?
  {
    2 <= off < Limit6(p.hostBits) && !Taken6(p, serverAddr, usedIPs, n, off)
    && forall k: nat :: 2 <= k < off ==> Taken6(p, serverAddr, usedIPs, n, k)
  }

  ghost predicate Full6(p: Pool6, serverAddr: string, usedIPs: seq<string>, n: Notation)
    requires p.Pool6?
  {
    forall k: nat :: 2 <= k < Limit6(p.hostBits) ==> Taken6(p, serverAddr, usedIPs, n, k)
  }

  method AllocateIPv6(pool: Pool6, serverAddr: string, usedIPs: seq<string>, n: Notation)
    returns (r: Allocation<string>)
    requires IsPrefix6(pool)
    ensures r.BadPool? <==> pool.Invalid6?
    ensures r.Address? ==> exists off: nat :: LowestFree6(pool, serverAddr, usedIPs, n, off)
                                              && pool.network + off < TWO128
                                              && r.value == n.format(pool.network + off) + "/128"
    ensures r.Exhausted? <==> pool.Pool6? && Full6(pool, serverAddr, usedIPs, n)
  {
    hide StripMask, Pow2;
    if pool.Invalid6? {
      return BadPool;
    }
    var used := {};
    if serverAddr != "" {
      var sip := StripMask(serverAddr);
      if n.parse(sip) >= 0 {
        used := used + {n.parse(sip)};
      }
    }
    for j := 0 to |usedIPs|
      invariant forall a: nat :: a in used <==>
        (serverAddr != "" && n.parse(StripMask(serverAddr)) == a)
        || exists i :: 0 <= i < j && n.parse(StripMask(usedIPs[i])) == a
    {
      var stripped := StripMask(usedIPs[j]);
      if n.parse(stripped) >= 0 {
        used := used + {n.parse(stripped)};
      }
    }
    assert forall a: nat :: a in used <==> Reads6(serverAddr, usedIPs, n, a);
    hide Reads6;
    var maxHosts := ShiftedOne(pool.hostBits);
    if maxHosts > 65536 {
      maxHosts := 65536;
    }
    var i: nat := 2;
    while i < maxHosts
      invariant i >= 2
      invariant forall k: nat :: 2 <= k < i ==> Taken6(pool, serverAddr, usedIPs, n, k)
    {
      var candidate := pool.network + i;
      if candidate !in used {
        assert LowestFree6(pool, serverAddr, usedIPs, n, i);
        InRange6(pool, i);
        return Address(n.format(candidate) + "/128");
      }
      assert Taken6(pool, serverAddr, usedIPs, n, i);
      i := i + 1;
    }
    return Exhausted;
  }

  /** Candidates stay within 128 bits. */
  lemma InRange6(p: Pool6, off: nat)
    requires p.Pool6? && IsPrefix6(p) && off < Limit6(p.hostBits)
    ensures p.network + off < TWO128
  {}

  /** The shift decides: from 63 host bits on (prefixes of /65 or shorter) there is no candidate at all, so every
      such pool counts as exhausted; below, the candidates are the offsets from 2 on, up to 65535. */
  lemma ShortPrefixesHaveNoCandidate(hostBits: nat)
    ensures Limit6(hostBits) <= 2 <==> hostBits <= 1 || hostBits >= 63
    ensures hostBits <= 62 ==> Limit6(hostBits) == if Pow2(hostBits) > 65536 then 65536 else Pow2(hostBits)
  {
    if 2 <= hostBits <= 62 { Pow2Monotone(2, hostBits); }
  }

  /** A new address is neither the server's nor one of the used ones. */
  lemma NewAddressIsUnused(p: Pool6, serverAddr: string, usedIPs: seq<string>, n: Notation, off: nat, j: nat)
    requires Faithful(n) && p.Pool6? && LowestFree6(p, serverAddr, usedIPs, n, off)
    requires p.network + off < TWO128
    ensures n.parse(StripMask(n.format(p.network + off) + "/128")) == p.network + off
    ensures j < |usedIPs| ==> n.parse(StripMask(usedIPs[j])) != p.network + off
    ensures serverAddr != "" ==> n.parse(StripMask(serverAddr)) != p.network + off
  {
    hide StripMask;
    FormattedStrips(n, p.network + off);
  }

  lemma FormattedStrips(n: Notation, a: nat)
    requires Faithful(n) && a < TWO128
    ensures StripMask(n.format(a) + "/128") == n.format(a)
  {
    var s := n.format(a);
    assert s + "/128" == s + ['/'] + "128";
    IndexOfAt(s, '/', "128");
  }
}
