/** The string operations the panel relies on, over sequences of Unicode runes. */
module Text {

  /** The values of a 64-bit integer field of the panel's records. */
  type int64 = x: int | -0x8000_0000_0000_0000 <= x < 0x8000_0000_0000_0000

  const MAX_INT64 := 0x7fff_ffff_ffff_ffff
  const MIN_INT64 := -0x8000_0000_0000_0000

  // ---------- white space ----------

  /** The runes with the Unicode White_Space property. */
  predicate IsSpace(c: char) {
    c == ' ' || '\U{0009}' <= c <= '\U{000D}' || c == '\U{0085}' || c == '\U{00A0}' || c == '\U{1680}'
    || '\U{2000}' <= c <= '\U{200A}' || c == '\U{2028}' || c == '\U{2029}' || c == '\U{202F}'
    || c == '\U{205F}' || c == '\U{3000}'
  }

  function TrimLeft(s: string): string {
    if s != [] && IsSpace(s[0]) then TrimLeft(s[1..]) else s
  }

  function TrimRight(s: string): string {
    if s != [] && IsSpace(s[|s| - 1]) then TrimRight(s[..|s| - 1]) else s
  }

  function TrimSpace(s: string): string {
    TrimRight(TrimLeft(s))
  }

  /** Nothing to trim at either end. */
  predicate Trimmed(s: string) {
    s == [] || (!IsSpace(s[0]) && !IsSpace(s[|s| - 1]))
  }

  lemma TrimmedIsFixed(s: string)
    requires Trimmed(s)
    ensures TrimSpace(s) == s
  {}

  lemma {:induction false} TrimRightSuffix(a: string, b: string)
    requires TrimRight(b) != []
    ensures TrimRight(a + b) == a + TrimRight(b)
  {
    if IsSpace(b[|b| - 1]) {
      assert (a + b)[..|a + b| - 1] == a + b[..|b| - 1];
      TrimRightSuffix(a, b[..|b| - 1]);
    }
  }

  lemma {:induction false} TrimRightBlank(a: string, b: string)
    requires TrimRight(b) == []
    ensures TrimRight(a + b) == TrimRight(a)
  {
    if b == [] {
      assert a + b == a;
    } else {
      assert (a + b)[..|a + b| - 1] == a + b[..|b| - 1];
      TrimRightBlank(a, b[..|b| - 1]);
    }
  }

  lemma {:induction false} TrimRightKeepsHead(s: string)
    requires s != [] && !IsSpace(s[0])
    ensures TrimRight(s) != [] && TrimRight(s)[0] == s[0]
  {
    if IsSpace(s[|s| - 1]) {
      TrimRightKeepsHead(s[..|s| - 1]);
    }
  }

  /** Trimming the right end first makes no difference. */
  lemma {:induction false} TrimAfterTrimRight(s: string)
    ensures TrimSpace(TrimRight(s)) == TrimSpace(s)
  {
    if s != [] && IsSpace(s[|s| - 1]) {
      TrimAfterTrimRight(s[..|s| - 1]);
      TrimSpaceDropLast(s);
    }
  }

  lemma {:induction false} TrimSpaceDropLast(s: string)
    requires s != [] && IsSpace(s[|s| - 1])
    ensures TrimSpace(s[..|s| - 1]) == TrimSpace(s)
  {
    var t := s[..|s| - 1];
    if t != [] && IsSpace(s[0]) {
      assert s[1..][..|s[1..]| - 1] == t[1..];
      TrimSpaceDropLast(s[1..]);
    } else if t == [] {
      assert TrimLeft(s) == TrimLeft(s[1..]) == [];
    } else {
      assert TrimLeft(s) == s && TrimLeft(t) == t;
    }
  }

  // ---------- searching and splitting ----------

  /** The first position of c in s, or -1. */
  function IndexOf(s: string, c: char): (i: int)
    ensures -1 <= i < |s|
    ensures i >= 0 ==> s[i] == c && c !in s[..i]
    ensures i < 0 <==> c !in s
  {
    if s == [] then -1
    else if s[0] == c then 0
    else
      var i := IndexOf(s[1..], c);
      if i < 0 then -1 else
        assert s[..i + 1] == [s[0]] + s[1..][..i];
        i + 1
  }

  lemma {:induction false} IndexOfAt(a: string, c: char, b: string)
    requires c !in a
    ensures IndexOf(a + [c] + b, c) == |a|
  {
    if a != [] {
      assert (a + [c] + b)[1..] == a[1..] + [c] + b;
      IndexOfAt(a[1..], c, b);
    }
  }

  /** The pieces of s between the separators. */
  function Split(s: string, sep: char): (parts: seq<string>)
    ensures parts != []
  {
    if s == [] then [[]]
    else
      var rest := Split(s[1..], sep);
      if s[0] == sep then [[]] + rest else [[s[0]] + rest[0]] + rest[1..]
  }

  function Join(parts: seq<string>, sep: string): string {
    if parts == [] then []
    else if |parts| == 1 then parts[0]
    else parts[0] + sep + Join(parts[1..], sep)
  }

  /** Joining the pieces again gives the text. */
  lemma {:induction false} JoinSplit(s: string, sep: char)
    ensures Join(Split(s, sep), [sep]) == s
  {
    if s != [] {
      JoinSplit(s[1..], sep);
      var rest, parts := Split(s[1..], sep), Split(s, sep);
      if s[0] == sep {
        assert parts[1..] == rest;
      } else {
        assert parts[1..] == rest[1..];
      }
      assert s == [s[0]] + s[1..];
    }
  }

  predicate Free(parts: seq<string>, c: char) {
    forall p :: p in parts ==> c !in p
  }

  lemma {:induction false} SplitWhole(a: string, sep: char)
    requires sep !in a
    ensures Split(a, sep) == [a]
  {
    if a != [] {
      SplitWhole(a[1..], sep);
      assert [a[0]] + a[1..] == a;
    }
  }

  /** A separator in the text separates the pieces on its left from those on its right. */
  lemma {:induction false} SplitAppend(a: string, sep: char, b: string)
    ensures Split(a + [sep] + b, sep) == Split(a, sep) + Split(b, sep)
  {
    var s := a + [sep] + b;
    if a == [] {
      assert s[1..] == b;
    } else {
      assert s[1..] == a[1..] + [sep] + b;
      SplitAppend(a[1..], sep, b);
    }
  }

  lemma {:induction false} SplitJoin(parts: seq<string>, sep: char)
    requires parts != [] && Free(parts, sep)
    ensures Split(Join(parts, [sep]), sep) == parts
  {
    SplitWhole(parts[0], sep);
    if |parts| > 1 {
      SplitJoin(parts[1..], sep);
      SplitAppend(parts[0], sep, Join(parts[1..], [sep]));
      assert parts == [parts[0]] + parts[1..];
    }
  }

  lemma {:induction false} JoinFree(parts: seq<string>, sep: string, c: char)
    requires Free(parts, c) && c !in sep
    ensures c !in Join(parts, sep)
  {
    if |parts| > 1 {
      JoinFree(parts[1..], sep, c);
      assert parts[0] in parts;
    }
  }

  /** Joining with a separator that no piece holds loses nothing. */
  lemma JoinInjective(a: seq<string>, b: seq<string>, sep: char)
    requires a != [] && b != [] && Free(a, sep) && Free(b, sep)
    requires Join(a, [sep]) == Join(b, [sep])
    ensures a == b
  {
    SplitJoin(a, sep);
    SplitJoin(b, sep);
  }

  /** Every line followed by a newline. */
  function Lines(ls: seq<string>): string {
    if ls == [] then [] else ls[0] + "\n" + Lines(ls[1..])
  }

  lemma {:induction false} SplitLines(ls: seq<string>)
    requires Free(ls, '\n')
    ensures Split(Lines(ls), '\n') == ls + [[]]
  {
    if ls != [] {
      SplitLines(ls[1..]);
      SplitAppend(ls[0], '\n', Lines(ls[1..]));
      SplitWhole(ls[0], '\n');
      assert ls == [ls[0]] + ls[1..];
    }
  }

  lemma {:induction false} LinesAppend(a: seq<string>, b: seq<string>)
    ensures Lines(a + b) == Lines(a) + Lines(b)
  {
    if a == [] {
      assert a + b == b;
    } else {
      assert (a + b)[1..] == a[1..] + b;
      LinesAppend(a[1..], b);
    }
  }

  // ---------- numbers ----------

  predicate IsDigit(c: char) { '0' <= c <= '9' }

  predicate AllDigits(s: string) { forall i :: 0 <= i < |s| ==> IsDigit(s[i]) }

  function DigitChar(d: nat): (c: char)
    requires d < 10
    ensures IsDigit(c)
  {
    ('0' as int + d) as char
  }

  function NatText(n: nat): (s: string)
    ensures s != [] && AllDigits(s)
  {
    if n < 10 then [DigitChar(n)] else NatText(n / 10) + [DigitChar(n % 10)]
  }

  function NatValue(s: string): nat
    requires AllDigits(s)
  {
    if s == [] then 0 else 10 * NatValue(s[..|s| - 1]) + (s[|s| - 1] as int - '0' as int)
  }

  lemma {:induction false} NatRoundTrip(n: nat)
    ensures NatValue(NatText(n)) == n
  {
    if n >= 10 {
      NatRoundTrip(n / 10);
      var s := NatText(n);
      assert s[..|s| - 1] == NatText(n / 10);
    } else {
      var s := NatText(n);
      assert s[..0] == [];
    }
  }

  /** A number as it is printed: digits, and no zero in front. */
  predicate IsNatText(s: string) { s != [] && AllDigits(s) && (|s| == 1 || s[0] != '0') }

  lemma {:induction false} NatTextOfValue(s: string)
    requires IsNatText(s)
    ensures NatText(NatValue(s)) == s
    ensures |s| > 1 ==> NatValue(s) >= 10
    ensures s[0] != '0' ==> NatValue(s) >= 1
  {
    var n := |s| - 1;
    if n == 0 {
      assert s[..0] == [] && s == [s[0]];
    } else {
      NatTextOfValue(s[..n]);
      assert s == s[..n] + [s[n]];
    }
  }

  lemma {:induction false} NatTextIsPlain(n: nat)
    ensures IsNatText(NatText(n)) && (n > 0 ==> NatText(n)[0] != '0')
  {
    if n >= 10 { NatTextIsPlain(n / 10); }
  }

  /** Decimal text of an integer. */
  function Itoa(n: int): (s: string)
    ensures s != []
  {
    if n < 0 then ['-'] + NatText(-n) else NatText(n)
  }

  datatype Number = Number(value: int) | BadSyntax | OutOfRange(clamped: int)

  /** Decimal parsing into a 64-bit integer: an optional sign, then at least one digit. */
  function Atoi(s: string): Number {
    var signed := s != [] && (s[0] == '+' || s[0] == '-');
    var digits := if signed then s[1..] else s;
    if digits == [] || !AllDigits(digits) then BadSyntax
    else
      var n: int := NatValue(digits);
      var v := if signed && s[0] == '-' then -n else n;
      if v > MAX_INT64 then OutOfRange(MAX_INT64)
      else if v < MIN_INT64 then OutOfRange(MIN_INT64)
      else Number(v)
  }

  /** Reading back a printed 64-bit integer gives that integer. */
  lemma AtoiItoa(n: int64)
    ensures Atoi(Itoa(n)) == Number(n)
  {
    var m: int := n;
    if m < 0 {
      NatRoundTrip(-m);
      assert Itoa(m)[1..] == NatText(-m);
    } else {
      NatRoundTrip(m);
      assert IsDigit(Itoa(m)[0]);
    }
  }

  lemma ItoaInjective(a: int, b: int)
    requires Itoa(a) == Itoa(b)
    ensures a == b
  {
    assert IsDigit(NatText(if a < 0 then -a else a)[0]) && IsDigit(NatText(if b < 0 then -b else b)[0]);
    if a < 0 {
      NatRoundTrip(-a);
      NatRoundTrip(-b);
      assert Itoa(a)[1..] == NatText(-a) && Itoa(b)[1..] == NatText(-b);
    } else {
      NatRoundTrip(a);
      NatRoundTrip(b);
    }
  }

  /** A printed number holds only digits and a sign: nothing to trim, no other rune. */
  lemma ItoaRunes(n: int)
    ensures Trimmed(Itoa(n))
    ensures forall c :: c in Itoa(n) ==> c == '-' || IsDigit(c)
    ensures n >= 0 ==> forall c :: c in Itoa(n) ==> IsDigit(c)
  {
    var s := NatText(if n < 0 then -n else n);
    assert IsDigit(s[0]) && IsDigit(s[|s| - 1]);
    forall c | c in Itoa(n) ensures (n < 0 && c == '-') || IsDigit(c) {
      var i :| 0 <= i < |Itoa(n)| && Itoa(n)[i] == c;
    }
  }

  function BoolText(b: bool): string { if b then "true" else "false" }

  /** A text is cut in one way at the first separator. */
  lemma {:induction false} CutAt(a: string, sep: char, b: string, c: string, d: string)
    requires sep !in a && sep !in c && a + [sep] + b == c + [sep] + d
    ensures a == c && b == d
  {
    IndexOfAt(a, sep, b);
    IndexOfAt(c, sep, d);
    var s := a + [sep] + b;
    assert s[..|a|] == a && s[..|c|] == c && s[|a| + 1..] == b && s[|c| + 1..] == d;
  }

  /** An address without its prefix length. */
  function StripMask(addr: string): string {
    var slash := IndexOf(addr, '/');
    if slash >= 0 then addr[..slash] else addr
  }
}
