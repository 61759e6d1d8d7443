/** Which specs a typed port list stands for, said of its text: the pieces between separators, blanks around numbers. */
module PortList {
  import opened Options
  import opened Text
  import opened PortForward

  predicate Blank(s: string) { forall i :: 0 <= i < |s| ==> IsSpace(s[i]) }

  predicate IsSeparator(c: char) { c == ',' || c == ';' }

  predicate Unseparated(s: string) { forall i :: 0 <= i < |s| ==> !IsSeparator(s[i]) }

  // ---------- what a piece stands for ----------

  /** Digits with the given value, after an optional plus sign. */
  predicate IsNumeral(m: string, n: nat) {
    var digits := if m != [] && m[0] == '+' then m[1..] else m;
    digits != [] && AllDigits(digits) && NatValue(digits) == n
  }

  ghost predicate Around(t: string, l: string, m: string, r: string) { t == l + m + r && Blank(l) && Blank(r) }

  /** The numeral, perhaps with blanks around it. */
  ghost predicate Shows(t: string, n: nat) {
    exists l, m, r :: Around(t, l, m, r) && IsNumeral(m, n)
  }

  ghost predicate Halves(t: string, a: string, b: string) { t == a + ['-'] + b && '-' !in a }

  /** A port, or two ports with a dash between them. */
  ghost predicate StandsFor(t: string, spec: PortSpec) {
    spec.Valid()
    && if '-' !in t then spec.start == spec.end && Shows(t, spec.start)
       else exists a, b :: Halves(t, a, b) && Shows(a, spec.start) && Shows(b, spec.end)
  }

  lemma {:induction false} BlankTrims(s: string)
    requires Blank(s)
    ensures TrimLeft(s) == [] && TrimRight(s) == []
  {
    if s != [] {
      BlankTrims(s[1..]);
      BlankTrims(s[..|s| - 1]);
    }
  }

  lemma {:induction false} TrimLeftPast(l: string, s: string)
    requires Blank(l)
    ensures TrimLeft(l + s) == TrimLeft(s)
  {
    if l == [] {
      assert l + s == s;
    } else {
      assert (l + s)[1..] == l[1..] + s;
      TrimLeftPast(l[1..], s);
    }
  }

  /** Trimming finds the text between the blanks. */
  lemma TrimFinds(l: string, m: string, r: string)
    requires Blank(l) && Blank(r) && Trimmed(m)
    ensures TrimSpace(l + m + r) == m
  {
    assert l + m + r == l + (m + r);
    TrimLeftPast(l, m + r);
    BlankTrims(r);
    if m == [] {
      assert m + r == r;
    } else {
      assert TrimLeft(m + r) == m + r;
      TrimRightBlank(m, r);
    }
  }

  lemma {:induction false} LeftBlanks(s: string) returns (l: string)
    ensures s == l + TrimLeft(s) && Blank(l) && (TrimLeft(s) != [] ==> !IsSpace(TrimLeft(s)[0]))
  {
    if s != [] && IsSpace(s[0]) {
      var k := LeftBlanks(s[1..]);
      l := [s[0]] + k;
      assert s == [s[0]] + s[1..];
    } else {
      l := [];
    }
  }

  lemma {:induction false} RightBlanks(s: string) returns (r: string)
    ensures s == TrimRight(s) + r && Blank(r) && (TrimRight(s) != [] ==> !IsSpace(TrimRight(s)[|TrimRight(s)| - 1]))
  {
    if s != [] && IsSpace(s[|s| - 1]) {
      var k := RightBlanks(s[..|s| - 1]);
      r := k + [s[|s| - 1]];
      assert s == s[..|s| - 1] + [s[|s| - 1]];
    } else {
      r := [];
      assert s == s + [];
    }
  }

  /** What trimming cuts off is blank, and what it leaves is trimmed. */
  lemma TrimCuts(s: string) returns (l: string, r: string)
    ensures Around(s, l, TrimSpace(s), r) && Trimmed(TrimSpace(s))
  {
    l := LeftBlanks(s);
    r := RightBlanks(TrimLeft(s));
    var m := TrimSpace(s);
    assert s == l + (m + r) == l + m + r;
    if TrimLeft(s) != [] {
      TrimRightKeepsHead(TrimLeft(s));
    }
  }

  lemma NumeralIsTrimmed(m: string, n: nat)
    requires IsNumeral(m, n)
    ensures Trimmed(m) && '-' !in m && m != []
  {
    var digits := if m[0] == '+' then m[1..] else m;
    assert m[0] == '+' || IsDigit(m[0]);
    assert m[|m| - 1] == digits[|digits| - 1];
    forall i | 0 <= i < |m| ensures m[i] != '-' {
      if m[0] == '+' && i > 0 {
        assert m[i] == digits[i - 1];
      }
    }
  }

  /** The panel accepts exactly the numerals of ports. */
  lemma PortExactly(m: string, n: int)
    ensures ParsePort(m) == Some(n) <==> 1 <= n <= 65535 && IsNumeral(m, n)
  {
    if m != [] && m[0] == '-' {
      assert !IsDigit(m[0]);
    }
  }

  lemma TrimmedPortExactly(t: string, n: int)
    ensures ParsePort(TrimSpace(t)) == Some(n) <==> 1 <= n <= 65535 && Shows(t, n)
  {
    hide TrimSpace, ParsePort, IsNumeral, Trimmed, Blank;
    PortExactly(TrimSpace(t), n);
    if ParsePort(TrimSpace(t)) == Some(n) {
      var l, r := TrimCuts(t);
      assert Around(t, l, TrimSpace(t), r) && IsNumeral(TrimSpace(t), n);
    } else if 1 <= n <= 65535 && Shows(t, n) {
      var l, m, r :| Around(t, l, m, r) && IsNumeral(m, n);
      NumeralIsTrimmed(m, n);
      TrimFinds(l, m, r);
      assert false;
    }
  }

  /** Blanks around a piece do not change what it stands for. */
  lemma StandsForTrimmed(token: string, spec: PortSpec)
    ensures ParseToken(TrimSpace(token)) == Some(spec) <==> StandsFor(token, spec)
  {
    hide ParsePort, TrimSpace, Shows, Trimmed, Blank;
    var l, r := TrimCuts(token);
    var t := TrimSpace(token);
    DashIsInside(l, t, r);
    var dash := IndexOf(t, '-');
    if dash >= 0 {
      var a, b := t[..dash], t[dash + 1..];
      var a', b' := l + a, b + r;
      assert t == a + ['-'] + b;
      assert token == a' + ['-'] + b';
      assert '-' !in l && '-' !in a;
      assert Halves(token, a', b');
      TrimBlanksOff(l, a);
      TrimBlanksAfter(b, r);
      TrimmedPortExactly(a', spec.start);
      TrimmedPortExactly(b', spec.end);
      forall x, y | Halves(token, x, y) ensures x == a' && y == b' {
        CutAt(x, '-', y, a', b');
      }
    } else {
      TrimmedPortExactly(token, spec.start);
    }
  }

  lemma DashIsInside(l: string, t: string, r: string)
    requires Blank(l) && Blank(r)
    ensures '-' in l + t + r <==> '-' in t
    ensures '-' !in l && '-' !in r
  {}

  lemma TrimBlanksOff(l: string, s: string)
    requires Blank(l)
    ensures TrimSpace(l + s) == TrimSpace(s)
  {
    TrimLeftPast(l, s);
  }

  lemma {:induction false} TrimBlanksAfter(s: string, r: string)
    requires Blank(r)
    ensures TrimSpace(s + r) == TrimSpace(s)
  {
    if r == [] {
      assert s + r == s;
    } else {
      var n := |r| - 1;
      assert (s + r)[..|s + r| - 1] == s + r[..n];
      TrimSpaceDropLast(s + r);
      TrimBlanksAfter(s, r[..n]);
    }
  }

  // ---------- the pieces ----------

  /** t lies between two neighbouring separators or ends of the text. */
  ghost predicate PieceAt(s: string, l: string, t: string, r: string) {
    s == l + t + r && Unseparated(t)
    && (l == [] || IsSeparator(l[|l| - 1])) && (r == [] || IsSeparator(r[0]))
  }

  ghost predicate IsPiece(s: string, t: string) { exists l, r :: PieceAt(s, l, t, r) }

  ghost predicate IsFirstPiece(s: string, t: string) { exists r :: PieceAt(s, [], t, r) }

  lemma SomeToken(s: string)
    ensures Tokens(s) != []
  {}

  lemma TokensStep(s: string)
    requires s != []
    ensures var rest := Tokens(s[1..]);
            Tokens(s) == if IsSeparator(s[0]) then [[]] + rest else [[s[0]] + rest[0]] + rest[1..]
  {
    assert Commas(s)[1..] == Commas(s[1..]);
  }

  lemma FirstPieceStep(s: string, t: string)
    requires s != []
    ensures IsFirstPiece(s, t) <==>
            if IsSeparator(s[0]) then t == [] else t != [] && t[0] == s[0] && IsFirstPiece(s[1..], t[1..])
  {
    hide PieceAt;
    if IsFirstPiece(s, t) {
      var r :| PieceAt(s, [], t, r);
      FirstPieceTail(s, t, r);
    }
    if IsSeparator(s[0]) {
      NothingFirst(s);
    } else if t != [] && t[0] == s[0] && IsFirstPiece(s[1..], t[1..]) {
      var r :| PieceAt(s[1..], [], t[1..], r);
      FirstPieceLonger(s, t, r);
    }
  }

  lemma FirstPieceTail(s: string, t: string, r: string)
    requires s != [] && PieceAt(s, [], t, r)
    ensures IsSeparator(s[0]) ==> t == []
    ensures !IsSeparator(s[0]) ==> t != [] && t[0] == s[0] && PieceAt(s[1..], [], t[1..], r)
  {
    assert [] + t == t;
    if t == [] {
      assert s == r;
    } else {
      assert s[0] == t[0] && s[1..] == [] + t[1..] + r;
    }
  }

  lemma FirstPieceLonger(s: string, t: string, r: string)
    requires s != [] && !IsSeparator(s[0]) && t != [] && t[0] == s[0] && PieceAt(s[1..], [], t[1..], r)
    ensures PieceAt(s, [], t, r)
  {
    assert s == [s[0]] + s[1..] == [] + t + r;
    forall i | 0 <= i < |t| ensures !IsSeparator(t[i]) {
      assert i > 0 ==> t[i] == t[1..][i - 1];
    }
  }

  lemma NothingFirst(s: string)
    requires s != [] && IsSeparator(s[0])
    ensures PieceAt(s, [], [], s)
  {
    assert [] + [] + s == s;
  }

  /** A piece is the first one, or a piece of what follows the first rune; where that rune is no separator, other than
      the piece it begins. */
  ghost predicate IsLaterPiece(s: string, t: string) { exists l, r :: l != [] && PieceAt(s, l, t, r) }

  lemma LaterPieceStep(s: string, t: string)
    requires s != []
    ensures IsLaterPiece(s, t) <==> if IsSeparator(s[0]) then IsPiece(s[1..], t) else IsLaterPiece(s[1..], t)
  {
    if IsLaterPiece(s, t) {
      var l, r :| l != [] && PieceAt(s, l, t, r);
      assert s[1..] == l[1..] + t + r;
      assert |l| == 1 ==> IsSeparator(s[0]);
      assert PieceAt(s[1..], l[1..], t, r);
    }
    if IsPiece(s[1..], t) && IsSeparator(s[0]) {
      var l, r :| PieceAt(s[1..], l, t, r);
      assert s == [s[0]] + s[1..] == ([s[0]] + l) + t + r;
      assert PieceAt(s, [s[0]] + l, t, r);
    }
    if IsLaterPiece(s[1..], t) {
      var l, r :| l != [] && PieceAt(s[1..], l, t, r);
      assert s == [s[0]] + s[1..] == ([s[0]] + l) + t + r;
      assert PieceAt(s, [s[0]] + l, t, r);
    }
  }

  lemma {:induction false} TokensArePieces(s: string, t: string)
    ensures t == Tokens(s)[0] <==> IsFirstPiece(s, t)
    ensures t in Tokens(s)[1..] <==> IsLaterPiece(s, t)
  {
    hide Tokens, IsFirstPiece, IsLaterPiece;
    if s == [] {
      NoText(t);
    } else {
      TokensStep(s);
      SomeToken(s[1..]);
      FirstPieceStep(s, t);
      LaterPieceStep(s, t);
      var rest := Tokens(s[1..]);
      TokensArePieces(s[1..], t);
      PieceIsFirstOrLater(s[1..], t);
      if t != [] {
        TokensArePieces(s[1..], t[1..]);
      }
      assert rest == [rest[0]] + rest[1..];
      assert Tokens(s)[1..] == if IsSeparator(s[0]) then rest else rest[1..];
      if !IsSeparator(s[0]) {
        assert t == [s[0]] + rest[0] <==> t != [] && t[0] == s[0] && t[1..] == rest[0];
      }
    }
  }

  lemma NoText(t: string)
    ensures Tokens([]) == [[]]
    ensures IsFirstPiece([], t) <==> t == []
    ensures !IsLaterPiece([], t)
  {
    assert PieceAt([], [], [], []);
  }

  lemma PieceIsFirstOrLater(s: string, t: string)
    ensures IsPiece(s, t) <==> IsFirstPiece(s, t) || IsLaterPiece(s, t)
  {}

  // ---------- the list ----------

  lemma {:induction false} SpecsOfExactly(tokens: seq<string>, spec: PortSpec)
    ensures spec in SpecsOf(tokens) <==> exists t :: t in tokens && SpecOf(t) == [spec]
  {
    hide SpecOf;
    if tokens != [] {
      var front, last := tokens[..|tokens| - 1], tokens[|tokens| - 1];
      SpecsOfExactly(front, spec);
      assert tokens == front + [last];
      assert |SpecOf(last)| <= 1;
      if spec in SpecOf(last) {
        assert SpecOf(last) == [spec];
      }
    }
  }

  /** A spec is found exactly when some piece of the typed text stands for it: nothing is invented, and of what is
      readable nothing is dropped. */
  lemma ExactlyThoseTyped(input: string, spec: PortSpec)
    ensures spec in ParseResult(input) <==> exists t :: IsPiece(input, t) && StandsFor(t, spec)
  {
    hide StandsFor, IsPiece, IsFirstPiece, IsLaterPiece, ParseToken, TrimSpace, Commas;
    SpecsOfExactly(Tokens(input), spec);
    forall t ensures t in Tokens(input) && SpecOf(t) == [spec] <==> IsPiece(input, t) && StandsFor(t, spec) {
      var ts := Tokens(input);
      TokensArePieces(input, t);
      PieceIsFirstOrLater(input, t);
      StandsForTrimmed(t, spec);
      assert ts == [ts[0]] + ts[1..];
    }
  }
}
