/**
 * What replacing a formal in the text of a parameter does to its value (src/circuit/qasm3.ts:323-339): the tokens of
 * the replaced text are the tokens with the formal substituted, so its value is that of the text with the formal bound.
 */
module ParameterSubstitution {
  import opened Options
  import opened QasmText
  import opened QasmReader
  import opened QasmLexing
  import opened TextSubstitution
  import opened Parameters
  import E = Expressions
  import S = Substitution

  // ---------------------------------------------------------------- a numeral stays a numeral

  lemma {:induction false} DigitsEnd(s: string)
    ensures forall i :: 0 <= i < DigitsLength(s) ==> IsDigit(s[i])
    ensures DigitsLength(s) < |s| ==> !IsDigit(s[DigitsLength(s)])
    decreases |s|
  {
    if |s| > 0 && IsDigit(s[0]) {
      DigitsEnd(s[1..]);
      forall i | 0 <= i < DigitsLength(s) ensures IsDigit(s[i]) {
        if i > 0 { assert s[i] == s[1..][i - 1]; }
      }
    }
  }

  /** A run of digits in another text is as long if it ends there too. */
  lemma {:induction false} DigitsStay(a: string, b: string)
    requires DigitsLength(a) <= |b| && b[..DigitsLength(a)] == a[..DigitsLength(a)]
    requires |b| > DigitsLength(a) ==> !IsDigit(b[DigitsLength(a)])
    ensures DigitsLength(b) == DigitsLength(a)
    decreases |a|
  {
    var n := DigitsLength(a);
    DigitsEnd(a);
    if n > 0 {
      assert b[0] == b[..n][0] && a[0] == a[..n][0];
      assert b[1..][..n - 1] == b[..n][1..] && a[1..][..n - 1] == a[..n][1..];
      DigitsStay(a[1..], b[1..]);
    }
  }

  lemma MantissaStays(a: string, b: string)
    requires var m := MantissaLength(a);
      && 0 < m <= |b| && b[..m] == a[..m]
      && (|b| > m ==> !IsDigit(b[m])) && (|b| > m && b[m] == '.' ==> |a| > m && a[m] == '.')
    ensures MantissaLength(b) == MantissaLength(a)
  {
    var m, w := MantissaLength(a), DigitsLength(a);
    DigitsEnd(a);
    forall i | 0 <= i < m ensures b[i] == a[i] { assert b[..m][i] == a[..m][i]; }
    assert b[..w] == a[..w];
    DigitsStay(a, b);
    if m > w {
      var p := DigitsLength(a[w + 1..]);
      assert b[w + 1..][..p] == a[w + 1..][..p];
      DigitsStay(a[w + 1..], b[w + 1..]);
    }
  }

  lemma ExponentStays(a: string, b: string)
    requires var x := ExponentLength(a); 0 < x <= |b| && b[..x] == a[..x] && (|b| > x ==> !IsDigit(b[x]))
    ensures ExponentLength(b) == ExponentLength(a)
  {
    var x := ExponentLength(a);
    forall i | 0 <= i < x ensures b[i] == a[i] { assert b[..x][i] == a[..x][i]; }
    var sign := if a[1] == '+' || a[1] == '-' then 2 else 1;
    var d := DigitsLength(a[sign..]);
    assert x == sign + d;
    assert b[sign..][..d] == a[sign..][..d];
    DigitsStay(a[sign..], b[sign..]);
  }

  lemma ExponentEnds(a: string)
    ensures var x := ExponentLength(a); 0 < x < |a| ==> !IsDigit(a[x])
  {
    if ExponentLength(a) > 0 {
      var sign := if a[1] == '+' || a[1] == '-' then 2 else 1;
      DigitsEnd(a[sign..]);
    }
  }

  lemma MantissaEnds(a: string)
    ensures var m := MantissaLength(a); 0 < m < |a| ==> !IsDigit(a[m])
  {
    DigitsEnd(a);
    var w := DigitsLength(a);
    if w < |a| && a[w] == '.' { DigitsEnd(a[w + 1..]); }
  }

  /**
   * What replaced text may show where the old one went on: the same character, or a parenthesis in place of a letter.
   */
  predicate FirstAlike(u: string, r: string) {
    && (|r| == 0 <==> |u| == 0)
    && (|r| > 0 ==> r[0] == u[0] || (r[0] == '(' && IsLetter(u[0])))
  }

  /** Two texts alike for three characters, as long as they agree. */
  predicate Alike(u: string, r: string) {
    && FirstAlike(u, r)
    && (|r| > 0 && r[0] == u[0] ==> FirstAlike(u[1..], r[1..]))
    && (|r| > 1 && |u| > 1 && r[0] == u[0] && r[1] == u[1] ==> FirstAlike(u[2..], r[2..]))
  }

  lemma NoExponent(u: string, r: string)
    requires Alike(u, r) && ExponentLength(u) == 0
    ensures ExponentLength(r) == 0
  {
    if |u| > 1 { DigitHead(u[1..]); }
    if |u| > 2 { DigitHead(u[2..]); }
    if |r| > 1 { DigitHead(r[1..]); }
    if |r| > 2 { DigitHead(r[2..]); }
  }

  lemma DigitHead(s: string)
    ensures DigitsLength(s) > 0 <==> |s| > 0 && IsDigit(s[0])
  {
  }

  /** A numeral in front of something alike is the same numeral. */
  lemma NumberStays(a: string, r: string)
    requires var n := NumberLength(a); n > 0 && Alike(a[n..], r)
    ensures NumberLength(a[..NumberLength(a)] + r) == NumberLength(a)
  {
    var n, m := NumberLength(a), MantissaLength(a);
    var b := a[..n] + r;
    MantissaEnds(a);
    ExponentEnds(a[m..]);
    forall i | 0 <= i < n ensures b[i] == a[i] { }
    assert b[..m] == a[..m];
    if n > m {
      assert b[m] == a[m] && a[m..][0] == a[m];
      MantissaStays(a, b);
      assert b[m..][..n - m] == a[m..][..n - m];
      assert |b| > n ==> b[m..][n - m] == r[0];
      assert |a| > n ==> a[m..][n - m] == a[n..][0];
      ExponentStays(a[m..], b[m..]);
    } else {
      assert |b| > m ==> b[m] == r[0];
      assert |a| > m ==> a[m] == a[n..][0];
      MantissaStays(a, b);
      assert b[m..] == r;
      NoExponent(a[m..], r);
    }
  }

  lemma NameStays(a: string, r: string)
    requires var n := NameLength(a); n > 0 && FirstAlike(a[n..], r)
    ensures NameLength(a[..NameLength(a)] + r) == NameLength(a)
  {
    var n := NameLength(a);
    WordEnds(a[1..]);
    var b := a[..n] + r;
    assert b[1..] == a[1..n] + r;
    forall i | 0 <= i < n - 1 ensures IsWord(a[1..n][i]) { assert a[1..n][i] == a[1..][i]; }
    assert |a| > n ==> a[1..][n - 1] == a[n..][0];
    WordRun(a[1..n], r);
  }

  /** A token in front of something alike is the same token. */
  lemma TokenStays(number: string -> real, a: string, r: string)
    requires |a| > 0 && Alike(a[TokenAt(number, a).1..], r)
    ensures TokenAt(number, a[..TokenAt(number, a).1] + r) == TokenAt(number, a)
  {
    hide NumberLength, NameLength, Alike, FirstAlike, IsDigit;
    var n := TokenAt(number, a).1;
    var b := a[..n] + r;
    assert b[0] == a[0] && b[..n] == a[..n];
    AlikeFacts(a[n..], r);
    if a[0] in {'(', ')', '+', '-', '/'} {
    } else if a[0] == '*' {
      assert n == 1 ==> (|b| > 1 ==> b[1] == r[0]) && (|a| > 1 ==> a[1] == a[n..][0]);
      assert n == 2 ==> b[1] == a[1];
    } else if NumberLength(a) > 0 {
      NumberStays(a, r);
    } else {
      PointBeginsNoName(a);
      NoNumberStays(a, r, n);
      if NameLength(a) > 0 { NameStays(a, r); } else { NoName(a, b); }
    }
  }

  lemma AlikeFacts(u: string, r: string)
    requires Alike(u, r)
    ensures FirstAlike(u, r) && (|r| == 0 <==> |u| == 0) && (|r| > 0 && r[0] != '(' ==> r[0] == u[0])
    ensures |r| > 0 && |u| > 0 && u[0] == '*' ==> r[0] == '*'
  {
  }

  lemma PointBeginsNoName(a: string)
    ensures |a| > 0 && a[0] == '.' ==> NameLength(a) == 0
  {
  }

  lemma NoName(a: string, b: string)
    requires |a| > 0 && |b| > 0 && a[0] == b[0] && NameLength(a) == 0
    ensures NameLength(b) == 0
  {
  }

  /** A text that begins with no numeral still does not. */
  lemma NoNumberStays(a: string, r: string, n: nat)
    requires 0 < n <= |a| && NumberLength(a) == 0 && FirstAlike(a[n..], r) && (n == 1 || a[0] != '.')
    ensures NumberLength(a[..n] + r) == 0
  {
    var b := a[..n] + r;
    assert b[0] == a[0];
    DigitsEnd(a);
    if a[0] == '.' {
      assert b[1..] == r && a[1..] == a[n..];
      DigitsEnd(r);
      assert DigitsLength(a[1..]) == 0;
    }
  }

  // ---------------------------------------------------------------- tokens of a replaced text

  /** A word that begins with a letter. */
  predicate IsName(formal: string) {
    IsWordText(formal) && IsLetter(formal[0])
  }

  /** From a position on, the formal stands as a word exactly where it is read as a name. */
  predicate ReadsAlike(number: string -> real, s: string, formal: string, i: nat)
    requires i <= |s|
    decreases |s| - i
  {
    i < |s| ==>
      if IsSpace(s[i]) then ReadsAlike(number, s, formal, i + 1)
      else
        var t := TokenAt(number, s[i..]);
        && (Occurs(s, formal, i) <==> t.0 == E.Ident(formal))
        && (forall k :: i < k < i + t.1 ==> !Occurs(s, formal, k))
        && ReadsAlike(number, s, formal, i + t.1)
  }

  lemma OccursLetter(s: string, formal: string, i: nat)
    requires IsName(formal) && Occurs(s, formal, i)
    ensures i < |s| && IsLetter(s[i])
  {
    assert s[i..i + |formal|][0] == s[i];
  }

  lemma ReplacedFirst(s: string, formal: Formal, actual: string, i: nat)
    requires IsName(formal) && IsLiteral(actual) && |actual| > 0 && actual[0] == '(' && i <= |s|
    ensures FirstAlike(s[i..], ReplaceFrom(s, formal, actual, i))
    ensures i < |s| && !Occurs(s, formal, i) ==>
              ReplaceFrom(s, formal, actual, i) == [s[i]] + ReplaceFrom(s, formal, actual, i + 1)
    ensures i < |s| && Occurs(s, formal, i) ==> ReplaceFrom(s, formal, actual, i)[0] == '(' && IsLetter(s[i])
  {
    hide IsLiteral, Occurs, IsName;
    if i < |s| && Occurs(s, formal, i) {
      OccursLetter(s, formal, i);
      OccursFits(s, formal, i);
      LiteralStands(actual, s, i, |formal|);
    }
  }

  lemma ReplacedAlike(s: string, formal: Formal, actual: string, i: nat)
    requires IsName(formal) && IsLiteral(actual) && |actual| > 0 && actual[0] == '(' && i <= |s|
    ensures Alike(s[i..], ReplaceFrom(s, formal, actual, i))
  {
    hide IsLiteral, Occurs, IsName, ReplaceFrom;
    ReplacedFirst(s, formal, actual, i);
    var u, r := s[i..], ReplaceFrom(s, formal, actual, i);
    if |r| > 0 && r[0] == u[0] {
      ParenthesisIsNoLetter();
      ReplacedFirst(s, formal, actual, i + 1);
      assert u[1..] == s[i + 1..] && r[1..] == ReplaceFrom(s, formal, actual, i + 1);
      if |r| > 1 && |u| > 1 && r[1] == u[1] {
        assert r[1..][0] == r[1] && u[1..][0] == u[1];
        ReplacedFirst(s, formal, actual, i + 2);
        assert u[2..] == s[i + 2..] && r[2..] == r[1..][1..];
      }
    }
  }

  lemma ParenthesisIsNoLetter()
    ensures !IsLetter('(')
  {
  }

  lemma {:induction false} CopiedUpTo(s: string, formal: Formal, actual: string, i: nat, n: nat)
    requires i + n <= |s| && forall k :: i <= k < i + n ==> !Occurs(s, formal, k)
    ensures ReplaceFrom(s, formal, actual, i) == s[i..i + n] + ReplaceFrom(s, formal, actual, i + n)
    decreases n
  {
    hide Occurs, ReplaceFrom;
    if n > 0 {
      CharCopied(s, formal, actual, i);
      CopiedUpTo(s, formal, actual, i + 1, n - 1);
      assert s[i..i + n] == [s[i]] + s[i + 1..i + n];
    }
  }

  /** A closing parenthesis, or white space. */
  predicate BeginsStop(tail: string) {
    |tail| > 0 && (tail[0] == ')' || IsSpace(tail[0]))
  }

  /** It ends whatever stands before it. */
  lemma {:induction false} TokensEndAtStop(number: string -> real, x: string, tail: string)
    requires BeginsStop(tail)
    ensures Tokens(number, x + tail) == Tokens(number, x) + Tokens(number, tail)
    decreases |x|
  {
    hide TokenAt, IsSpace, BeginsStop;
    var all := x + tail;
    if |x| == 0 {
      assert all == tail;
    } else if IsSpace(x[0]) {
      assert all[1..] == x[1..] + tail;
      TokensEndAtStop(number, x[1..], tail);
    } else {
      var n := TokenAt(number, x).1;
      TokenBeforeStop(number, x, tail);
      assert all[n..] == x[n..] + tail;
      TokensEndAtStop(number, x[n..], tail);
    }
  }

  lemma CloseToken(number: string -> real, y: string)
    ensures Tokens(number, ")" + y) == [E.Close] + Tokens(number, y)
    ensures Tokens(number, "(" + y) == [E.Open] + Tokens(number, y)
  {
    assert (")" + y)[1..] == y && ("(" + y)[1..] == y;
  }

  lemma StopIsNoPart(tail: string)
    requires BeginsStop(tail)
    ensures |tail| > 0 && !IsWord(tail[0]) && tail[0] !in {'.', '+', '-', '*'}
  {
  }

  lemma DigitsBeforeStop(x: string, tail: string)
    requires BeginsStop(tail)
    ensures DigitsLength(x + tail) == DigitsLength(x)
  {
    hide BeginsStop;
    StopIsNoPart(tail);
    var all := x + tail;
    DigitsEnd(x);
    assert all[..DigitsLength(x)] == x[..DigitsLength(x)];
    DigitsStay(x, all);
  }

  lemma MantissaBeforeStop(x: string, tail: string)
    requires BeginsStop(tail)
    ensures MantissaLength(x + tail) == MantissaLength(x)
  {
    hide BeginsStop;
    StopIsNoPart(tail);
    var all, w := x + tail, DigitsLength(x);
    DigitsBeforeStop(x, tail);
    if w < |x| && x[w] == '.' {
      assert all[w + 1..] == x[w + 1..] + tail;
      DigitsBeforeStop(x[w + 1..], tail);
    }
  }

  lemma ExponentBeforeStop(x: string, tail: string)
    requires BeginsStop(tail)
    ensures ExponentLength(x + tail) == ExponentLength(x)
  {
    hide BeginsStop;
    StopIsNoPart(tail);
    var all := x + tail;
    if |x| > 0 && (x[0] == 'e' || x[0] == 'E') {
      if |x| > 1 {
        assert all[1] == x[1];
        var sign := if x[1] == '+' || x[1] == '-' then 2 else 1;
        assert all[sign..] == x[sign..] + tail;
        DigitsBeforeStop(x[sign..], tail);
      } else {
        assert all[1..] == tail;
      }
    }
  }

  lemma TokenBeforeStop(number: string -> real, x: string, tail: string)
    requires |x| > 0 && !IsSpace(x[0]) && BeginsStop(tail)
    ensures TokenAt(number, x + tail) == TokenAt(number, x)
  {
    hide MantissaLength, ExponentLength, BeginsStop, IsSpace;
    StopIsNoPart(tail);
    var all := x + tail;
    assert all[0] == x[0] && (|x| > 1 ==> all[1] == x[1]) && (|x| == 1 ==> all[1] == tail[0]);
    MantissaBeforeStop(x, tail);
    var m := MantissaLength(x);
    assert all[m..] == x[m..] + tail;
    ExponentBeforeStop(x[m..], tail);
    assert NumberLength(all) == NumberLength(x);
    assert all[..NumberLength(x)] == x[..NumberLength(x)];
    NameBeforeStop(x, tail);
    assert all[..NameLength(x)] == x[..NameLength(x)];
  }

  lemma NameBeforeStop(x: string, tail: string)
    requires |x| > 0 && BeginsStop(tail)
    ensures NameLength(x + tail) == NameLength(x)
  {
    hide BeginsStop;
    StopIsNoPart(tail);
    var all := x + tail;
    if BeginsName(x[0]) {
      WordEnds(x[1..]);
      var w := WordLength(x[1..]);
      assert all[1..] == x[1..][..w] + (x[1..][w..] + tail);
      WordRun(x[1..][..w], x[1..][w..] + tail);
    }
  }

  lemma BracketsAround(number: string -> real, actual: string, rest: string)
    ensures Tokens(number, "(" + actual + ")" + rest)
      == [E.Open] + Tokens(number, actual) + [E.Close] + Tokens(number, rest)
  {
    hide Tokens;
    assert "(" + actual + ")" + rest == "(" + (actual + (")" + rest));
    CloseToken(number, actual + (")" + rest));
    CloseToken(number, rest);
    TokensEndAtStop(number, actual, ")" + rest);
  }

  lemma SubstituteFirst(t: E.Token, rest: seq<E.Token>, formal: string, actual: seq<E.Token>)
    ensures S.Substitute([t] + rest, formal, actual)
         == (if t == E.Ident(formal) then [E.Open] + actual + [E.Close] else [t]) + S.Substitute(rest, formal, actual)
  {
    assert ([t] + rest)[1..] == rest;
  }

  /** The formal's own token is as long as the formal. */
  lemma FormalToken(number: string -> real, s: string, formal: string, i: nat)
    requires i < |s| && !IsSpace(s[i]) && TokenAt(number, s[i..]).0 == E.Ident(formal)
    ensures TokenAt(number, s[i..]).1 == |formal|
  {
  }

  /** Replacing in the text is substituting in the tokens. */
  lemma {:induction false} TokensReplaced(number: string -> real, s: string, formal: Formal, actual: string, i: nat)
    requires IsName(formal) && IsLiteral("(" + actual + ")") && i <= |s| && ReadsAlike(number, s, formal, i)
    ensures Tokens(number, ReplaceFrom(s, formal, "(" + actual + ")", i))
         == S.Substitute(Tokens(number, s[i..]), formal, Tokens(number, actual))
    decreases |s| - i
  {
    hide IsLiteral, Occurs, IsName, TokenAt, IsSpace, S.Substitute, ReplaceFrom;
    var a, given := "(" + actual + ")", Tokens(number, actual);
    if i == |s| {
      EndReplaced(number, s, formal, a, given);
    } else if IsSpace(s[i]) {
      TokensReplaced(number, s, formal, actual, i + 1);
      SpaceReplaced(s, formal, a, i);
      assert s[i..][1..] == s[i + 1..];
    } else {
      var t := TokenAt(number, s[i..]);
      var rest := ReplaceFrom(s, formal, a, i + t.1);
      TokensReplaced(number, s, formal, actual, i + t.1);
      assert s[i..][t.1..] == s[i + t.1..] && s[i..][0] == s[i];
      assert Tokens(number, s[i..]) == [t.0] + Tokens(number, s[i + t.1..]);
      SubstituteFirst(t.0, Tokens(number, s[i + t.1..]), formal, given);
      if t.0 == E.Ident(formal) {
        FormalToken(number, s, formal, i);
        WordReplaced(s, formal, a, i);
        BracketsAround(number, actual, rest);
        assert a + rest == "(" + actual + ")" + rest;
      } else {
        CopiedUpTo(s, formal, a, i, t.1);
        assert s[i..][..t.1] == s[i..i + t.1];
        ReplacedAlike(s, formal, a, i + t.1);
        OneTokenOn(number, s[i..], rest);
      }
    }
  }

  lemma OneTokenOn(number: string -> real, a: string, rest: string)
    requires |a| > 0 && !IsSpace(a[0]) && Alike(a[TokenAt(number, a).1..], rest)
    ensures var t := TokenAt(number, a); Tokens(number, a[..t.1] + rest) == [t.0] + Tokens(number, rest)
  {
    hide TokenAt, IsSpace, Alike;
    var n := TokenAt(number, a).1;
    TokenStays(number, a, rest);
    var b := a[..n] + rest;
    assert b[0] == a[0] && b[n..] == rest;
  }

  lemma EndReplaced(number: string -> real, s: string, formal: Formal, a: string, given: seq<E.Token>)
    ensures Tokens(number, ReplaceFrom(s, formal, a, |s|)) == S.Substitute(Tokens(number, s[|s|..]), formal, given)
  {
  }

  lemma SpaceReplaced(s: string, formal: Formal, a: string, i: nat)
    requires i < |s| && IsSpace(s[i]) && IsName(formal)
    ensures ReplaceFrom(s, formal, a, i) == [s[i]] + ReplaceFrom(s, formal, a, i + 1)
    ensures ([s[i]] + ReplaceFrom(s, formal, a, i + 1))[1..] == ReplaceFrom(s, formal, a, i + 1)
  {
    hide Occurs;
    SpaceIsNoLetter(s[i]);
    if Occurs(s, formal, i) { OccursLetter(s, formal, i); }
  }

  lemma SpaceIsNoLetter(c: char)
    ensures IsSpace(c) ==> !IsLetter(c)
  {
  }

  /**
   * A parameter of a gate body, with a formal replaced by a bracketed actual, has the value of the parameter with the
   * formal bound to the value of the actual, or is rejected with it.
   */
  lemma ReplacedTextHasBoundValue(env: E.Env, number: string -> real, text: string, formal: Formal, actual: string)
    requires IsName(formal) && IsLiteral("(" + actual + ")") && ReadsAlike(number, text, formal, 0)
    requires S.IsActual(env, Tokens(number, actual)) && S.Spaced(Tokens(number, text), formal)
    ensures E.Evaluate(env, Tokens(number, ReplaceWord(text, formal, "(" + actual + ")")))
         == E.Evaluate(S.Bind(env, formal, E.Evaluate(env, Tokens(number, actual))), Tokens(number, text))
  {
    hide IsLiteral, IsName, ReadsAlike, Tokens, S.Spaced, S.IsActual, E.Evaluate, S.Bind;
    assert text[0..] == text;
    TokensReplaced(number, text, formal, actual, 0);
    S.SubstitutionCommutes(env, Tokens(number, text), formal, Tokens(number, actual));
  }

  // ---------------------------------------------------------------- a numeral that mentions the formal

  /** A numeral like `1.e5` behind whose point a formal stands. */
  predicate IsTornCase(text: string, formal: string, whole: string, power: string) {
    && AllDigits(whole) && AllDigits(power) && |whole| > 0 && |power| > 0
    && formal == "e" + power && text == whole + ("." + formal)
  }

  lemma TornMantissa(whole: string, behind: string)
    requires AllDigits(whole) && |whole| > 0 && (|behind| > 0 ==> !IsDigit(behind[0]))
    ensures MantissaLength(whole + ("." + behind)) == |whole| + 1
  {
    var s := whole + ("." + behind);
    DigitRun(whole, "." + behind);
    assert s[|whole|] == '.' && s[|whole| + 1..] == behind;
    DigitHead(behind);
  }

  lemma TornExponent(power: string)
    requires AllDigits(power) && |power| > 0
    ensures ExponentLength("e" + power) == 1 + |power|
  {
    assert ("e" + power)[1..] == power && power + "" == power;
    DigitRun(power, "");
  }

  lemma TornReplaced(text: string, formal: Formal, whole: string, power: string, a: string)
    requires IsTornCase(text, formal, whole, power) && IsLiteral(a)
    ensures ReplaceWord(text, formal, a) == whole + ("." + a)
  {
    var none := "";
    FormalIsWord(formal, power);
    DigitsAreWord(whole);
    hide IsWordText, IsLiteral, ReplaceWord;
    ReplaceConcat(whole, "." + formal, formal, a);
    ReplaceConcat(".", formal, formal, a);
    ReplaceOneWord(whole, formal, a);
    ReplaceOneWord(formal, formal, a);
    ReplaceGap('.', formal, a);
    DigitIsNoLetter(whole[0]);
    assert formal[0] == 'e';
  }

  lemma DigitIsNoLetter(c: char)
    ensures IsDigit(c) ==> !IsLetter(c) && c != 'e'
  {
  }

  lemma FormalIsWord(formal: string, power: string)
    requires AllDigits(power) && formal == "e" + power
    ensures IsWordText(formal)
  {
  }

  lemma DigitsAreWord(whole: string)
    requires AllDigits(whole) && |whole| > 0
    ensures IsWordText(whole)
  {
  }

  lemma FirstDigit(whole: string, behind: string)
    requires AllDigits(whole) && |whole| > 0
    ensures var s := whole + behind;
      |s| > 0 && IsDigit(s[0]) && !IsSpace(s[0]) && s[0] !in {'(', ')', '+', '-', '/', '*'}
  {
  }

  lemma NumeralToken(number: string -> real, s: string, n: nat)
    requires |s| > 0 && !IsSpace(s[0]) && s[0] !in {'(', ')', '+', '-', '/', '*'} && 0 < n == NumberLength(s)
    ensures Tokens(number, s) == [E.Num(number(s[..n]))] + Tokens(number, s[n..])
  {
    hide NumberLength, NameLength, IsSpace;
  }

  lemma OneNumber(env: E.Env, v: real, behind: seq<E.Token>)
    ensures E.Evaluate(env, [E.Num(v)]) == Some(v)
    ensures |behind| > 0 && behind[0] == E.Open ==> E.Evaluate(env, [E.Num(v)] + behind).None?
  {
    var ts := [E.Num(v)] + behind;
    assert ts[1..] == behind && [E.Num(v)][1..] == [];
    assert E.Atom(env, ts) == Some((v, behind)) && E.Atom(env, [E.Num(v)]) == Some((v, []));
    if |behind| > 0 && behind[0] == E.Open {
      assert E.Power(env, ts) == Some((v, behind));
      assert E.Unary(env, ts) == Some((v, behind));
      assert E.Term(env, ts) == Some((v, behind));
      assert E.Expression(env, ts) == Some((v, behind));
    }
    assert E.Power(env, [E.Num(v)]) == Some((v, []));
    assert E.Unary(env, [E.Num(v)]) == Some((v, []));
    assert E.Term(env, [E.Num(v)]) == Some((v, []));
    assert E.Expression(env, [E.Num(v)]) == Some((v, []));
  }

  /**
   * Such a number has a value, which no binding changes; once a formal called like its exponent is replaced it has
   * none.
   */
  lemma NumeralIsTornApart(
    env: E.Env, number: string -> real, text: string, formal: Formal, whole: string, power: string, actual: string)
    requires IsTornCase(text, formal, whole, power) && IsLiteral("(" + actual + ")")
    ensures E.Evaluate(env, Tokens(number, text)) == Some(number(text))
    ensures E.Evaluate(env, Tokens(number, ReplaceWord(text, formal, "(" + actual + ")"))).None?
    ensures !ReadsAlike(number, text, formal, 0)
  {
    hide IsLiteral, E.Evaluate, IsSpace;
    var a := "(" + actual + ")";
    TornReplaced(text, formal, whole, power, a);
    TornExponent(power);
    TornMantissa(whole, formal);
    TornMantissa(whole, a);
    hide MantissaLength, ExponentLength, ReplaceWord;
    FirstDigit(whole, "." + formal);
    FirstDigit(whole, "." + a);
    var m := |whole| + 1;
    assert text[m..] == formal && (whole + ("." + a))[m..] == a;
    assert NumberLength(text) == |text| && text[..|text|] == text && text[|text|..] == "";
    NoExponentHere(a);
    NumeralToken(number, text, |text|);
    assert [E.Num(number(text))] + [] == [E.Num(number(text))];
    NumeralToken(number, whole + ("." + a), m);
    assert a == "(" + (actual + ")");
    CloseToken(number, actual + ")");
    OneNumber(env, number(text), []);
    OneNumber(env, number((whole + ("." + a))[..m]), Tokens(number, a));
    TornOccurs(number, text, formal, whole, power, m);
  }

  lemma NoExponentHere(a: string)
    requires |a| > 0 && a[0] == '('
    ensures ExponentLength(a) == 0
  {
  }

  lemma TornOccurs(number: string -> real, text: string, formal: Formal, whole: string, power: string, m: nat)
    requires IsTornCase(text, formal, whole, power) && m == |whole| + 1 && NumberLength(text) == |text|
    ensures !ReadsAlike(number, text, formal, 0)
  {
    hide NumberLength, NameLength, IsSpace;
    assert text[0..] == text;
    FirstDigit(whole, "." + formal);
    assert text[m..m + |formal|] == formal && text[m - 1] == '.';
    assert WordAt(text, m) && !WordAt(text, m - 1);
    assert WordAt(text, |text| - 1) by { assert text[|text| - 1] == power[|power| - 1]; }
    assert Occurs(text, formal, m);
    assert TokenAt(number, text).1 == |text|;
    hide Occurs, TokenAt;
    NoneInside(number, text, formal, 0, m);
  }

  lemma NoneInside(number: string -> real, s: string, formal: string, i: nat, k: nat)
    requires i < |s| && !IsSpace(s[i]) && Occurs(s, formal, k) && i < k < i + TokenAt(number, s[i..]).1
    ensures !ReadsAlike(number, s, formal, i)
  {
    hide Occurs, TokenAt, IsSpace;
  }
}
