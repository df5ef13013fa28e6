/**
 * When replacing formals in the text of a parameter gives it the value of the bound formals
 * (src/circuit/qasm3.ts:323-339, src/engine/parameters.ts:129-165): exactly when they stand where they are read as
 * names, for a text that has a value.
 */
module ParameterExactness {
  import opened Options
  import opened QasmText
  import opened QasmReader
  import opened QasmLexing
  import opened TextSubstitution
  import opened Parameters
  import opened ParameterSubstitution
  import E = Expressions
  import S = Substitution
  import J = Juxtaposition

  const PI_NAME := ['\U{3C0}']

  /**
   * Neighbours a replacement leaves where it tears a token: a numeral in front of a value, pi written like a function.
   */
  predicate AreTorn(a: E.Token, b: E.Token) {
    (a.Num? && (b == E.Open || b.Ident?)) || (a == E.Ident(PI_NAME) && b == E.Open)
  }

  ghost predicate HasTear(ts: seq<E.Token>) {
    exists j: nat :: j + 1 < |ts| && AreTorn(ts[j], ts[j + 1])
  }

  lemma TearRejects(env: E.Env, ts: seq<E.Token>)
    requires HasTear(ts) && env.function_(PI_NAME).None?
    ensures E.Evaluate(env, ts).None?
  {
    hide E.Evaluate;
    var j: nat :| j + 1 < |ts| && AreTorn(ts[j], ts[j + 1]);
    J.Misfit(env, ts, j);
  }

  lemma TearBehind(before: seq<E.Token>, ts: seq<E.Token>)
    requires HasTear(ts)
    ensures HasTear(before + ts)
  {
    hide AreTorn;
    var j: nat :| j + 1 < |ts| && AreTorn(ts[j], ts[j + 1]);
    var all, k := before + ts, |before| + j;
    assert all[k] == ts[j] && all[k + 1] == ts[j + 1];
  }

  lemma TearInFront(a: E.Token, b: E.Token, ts: seq<E.Token>)
    requires AreTorn(a, b)
    ensures HasTear([a] + ([b] + ts))
  {
    hide AreTorn;
    var all := [a] + ([b] + ts);
    assert all[0] == a && all[0 + 1] == b;
  }

  /** No substitution mends a tear. */
  lemma {:induction false} TearStays(ts: seq<E.Token>, formal: string, actual: seq<E.Token>)
    requires HasTear(ts) && formal != PI_NAME
    ensures HasTear(S.Substitute(ts, formal, actual))
    decreases |ts|
  {
    var rest := S.Substitute(ts[1..], formal, actual);
    var j: nat :| j + 1 < |ts| && AreTorn(ts[j], ts[j + 1]);
    if j == 0 {
      assert ts[1..][0] == ts[1];
      assert rest == [rest[0]] + rest[1..];
      TearInFront(ts[0], rest[0], rest[1..]);
    } else {
      assert ts[1..][j - 1] == ts[j] && ts[1..][j - 1 + 1] == ts[j + 1];
      TearStays(ts[1..], formal, actual);
      TearBehind(if ts[0] == E.Ident(formal) then [E.Open] + actual + [E.Close] else [ts[0]], rest);
    }
  }

  // ---------------------------------------------------------------- where a formal can stand

  /** Where the formal stands, its name is read, if a token begins there. */
  lemma OccurrenceIsRead(number: string -> real, s: string, formal: string, i: nat)
    requires IsName(formal) && i < |s| && Occurs(s, formal, i)
    ensures !IsSpace(s[i]) && TokenAt(number, s[i..]) == (E.Ident(formal), |formal|)
  {
    OccursLetter(s, formal, i);
    var a, n := s[i..], |formal|;
    assert a[..n] == formal && a[0] == formal[0];
    assert a[1..] == formal[1..] + s[i + n..];
    assert WordAt(s, i + n - 1) by { assert s[i..i + n][n - 1] == s[i + n - 1]; }
    WordRun(formal[1..], s[i + n..]);
    assert NameLength(a) == n;
    LetterBeginsNoNumber(a);
    hide NumberLength;
  }

  lemma LetterBeginsNoNumber(a: string)
    requires |a| > 0 && BeginsName(a[0])
    ensures NumberLength(a) == 0 && !IsSpace(a[0]) && a[0] !in {'(', ')', '+', '-', '/', '*'}
  {
  }

  /** The characters of a numeral are no letters, but for one behind the mantissa. */
  lemma NumeralChars(a: string, j: nat)
    requires j < NumberLength(a) && j != MantissaLength(a)
    ensures !IsLetter(a[j])
  {
    var m, w := MantissaLength(a), DigitsLength(a);
    DigitsEnd(a);
    if j < m {
      if j > w {
        DigitsEnd(a[w + 1..]);
        assert a[j] == a[w + 1..][j - w - 1];
      }
    } else {
      var b := a[m..];
      var sign := if b[1] == '+' || b[1] == '-' then 2 else 1;
      DigitsEnd(b[sign..]);
      assert a[j] == b[j - m];
      assert j - m >= sign ==> b[j - m] == b[sign..][j - m - sign];
    }
  }

  /** Inside a token the formal stands only behind the mantissa of a numeral, or behind a Greek pi. */
  predicate IsInside(s: string, i: nat, k: nat) {
    && i < k < |s| && IsLetter(s[k]) && !IsWord(s[k - 1])
    && if s[i] == '\U{3C0}' then k == i + 1
       else NumberLength(s[i..]) > 0 && k == i + MantissaLength(s[i..])
  }

  lemma InsideToken(number: string -> real, s: string, formal: string, i: nat, k: nat)
    requires IsName(formal) && i < |s| && !IsSpace(s[i]) && i < k < i + TokenAt(number, s[i..]).1
      && Occurs(s, formal, k)
    ensures IsInside(s, i, k) && s[i] !in {'(', ')', '+', '-', '/', '*'}
  {
    hide Occurs, IsName, IsSpace, TokenAt, NumberLength, MantissaLength, NameLength, BeginsName;
    OccurrenceStarts(s, formal, k);
    var a := s[i..];
    assert a[0] == s[i] && a[k - i] == s[k] && a[k - i - 1] == s[k - 1];
    InsideNumeralOrName(number, a, k - i);
    if NumberLength(a) > 0 {
      if k != i + MantissaLength(a) { NumeralChars(a, k - i); }
      PiIsNoNumeral(a);
    } else {
      InsideName(a, k - i);
    }
  }

  /** The formal begins with a letter, behind no word character. */
  lemma OccurrenceStarts(s: string, formal: string, k: nat)
    requires IsName(formal) && Occurs(s, formal, k) && k > 0
    ensures k < |s| && IsLetter(s[k]) && !IsWord(s[k - 1])
  {
    OccursLetter(s, formal, k);
    assert WordAt(s, k);
  }

  /** Only numerals and names have letters inside. */
  lemma InsideNumeralOrName(number: string -> real, a: string, k: nat)
    requires |a| > 0 && 0 < k < TokenAt(number, a).1 && IsLetter(a[k])
    ensures a[0] !in {'(', ')', '+', '-', '/', '*'}
    ensures k < if NumberLength(a) > 0 then NumberLength(a) else NameLength(a)
  {
    hide NumberLength, NameLength;
  }

  lemma InsideName(a: string, k: nat)
    requires 0 < k < NameLength(a) && !IsWord(a[k - 1])
    ensures k == 1 && a[0] == '\U{3C0}'
  {
    WordEnds(a[1..]);
    assert forall j :: 0 <= j < |a| - 1 ==> a[1..][j] == a[j + 1];
  }

  lemma PiIsNoNumeral(a: string)
    requires NumberLength(a) > 0
    ensures |a| > 0 && !BeginsName(a[0]) && a[0] != '\U{3C0}'
  {
  }

  lemma InsideIsOnce(s: string, i: nat, k: nat, other: nat)
    requires IsInside(s, i, k) && IsInside(s, i, other)
    ensures other == k
  {
  }

  /** What begins a token in front of a formal inside it. */
  lemma CutToken(number: string -> real, s: string, i: nat, k: nat, more: string)
    requires IsInside(s, i, k) && !IsSpace(s[i]) && s[i] !in {'(', ')', '+', '-', '/', '*'}
    ensures var cut := s[i..k] + ("(" + more);
      && |cut| > 0 && !IsSpace(cut[0])
      && (TokenAt(number, cut).0.Num? || TokenAt(number, cut).0 == E.Ident(PI_NAME))
      && TokenAt(number, cut).1 == k - i
  {
    var a, n, cut := s[i..], k - i, s[i..k] + ("(" + more);
    assert cut[0] == s[i] && a[..n] == s[i..k] && cut[n..] == "(" + more;
    if s[i] == '\U{3C0}' {
      LetterBeginsNoNumber(cut);
      assert cut[1..] == "(" + more && cut[..1] == PI_NAME;
      hide NumberLength;
      assert NameLength(cut) == 1;
    } else {
      assert cut[..n] == a[..n] && cut[n] == '(';
      MantissaStays(a, cut);
      NoExponentHere("(" + more);
      assert NumberLength(cut) == n;
    }
  }

  // ---------------------------------------------------------------- a formal read as something else

  /** From a position on, where the name of the formal is read the formal stands. */
  predicate HeadReads(number: string -> real, s: string, formal: string, i: nat) {
    i < |s| && !IsSpace(s[i]) && TokenAt(number, s[i..]).0 == E.Ident(formal) ==> Occurs(s, formal, i)
  }

  /** A name not behind a word is the formal as a word. */
  lemma NameStands(number: string -> real, s: string, formal: string, i: nat)
    requires IsName(formal) && i < |s| && !IsSpace(s[i]) && TokenAt(number, s[i..]).0 == E.Ident(formal)
    requires !WordAt(s, i - 1)
    ensures Occurs(s, formal, i)
  {
    var a, n := s[i..], |formal|;
    hide NumberLength;
    assert NameLength(a) == n && a[..n] == formal;
    WordEnds(a[1..]);
    assert s[i..i + n] == formal && s[i] == formal[0];
    assert WordAt(s, i + n - 1) by { assert s[i..i + n][n - 1] == s[i + n - 1]; }
    assert i + n < |s| ==> a[1..][n - 1] == s[i + n];
  }

  /** Behind a token that does not end in a digit, the head reads. */
  lemma HeadBehind(number: string -> real, s: string, formal: string, i: nat)
    requires IsName(formal) && i < |s| && !IsSpace(s[i])
    ensures var t := TokenAt(number, s[i..]); t.0.Num? || HeadReads(number, s, formal, i + t.1)
  {
    var a := s[i..];
    var t := TokenAt(number, a);
    var j := i + t.1;
    if j < |s| && !IsSpace(s[j]) && TokenAt(number, s[j..]).0 == E.Ident(formal) && !t.0.Num? {
      NotBehindWord(number, s, i);
      FirstOfName(number, s[j..], formal);
      assert s[j..][0] == s[j];
      hide TokenAt, WordAt;
      NameStands(number, s, formal, j);
    }
  }

  lemma FirstOfName(number: string -> real, a: string, formal: string)
    requires IsName(formal) && |a| > 0 && !IsSpace(a[0]) && TokenAt(number, a).0 == E.Ident(formal)
    ensures IsLetter(a[0])
  {
    hide NumberLength;
    assert a[..NameLength(a)][0] == a[0];
  }

  /** A token that is no numeral ends in no word character, or no word character follows it. */
  lemma NotBehindWord(number: string -> real, s: string, i: nat)
    requires i < |s| && !IsSpace(s[i])
    ensures var t := TokenAt(number, s[i..]);
      !t.0.Num? && i + t.1 < |s| && IsWord(s[i + t.1]) ==> !WordAt(s, i + t.1 - 1)
  {
    var a := s[i..];
    var t := TokenAt(number, a);
    assert a[0] == s[i] && (i + t.1 < |s| ==> a[t.1] == s[i + t.1]) && s[i + t.1 - 1] == a[t.1 - 1];
    if NumberLength(a) == 0 && NameLength(a) > 0 {
      WordEnds(a[1..]);
      assert t.1 < |a| ==> a[t.1] == a[1..][t.1 - 1];
    } else if NumberLength(a) == 0 {
      DigitBeginsNumber(a);
    }
    hide NumberLength, NameLength;
  }

  lemma DigitBeginsNumber(a: string)
    requires |a| > 0 && NumberLength(a) == 0 && NameLength(a) == 0
    ensures !IsWord(a[0])
  {
  }

  /**
   * Where the formal stands inside a token, the opening parenthesis of the actual follows what is left of the token.
   */
  lemma InsideTears(number: string -> real, s: string, formal: Formal, actual: string, i: nat, k: nat)
    requires IsName(formal) && IsLiteral("(" + actual + ")")
    requires i < |s| && !IsSpace(s[i]) && i < k < i + TokenAt(number, s[i..]).1 && Occurs(s, formal, k)
    requires !Occurs(s, formal, i)
    ensures HasTear(Tokens(number, ReplaceFrom(s, formal, "(" + actual + ")", i)))
  {
    hide Occurs, IsName, IsLiteral, TokenAt, IsSpace, ReplaceFrom, IsInside;
    var a := "(" + actual + ")";
    InsideToken(number, s, formal, i, k);
    forall j | i <= j < k ensures !Occurs(s, formal, j) {
      if j > i && Occurs(s, formal, j) {
        InsideToken(number, s, formal, i, j);
        InsideIsOnce(s, i, k, j);
      }
    }
    CopiedUpTo(s, formal, a, i, k - i);
    WordReplaced(s, formal, a, k);
    var rest := actual + ")" + ReplaceFrom(s, formal, a, k + |formal|);
    var cut := s[i..k] + ("(" + rest);
    assert ReplaceFrom(s, formal, a, i) == cut;
    CutToken(number, s, i, k, rest);
    var t := TokenAt(number, cut);
    assert cut[t.1..] == "(" + rest;
    CloseToken(number, rest);
    assert Tokens(number, cut) == [t.0] + ([E.Open] + Tokens(number, rest));
    TearInFront(t.0, E.Open, Tokens(number, rest));
  }

  /** A name read right behind a numeral, where the formal does not stand, is still read there afterwards. */
  lemma NameBehindNumeral(number: string -> real, s: string, formal: Formal, actual: string, i: nat)
    requires IsName(formal) && IsLiteral("(" + actual + ")") && i <= |s| && !HeadReads(number, s, formal, i)
    ensures var r := Tokens(number, ReplaceFrom(s, formal, "(" + actual + ")", i)); |r| > 0 && r[0] == E.Ident(formal)
  {
    hide Occurs, IsName, IsLiteral, IsSpace, ReplaceFrom, TokenAt;
    var a, t := "(" + actual + ")", TokenAt(number, s[i..]);
    FormalToken(number, s, formal, i);
    FirstOfName(number, s[i..], formal);
    assert s[i..][0] == s[i];
    forall k | i <= k < i + t.1 ensures !Occurs(s, formal, k) {
      if k > i && Occurs(s, formal, k) {
        InsideToken(number, s, formal, i, k);
        LetterIsNotInside(s, i, k);
      }
    }
    CopiedUpTo(s, formal, a, i, t.1);
    assert s[i..][..t.1] == s[i..i + t.1] && s[i..][t.1..] == s[i + t.1..];
    ReplacedAlike(s, formal, a, i + t.1);
    OneTokenOn(number, s[i..], ReplaceFrom(s, formal, a, i + t.1));
  }

  lemma LetterIsNotInside(s: string, i: nat, k: nat)
    requires i < |s| && IsLetter(s[i])
    ensures !IsInside(s, i, k)
  {
    if NumberLength(s[i..]) > 0 { PiIsNoNumeral(s[i..]); }
    hide NumberLength, MantissaLength;
  }

  /** A formal that is read as something else, or is read where it does not stand, leaves a text no reading accepts. */
  lemma {:induction false} UnalikeTears(
    number: string -> real, s: string, formal: Formal, actual: string, i: nat)
    requires IsName(formal) && IsLiteral("(" + actual + ")")
    requires i <= |s| && !ReadsAlike(number, s, formal, i) && HeadReads(number, s, formal, i)
    ensures HasTear(Tokens(number, ReplaceFrom(s, formal, "(" + actual + ")", i)))
    decreases |s| - i
  {
    hide IsLiteral, Occurs, IsName, TokenAt, IsSpace, ReplaceFrom, HasTear;
    var a := "(" + actual + ")";
    if IsSpace(s[i]) {
      SpaceReplaced(s, formal, a, i);
      HeadBehindSpace(number, s, formal, i);
      UnalikeTears(number, s, formal, actual, i + 1);
    } else {
      var t := TokenAt(number, s[i..]);
      if Occurs(s, formal, i) { OccurrenceIsRead(number, s, formal, i); }
      if k :| i < k < i + t.1 && Occurs(s, formal, k) {
        if Occurs(s, formal, i) {
          InsideToken(number, s, formal, i, k);
          OccursLetter(s, formal, i);
          LetterIsNotInside(s, i, k);
        } else {
          InsideTears(number, s, formal, actual, i, k);
        }
      } else {
        LaterTears(number, s, formal, actual, i);
      }
    }
  }

  lemma HeadBehindSpace(number: string -> real, s: string, formal: string, i: nat)
    requires IsName(formal) && i < |s| && IsSpace(s[i])
    ensures HeadReads(number, s, formal, i + 1)
  {
    SpaceIsNoWord(s[i]);
    hide IsSpace, TokenAt, Occurs;
    if !HeadReads(number, s, formal, i + 1) { NameStands(number, s, formal, i + 1); }
  }

  lemma SpaceIsNoWord(c: char)
    ensures IsSpace(c) ==> !IsWord(c)
  {
  }

  lemma {:induction false} LaterTears(
    number: string -> real, s: string, formal: Formal, actual: string, i: nat)
    requires IsName(formal) && IsLiteral("(" + actual + ")")
    requires i < |s| && !IsSpace(s[i]) && (Occurs(s, formal, i) <==> TokenAt(number, s[i..]).0 == E.Ident(formal))
    requires var j := i + TokenAt(number, s[i..]).1;
      !ReadsAlike(number, s, formal, j) && forall k :: i < k < j ==> !Occurs(s, formal, k)
    ensures HasTear(Tokens(number, ReplaceFrom(s, formal, "(" + actual + ")", i)))
    decreases |s| - i, 0
  {
    hide IsLiteral, Occurs, IsName, TokenAt, IsSpace, ReplaceFrom, HasTear, HeadReads, ReadsAlike;
    var a, t := "(" + actual + ")", TokenAt(number, s[i..]);
    var j := i + t.1;
    var rest := ReplaceFrom(s, formal, a, j);
    HeadBehind(number, s, formal, i);
    assert s[i..][0] == s[i] && s[i..][..t.1] == s[i..j] && s[i..][t.1..] == s[j..];
    if HeadReads(number, s, formal, j) { UnalikeTears(number, s, formal, actual, j); }
    if t.0 == E.Ident(formal) {
      FormalToken(number, s, formal, i);
      WordReplaced(s, formal, a, i);
      BracketsAround(number, actual, rest);
      TearBehind([E.Open] + Tokens(number, actual) + [E.Close], Tokens(number, rest));
    } else {
      CopiedUpTo(s, formal, a, i, t.1);
      ReplacedAlike(s, formal, a, j);
      OneTokenOn(number, s[i..], rest);
      if HeadReads(number, s, formal, j) {
        TearBehind([t.0], Tokens(number, rest));
      } else {
        NameBehindNumeral(number, s, formal, actual, j);
        var ts := Tokens(number, rest);
        assert ts == [ts[0]] + ts[1..];
        TearInFront(t.0, ts[0], ts[1..]);
      }
    }
  }

  lemma UnalikeIsTorn(number: string -> real, text: string, formal: Formal, actual: string)
    requires IsName(formal) && IsLiteral("(" + actual + ")") && !ReadsAlike(number, text, formal, 0)
    ensures HasTear(Tokens(number, ReplaceWord(text, formal, "(" + actual + ")")))
  {
    hide IsLiteral, IsName, ReadsAlike, Tokens, HasTear, Occurs, TokenAt, IsSpace;
    if !HeadReads(number, text, formal, 0) { NameStands(number, text, formal, 0); }
    UnalikeTears(number, text, formal, actual, 0);
  }

  /**
   * A parameter in which the formal does not stand just where it is read has no value once the formal is replaced,
   * whatever the actual.
   */
  lemma UnalikeIsRejected(env: E.Env, number: string -> real, text: string, formal: Formal, actual: string)
    requires IsName(formal) && IsLiteral("(" + actual + ")") && env.function_(PI_NAME).None?
    requires !ReadsAlike(number, text, formal, 0)
    ensures E.Evaluate(env, Tokens(number, ReplaceWord(text, formal, "(" + actual + ")"))).None?
  {
    hide IsLiteral, IsName, ReadsAlike, Tokens, E.Evaluate, HasTear;
    UnalikeIsTorn(number, text, formal, actual);
    TearRejects(env, Tokens(number, ReplaceWord(text, formal, "(" + actual + ")")));
  }

  /**
   * Replacing the formal gives a well-spaced parameter the value it has with the formal bound if and only if the formal
   * stands as a word just where its name is read, or there is no such value.
   */
  lemma ReplacedIsBoundExactlyWhen(env: E.Env, number: string -> real, text: string, formal: Formal, actual: string)
    requires IsName(formal) && IsLiteral("(" + actual + ")") && env.function_(PI_NAME).None?
    requires S.IsActual(env, Tokens(number, actual)) && S.Spaced(Tokens(number, text), formal)
    ensures var bound := E.Evaluate(S.Bind(env, formal, E.Evaluate(env, Tokens(number, actual))), Tokens(number, text));
      E.Evaluate(env, Tokens(number, ReplaceWord(text, formal, "(" + actual + ")"))) == bound
      <==> ReadsAlike(number, text, formal, 0) || bound.None?
  {
    hide IsLiteral, IsName, ReadsAlike, Tokens, S.Spaced, S.IsActual, E.Evaluate, S.Bind, ReplaceWord;
    if ReadsAlike(number, text, formal, 0) {
      ReplacedTextHasBoundValue(env, number, text, formal, actual);
    } else {
      UnalikeIsRejected(env, number, text, formal, actual);
    }
  }

  // ---------------------------------------------------------------- every formal

  function TokensOf(number: string -> real, texts: seq<string>): seq<seq<E.Token>> {
    seq(|texts|, i requires 0 <= i < |texts| => Tokens(number, texts[i]))
  }

  /** Formals that are names, and actuals without patterns. */
  predicate AreNames(formals: seq<Formal>, actuals: seq<string>) {
    |formals| == |actuals| && forall i :: 0 <= i < |formals| ==> IsName(formals[i]) && IsLiteral("(" + actuals[i] + ")")
  }

  /** Each formal stands just where it is read, in the text the passes before it leave. */
  predicate PassesReadAlike(number: string -> real, text: string, formals: seq<Formal>, actuals: seq<string>)
    requires |formals| == |actuals|
    decreases |formals|
  {
    |formals| > 0 ==>
      && ReadsAlike(number, text, formals[0], 0)
      && PassesReadAlike(number, ReplaceWord(text, formals[0], "(" + actuals[0] + ")"), formals[1..], actuals[1..])
  }

  lemma FirstAndRest(number: string -> real, formals: seq<Formal>, actuals: seq<string>)
    requires AreNames(formals, actuals) && |formals| > 0
    ensures IsName(formals[0]) && IsLiteral("(" + actuals[0] + ")") && AreNames(formals[1..], actuals[1..])
    ensures Bracketed(actuals)[0] == "(" + actuals[0] + ")" && Bracketed(actuals)[1..] == Bracketed(actuals[1..])
    ensures TokensOf(number, actuals)[0] == Tokens(number, actuals[0])
    ensures TokensOf(number, actuals)[1..] == TokensOf(number, actuals[1..])
  {
    hide IsName, IsLiteral, Tokens;
  }

  lemma {:induction false} AllTokensReplaced(
    number: string -> real, text: string, formals: seq<Formal>, actuals: seq<string>)
    requires AreNames(formals, actuals) && PassesReadAlike(number, text, formals, actuals)
    ensures Tokens(number, ReplaceAll(text, formals, Bracketed(actuals)))
         == S.SubstituteAll(Tokens(number, text), formals, TokensOf(number, actuals))
    decreases |formals|
  {
    hide AreNames, ReadsAlike, ReplaceWord, Tokens, S.Substitute, IsName, IsLiteral, TokensOf, Bracketed;
    assert |formals| == |actuals| == |TokensOf(number, actuals)| by { SameLengths(number, formals, actuals); }
    if |formals| > 0 {
      FirstAndRest(number, formals, actuals);
      var once := ReplaceWord(text, formals[0], "(" + actuals[0] + ")");
      OncePassed(number, text, formals[0], actuals[0]);
      AllTokensReplaced(number, once, formals[1..], actuals[1..]);
    }
  }

  lemma SameLengths(number: string -> real, formals: seq<Formal>, actuals: seq<string>)
    requires AreNames(formals, actuals)
    ensures |formals| == |actuals| == |TokensOf(number, actuals)|
  {
  }

  lemma OncePassed(number: string -> real, text: string, formal: Formal, actual: string)
    requires IsName(formal) && IsLiteral("(" + actual + ")") && ReadsAlike(number, text, formal, 0)
    ensures Tokens(number, ReplaceWord(text, formal, "(" + actual + ")"))
         == S.Substitute(Tokens(number, text), formal, Tokens(number, actual))
  {
    hide IsName, IsLiteral, ReadsAlike, Tokens;
    assert text[0..] == text;
    TokensReplaced(number, text, formal, actual, 0);
  }

  lemma NameIsNotPi(formal: string)
    requires IsName(formal)
    ensures formal != PI_NAME
  {
  }

  /** Once torn, a text stays torn in every later pass. */
  lemma {:induction false} PassesLeaveTear(
    number: string -> real, text: string, formals: seq<Formal>, actuals: seq<string>)
    requires AreNames(formals, actuals)
    requires HasTear(Tokens(number, text)) || !PassesReadAlike(number, text, formals, actuals)
    ensures HasTear(Tokens(number, ReplaceAll(text, formals, Bracketed(actuals))))
    decreases |formals|
  {
    hide AreNames, ReadsAlike, ReplaceWord, Tokens, IsName, IsLiteral, Bracketed, HasTear;
    assert |formals| == |actuals| by { SameLengths(number, formals, actuals); }
    if |formals| > 0 {
      FirstAndRest(number, formals, actuals);
      if !ReadsAlike(number, text, formals[0], 0) {
        UnalikeIsTorn(number, text, formals[0], actuals[0]);
      } else if HasTear(Tokens(number, text)) {
        OncePassed(number, text, formals[0], actuals[0]);
        NameIsNotPi(formals[0]);
        TearStays(Tokens(number, text), formals[0], Tokens(number, actuals[0]));
      }
      PassesLeaveTear(number, ReplaceWord(text, formals[0], "(" + actuals[0] + ")"), formals[1..], actuals[1..]);
    }
  }

  /** Formals and actuals that are well spaced, and actuals whose parentheses match. */
  predicate AreWellSpaced(number: string -> real, text: string, formals: seq<Formal>, actuals: seq<string>)
    requires |formals| == |actuals|
  {
    && S.AreBracketed(TokensOf(number, actuals)) && S.BodyIsSpaced(Tokens(number, text), formals)
    && S.ActualsAreSpaced(formals, TokensOf(number, actuals))
  }

  /**
   * The parameter a call makes of a body's has the value of that one, each formal bound under the later ones, if and
   * only if every formal stands just where it is read, or there is no such value.
   */
  lemma PassesBindExactlyWhen(
    env: E.Env, number: string -> real, text: string, formals: seq<Formal>, actuals: seq<string>)
    requires AreNames(formals, actuals) && AreWellSpaced(number, text, formals, actuals) && env.function_(PI_NAME).None?
    ensures var bound := E.Evaluate(S.Nested(env, formals, TokensOf(number, actuals)), Tokens(number, text));
      E.Evaluate(env, Tokens(number, ReplaceAll(text, formals, Bracketed(actuals)))) == bound
      <==> PassesReadAlike(number, text, formals, actuals) || bound.None?
  {
    hide AreNames, PassesReadAlike, Tokens, ReplaceAll, TokensOf, HasTear, Bracketed;
    hide S.AreBracketed, S.BodyIsSpaced, S.ActualsAreSpaced, E.Evaluate, S.Nested, S.SubstituteAll;
    assert |formals| == |actuals| == |TokensOf(number, actuals)| by { SameLengths(number, formals, actuals); }
    if PassesReadAlike(number, text, formals, actuals) {
      AllTokensReplaced(number, text, formals, actuals);
      S.SequentialIsNested(env, Tokens(number, text), formals, TokensOf(number, actuals));
    } else {
      PassesLeaveTear(number, text, formals, actuals);
      TearRejects(env, Tokens(number, ReplaceAll(text, formals, Bracketed(actuals))));
    }
  }
}
