/**
 * Textual substitution of the formals of a gate (src/circuit/qasm3.ts:320-351): every formal is replaced wherever it
 * stands as a word, parameters first, each in the text the earlier replacements left.
 */
module TextSubstitution {
  import opened Options
  import opened QasmReader

  /** What a list of formals holds: blank entries are dropped when it is read. */
  type Formal = s: string | |s| > 0 witness "q"

  // ---------------------------------------------------------------- one replacement

  predicate WordAt(s: string, i: int) {
    0 <= i < |s| && IsWord(s[i])
  }

  /** Between a word character and something else, or an end of the text. */
  predicate IsBoundary(s: string, i: int) {
    WordAt(s, i - 1) != WordAt(s, i)
  }

  predicate Occurs(s: string, formal: string, i: nat) {
    && i + |formal| <= |s| && s[i..i + |formal|] == formal
    && IsBoundary(s, i) && IsBoundary(s, i + |formal|)
  }

  /** The patterns of a replacement: `$$`, `$&`, `` $` `` and `$'`; there are no groups for the others to name. */
  function Replacement(actual: string, s: string, i: nat, n: nat): string
    requires i + n <= |s|
  {
    if |actual| == 0 then ""
    else if IsPattern(actual, 0) then
      (match actual[1]
       case '$' => "$"
       case '&' => s[i..i + n]
       case '`' => s[..i]
       case _ => s[i + n..]) + Replacement(actual[2..], s, i, n)
    else [actual[0]] + Replacement(actual[1..], s, i, n)
  }

  predicate IsPattern(actual: string, i: nat) {
    i + 1 < |actual| && actual[i] == '$'
      && (actual[i + 1] == '$' || actual[i + 1] == '&' || actual[i + 1] == '`' || actual[i + 1] == '\'')
  }

  /** The replaced text from a position on, found from left to right. */
  function ReplaceFrom(s: string, formal: Formal, actual: string, i: nat): string
    requires i <= |s|
    decreases |s| - i
  {
    if i == |s| then ""
    else if Occurs(s, formal, i) then
      Replacement(actual, s, i, |formal|) + ReplaceFrom(s, formal, actual, i + |formal|)
    else [s[i]] + ReplaceFrom(s, formal, actual, i + 1)
  }

  lemma CharCopied(s: string, formal: Formal, actual: string, i: nat)
    requires i < |s| && !Occurs(s, formal, i)
    ensures ReplaceFrom(s, formal, actual, i) == [s[i]] + ReplaceFrom(s, formal, actual, i + 1)
  {
    hide Occurs;
  }

  function ReplaceWord(s: string, formal: Formal, actual: string): string {
    ReplaceFrom(s, formal, actual, 0)
  }

  /** One replacement after the other. */
  function ReplaceAll(s: string, formals: seq<Formal>, actuals: seq<string>): string
    requires |formals| == |actuals|
    decreases |formals|
  {
    if |formals| == 0 then s else ReplaceAll(ReplaceWord(s, formals[0], actuals[0]), formals[1..], actuals[1..])
  }

  lemma {:induction false} ReplaceAllAppend(
    s: string, formals: seq<Formal>, actuals: seq<string>, formal: Formal, actual: string)
    requires |formals| == |actuals|
    ensures ReplaceAll(s, formals + [formal], actuals + [actual])
      == ReplaceWord(ReplaceAll(s, formals, actuals), formal, actual)
    decreases |formals|
  {
    hide ReplaceWord;
    var fs, xs := formals + [formal], actuals + [actual];
    if |formals| == 0 {
      assert fs[1..] == [] && xs[1..] == [];
    } else {
      assert fs[1..] == formals[1..] + [formal] && xs[1..] == actuals[1..] + [actual];
      ReplaceAllAppend(ReplaceWord(s, formals[0], actuals[0]), formals[1..], actuals[1..], formal, actual);
    }
  }

  // ---------------------------------------------------------------- a gate body at a call

  /** A gate: its formals, and its body statement by statement. */
  datatype Definition = Definition(parameters: seq<Formal>, qubits: seq<Formal>, body: seq<string>)

  /** A parameter is put in parentheses. */
  function Bracketed(actuals: seq<string>): (bracketed: seq<string>)
    ensures |bracketed| == |actuals|
  {
    seq(|actuals|, i requires 0 <= i < |actuals| => "(" + actuals[i] + ")")
  }

  /** A body statement with parameters and qubits replaced. */
  function Instance(text: string, d: Definition, parameters: seq<string>, qubits: seq<string>): string
    requires |parameters| == |d.parameters| && |qubits| == |d.qubits|
  {
    ReplaceAll(text, d.parameters + d.qubits, Bracketed(parameters) + qubits)
  }

  method SubstituteGateBody(
    body: string, d: Definition, qubits: seq<string>, parameters: seq<string>)
    returns (result: string)
    requires |parameters| == |d.parameters| && |qubits| == |d.qubits|
    ensures result == Instance(body, d, parameters, qubits)
  {
    hide ReplaceWord, ReplaceAll;
    ghost var formals, actuals := d.parameters + d.qubits, Bracketed(parameters) + qubits;
    result := body;
    NoFormals(body);
    var n := |d.parameters|;
    for index := 0 to n
      invariant result == ReplaceAll(body, formals[..index], actuals[..index])
    {
      ReplaceAllAppend(body, formals[..index], actuals[..index], d.parameters[index], "(" + parameters[index] + ")");
      assert formals[..index + 1] == formals[..index] + [formals[index]];
      assert actuals[..index + 1] == actuals[..index] + [actuals[index]];
      result := ReplaceWord(result, d.parameters[index], "(" + parameters[index] + ")");
    }
    for index := 0 to |d.qubits|
      invariant result == ReplaceAll(body, formals[..n + index], actuals[..n + index])
    {
      var k := n + index;
      ReplaceAllAppend(body, formals[..k], actuals[..k], d.qubits[index], qubits[index]);
      assert formals[..k + 1] == formals[..k] + [formals[k]];
      assert actuals[..k + 1] == actuals[..k] + [actuals[k]];
      result := ReplaceWord(result, d.qubits[index], qubits[index]);
    }
    assert formals[..|formals|] == formals && actuals[..|actuals|] == actuals;
  }

  lemma NoFormals(s: string)
    ensures ReplaceAll(s, [], []) == s
  {
  }

  // ---------------------------------------------------------------- replacing words, word by word

  predicate IsWordText(s: string) {
    |s| > 0 && forall i :: 0 <= i < |s| ==> IsWord(s[i])
  }

  /** An actual that stands for itself, with no pattern in it. */
  predicate IsLiteral(actual: string) {
    forall i :: 0 <= i < |actual| ==> !IsPattern(actual, i)
  }

  lemma {:induction false} LiteralStands(actual: string, s: string, i: nat, n: nat)
    requires i + n <= |s| && IsLiteral(actual)
    ensures Replacement(actual, s, i, n) == actual
    decreases |actual|
  {
    if |actual| > 0 {
      forall k | 0 <= k < |actual[1..]| ensures !IsPattern(actual[1..], k) { assert !IsPattern(actual, k + 1); }
      assert !IsPattern(actual, 0);
      LiteralStands(actual[1..], s, i, n);
    }
  }

  /** What each pattern stands for; a dollar sign in front of anything else is itself. */
  lemma PatternsStand(s: string, i: nat, n: nat, c: char)
    requires i + n <= |s|
    ensures Replacement("$$", s, i, n) == "$" && Replacement("$&", s, i, n) == s[i..i + n]
    ensures Replacement("$`", s, i, n) == s[..i] && Replacement("$'", s, i, n) == s[i + n..]
    ensures c !in {'$', '&', '`', '\''} ==> Replacement(['$', c], s, i, n) == ['$', c]
  {
    assert Replacement("", s, i, n) == "";
    assert forall d: char :: ['$', d][2..] == "" && ['$', d][1..] == [d];
    assert "$$"[2..] == "" && "$&"[2..] == "" && "$`"[2..] == "" && "$'"[2..] == "";
    assert Replacement([c], s, i, n) == [c] by { assert [c][1..] == ""; }
  }

  /** Where the formal stands, the actual comes in its place. */
  lemma WordReplaced(s: string, formal: Formal, actual: string, i: nat)
    requires i < |s| && Occurs(s, formal, i) && IsLiteral(actual)
    ensures i + |formal| <= |s| && s[i..i + |formal|] == formal
    ensures ReplaceFrom(s, formal, actual, i) == actual + ReplaceFrom(s, formal, actual, i + |formal|)
  {
    hide IsLiteral;
    LiteralStands(actual, s, i, |formal|);
  }

  /** No word runs on from one text into the next. */
  predicate Apart(x: string, y: string) {
    !(WordAt(x, |x| - 1) && WordAt(y, 0))
  }

  lemma OccursInFirst(x: string, y: string, formal: string, i: nat)
    requires IsWordText(formal) && Apart(x, y) && i < |x|
    ensures Occurs(x + y, formal, i) <==> Occurs(x, formal, i)
  {
    var s, n := x + y, i + |formal|;
    if n <= |x| {
      assert s[i..n] == x[i..n];
      if x[i..n] == formal {
        assert x[n - 1] == formal[|formal| - 1];
        assert WordAt(x, n - 1) && WordAt(s, n - 1);
      }
      assert WordAt(s, i) == WordAt(x, i) && WordAt(s, i - 1) == WordAt(x, i - 1);
    } else if n <= |s| {
      Straddles(s, formal, i, |x|);
    }
  }

  /** A word that lies across a position has word characters on both sides of it. */
  lemma Straddles(s: string, formal: string, i: nat, m: nat)
    requires IsWordText(formal) && i < m < i + |formal| <= |s|
    ensures s[i..i + |formal|] == formal ==> WordAt(s, m - 1) && WordAt(s, m)
  {
    if s[i..i + |formal|] == formal {
      assert s[i..i + |formal|][m - 1 - i] == s[m - 1] && s[i..i + |formal|][m - i] == s[m];
    }
  }

  lemma OccursInSecond(x: string, y: string, formal: string, i: nat)
    requires IsWordText(formal) && Apart(x, y) && i < |y|
    ensures Occurs(x + y, formal, |x| + i) <==> Occurs(y, formal, i)
  {
    var s, n := x + y, i + |formal|;
    if n <= |y| {
      assert s[|x| + i..|x| + n] == y[i..n];
      assert WordAt(s, |x| + n) == WordAt(y, n) && WordAt(s, |x| + n - 1) == WordAt(y, n - 1);
      if y[i..n] == formal { assert y[i] == formal[0]; }
    }
  }

  lemma {:induction false} ReplaceSecond(x: string, y: string, formal: Formal, actual: string, i: nat)
    requires IsWordText(formal) && IsLiteral(actual) && Apart(x, y) && i <= |y|
    ensures ReplaceFrom(x + y, formal, actual, |x| + i) == ReplaceFrom(y, formal, actual, i)
    decreases |y| - i
  {
    hide Occurs, IsWordText, IsLiteral, Apart, ReplaceFrom;
    if i < |y| {
      OccursInSecond(x, y, formal, i);
      if Occurs(y, formal, i) {
        WordReplaced(y, formal, actual, i);
        WordReplaced(x + y, formal, actual, |x| + i);
        ReplaceSecond(x, y, formal, actual, i + |formal|);
      } else {
        CharCopied(y, formal, actual, i);
        CharCopied(x + y, formal, actual, |x| + i);
        ReplaceSecond(x, y, formal, actual, i + 1);
      }
    } else {
      NothingBehind(y, formal, actual);
      NothingBehind(x + y, formal, actual);
    }
  }

  lemma NothingBehind(s: string, formal: Formal, actual: string)
    ensures ReplaceFrom(s, formal, actual, |s|) == ""
  {
  }

  lemma OccursFits(s: string, formal: string, i: nat)
    ensures Occurs(s, formal, i) ==> i + |formal| <= |s|
  {
  }

  lemma {:induction false} ReplaceFirst(x: string, y: string, formal: Formal, actual: string, i: nat)
    requires IsWordText(formal) && IsLiteral(actual) && Apart(x, y) && i <= |x|
    ensures ReplaceFrom(x + y, formal, actual, i) == ReplaceFrom(x, formal, actual, i) + ReplaceWord(y, formal, actual)
    decreases |x| - i
  {
    hide Occurs, IsWordText, IsLiteral, Apart, ReplaceFrom;
    var behind := ReplaceWord(y, formal, actual);
    if i == |x| {
      NothingBehind(x, formal, actual);
      ReplaceSecond(x, y, formal, actual, 0);
    } else {
      OccursInFirst(x, y, formal, i);
      if Occurs(x, formal, i) {
        WordReplaced(x, formal, actual, i);
        WordReplaced(x + y, formal, actual, i);
        ReplaceFirst(x, y, formal, actual, i + |formal|);
        JoinMoved(actual, ReplaceFrom(x, formal, actual, i + |formal|), behind);
      } else {
        CharCopied(x, formal, actual, i);
        CharCopied(x + y, formal, actual, i);
        ReplaceFirst(x, y, formal, actual, i + 1);
        JoinMoved([x[i]], ReplaceFrom(x, formal, actual, i + 1), behind);
      }
    }
  }

  lemma JoinMoved(a: string, b: string, c: string)
    ensures (a + b) + c == a + (b + c)
  {
  }

  /** Texts that no word joins are replaced each on its own. */
  lemma ReplaceConcat(x: string, y: string, formal: Formal, actual: string)
    requires IsWordText(formal) && IsLiteral(actual) && Apart(x, y)
    ensures ReplaceWord(x + y, formal, actual) == ReplaceWord(x, formal, actual) + ReplaceWord(y, formal, actual)
  {
    ReplaceFirst(x, y, formal, actual, 0);
  }

  lemma {:induction false} WordEnds(s: string)
    ensures forall i :: 0 <= i < WordLength(s) ==> IsWord(s[i])
    ensures WordLength(s) < |s| ==> !IsWord(s[WordLength(s)])
    decreases |s|
  {
    if |s| > 0 && IsWord(s[0]) {
      WordEnds(s[1..]);
      forall i | 0 <= i < WordLength(s) ensures IsWord(s[i]) {
        if i > 0 { assert s[i] == s[1..][i - 1]; }
      }
    }
  }

  lemma OnlyWhole(word: string, formal: Formal, i: nat)
    requires IsWordText(word) && IsWordText(formal) && i < |word|
    ensures Occurs(word, formal, i) <==> i == 0 && word == formal
  {
    assert WordAt(word, i);
    if i > 0 {
      assert WordAt(word, i - 1);
    } else if |formal| < |word| {
      assert WordAt(word, |formal|) && WordAt(word, |formal| - 1);
    } else {
      assert word[0..|word|] == word;
    }
  }

  lemma {:induction false} WordCopied(word: string, formal: Formal, actual: string, i: nat)
    requires IsWordText(word) && IsWordText(formal) && i <= |word| && (i == 0 ==> word != formal)
    ensures ReplaceFrom(word, formal, actual, i) == word[i..]
    decreases |word| - i
  {
    hide Occurs, IsWordText;
    if i < |word| {
      OnlyWhole(word, formal, i);
      WordCopied(word, formal, actual, i + 1);
    }
  }

  /** A single word is the formal, or stays. */
  lemma ReplaceOneWord(word: string, formal: Formal, actual: string)
    requires IsWordText(word) && IsWordText(formal) && IsLiteral(actual)
    ensures ReplaceWord(word, formal, actual) == if word == formal then actual else word
  {
    hide Occurs, IsWordText, IsLiteral;
    if word == formal {
      OnlyWhole(word, formal, 0);
      LiteralStands(actual, word, 0, |word|);
      assert ReplaceFrom(word, formal, actual, |word|) == "";
    } else {
      WordCopied(word, formal, actual, 0);
    }
  }

  lemma ReplaceGap(c: char, formal: Formal, actual: string)
    requires !IsWord(c) && IsWordText(formal)
    ensures ReplaceWord([c], formal, actual) == [c]
  {
    assert !Occurs([c], formal, 0);
    assert ReplaceFrom([c], formal, actual, 1) == "";
  }

  lemma ReplaceNothing(formal: Formal, actual: string)
    ensures ReplaceWord("", formal, actual) == ""
  {
  }

  /** Where a text meets the next, a replacement joins no words. */
  lemma StaysApart(x: string, y: string, formal: Formal, actual: string)
    requires IsWordText(formal) && IsLiteral(actual) && Apart(x, y)
    ensures Apart(ReplaceWord(x, formal, actual), ReplaceWord(y, formal, actual))
  {
    hide ReplaceWord, IsWordText, IsLiteral;
    ReplaceNothing(formal, actual);
    if |x| > 0 && |y| > 0 {
      if !WordAt(x, |x| - 1) {
        var m := |x| - 1;
        assert x == x[..m] + [x[m]];
        ReplaceConcat(x[..m], [x[m]], formal, actual);
        ReplaceGap(x[m], formal, actual);
      } else {
        assert y == [y[0]] + y[1..];
        ReplaceConcat([y[0]], y[1..], formal, actual);
        ReplaceGap(y[0], formal, actual);
      }
    }
  }

  // ---------------------------------------------------------------- all replacements at once

  /** Distinct words as formals, and actuals without patterns. */
  predicate IsSubstitution(formals: seq<Formal>, actuals: seq<string>) {
    && |formals| == |actuals|
    && (forall i :: 0 <= i < |formals| ==> IsWordText(formals[i]) && IsLiteral(actuals[i]))
    && forall i, j :: 0 <= i < j < |formals| ==> formals[i] != formals[j]
  }

  lemma TailIsSubstitution(formals: seq<Formal>, actuals: seq<string>)
    requires IsSubstitution(formals, actuals) && |formals| > 0
    ensures IsSubstitution(formals[1..], actuals[1..]) && IsWordText(formals[0]) && IsLiteral(actuals[0])
    ensures forall i :: 0 <= i < |formals| - 1 ==> formals[1..][i] != formals[0]
  {
    hide IsWordText, IsLiteral;
    forall i, j | 0 <= i < j < |formals[1..]| ensures formals[1..][i] != formals[1..][j] {
      assert formals[1..][i] == formals[i + 1] && formals[1..][j] == formals[j + 1];
    }
  }

  function Lookup(word: string, formals: seq<Formal>, actuals: seq<string>): string
    requires |formals| == |actuals|
    decreases |formals|
  {
    if |formals| == 0 then word
    else if word == formals[0] then actuals[0]
    else Lookup(word, formals[1..], actuals[1..])
  }

  /** Every word of a text is looked up once, and what it stands for is not looked at again. */
  function Simultaneous(s: string, formals: seq<Formal>, actuals: seq<string>): string
    requires |formals| == |actuals|
    decreases |s|
  {
    if |s| == 0 then ""
    else
      var n := WordLength(s);
      if n == 0 then [s[0]] + Simultaneous(s[1..], formals, actuals)
      else Lookup(s[..n], formals, actuals) + Simultaneous(s[n..], formals, actuals)
  }

  /** Every actual survives the replacement of the later formals. */
  predicate CapturesNothing(formals: seq<Formal>, actuals: seq<string>)
    requires |formals| == |actuals|
    decreases |formals|
  {
    |formals| > 0 ==>
      && ReplaceAll(actuals[0], formals[1..], actuals[1..]) == actuals[0]
      && CapturesNothing(formals[1..], actuals[1..])
  }

  lemma {:induction false} ReplaceAllConcat(x: string, y: string, formals: seq<Formal>, actuals: seq<string>)
    requires IsSubstitution(formals, actuals) && Apart(x, y)
    ensures ReplaceAll(x + y, formals, actuals) == ReplaceAll(x, formals, actuals) + ReplaceAll(y, formals, actuals)
    decreases |formals|
  {
    hide ReplaceWord, IsSubstitution, Apart, IsWordText, IsLiteral;
    assert |formals| == |actuals| by { LengthsAgree(formals, actuals); }
    if |formals| > 0 {
      TailIsSubstitution(formals, actuals);
      ReplaceConcat(x, y, formals[0], actuals[0]);
      StaysApart(x, y, formals[0], actuals[0]);
      ReplaceAllConcat(ReplaceWord(x, formals[0], actuals[0]), ReplaceWord(y, formals[0], actuals[0]), formals[1..],
                       actuals[1..]);
    }
  }

  lemma LengthsAgree(formals: seq<Formal>, actuals: seq<string>)
    requires IsSubstitution(formals, actuals)
    ensures |formals| == |actuals|
  {
  }

  lemma {:induction false} ReplaceAllGap(c: char, formals: seq<Formal>, actuals: seq<string>)
    requires IsSubstitution(formals, actuals) && !IsWord(c)
    ensures ReplaceAll([c], formals, actuals) == [c]
    decreases |formals|
  {
    hide ReplaceWord, IsWordText, IsLiteral;
    if |formals| > 0 {
      TailIsSubstitution(formals, actuals);
      ReplaceGap(c, formals[0], actuals[0]);
      ReplaceAllGap(c, formals[1..], actuals[1..]);
    }
  }

  lemma {:induction false} ReplaceAllWord(word: string, formals: seq<Formal>, actuals: seq<string>)
    requires IsSubstitution(formals, actuals) && IsWordText(word) && CapturesNothing(formals, actuals)
    ensures ReplaceAll(word, formals, actuals) == Lookup(word, formals, actuals)
    decreases |formals|
  {
    hide ReplaceWord, IsWordText, IsLiteral;
    if |formals| > 0 {
      TailIsSubstitution(formals, actuals);
      ReplaceOneWord(word, formals[0], actuals[0]);
      if word != formals[0] { ReplaceAllWord(word, formals[1..], actuals[1..]); }
    }
  }

  lemma {:induction false} ReplaceAllEmpty(formals: seq<Formal>, actuals: seq<string>)
    requires |formals| == |actuals|
    ensures ReplaceAll("", formals, actuals) == ""
    decreases |formals|
  {
    if |formals| > 0 {
      ReplaceNothing(formals[0], actuals[0]);
      ReplaceAllEmpty(formals[1..], actuals[1..]);
    }
  }

  lemma {:induction false} UncapturedIsSimultaneous(s: string, formals: seq<Formal>, actuals: seq<string>)
    requires IsSubstitution(formals, actuals) && CapturesNothing(formals, actuals)
    ensures ReplaceAll(s, formals, actuals) == Simultaneous(s, formals, actuals)
    decreases |s|
  {
    hide ReplaceAll, CapturesNothing, IsLiteral, Lookup;
    var n := WordLength(s);
    WordEnds(s);
    if |s| == 0 {
      ReplaceAllEmpty(formals, actuals);
    } else if n == 0 {
      assert [s[0]] + s[1..] == s;
      ReplaceAllConcat([s[0]], s[1..], formals, actuals);
      ReplaceAllGap(s[0], formals, actuals);
      UncapturedIsSimultaneous(s[1..], formals, actuals);
    } else {
      assert s[..n] + s[n..] == s;
      ReplaceAllConcat(s[..n], s[n..], formals, actuals);
      ReplaceAllWord(s[..n], formals, actuals);
      UncapturedIsSimultaneous(s[n..], formals, actuals);
    }
  }

  ghost predicate SimultaneousOnEveryBody(formals: seq<Formal>, actuals: seq<string>)
    requires |formals| == |actuals|
  {
    forall body: string :: ReplaceAll(body, formals, actuals) == Simultaneous(body, formals, actuals)
  }

  /** A single word, looked up, whatever the actuals are. */
  lemma {:induction false} WordSimultaneous(word: string, formals: seq<Formal>, actuals: seq<string>)
    requires |formals| == |actuals| && IsWordText(word)
    ensures Simultaneous(word, formals, actuals) == Lookup(word, formals, actuals)
  {
    hide Lookup;
    WholeIsWord(word);
    assert word[..|word|] == word && word[|word|..] == "";
    assert Simultaneous("", formals, actuals) == "";
  }

  lemma {:induction false} WholeIsWord(word: string)
    requires forall i :: 0 <= i < |word| ==> IsWord(word[i])
    ensures WordLength(word) == |word|
    decreases |word|
  {
    if |word| > 0 { WholeIsWord(word[1..]); }
  }

  /** The body that is a formal alone tells whether its actual is captured. */
  lemma {:induction false} EachSurvives(
    formals: seq<Formal>, actuals: seq<string>, all: seq<Formal>, values: seq<string>, k: nat)
    requires IsSubstitution(all, values) && SimultaneousOnEveryBody(all, values)
    requires k <= |all| && formals == all[k..] && actuals == values[k..]
    ensures CapturesNothing(formals, actuals)
    decreases |formals|
  {
    hide ReplaceWord, IsLiteral, IsWordText;
    if |formals| > 0 {
      var word := all[k];
      assert ReplaceAll(word, all, values) == Simultaneous(word, all, values);
      hide SimultaneousOnEveryBody;
      WordSimultaneous(word, all, values);
      FoundAt(all, values, k, 0);
      ReachesOwn(all, values, k, 0);
      assert all[0..] == all && values[0..] == values;
      assert formals[1..] == all[k + 1..] && actuals[1..] == values[k + 1..];
      EachSurvives(formals[1..], actuals[1..], all, values, k + 1);
    }
  }

  lemma {:induction false} FoundAt(all: seq<Formal>, values: seq<string>, k: nat, from: nat)
    requires IsSubstitution(all, values) && from <= k < |all|
    ensures Lookup(all[k], all[from..], values[from..]) == values[k]
    decreases k - from
  {
    hide IsLiteral, IsWordText;
    if from < k {
      FoundAt(all, values, k, from + 1);
      assert all[from..][1..] == all[from + 1..] && values[from..][1..] == values[from + 1..];
    }
  }

  /** The earlier passes leave a formal alone, its own replaces it. */
  lemma {:induction false} ReachesOwn(all: seq<Formal>, values: seq<string>, k: nat, from: nat)
    requires IsSubstitution(all, values) && from <= k < |all|
    ensures ReplaceAll(all[k], all[from..], values[from..]) == ReplaceAll(values[k], all[k + 1..], values[k + 1..])
    decreases k - from
  {
    hide IsLiteral, IsWordText, ReplaceWord;
    assert all[from..][1..] == all[from + 1..] && values[from..][1..] == values[from + 1..];
    assert IsWordText(all[k]) && IsWordText(all[from]) && IsLiteral(values[from]);
    ReplaceOneWord(all[k], all[from], values[from]);
    if from < k { ReachesOwn(all, values, k, from + 1); }
  }

  /**
   * Replacing the formals one after the other is replacing them all at once, in every body, if and only if every actual
   * survives the replacement of the later formals.
   */
  lemma SimultaneousExactlyWhen(formals: seq<Formal>, actuals: seq<string>)
    requires IsSubstitution(formals, actuals)
    ensures SimultaneousOnEveryBody(formals, actuals) <==> CapturesNothing(formals, actuals)
  {
    hide CapturesNothing, ReplaceAll, Simultaneous, IsSubstitution;
    assert |formals| == |actuals| by { LengthsAgree(formals, actuals); }
    if CapturesNothing(formals, actuals) {
      forall body: string ensures ReplaceAll(body, formals, actuals) == Simultaneous(body, formals, actuals) {
        UncapturedIsSimultaneous(body, formals, actuals);
      }
    }
    if SimultaneousOnEveryBody(formals, actuals) {
      assert formals[0..] == formals && actuals[0..] == actuals;
      EachSurvives(formals, actuals, formals, actuals, 0);
    }
  }

  // ---------------------------------------------------------------- what survives a replacement

  /** The formal stands somewhere in the text as a word. */
  predicate Mentions(s: string, formal: string) {
    exists i :: 0 <= i < |s| && Occurs(s, formal, i)
  }

  lemma {:induction false} NotMentioned(s: string, formal: Formal, actual: string, i: nat)
    requires i <= |s| && forall k :: i <= k < |s| ==> !Occurs(s, formal, k)
    ensures ReplaceFrom(s, formal, actual, i) == s[i..]
    decreases |s| - i
  {
    hide Occurs;
    if i < |s| { NotMentioned(s, formal, actual, i + 1); }
  }

  lemma {:induction false} ReplacedByItself(s: string, formal: Formal, i: nat)
    requires i <= |s| && IsLiteral(formal)
    ensures ReplaceFrom(s, formal, formal, i) == s[i..]
    decreases |s| - i
  {
    hide Occurs, IsLiteral, ReplaceFrom;
    if i < |s| {
      if Occurs(s, formal, i) {
        WordReplaced(s, formal, formal, i);
        ReplacedByItself(s, formal, i + |formal|);
        assert s[i..] == s[i..i + |formal|] + s[i + |formal|..];
      } else {
        CharCopied(s, formal, formal, i);
        ReplacedByItself(s, formal, i + 1);
      }
    } else {
      NothingBehind(s, formal, formal);
    }
  }

  /** A longer actual never shortens the text, a shorter one never lengthens it, and each occurrence tells. */
  lemma {:induction false} LengthTells(s: string, formal: Formal, actual: string, i: nat)
    requires i <= |s| && IsLiteral(actual)
    ensures |actual| >= |formal| ==> |ReplaceFrom(s, formal, actual, i)| >= |s| - i
    ensures |actual| <= |formal| ==> |ReplaceFrom(s, formal, actual, i)| <= |s| - i
    ensures |actual| != |formal| && (exists k :: i <= k < |s| && Occurs(s, formal, k)) ==>
              |ReplaceFrom(s, formal, actual, i)| != |s| - i
    decreases |s| - i
  {
    hide Occurs, IsLiteral, ReplaceFrom;
    if i < |s| {
      if Occurs(s, formal, i) {
        WordReplaced(s, formal, actual, i);
        LengthTells(s, formal, actual, i + |formal|);
      } else {
        CharCopied(s, formal, actual, i);
        LengthTells(s, formal, actual, i + 1);
      }
    } else {
      NothingBehind(s, formal, actual);
    }
  }

  lemma {:induction false} OccurrenceTells(s: string, formal: Formal, actual: string, i: nat, k: nat)
    requires i <= k < |s| && IsLiteral(actual) && |actual| == |formal| && Occurs(s, formal, k)
    requires ReplaceFrom(s, formal, actual, i) == s[i..]
    requires forall j :: i <= j < k ==> !Occurs(s, formal, j)
    ensures actual == formal
    decreases k - i
  {
    hide Occurs;
    if i < k {
      assert s[i..][1..] == s[i + 1..];
      OccurrenceTells(s, formal, actual, i + 1, k);
    } else {
      WordReplaced(s, formal, actual, i);
      assert s[i..][..|formal|] == s[i..i + |formal|];
      assert (actual + ReplaceFrom(s, formal, actual, i + |formal|))[..|formal|] == actual;
    }
  }

  lemma FirstOccurrence(s: string, formal: string) returns (k: nat)
    requires Mentions(s, formal)
    ensures k < |s| && Occurs(s, formal, k) && forall j :: 0 <= j < k ==> !Occurs(s, formal, j)
  {
    hide Occurs;
    k := 0;
    while !Occurs(s, formal, k)
      invariant k < |s| && forall j :: 0 <= j < k ==> !Occurs(s, formal, j)
      decreases |s| - k
    {
      k := k + 1;
    }
  }

  /** A replacement leaves a text alone if and only if the formal is not in it, or replaced by itself. */
  lemma LeftAloneExactlyWhen(s: string, formal: Formal, actual: string)
    requires IsLiteral(actual)
    ensures ReplaceWord(s, formal, actual) == s <==> !Mentions(s, formal) || actual == formal
  {
    hide Occurs, IsLiteral;
    assert s[0..] == s;
    if !Mentions(s, formal) { NotMentioned(s, formal, actual, 0); }
    if actual == formal { ReplacedByItself(s, formal, 0); }
    if Mentions(s, formal) && ReplaceWord(s, formal, actual) == s {
      LengthTells(s, formal, actual, 0);
      var k := FirstOccurrence(s, formal);
      OccurrenceTells(s, formal, actual, 0, k);
    }
  }

  lemma {:induction false} SurvivesAll(s: string, formals: seq<Formal>, actuals: seq<string>)
    requires |formals| == |actuals| && forall j :: 0 <= j < |formals| ==> !Mentions(s, formals[j])
    ensures ReplaceAll(s, formals, actuals) == s
    decreases |formals|
  {
    hide Mentions, ReplaceWord;
    if |formals| > 0 {
      Unmentioned(s, formals[0], actuals[0]);
      forall j | 0 <= j < |formals[1..]| ensures !Mentions(s, formals[1..][j]) {
        assert formals[1..][j] == formals[j + 1];
      }
      SurvivesAll(s, formals[1..], actuals[1..]);
    }
  }

  lemma Unmentioned(s: string, formal: Formal, actual: string)
    requires !Mentions(s, formal)
    ensures ReplaceWord(s, formal, actual) == s
  {
    hide Occurs;
    NotMentioned(s, formal, actual, 0);
  }

  /** When no actual mentions a later formal, nothing is captured. */
  lemma {:induction false} UnmentionedCapturesNothing(formals: seq<Formal>, actuals: seq<string>)
    requires |formals| == |actuals| && forall i, j :: 0 <= i < j < |formals| ==> !Mentions(actuals[i], formals[j])
    ensures CapturesNothing(formals, actuals)
    decreases |formals|
  {
    hide Mentions, ReplaceAll;
    if |formals| > 0 {
      forall j | 0 <= j < |formals[1..]| ensures !Mentions(actuals[0], formals[1..][j]) {
        assert formals[1..][j] == formals[j + 1];
      }
      SurvivesAll(actuals[0], formals[1..], actuals[1..]);
      forall i, j | 0 <= i < j < |formals[1..]| ensures !Mentions(actuals[1..][i], formals[1..][j]) {
        assert formals[1..][j] == formals[j + 1] && actuals[1..][i] == actuals[i + 1];
      }
      UnmentionedCapturesNothing(formals[1..], actuals[1..]);
    }
  }

  /** With two formals: exactly when the first actual does not mention the second formal, or that one stays itself. */
  lemma TwoFormalsExactlyWhen(f: Formal, g: Formal, a: string, b: string)
    requires IsSubstitution([f, g], [a, b])
    ensures SimultaneousOnEveryBody([f, g], [a, b]) <==> !Mentions(a, g) || b == g
  {
    hide IsSubstitution, Mentions, SimultaneousOnEveryBody, ReplaceWord;
    SimultaneousExactlyWhen([f, g], [a, b]);
    var gs: seq<Formal> := [g];
    var none: seq<Formal> := [];
    assert [f, g][1..] == gs && [a, b][1..] == [b] && gs[1..] == none && [b][1..] == [];
    assert ReplaceAll(ReplaceWord(a, g, b), none, []) == ReplaceWord(a, g, b);
    assert ReplaceAll(a, gs, [b]) == ReplaceWord(a, g, b);
    assert ReplaceAll(b, none, []) == b && CapturesNothing(none, []) && CapturesNothing(gs, [b]);
    SecondIsLiteral([f, g], [a, b]);
    LeftAloneExactlyWhen(a, g, b);
  }

  lemma SecondIsLiteral(formals: seq<Formal>, actuals: seq<string>)
    requires IsSubstitution(formals, actuals) && |formals| == 2
    ensures IsLiteral(actuals[1])
  {
  }
}
