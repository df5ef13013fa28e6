/**
 * The parameter that a call of a user-defined gate emits (src/circuit/qasm3.ts:320-347, 486-515, 991-1000): the text
 * read back out of a body statement at the call, and its value.
 */
module CallParameters {
  import opened Options
  import opened QasmText
  import opened QasmReader
  import opened QasmLexing
  import opened TextSubstitution
  import opened Parameters
  import opened ParameterSubstitution
  import opened ParameterExactness
  import E = Expressions
  import S = Substitution

  // ---------------------------------------------------------------- white space around a text

  lemma {:induction false} BlankTokens(number: string -> real, blank: string, s: string)
    requires IsBlank(blank)
    ensures Tokens(number, blank + s) == Tokens(number, s)
    decreases |blank|
  {
    hide TokenAt, IsSpace;
    if |blank| > 0 {
      assert (blank + s)[1..] == blank[1..] + s;
      BlankTokens(number, blank[1..], s);
    } else {
      assert blank + s == s;
    }
  }

  lemma TrimmedTokens(number: string -> real, s: string)
    ensures Tokens(number, Trim(s)) == Tokens(number, s)
  {
    hide Tokens, Trim, IsSpace;
    TrimSplits(s);
    var left, right :| IsBlank(left) && IsBlank(right) && s == left + Trim(s) + right;
    assert s == left + (Trim(s) + right) && right + "" == right;
    BlankTokens(number, left, Trim(s) + right);
    if |right| > 0 {
      TokensEndAtStop(number, Trim(s), right);
      BlankTokens(number, right, "");
      NoTokens(number);
    } else {
      assert Trim(s) + right == Trim(s);
    }
  }

  lemma NoTokens(number: string -> real)
    ensures Tokens(number, "") == []
  {
  }

  // ---------------------------------------------------------------- one parameter

  /** An entry of a parameter list as the grammar reads it: no comma, and parentheses that match. */
  predicate IsOneParameter(s: string) {
    ParensMatch(s, 0) && forall i :: 0 <= i < |s| ==> s[i] != ','
  }

  lemma {:induction false} OnePart(text: string, depth: int, current: string)
    requires forall i :: 0 <= i < |text| ==> text[i] != ','
    ensures Parts(text, depth, current) == [current + text]
    decreases |text|
  {
    if |text| > 0 {
      OnePart(text[1..], DepthAfter(text[0], depth), current + [text[0]]);
      assert current + [text[0]] + text[1..] == current + text;
    } else {
      assert current + text == current;
    }
  }

  lemma OneParameter(text: string, shown: string -> string)
    requires !IsBlank(text) && forall i :: 0 <= i < |text| ==> text[i] != ','
    ensures ParametersOf(text, shown) == [ParameterOf(Trim(text), shown)]
  {
    hide IsSpace, ParameterOf;
    TrimSplits(text);
    var t := Trim(text);
    var left, right :| IsBlank(left) && IsBlank(right) && text == left + t + right;
    forall i | 0 <= i < |t| ensures t[i] != ',' { assert text[|left| + i] == t[i]; }
    OnePart(t, 0, "");
    assert "" + t == t;
    TrimmedIsFixed(t);
    assert WithoutBlanks([t][..0]) == [] && [] + [t] == [t];
    hide Trim, Parts;
    assert TopLevel(t) == [t];
  }

  lemma TrimmedIsFixed(t: string)
    requires IsTrimmed(t)
    ensures Trim(t) == t
  {
  }

  // ---------------------------------------------------------------- what a replacement keeps

  lemma {:induction false} WordInParens(word: string, rest: string, depth: nat)
    requires forall i :: 0 <= i < |word| ==> IsWord(word[i])
    ensures ParensMatch(word + rest, depth) <==> ParensMatch(rest, depth)
    decreases |word|
  {
    if |word| > 0 {
      assert (word + rest)[0] == word[0] && (word + rest)[1..] == word[1..] + rest;
      WordInParens(word[1..], rest, depth);
    } else {
      assert word + rest == rest;
    }
  }

  /** A matching text in front changes nothing. */
  lemma {:induction false} MatchedInFront(a: string, b: string, inside: nat, depth: nat)
    requires ParensMatch(a, inside) && ParensMatch(b, depth)
    ensures ParensMatch(a + b, inside + depth)
    decreases |a|
  {
    if |a| > 0 {
      assert (a + b)[0] == a[0] && (a + b)[1..] == a[1..] + b;
      MatchedInFront(a[1..], b, if a[0] == '(' then inside + 1 else if a[0] == ')' then inside - 1 else inside, depth);
    } else {
      assert a + b == b;
    }
  }

  /** Parentheses still match, no comma appears, and what is not blank does not become so. */
  lemma {:induction false} ReplacementKeeps(s: string, formal: Formal, actual: string, i: nat, depth: nat)
    requires IsWordText(formal) && IsLiteral(actual) && IsOneParameter(actual) && !IsBlank(actual) && i <= |s|
    requires ParensMatch(s[i..], depth) && forall k :: i <= k < |s| ==> s[k] != ','
    ensures var r := ReplaceFrom(s, formal, actual, i);
      && ParensMatch(r, depth) && (forall k :: 0 <= k < |r| ==> r[k] != ',')
      && (IsBlank(r) ==> IsBlank(s[i..]))
    decreases |s| - i
  {
    hide Occurs, IsLiteral, ReplaceFrom, IsSpace, IsWord;
    if i == |s| {
      NothingBehind(s, formal, actual);
    } else if Occurs(s, formal, i) {
      WordReplaced(s, formal, actual, i);
      var j := i + |formal|;
      assert s[i..] == formal + s[j..];
      WordInParens(formal, s[j..], depth);
      ReplacementKeeps(s, formal, actual, j, depth);
      MatchedInFront(actual, ReplaceFrom(s, formal, actual, j), 0, depth);
      BlankParts(actual, ReplaceFrom(s, formal, actual, j));
    } else {
      CharCopied(s, formal, actual, i);
      var rest := ReplaceFrom(s, formal, actual, i + 1);
      assert s[i..][0] == s[i] && s[i..][1..] == s[i + 1..] && ([s[i]] + rest)[1..] == rest;
      assert s[i..] == [s[i]] + s[i + 1..];
      ReplacementKeeps(s, formal, actual, i + 1,
                       if s[i] == '(' then depth + 1 else if s[i] == ')' then depth - 1 else depth);
      BlankParts([s[i]], rest);
    }
  }

  lemma BlankParts(a: string, b: string)
    ensures IsBlank(a + b) ==> IsBlank(a) && IsBlank(b)
  {
    hide IsSpace;
    if IsBlank(a + b) {
      forall i | 0 <= i < |a| ensures IsSpace(a[i]) { assert (a + b)[i] == a[i]; }
      forall i | 0 <= i < |b| ensures IsSpace(b[i]) { assert (a + b)[|a| + i] == b[i]; }
    }
  }

  /** An actual in parentheses is one parameter again. */
  lemma BracketedIsOne(actual: string)
    requires IsOneParameter(actual)
    ensures IsOneParameter("(" + actual + ")") && !IsBlank("(" + actual + ")")
  {
    var close := ")";
    assert close[1..] == "" && ParensMatch(close, 1);
    MatchedInFront(actual, close, 0, 1);
    var all := "(" + actual + ")";
    assert all[0] == '(' && all[1..] == actual + close;
    forall i | 0 <= i < |all| ensures all[i] != ',' {
      if 0 < i <= |actual| { assert all[i] == actual[i - 1]; }
    }
  }

  predicate AreOneParameter(texts: seq<string>) {
    forall i :: 0 <= i < |texts| ==> IsOneParameter(texts[i])
  }

  lemma {:induction false} ReplacementsKeep(s: string, formals: seq<Formal>, actuals: seq<string>)
    requires AreNames(formals, actuals) && AreOneParameter(actuals) && IsOneParameter(s) && !IsBlank(s)
    ensures |formals| == |actuals|
    ensures var r := ReplaceAll(s, formals, Bracketed(actuals)); IsOneParameter(r) && !IsBlank(r)
    decreases |formals|
  {
    hide IsLiteral, IsWordText, IsSpace, ParensMatch, ReplaceFrom, ReplaceWord;
    if |formals| > 0 {
      var a := "(" + actuals[0] + ")";
      BracketedIsOne(actuals[0]);
      assert IsName(formals[0]) && s[0..] == s;
      ReplacementKeeps(s, formals[0], a, 0, 0);
      OnceReplaced(s, formals[0], a);
      assert Bracketed(actuals)[1..] == Bracketed(actuals[1..]);
      ReplacementsKeep(ReplaceWord(s, formals[0], a), formals[1..], actuals[1..]);
    }
  }

  lemma OnceReplaced(s: string, formal: Formal, actual: string)
    ensures ReplaceWord(s, formal, actual) == ReplaceFrom(s, formal, actual, 0)
  {
  }

  // ---------------------------------------------------------------- a body statement at a call

  lemma {:induction false} ReplaceAllSplit(
    s: string, fs: seq<Formal>, xs: seq<string>, gs: seq<Formal>, ys: seq<string>)
    requires |fs| == |xs| && |gs| == |ys|
    ensures ReplaceAll(s, fs + gs, xs + ys) == ReplaceAll(ReplaceAll(s, fs, xs), gs, ys)
    decreases |fs|
  {
    hide ReplaceWord;
    if |fs| > 0 {
      assert (fs + gs)[1..] == fs[1..] + gs && (xs + ys)[1..] == xs[1..] + ys;
      ReplaceAllSplit(ReplaceWord(s, fs[0], xs[0]), fs[1..], xs[1..], gs, ys);
    } else {
      assert fs + gs == gs && xs + ys == ys;
    }
  }

  /** A word that is no formal stays. */
  lemma OtherWordStays(word: string, formals: seq<Formal>, actuals: seq<string>)
    requires IsSubstitution(formals, actuals) && IsWordText(word) && word !in formals
    ensures ReplaceAll(word, formals, actuals) == word
  {
    hide Occurs, IsWordText, IsLiteral;
    forall j | 0 <= j < |formals| ensures !Mentions(word, formals[j]) {
      forall i | 0 <= i < |word| ensures !Occurs(word, formals[j], i) { OnlyWhole(word, formals[j], i); }
    }
    SurvivesAll(word, formals, actuals);
  }

  /** A gate statement with one parameter list. */
  function Statement(name: string, inner: string, tail: string): string {
    name + ("(" + (inner + (")" + tail)))
  }

  /** Its name stays when no formal is named like it, and the rest is replaced part by part. */
  lemma StatementReplaced(name: string, inner: string, tail: string, formals: seq<Formal>, actuals: seq<string>)
    requires IsSubstitution(formals, actuals) && IsWordText(name) && name !in formals
    ensures |formals| == |actuals|
    ensures ReplaceAll(Statement(name, inner, tail), formals, actuals)
         == Statement(name, ReplaceAll(inner, formals, actuals), ReplaceAll(tail, formals, actuals))
  {
    hide IsSubstitution, ReplaceAll, IsWordText;
    LengthsAgree(formals, actuals);
    var closed := ")" + tail;
    var rest := inner + closed;
    ReplaceAllConcat(")", tail, formals, actuals);
    ReplaceAllConcat(inner, closed, formals, actuals);
    ReplaceAllConcat("(", rest, formals, actuals);
    ReplaceAllConcat(name, "(" + rest, formals, actuals);
    ReplaceAllGap('(', formals, actuals);
    ReplaceAllGap(')', formals, actuals);
    OtherWordStays(name, formals, actuals);
  }

  lemma StatementReads(name: string, inner: string, tail: string)
    requires IsIdentifier(name) && ParensMatch(inner, 0)
    ensures CallSignature(Statement(name, inner, tail)) == Some(Signature(name, Some(inner), Trim(tail)))
  {
    hide Trim, IsIdentifier, ParensMatch;
    var rest := "(" + (inner + (")" + tail));
    IdentifierReads(name, rest);
    assert LeadingSpaces(rest) == 0 && rest[0..] == rest;
    ClosesBehind(inner, tail, 0);
    assert rest[1..] == inner + (")" + tail);
    assert ClosesAt(rest, 0) == Some(|inner| + 1);
    InnerAndTail(inner, tail);
  }

  /** The text that stands for a parameter at a call. */
  function AtCall(inner: string, d: Definition, parameters: seq<string>): string
    requires |parameters| == |d.parameters|
  {
    ReplaceAll(inner, d.parameters, Bracketed(parameters))
  }

  /**
   * What a gate body and a call must satisfy for the statement to keep its shape: distinct formals, actuals without
   * patterns, a gate not named like a formal, and no formal qubit in a parameter.
   */
  predicate KeepsItsShape(name: string, inner: string, d: Definition, parameters: seq<string>, qubits: seq<string>) {
    && |parameters| == |d.parameters| && |qubits| == |d.qubits|
    && IsSubstitution(d.parameters + d.qubits, Bracketed(parameters) + qubits) && AreNames(d.parameters, parameters)
    && IsIdentifier(name) && name !in d.parameters + d.qubits
    && IsOneParameter(inner) && !IsBlank(inner) && AreOneParameter(parameters)
    && forall j :: 0 <= j < |d.qubits| ==> !Mentions(AtCall(inner, d, parameters), d.qubits[j])
  }

  lemma InstanceReads(
    name: string, inner: string, tail: string, d: Definition, parameters: seq<string>, qubits: seq<string>)
    requires KeepsItsShape(name, inner, d, parameters, qubits)
    ensures CallSignature(Instance(Statement(name, inner, tail), d, parameters, qubits))
         == Some(Signature(name, Some(AtCall(inner, d, parameters)),
                           Trim(ReplaceAll(tail, d.parameters + d.qubits, Bracketed(parameters) + qubits))))
  {
    hide IsSubstitution, AreNames, IsIdentifier, IsOneParameter, IsBlank, AreOneParameter, Mentions;
    hide ReplaceAll, CallSignature, Statement, Trim;
    IdentifierIsWord(name);
    StatementReplaced(name, inner, tail, d.parameters + d.qubits, Bracketed(parameters) + qubits);
    ReplaceAllSplit(inner, d.parameters, Bracketed(parameters), d.qubits, qubits);
    SurvivesAll(AtCall(inner, d, parameters), d.qubits, qubits);
    ReplacementsKeep(inner, d.parameters, parameters);
    MatchesParens(AtCall(inner, d, parameters));
    StatementReads(name, AtCall(inner, d, parameters),
                   ReplaceAll(tail, d.parameters + d.qubits, Bracketed(parameters) + qubits));
  }

  lemma IdentifierIsWord(name: string)
    requires IsIdentifier(name)
    ensures IsWordText(name)
  {
  }

  lemma MatchesParens(s: string)
    requires IsOneParameter(s)
    ensures ParensMatch(s, 0)
  {
  }

  /**
   * At a call, a body statement is read as the same gate with one parameter. Its text has the value of the body's
   * parameter, each formal bound under the later ones, if and only if every formal stands just where it is read, or
   * there is no such value.
   */
  lemma EmittedParameterIsBoundExactlyWhen(
    env: E.Env, number: string -> real, shown: string -> string, name: string, inner: string, tail: string,
    d: Definition, parameters: seq<string>, qubits: seq<string>)
    requires KeepsItsShape(name, inner, d, parameters, qubits)
    requires AreWellSpaced(number, inner, d.parameters, parameters) && env.function_(PI_NAME).None?
    ensures var signature := CallSignature(Instance(Statement(name, inner, tail), d, parameters, qubits));
      var text := Trim(AtCall(inner, d, parameters));
      var bound := E.Evaluate(S.Nested(env, d.parameters, TokensOf(number, parameters)), Tokens(number, inner));
      && signature.Some? && signature.value.name == name && signature.value.parameterText.Some?
      && ParametersOf(signature.value.parameterText.value, shown) == [ParameterOf(text, shown)]
      && (E.Evaluate(env, Tokens(number, text)) == bound
          <==> PassesReadAlike(number, inner, d.parameters, parameters) || bound.None?)
  {
    hide IsSubstitution, AreNames, IsIdentifier, IsOneParameter, IsBlank, AreOneParameter, Mentions;
    hide ReplaceAll, CallSignature, Statement, Trim;
    hide PassesReadAlike, AreWellSpaced, E.Evaluate, S.Nested, Tokens, TokensOf, ParametersOf, ParameterOf;
    InstanceReads(name, inner, tail, d, parameters, qubits);
    var text := AtCall(inner, d, parameters);
    ReplacementsKeep(inner, d.parameters, parameters);
    NoCommas(text);
    OneParameter(text, shown);
    TrimmedTokens(number, text);
    PassesBindExactlyWhen(env, number, inner, d.parameters, parameters);
  }

  lemma NoCommas(s: string)
    requires IsOneParameter(s)
    ensures forall i :: 0 <= i < |s| ==> s[i] != ','
  {
  }
}
