/**
 * What may stand next to what in an accepted expression, and so when the spacing of a gate body matters
 * (src/engine/parameters.ts:65-180).
 */
module Juxtaposition {
  import opened Options
  import opened Expressions
  import opened Substitution

  // ---------------------------------------------------------------- neighbours

  predicate EndsValue(t: Token) {
    t.Num? || t.Ident? || t == Close
  }

  /** Two tokens that may follow each other: no value right behind a value, no call but of a function. */
  predicate Fits(env: Env, a: Token, b: Token) {
    && (b.Num? || b.Ident? ==> !EndsValue(a))
    && (b == Open ==> !a.Num? && a != Close && (a.Ident? ==> env.function_(a.name).Some?))
  }

  predicate AllFit(env: Env, ts: seq<Token>, n: int) {
    n <= |ts| && forall i :: 0 <= i < n - 1 ==> Fits(env, ts[i], ts[i + 1])
  }

  /** Some tokens were read, the last of them ending a value, and all of them fit. */
  predicate IsRead(env: Env, ts: seq<Token>, rest: seq<Token>) {
    var n := |ts| - |rest|;
    && 0 < n && ts[n..] == rest && EndsValue(ts[n - 1]) && AllFit(env, ts, n)
  }

  predicate IsOperator(t: Token) {
    t == Plus || t == Minus || t == Star || t == Slash || t == StarStar
  }

  /** Nothing was read, or something beginning with an operator. */
  predicate IsReadOn(env: Env, ts: seq<Token>, rest: seq<Token>) {
    rest == ts || (IsRead(env, ts, rest) && IsOperator(ts[0]))
  }

  lemma ReadJoin(env: Env, ts: seq<Token>, middle: seq<Token>, rest: seq<Token>)
    requires IsRead(env, ts, middle) && IsReadOn(env, middle, rest)
    ensures IsRead(env, ts, rest)
    ensures IsOperator(ts[0]) ==> IsReadOn(env, ts, rest)
  {
    if rest != middle {
      var n, m := |ts| - |middle|, |ts| - |rest|;
      assert ts[m..] == middle[m - n..];
      forall i | 0 <= i < m - 1 ensures Fits(env, ts[i], ts[i + 1]) {
        if i >= n {
          assert ts[i] == middle[i - n] && ts[i + 1] == middle[i - n + 1];
        } else if i == n - 1 {
          assert ts[i + 1] == middle[0];
        }
      }
      assert ts[m - 1] == middle[m - n - 1];
    }
  }

  /** An operator, or an opening parenthesis, in front of what is read. */
  lemma ReadBehind(env: Env, ts: seq<Token>, rest: seq<Token>)
    requires |ts| > 0 && IsRead(env, ts[1..], rest) && (IsOperator(ts[0]) || ts[0] == Open)
    ensures IsRead(env, ts, rest)
  {
    var n := |ts| - |rest|;
    assert ts[n..] == ts[1..][n - 1..];
    forall i | 0 <= i < n - 1 ensures Fits(env, ts[i], ts[i + 1]) {
      if i > 0 { assert ts[i] == ts[1..][i - 1] && ts[i + 1] == ts[1..][i]; }
    }
    assert ts[n - 1] == ts[1..][n - 2];
  }

  /** The name of a function in front of its parenthesised argument. */
  lemma ReadCall(env: Env, ts: seq<Token>, rest: seq<Token>)
    requires |ts| > 1 && ts[0].Ident? && ts[1] == Open && env.function_(ts[0].name).Some? && IsRead(env, ts[1..], rest)
    ensures IsRead(env, ts, rest)
  {
    var n := |ts| - |rest|;
    assert ts[n..] == ts[1..][n - 1..];
    forall i | 0 <= i < n - 1 ensures Fits(env, ts[i], ts[i + 1]) {
      if i > 0 { assert ts[i] == ts[1..][i - 1] && ts[i + 1] == ts[1..][i]; }
    }
    assert ts[n - 1] == ts[1..][n - 2];
  }

  /** A closing parenthesis behind what is read. */
  lemma ReadClosed(env: Env, ts: seq<Token>, rest: seq<Token>)
    requires IsRead(env, ts, rest) && Starts(rest, Close)
    ensures IsRead(env, ts, rest[1..])
  {
    var n := |ts| - |rest|;
    assert ts[n] == rest[0] && ts[n + 1..] == rest[1..];
  }

  // ---------------------------------------------------------------- what the grammar reads fits

  lemma {:induction false} ExpressionFits(env: Env, ts: seq<Token>)
    requires Expression(env, ts).Some?
    ensures IsRead(env, ts, Expression(env, ts).value.1)
    decreases |ts|, 5
  {
    hide Term, SumTail, IsRead, IsReadOn;
    TermFits(env, ts);
    var first := Term(env, ts).value;
    SumTailFits(env, first.0, first.1);
    ReadJoin(env, ts, first.1, SumTail(env, first.0, first.1).value.1);
  }

  lemma {:induction false} SumTailFits(env: Env, value: real, ts: seq<Token>)
    requires SumTail(env, value, ts).Some?
    ensures IsReadOn(env, ts, SumTail(env, value, ts).value.1)
    decreases |ts|, 0
  {
    hide Term, IsRead;
    if Starts(ts, Plus) || Starts(ts, Minus) {
      TermFits(env, ts[1..]);
      var next := Term(env, ts[1..]).value;
      ReadBehind(env, ts, next.1);
      SumTailFits(env, if Starts(ts, Plus) then value + next.0 else value - next.0, next.1);
      ReadJoin(env, ts, next.1, SumTail(env, value, ts).value.1);
    }
  }

  lemma {:induction false} TermFits(env: Env, ts: seq<Token>)
    requires Term(env, ts).Some?
    ensures IsRead(env, ts, Term(env, ts).value.1)
    decreases |ts|, 4
  {
    hide Unary, ProductTail, IsRead, IsReadOn;
    UnaryFits(env, ts);
    var first := Unary(env, ts).value;
    ProductTailFits(env, first.0, first.1);
    ReadJoin(env, ts, first.1, ProductTail(env, first.0, first.1).value.1);
  }

  lemma {:induction false} ProductTailFits(env: Env, value: real, ts: seq<Token>)
    requires ProductTail(env, value, ts).Some?
    ensures IsReadOn(env, ts, ProductTail(env, value, ts).value.1)
    decreases |ts|, 0
  {
    hide Unary, IsRead, Multiply, Divide;
    if Starts(ts, Star) || Starts(ts, Slash) {
      UnaryFits(env, ts[1..]);
      var next := Unary(env, ts[1..]).value;
      ReadBehind(env, ts, next.1);
      ProductTailFits(env, if Starts(ts, Star) then Multiply(value, next.0) else Divide(value, next.0), next.1);
      ReadJoin(env, ts, next.1, ProductTail(env, value, ts).value.1);
    }
  }

  lemma {:induction false} UnaryFits(env: Env, ts: seq<Token>)
    requires Unary(env, ts).Some?
    ensures IsRead(env, ts, Unary(env, ts).value.1)
    decreases |ts|, 3
  {
    hide Power, IsRead;
    if Starts(ts, Minus) || Starts(ts, Plus) {
      UnaryFits(env, ts[1..]);
      ReadBehind(env, ts, Unary(env, ts).value.1);
    } else {
      PowerFits(env, ts);
    }
  }

  lemma {:induction false} PowerFits(env: Env, ts: seq<Token>)
    requires Power(env, ts).Some?
    ensures IsRead(env, ts, Power(env, ts).value.1)
    decreases |ts|, 2
  {
    hide Atom, Unary, IsRead;
    AtomFits(env, ts);
    var rest := Atom(env, ts).value.1;
    if Starts(rest, StarStar) {
      UnaryFits(env, rest[1..]);
      var last := Unary(env, rest[1..]).value.1;
      ReadBehind(env, rest, last);
      ReadJoin(env, ts, rest, last);
    }
  }

  lemma {:induction false} EnclosedFits(env: Env, ts: seq<Token>)
    requires Enclosed(env, ts).Some?
    ensures IsRead(env, ts, Enclosed(env, ts).value.1)
    decreases |ts|, 6
  {
    hide Expression, IsRead;
    ExpressionFits(env, ts);
    ReadClosed(env, ts, Expression(env, ts).value.1);
  }

  lemma {:induction false} AtomFits(env: Env, ts: seq<Token>)
    requires Atom(env, ts).Some?
    ensures IsRead(env, ts, Atom(env, ts).value.1)
    decreases |ts|, 1
  {
    hide Enclosed;
    match ts[0] {
      case Open =>
        EnclosedFits(env, ts[1..]);
        ReadBehind(env, ts, Atom(env, ts).value.1);
      case Num(_) =>
      case Ident(name) =>
        if Starts(ts[1..], Open) {
          assert ts[1..][1..] == ts[2..];
          EnclosedFits(env, ts[2..]);
          ReadBehind(env, ts[1..], Atom(env, ts).value.1);
          ReadCall(env, ts, Atom(env, ts).value.1);
        }
      case _ =>
    }
  }

  /** In a text that has a value all neighbours fit. */
  lemma AcceptedTextFits(env: Env, ts: seq<Token>)
    requires Evaluate(env, ts).Some?
    ensures AllFit(env, ts, |ts|)
  {
    hide Expression;
    ExpressionFits(env, ts);
  }

  lemma Misfit(env: Env, ts: seq<Token>, i: nat)
    requires i + 1 < |ts| && !Fits(env, ts[i], ts[i + 1])
    ensures Evaluate(env, ts).None?
  {
    hide Evaluate, Fits;
    if Evaluate(env, ts).Some? { AcceptedTextFits(env, ts); }
  }

  // ---------------------------------------------------------------- bodies that are not well spaced

  /** The formal right behind another name. */
  predicate BehindName(ts: seq<Token>, formal: string, i: nat) {
    i + 1 < |ts| && ts[i].Ident? && ts[i + 1] == Ident(formal)
  }

  /** The formal written like a function. */
  predicate LikeCall(ts: seq<Token>, formal: string, i: nat) {
    i + 1 < |ts| && ts[i] == Ident(formal) && ts[i + 1] == Open
  }

  lemma SpacedUnless(ts: seq<Token>, formal: string)
    ensures Spaced(ts, formal) <==> !exists i: nat :: BehindName(ts, formal, i) || LikeCall(ts, formal, i)
  {
    if !Spaced(ts, formal) {
      var i :| 0 <= i < |ts| - 1
        && !((ts[i + 1] == Ident(formal) ==> !ts[i].Ident?) && (ts[i] == Ident(formal) ==> ts[i + 1] != Open));
      assert BehindName(ts, formal, i) || LikeCall(ts, formal, i);
    }
  }

  /** Substitution puts an opening parenthesis behind the name, or a closing one in front of the opening one. */
  lemma {:induction false} PairsAfterwards(ts: seq<Token>, formal: string, actual: seq<Token>, i: nat) returns (k: nat)
    requires BehindName(ts, formal, i) || LikeCall(ts, formal, i)
    ensures var after := Substitute(ts, formal, actual);
      && k + 1 < |after| && after[k + 1] == Open
      && after[k] == if LikeCall(ts, formal, i) || ts[i] == Ident(formal) then Close else ts[i]
    decreases |ts|
  {
    var head := if ts[0] == Ident(formal) then [Open] + actual + [Close] else [ts[0]];
    var tail := Substitute(ts[1..], formal, actual);
    assert Substitute(ts, formal, actual) == head + tail;
    if i == 0 {
      assert ts[1..][0] == ts[1];
      k := |head| - 1;
    } else {
      assert ts[1..][i - 1] == ts[i] && ts[1..][i] == ts[i + 1];
      assert BehindName(ts[1..], formal, i - 1) || LikeCall(ts[1..], formal, i - 1);
      var m := PairsAfterwards(ts[1..], formal, actual, i - 1);
      k := |head| + m;
    }
  }

  /**
   * A formal behind a name is rejected when bound; substituted, it is accepted at most where the name is a function.
   */
  lemma BehindNameRejects(env: Env, inner: Env, ts: seq<Token>, formal: string, actual: seq<Token>, i: nat)
    requires BehindName(ts, formal, i)
    ensures Evaluate(inner, ts).None?
    ensures Evaluate(env, Substitute(ts, formal, actual)).Some? ==>
      ts[i] != Ident(formal) && env.function_(ts[i].name).Some?
  {
    hide Evaluate, Substitute;
    if !Fits(inner, ts[i], ts[i + 1]) { Misfit(inner, ts, i); }
    var k := PairsAfterwards(ts, formal, actual, i);
    var after := Substitute(ts, formal, actual);
    if !Fits(env, after[k], after[k + 1]) { Misfit(env, after, k); }
  }

  /** A formal written like a function is rejected when substituted; bound, it is accepted at most where it is one. */
  lemma LikeCallRejects(env: Env, inner: Env, ts: seq<Token>, formal: string, actual: seq<Token>, i: nat)
    requires LikeCall(ts, formal, i)
    ensures Evaluate(env, Substitute(ts, formal, actual)).None?
    ensures Evaluate(inner, ts).Some? ==> inner.function_(formal).Some?
  {
    hide Evaluate, Substitute;
    if !Fits(inner, ts[i], ts[i + 1]) { Misfit(inner, ts, i); }
    var k := PairsAfterwards(ts, formal, actual, i);
    var after := Substitute(ts, formal, actual);
    if !Fits(env, after[k], after[k + 1]) { Misfit(env, after, k); }
  }

  /** Every name right in front of the formal is a function, and the formal is one where it is written like one. */
  ghost predicate OnlyFunctions(env: Env, ts: seq<Token>, formal: string) {
    && (forall i: nat :: BehindName(ts, formal, i) ==> env.function_(ts[i].name).Some?)
    && ((exists i: nat :: LikeCall(ts, formal, i)) ==> env.function_(formal).Some?)
  }

  /**
   * Substituting and binding never give two different values. They agree on every body but those where exactly one of
   * them is rejected, and that takes a badly spaced body in which only functions stand where they should not.
   */
  lemma DisagreementIsRejection(env: Env, body: seq<Token>, formal: string, actual: seq<Token>)
    requires IsActual(env, actual)
    ensures var substituted := Evaluate(env, Substitute(body, formal, actual));
      var bound := Evaluate(Bind(env, formal, Evaluate(env, actual)), body);
      substituted != bound ==>
        && substituted.Some? != bound.Some?
        && !Spaced(body, formal) && OnlyFunctions(env, body, formal)
        && (substituted.Some? ==> exists i: nat :: BehindName(body, formal, i))
        && (bound.Some? ==> exists i: nat :: LikeCall(body, formal, i))
  {
    hide Evaluate, Substitute, Spaced;
    var inner := Bind(env, formal, Evaluate(env, actual));
    if Spaced(body, formal) {
      SubstitutionCommutes(env, body, formal, actual);
    } else {
      SpacedUnless(body, formal);
      forall i: nat | BehindName(body, formal, i)
        ensures Evaluate(inner, body).None?
        ensures Evaluate(env, Substitute(body, formal, actual)).Some? ==> env.function_(body[i].name).Some?
      {
        BehindNameRejects(env, inner, body, formal, actual, i);
      }
      forall i: nat | LikeCall(body, formal, i)
        ensures Evaluate(env, Substitute(body, formal, actual)).None?
        ensures Evaluate(inner, body).Some? ==> env.function_(formal).Some?
      {
        LikeCallRejects(env, inner, body, formal, actual, i);
      }
    }
  }

  // ---------------------------------------------------------------- two families, exactly

  lemma CallValue(env: Env, name: string, argument: seq<Token>)
    requires Evaluate(env, argument).Some?
    ensures Evaluate(env, [Ident(name), Open] + argument + [Close])
         == if env.function_(name).Some? then Some(env.function_(name).value(Evaluate(env, argument).value)) else None
  {
    hide Expression;
    ExtendExpression(env, argument, []);
    var ts := [Ident(name), Open] + argument + [Close];
    assert ts[1..] == [Open] + argument + [Close] && ts[2..] == argument + [Close] + [];
    assert [] + [Close] + [] == [Close] && [Close][1..] == [];
    var f := env.function_(name);
    assert Atom(env, ts) == if f.Some? then Some((f.value(Evaluate(env, argument).value), [])) else None;
    assert Power(env, ts) == Atom(env, ts);
    assert Unary(env, ts) == Power(env, ts);
    assert Term(env, ts) == Unary(env, ts);
    WholeTerm(env, ts);
  }

  lemma WholeTerm(env: Env, ts: seq<Token>)
    requires Term(env, ts).Some? ==> Term(env, ts).value.1 == []
    ensures Evaluate(env, ts) == if Term(env, ts).Some? then Some(Term(env, ts).value.0) else None
  {
    hide Term;
    if Term(env, ts).Some? {
      var v := Term(env, ts).value.0;
      assert SumTail(env, v, []) == Some((v, []));
      assert Expression(env, ts) == Some((v, []));
    }
  }

  /** `f t`: substituting agrees with binding exactly when f is not a function. */
  lemma FunctionBeforeFormal(env: Env, name: string, formal: string, actual: seq<Token>)
    requires Evaluate(env, actual).Some? && name != formal
    ensures var body := [Ident(name), Ident(formal)];
      Evaluate(env, Substitute(body, formal, actual)) == Evaluate(Bind(env, formal, Evaluate(env, actual)), body)
      <==> env.function_(name).None?
  {
    hide Evaluate;
    var body := [Ident(name), Ident(formal)];
    assert BehindName(body, formal, 0);
    BehindNameRejects(env, Bind(env, formal, Evaluate(env, actual)), body, formal, actual, 0);
    assert body[1..] == [Ident(formal)] && [Ident(formal)][1..] == [];
    assert Substitute([Ident(formal)], formal, actual) == [Open] + actual + [Close];
    assert Substitute(body, formal, actual) == [Ident(name), Open] + actual + [Close];
    CallValue(env, name, actual);
  }

  /** `t (x)`: substituting agrees with binding exactly when t is not itself a function. */
  lemma FormalLikeFunction(env: Env, formal: string, actual: seq<Token>, x: real)
    requires IsActual(env, actual)
    ensures var body := [Ident(formal), Open] + [Num(x)] + [Close];
      Evaluate(env, Substitute(body, formal, actual)) == Evaluate(Bind(env, formal, Evaluate(env, actual)), body)
      <==> env.function_(formal).None?
  {
    hide Evaluate, Substitute;
    var inner := Bind(env, formal, Evaluate(env, actual));
    var body := [Ident(formal), Open] + [Num(x)] + [Close];
    assert LikeCall(body, formal, 0);
    LikeCallRejects(env, inner, body, formal, actual, 0);
    LiteralValue(inner, x);
    CallValue(inner, formal, [Num(x)]);
  }
}
