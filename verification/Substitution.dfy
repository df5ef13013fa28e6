/** Textual substitution of gate-body parameters (src/circuit/qasm3.ts:320-347) against binding them. */
module Substitution {
  import opened Options
  import opened Expressions

  /** Every occurrence of a formal becomes the actual in parentheses. */
  function Substitute(ts: seq<Token>, formal: string, actual: seq<Token>): seq<Token> {
    if |ts| == 0 then []
    else (if ts[0] == Ident(formal) then [Open] + actual + [Close] else [ts[0]]) + Substitute(ts[1..], formal, actual)
  }

  /** The formal given a value, or none, hiding whatever its name meant. */
  function Bind(env: Env, formal: string, v: Option<real>): Env {
    env.(value := (name: string) => if name == formal then v else env.value(name))
  }

  /** A text that has a value, or whose parentheses match: what a parameter list is split into. */
  predicate IsActual(env: Env, actual: seq<Token>) {
    Evaluate(env, actual).Some? || Closes(actual, 0)
  }

  /** The formal is neither called like a function nor written right behind another name. */
  predicate Spaced(ts: seq<Token>, formal: string) {
    forall i :: 0 <= i < |ts| - 1 ==>
      && (ts[i + 1] == Ident(formal) ==> !ts[i].Ident?)
      && (ts[i] == Ident(formal) ==> ts[i + 1] != Open)
  }

  function SubstituteRest(r: Parsed, formal: string, actual: seq<Token>): Parsed {
    if r.None? then None else Some((r.value.0, Substitute(r.value.1, formal, actual)))
  }

  /** What reading from a text yields is the same after substitution as with the formal bound. */
  ghost predicate Commutes(bound: Parsed, substituted: Parsed, formal: string, actual: seq<Token>) {
    && substituted == SubstituteRest(bound, formal, actual)
    && (bound.Some? ==> Spaced(bound.value.1, formal))
  }

  lemma Head(ts: seq<Token>, formal: string, actual: seq<Token>, t: Token)
    requires t != Open && !t.Ident?
    ensures Starts(Substitute(ts, formal, actual), t) <==> Starts(ts, t)
    ensures Starts(ts, t) ==> Substitute(ts, formal, actual)[1..] == Substitute(ts[1..], formal, actual)
    ensures Spaced(ts, formal) && |ts| > 0 ==> Spaced(ts[1..], formal)
  {
  }

  lemma {:induction false} CommutesExpression(env: Env, ts: seq<Token>, formal: string, actual: seq<Token>)
    requires IsActual(env, actual) && Spaced(ts, formal)
    ensures Commutes(Expression(Bind(env, formal, Evaluate(env, actual)), ts),
                     Expression(env, Substitute(ts, formal, actual)), formal, actual)
    decreases |ts|, 5
  {
    hide Spaced, Bind, Evaluate;
    var inner := Bind(env, formal, Evaluate(env, actual));
    CommutesTerm(env, ts, formal, actual);
    var first := Term(inner, ts);
    if first.Some? { CommutesSumTail(env, first.value.0, first.value.1, formal, actual); }
  }

  lemma {:induction false} CommutesSumTail(env: Env, value: real, ts: seq<Token>, formal: string, actual: seq<Token>)
    requires IsActual(env, actual) && Spaced(ts, formal)
    ensures Commutes(SumTail(Bind(env, formal, Evaluate(env, actual)), value, ts),
                     SumTail(env, value, Substitute(ts, formal, actual)), formal, actual)
    decreases |ts|, 0
  {
    hide Spaced, Bind, Evaluate, Term;
    var inner := Bind(env, formal, Evaluate(env, actual));
    Head(ts, formal, actual, Plus);
    Head(ts, formal, actual, Minus);
    if Starts(ts, Plus) || Starts(ts, Minus) {
      CommutesTerm(env, ts[1..], formal, actual);
      var next := Term(inner, ts[1..]);
      if next.Some? {
        var sum := if Starts(ts, Plus) then value + next.value.0 else value - next.value.0;
        CommutesSumTail(env, sum, next.value.1, formal, actual);
      }
    }
  }

  lemma {:induction false} CommutesTerm(env: Env, ts: seq<Token>, formal: string, actual: seq<Token>)
    requires IsActual(env, actual) && Spaced(ts, formal)
    ensures Commutes(Term(Bind(env, formal, Evaluate(env, actual)), ts),
                     Term(env, Substitute(ts, formal, actual)), formal, actual)
    decreases |ts|, 4
  {
    hide Spaced, Bind, Evaluate;
    var inner := Bind(env, formal, Evaluate(env, actual));
    CommutesUnary(env, ts, formal, actual);
    var first := Unary(inner, ts);
    if first.Some? { CommutesProductTail(env, first.value.0, first.value.1, formal, actual); }
  }

  lemma {:induction false} CommutesProductTail(
    env: Env, value: real, ts: seq<Token>, formal: string, actual: seq<Token>)
    requires IsActual(env, actual) && Spaced(ts, formal)
    ensures Commutes(ProductTail(Bind(env, formal, Evaluate(env, actual)), value, ts),
                     ProductTail(env, value, Substitute(ts, formal, actual)), formal, actual)
    decreases |ts|, 0
  {
    hide Spaced, Bind, Evaluate, Unary, Multiply, Divide;
    var inner := Bind(env, formal, Evaluate(env, actual));
    Head(ts, formal, actual, Star);
    Head(ts, formal, actual, Slash);
    if Starts(ts, Star) || Starts(ts, Slash) {
      CommutesUnary(env, ts[1..], formal, actual);
      var next := Unary(inner, ts[1..]);
      if next.Some? && (Starts(ts, Star) || next.value.0 != 0.0) {
        var product := if Starts(ts, Star) then Multiply(value, next.value.0) else Divide(value, next.value.0);
        CommutesProductTail(env, product, next.value.1, formal, actual);
      }
    }
  }

  lemma {:induction false} CommutesUnary(env: Env, ts: seq<Token>, formal: string, actual: seq<Token>)
    requires IsActual(env, actual) && Spaced(ts, formal)
    ensures Commutes(Unary(Bind(env, formal, Evaluate(env, actual)), ts),
                     Unary(env, Substitute(ts, formal, actual)), formal, actual)
    decreases |ts|, 3
  {
    hide Spaced, Bind, Evaluate, Power;
    Head(ts, formal, actual, Plus);
    Head(ts, formal, actual, Minus);
    if Starts(ts, Minus) || Starts(ts, Plus) {
      CommutesUnary(env, ts[1..], formal, actual);
    } else {
      CommutesPower(env, ts, formal, actual);
    }
  }

  lemma {:induction false} CommutesPower(env: Env, ts: seq<Token>, formal: string, actual: seq<Token>)
    requires IsActual(env, actual) && Spaced(ts, formal)
    ensures Commutes(Power(Bind(env, formal, Evaluate(env, actual)), ts),
                     Power(env, Substitute(ts, formal, actual)), formal, actual)
    decreases |ts|, 2
  {
    hide Spaced, Evaluate, Atom, Unary;
    var inner := Bind(env, formal, Evaluate(env, actual));
    CommutesAtom(env, ts, formal, actual);
    var base := Atom(inner, ts);
    if base.Some? {
      Head(base.value.1, formal, actual, StarStar);
      if Starts(base.value.1, StarStar) { CommutesUnary(env, base.value.1[1..], formal, actual); }
    }
  }

  lemma {:induction false} CommutesEnclosed(env: Env, ts: seq<Token>, formal: string, actual: seq<Token>)
    requires IsActual(env, actual) && Spaced(ts, formal)
    ensures Commutes(Enclosed(Bind(env, formal, Evaluate(env, actual)), ts),
                     Enclosed(env, Substitute(ts, formal, actual)), formal, actual)
    decreases |ts|, 6
  {
    hide Spaced, Bind, Evaluate, Expression;
    var bound := Expression(Bind(env, formal, Evaluate(env, actual)), ts);
    CommutesExpression(env, ts, formal, actual);
    if bound.Some? { Head(bound.value.1, formal, actual, Close); }
  }

  lemma {:induction false} CommutesAtom(env: Env, ts: seq<Token>, formal: string, actual: seq<Token>)
    requires IsActual(env, actual) && Spaced(ts, formal)
    ensures Commutes(Atom(Bind(env, formal, Evaluate(env, actual)), ts),
                     Atom(env, Substitute(ts, formal, actual)), formal, actual)
    decreases |ts|, 1
  {
    hide Evaluate, Enclosed;
    var inner := Bind(env, formal, Evaluate(env, actual));
    if |ts| > 0 {
      var rest := Substitute(ts[1..], formal, actual);
      assert Spaced(ts[1..], formal);
      if ts[0] == Ident(formal) {
        assert !Starts(ts[1..], Open);
        if Evaluate(env, actual).Some? {
          ParenthesisedAtom(env, actual, rest);
        } else {
          ParenthesisedRejection(env, actual, rest);
        }
      } else {
        assert Substitute(ts, formal, actual)[1..] == rest;
        if ts[0].Open? { CommutesEnclosed(env, ts[1..], formal, actual); }
        if ts[0].Ident? {
          AfterName(ts, formal, actual);
          if Starts(ts[1..], Open) {
            assert ts[2..] == ts[1..][1..];
            CommutesEnclosed(env, ts[2..], formal, actual);
          }
        }
      }
    }
  }

  /** Behind another name, an opening parenthesis stays one and none appears. */
  lemma AfterName(ts: seq<Token>, formal: string, actual: seq<Token>)
    requires |ts| > 0 && ts[0].Ident? && ts[0] != Ident(formal) && Spaced(ts, formal)
    ensures var rest := Substitute(ts, formal, actual)[1..];
      && (Starts(rest, Open) <==> Starts(ts[1..], Open))
      && (Starts(ts[1..], Open) ==>
            Substitute(ts, formal, actual)[2..] == Substitute(ts[2..], formal, actual) && Spaced(ts[2..], formal))
  {
    var tail := ts[1..];
    assert Substitute(ts, formal, actual)[1..] == Substitute(tail, formal, actual);
    if |tail| > 0 {
      assert tail[0] == ts[1] && tail[0] != Ident(formal);
      assert Substitute(tail, formal, actual)[1..] == Substitute(tail[1..], formal, actual);
      assert tail[1..] == ts[2..];
      assert Substitute(ts, formal, actual)[2..] == Substitute(ts, formal, actual)[1..][1..];
    }
  }

  /**
   * Substituting and then evaluating is evaluating with the formal bound to the value of the actual, or to none when
   * the actual is rejected.
   */
  lemma SubstitutionCommutes(env: Env, body: seq<Token>, formal: string, actual: seq<Token>)
    requires IsActual(env, actual) && Spaced(body, formal)
    ensures Evaluate(env, Substitute(body, formal, actual)) == Evaluate(Bind(env, formal, Evaluate(env, actual)), body)
  {
    hide Expression, Spaced, Bind;
    CommutesExpression(env, body, formal, actual);
    var r := Expression(Bind(env, formal, Evaluate(env, actual)), body);
    if r.Some? { SubstitutedLength(r.value.1, formal, actual); }
  }

  lemma SubstitutedLength(ts: seq<Token>, formal: string, actual: seq<Token>)
    ensures |Substitute(ts, formal, actual)| == 0 <==> |ts| == 0
  {
  }

  // ---------------------------------------------------------------- several formals, one after the other

  function SubstituteAll(body: seq<Token>, formals: seq<string>, actuals: seq<seq<Token>>): seq<Token>
    requires |formals| == |actuals|
    decreases |formals|
  {
    if |formals| == 0 then body
    else SubstituteAll(Substitute(body, formals[0], actuals[0]), formals[1..], actuals[1..])
  }

  function BindAll(env: Env, formals: seq<string>, values: seq<Option<real>>): Env
    requires |formals| == |values|
  {
    if |formals| == 0 then env else Bind(BindAll(env, formals[1..], values[1..]), formals[0], values[0])
  }

  predicate FreeOf(ts: seq<Token>, formal: string) {
    forall i :: 0 <= i < |ts| ==> ts[i] != Ident(formal)
  }

  lemma {:induction false} NothingToSubstitute(ts: seq<Token>, formal: string, actual: seq<Token>)
    requires FreeOf(ts, formal)
    ensures Substitute(ts, formal, actual) == ts && Spaced(ts, formal)
  {
    if |ts| > 0 { NothingToSubstitute(ts[1..], formal, actual); }
  }

  /** A text that does not mention a name does not depend on it. */
  lemma BindingIgnored(env: Env, formal: string, v: Option<real>, ts: seq<Token>)
    requires FreeOf(ts, formal)
    ensures Evaluate(Bind(env, formal, v), ts) == Evaluate(env, ts)
  {
    var actual := if v.Some? then [Num(v.value)] else [];
    if v.Some? { LiteralValue(env, v.value); } else { NothingValue(env); }
    assert Evaluate(env, actual) == v && IsActual(env, actual);
    hide Evaluate, Bind, IsActual;
    NothingToSubstitute(ts, formal, actual);
    SubstitutionCommutes(env, ts, formal, actual);
  }

  lemma NothingValue(env: Env)
    ensures Evaluate(env, []) == None && Closes([], 0)
  {
    assert Atom(env, []).None?;
    assert Power(env, []).None?;
    assert Unary(env, []).None?;
    assert Term(env, []).None?;
  }

  lemma LiteralValue(env: Env, v: real)
    ensures Evaluate(env, [Num(v)]) == Some(v)
  {
    assert [Num(v)][1..] == [];
    assert Atom(env, [Num(v)]) == Some((v, []));
    assert Power(env, [Num(v)]) == Some((v, []));
    assert Unary(env, [Num(v)]) == Some((v, []));
    assert Term(env, [Num(v)]) == Some((v, []));
    assert Expression(env, [Num(v)]) == Some((v, []));
  }

  lemma {:induction false} BindingsIgnored(env: Env, formals: seq<string>, values: seq<Option<real>>, ts: seq<Token>)
    requires |formals| == |values| && forall i :: 0 <= i < |formals| ==> FreeOf(ts, formals[i])
    ensures Evaluate(BindAll(env, formals, values), ts) == Evaluate(env, ts)
    decreases |formals|
  {
    hide Evaluate, Bind, FreeOf;
    if |formals| > 0 {
      BindingsIgnored(env, formals[1..], values[1..], ts);
      BindingIgnored(BindAll(env, formals[1..], values[1..]), formals[0], values[0], ts);
    }
  }

  /** Substituting one formal leaves another one well spaced, when it is well spaced in the actual. */
  lemma {:induction false} StaysSpaced(ts: seq<Token>, formal: string, actual: seq<Token>, other: string)
    requires Spaced(ts, formal) && Spaced(ts, other) && Spaced(actual, other)
    ensures Spaced(Substitute(ts, formal, actual), other)
    decreases |ts|
  {
    if |ts| > 0 {
      var rest := ts[1..];
      StaysSpaced(rest, formal, actual, other);
      var head := if ts[0] == Ident(formal) then [Open] + actual + [Close] else [ts[0]];
      var tail := Substitute(rest, formal, actual);
      if |rest| > 0 {
        assert rest[0] == ts[1];
        assert tail[0] == if ts[1] == Ident(formal) then Open else ts[1];
      }
      JoinSpaced([Open], actual, other);
      JoinSpaced([Open] + actual, [Close], other);
      JoinSpaced(head, tail, other);
    }
  }

  lemma JoinSpaced(head: seq<Token>, tail: seq<Token>, other: string)
    requires |head| > 0 && Spaced(head, other) && Spaced(tail, other)
    requires |tail| > 0 && tail[0] == Ident(other) ==> !head[|head| - 1].Ident?
    requires |tail| > 0 && tail[0] == Open ==> head[|head| - 1] != Ident(other)
    ensures Spaced(head + tail, other)
  {
    var all := head + tail;
    forall i | 0 <= i < |all| - 1
      ensures (all[i + 1] == Ident(other) ==> !all[i].Ident?) && (all[i] == Ident(other) ==> all[i + 1] != Open)
    {
      if i + 1 < |head| {
        assert all[i] == head[i] && all[i + 1] == head[i + 1];
      } else if i + 1 == |head| {
        assert all[i] == head[i] && all[i + 1] == tail[0];
      } else {
        assert all[i] == tail[i - |head|] && all[i + 1] == tail[i - |head| + 1];
      }
    }
  }

  /** What a definition and a call must satisfy for textual substitution to mean what binding means. */
  ghost predicate NoCapture(
    env: Env, body: seq<Token>, formals: seq<string>, actuals: seq<seq<Token>>, values: seq<Option<real>>)
  {
    && |formals| == |actuals| == |values|
    && (forall i :: 0 <= i < |formals| ==>
         Spaced(body, formals[i]) && IsActual(env, actuals[i]) && Evaluate(env, actuals[i]) == values[i])
    && (forall i, j :: 0 <= i < j < |formals| ==> formals[i] != formals[j])
    && forall i, j :: 0 <= i < j < |formals| ==> FreeOf(actuals[i], formals[j])
  }

  /** Sequential substitution is simultaneous binding when no actual mentions a later formal. */
  lemma {:induction false} SequentialIsSimultaneous(
    env: Env, body: seq<Token>, formals: seq<string>, actuals: seq<seq<Token>>, values: seq<Option<real>>)
    requires NoCapture(env, body, formals, actuals, values)
    ensures Evaluate(env, SubstituteAll(body, formals, actuals)) == Evaluate(BindAll(env, formals, values), body)
    decreases |formals|
  {
    hide Evaluate, Bind, FreeOf, Spaced, Substitute;
    if |formals| > 0 {
      var once := Substitute(body, formals[0], actuals[0]);
      forall i | 1 <= i < |formals| ensures Spaced(once, formals[i]) {
        NothingToSubstitute(actuals[0], formals[i], []);
        StaysSpaced(body, formals[0], actuals[0], formals[i]);
      }
      SequentialIsSimultaneous(env, once, formals[1..], actuals[1..], values[1..]);
      BindingsIgnored(env, formals[1..], values[1..], actuals[0]);
      assert IsActual(env, actuals[0]);
      SubstitutionCommutes(BindAll(env, formals[1..], values[1..]), body, formals[0], actuals[0]);
    }
  }

  // ---------------------------------------------------------------- what sequential substitution is, exactly

  /** Each formal bound to the value its actual has once the later formals are bound. */
  function Nested(env: Env, formals: seq<string>, actuals: seq<seq<Token>>): Env
    requires |formals| == |actuals|
    decreases |formals|
  {
    if |formals| == 0 then env
    else
      var later := Nested(env, formals[1..], actuals[1..]);
      Bind(later, formals[0], Evaluate(later, actuals[0]))
  }

  predicate AreBracketed(actuals: seq<seq<Token>>) {
    forall i :: 0 <= i < |actuals| ==> Closes(actuals[i], 0)
  }

  predicate BodyIsSpaced(body: seq<Token>, formals: seq<string>) {
    forall i :: 0 <= i < |formals| ==> Spaced(body, formals[i])
  }

  /** Whatever an actual brings in is well spaced for the passes still to come. */
  predicate ActualsAreSpaced(formals: seq<string>, actuals: seq<seq<Token>>)
    requires |formals| == |actuals|
  {
    forall i, j :: 0 <= i < j < |formals| ==> Spaced(actuals[i], formals[j])
  }

  lemma TailSpaced(formals: seq<string>, actuals: seq<seq<Token>>)
    requires |formals| == |actuals| > 0 && ActualsAreSpaced(formals, actuals)
    ensures ActualsAreSpaced(formals[1..], actuals[1..])
  {
    hide Spaced;
    forall i, j | 0 <= i < j < |formals| - 1 ensures Spaced(actuals[1..][i], formals[1..][j]) {
      assert Spaced(actuals[i + 1], formals[j + 1]);
    }
  }

  /** One pass after the other is binding each formal under the later ones, whatever the actuals mention. */
  lemma {:induction false} SequentialIsNested(
    env: Env, body: seq<Token>, formals: seq<string>, actuals: seq<seq<Token>>)
    requires |formals| == |actuals| && AreBracketed(actuals)
    requires BodyIsSpaced(body, formals) && ActualsAreSpaced(formals, actuals)
    ensures Evaluate(env, SubstituteAll(body, formals, actuals)) == Evaluate(Nested(env, formals, actuals), body)
    decreases |formals|
  {
    hide Evaluate, Bind, Spaced, Substitute, Closes;
    if |formals| > 0 {
      var once := Substitute(body, formals[0], actuals[0]);
      var later := Nested(env, formals[1..], actuals[1..]);
      forall i | 0 <= i < |formals| - 1 ensures Spaced(once, formals[1..][i]) {
        assert Spaced(body, formals[0]) && Spaced(body, formals[i + 1]) && Spaced(actuals[0], formals[i + 1]);
        StaysSpaced(body, formals[0], actuals[0], formals[i + 1]);
      }
      TailSpaced(formals, actuals);
      assert IsActual(later, actuals[0]);
      SequentialIsNested(env, once, formals[1..], actuals[1..]);
      SubstitutionCommutes(later, body, formals[0], actuals[0]);
    }
  }

  predicate DistinctFormals(formals: seq<string>) {
    forall i, j :: 0 <= i < j < |formals| ==> formals[i] != formals[j]
  }

  /** A call with distinct formals and properly split actuals, and the value each actual has, if any. */
  predicate IsReadable(env: Env, formals: seq<string>, actuals: seq<seq<Token>>, values: seq<Option<real>>) {
    && |formals| == |actuals| == |values| && DistinctFormals(formals) && ActualsAreSpaced(formals, actuals)
    && AreBracketed(actuals)
    && forall i :: 0 <= i < |formals| ==> Evaluate(env, actuals[i]) == values[i]
  }

  /** Every actual keeps its value when the later formals are bound. */
  predicate CapturesNothing(env: Env, formals: seq<string>, actuals: seq<seq<Token>>)
    requires |formals| == |actuals|
    decreases |formals|
  {
    |formals| > 0 ==>
      && Evaluate(Nested(env, formals[1..], actuals[1..]), actuals[0]) == Evaluate(env, actuals[0])
      && CapturesNothing(env, formals[1..], actuals[1..])
  }

  ghost predicate AgreesOnEveryBody(env: Env, formals: seq<string>, actuals: seq<seq<Token>>, values: seq<Option<real>>)
    requires |formals| == |actuals| == |values|
  {
    forall body: seq<Token> :: BodyIsSpaced(body, formals) ==>
      Evaluate(env, SubstituteAll(body, formals, actuals)) == Evaluate(BindAll(env, formals, values), body)
  }

  lemma ReadableTail(env: Env, formals: seq<string>, actuals: seq<seq<Token>>, values: seq<Option<real>>)
    requires IsReadable(env, formals, actuals, values) && |formals| > 0
    ensures IsReadable(env, formals[1..], actuals[1..], values[1..])
  {
    hide Evaluate, Bind, Spaced;
    TailSpaced(formals, actuals);
    forall i, j | 0 <= i < j < |formals| - 1 ensures formals[1..][i] != formals[1..][j] {
      assert formals[i + 1] != formals[j + 1];
    }
    forall i | 0 <= i < |formals| - 1 ensures Evaluate(env, actuals[1..][i]) == values[1..][i] {
      assert Evaluate(env, actuals[i + 1]) == values[i + 1];
    }
  }

  lemma {:induction false} NothingCapturedIsBound(
    env: Env, formals: seq<string>, actuals: seq<seq<Token>>, values: seq<Option<real>>)
    requires IsReadable(env, formals, actuals, values) && CapturesNothing(env, formals, actuals)
    ensures Nested(env, formals, actuals) == BindAll(env, formals, values)
    decreases |formals|
  {
    hide Evaluate, Bind, ActualsAreSpaced;
    if |formals| > 0 {
      ReadableTail(env, formals, actuals, values);
      NothingCapturedIsBound(env, formals[1..], actuals[1..], values[1..]);
    }
  }

  /** What the two environments give the i-th formal. */
  lemma {:induction false} FormalValues(
    env: Env, formals: seq<string>, actuals: seq<seq<Token>>, values: seq<Option<real>>, i: nat)
    requires IsReadable(env, formals, actuals, values) && i < |formals|
    ensures Nested(env, formals, actuals).value(formals[i])
         == Evaluate(Nested(env, formals[i + 1..], actuals[i + 1..]), actuals[i])
    ensures BindAll(env, formals, values).value(formals[i]) == values[i]
    decreases i
  {
    hide Evaluate, ActualsAreSpaced;
    if i > 0 {
      ReadableTail(env, formals, actuals, values);
      FormalValues(env, formals[1..], actuals[1..], values[1..], i - 1);
      assert formals[1..][i..] == formals[i + 1..] && actuals[1..][i..] == actuals[i + 1..];
      assert formals[1..][i - 1] == formals[i] && formals[0] != formals[i];
    }
  }

  lemma {:induction false} AgreementCapturesNothing(
    env: Env, formals: seq<string>, actuals: seq<seq<Token>>, values: seq<Option<real>>, k: nat)
    requires IsReadable(env, formals, actuals, values) && AgreesOnEveryBody(env, formals, actuals, values)
    requires k <= |formals|
    ensures CapturesNothing(env, formals[k..], actuals[k..])
    decreases |formals| - k
  {
    hide Evaluate, ActualsAreSpaced, Spaced, Bind, BindAll, Nested, SubstituteAll;
    if k < |formals| {
      AgreementCapturesNothing(env, formals, actuals, values, k + 1);
      FormalValues(env, formals, actuals, values, k);
      var body := [Ident(formals[k])];
      NameIsSpaced(formals[k], formals);
      SequentialIsNested(env, body, formals, actuals);
      NameValue(Nested(env, formals, actuals), formals[k]);
      NameValue(BindAll(env, formals, values), formals[k]);
      assert formals[k..][1..] == formals[k + 1..] && actuals[k..][1..] == actuals[k + 1..];
    }
  }

  lemma NameIsSpaced(name: string, formals: seq<string>)
    ensures BodyIsSpaced([Ident(name)], formals)
  {
  }

  /**
   * Substituting one formal after the other means binding them all at once, on every well-spaced body, if and only if
   * each actual has the same value with the later formals bound as without.
   */
  lemma SimultaneousExactlyWhen(env: Env, formals: seq<string>, actuals: seq<seq<Token>>, values: seq<Option<real>>)
    requires IsReadable(env, formals, actuals, values)
    ensures AgreesOnEveryBody(env, formals, actuals, values) <==> CapturesNothing(env, formals, actuals)
  {
    hide Evaluate, Spaced, Bind, BindAll, Nested, SubstituteAll;
    if CapturesNothing(env, formals, actuals) {
      NothingCapturedIsBound(env, formals, actuals, values);
      forall body: seq<Token> | BodyIsSpaced(body, formals)
        ensures Evaluate(env, SubstituteAll(body, formals, actuals)) == Evaluate(BindAll(env, formals, values), body)
      {
        SequentialIsNested(env, body, formals, actuals);
      }
    }
    if AgreesOnEveryBody(env, formals, actuals, values) {
      AgreementCapturesNothing(env, formals, actuals, values, 0);
      assert formals[0..] == formals && actuals[0..] == actuals;
    }
  }

  // ---------------------------------------------------------------- where it goes wrong

  const SUM_OF_FORMALS := [Ident("a"), Plus, Ident("b")]

  lemma NameAlone(env: Env, name: string, rest: seq<Token>, v: real)
    requires env.value(name) == Some(v) && (|rest| > 0 ==> rest[0] == Plus)
    ensures Unary(env, [Ident(name)] + rest) == Some((v, rest))
  {
    var ts := [Ident(name)] + rest;
    assert ts[1..] == rest;
    assert Atom(env, ts) == Some((v, rest));
    assert Power(env, ts) == Some((v, rest));
  }

  lemma SumOfNames(env: Env, p: real, q: real)
    requires env.value("a") == Some(p) && env.value("b") == Some(q)
    ensures Evaluate(env, SUM_OF_FORMALS) == Some(p + q)
  {
    hide Unary;
    var rest := [Plus, Ident("b")];
    assert SUM_OF_FORMALS == [Ident("a")] + rest && rest[1..] == [Ident("b")] && [Ident("b")] + [] == [Ident("b")];
    NameAlone(env, "a", rest, p);
    NameAlone(env, "b", [], q);
    assert Term(env, SUM_OF_FORMALS) == Some((p, rest));
    assert Term(env, rest[1..]) == Some((q, []));
    assert SumTail(env, p, rest) == Some((p + q, []));
  }

  /** A name alone is worth what it is bound to. */
  lemma NameValue(env: Env, name: string)
    ensures Evaluate(env, [Ident(name)]) == env.value(name)
  {
    var ts := [Ident(name)];
    assert ts[1..] == [];
    assert Atom(env, ts) == if env.value(name).Some? then Some((env.value(name).value, [])) else None;
    assert Power(env, ts) == Atom(env, ts);
    assert Unary(env, ts) == Power(env, ts);
    assert Term(env, ts) == Unary(env, ts);
    assert Expression(env, ts) == Term(env, ts);
  }

  lemma SumIsSpaced()
    ensures Spaced(SUM_OF_FORMALS, "a") && Spaced(SUM_OF_FORMALS, "b")
    ensures FreeOf([Num(1.0)], "a") && FreeOf([Ident("b")], "a")
  {
  }

  /**
   * An actual that mentions a later formal is captured: a gate over (a, b) called with (b, 1), where b is 5 outside,
   * sees 1 + 1 instead of 5 + 1.
   */
  lemma ActualsAreCaptured(env: Env)
    requires env.value("b") == Some(5.0)
    ensures Evaluate(env, SubstituteAll(SUM_OF_FORMALS, ["a", "b"], [[Ident("b")], [Num(1.0)]])) == Some(2.0)
    ensures Evaluate(BindAll(env, ["a", "b"], [Some(5.0), Some(1.0)]), SUM_OF_FORMALS) == Some(6.0)
  {
    hide Evaluate, Spaced, Substitute;
    var formals, actuals := ["a", "b"], [[Ident("b")], [Num(1.0)]];
    var once := Substitute(SUM_OF_FORMALS, "a", [Ident("b")]);
    assert formals[1..] == ["b"] && actuals[1..] == [[Num(1.0)]];
    assert ["b"][1..] == [] && [[Num(1.0)]][1..] == [];
    assert SubstituteAll(SUM_OF_FORMALS, formals, actuals) == Substitute(once, "b", [Num(1.0)]);
    CapturedValue(env);
    assert [Some(5.0), Some(1.0)][1..] == [Some(1.0)] && [Some(1.0)][1..] == [];
    assert BindAll(env, formals, [Some(5.0), Some(1.0)]) == Bind(BindAll(env, ["b"], [Some(1.0)]), "a", Some(5.0));
    assert BindAll(env, ["b"], [Some(1.0)]) == Bind(BindAll(env, [], []), "b", Some(1.0));
    SumOfNames(Bind(Bind(env, "b", Some(1.0)), "a", Some(5.0)), 5.0, 1.0);
  }

  lemma CapturedValue(env: Env)
    ensures Evaluate(env, Substitute(Substitute(SUM_OF_FORMALS, "a", [Ident("b")]), "b", [Num(1.0)])) == Some(2.0)
  {
    hide Evaluate, Spaced, Substitute;
    var inner := Bind(env, "b", Some(1.0));
    SumIsSpaced();
    NameValue(inner, "b");
    LiteralValue(env, 1.0);
    SumOfNames(Bind(inner, "a", Some(1.0)), 1.0, 1.0);
    OnceIsSpaced();
    SubstitutionCommutes(env, Substitute(SUM_OF_FORMALS, "a", [Ident("b")]), "b", [Num(1.0)]);
    SubstitutionCommutes(inner, SUM_OF_FORMALS, "a", [Ident("b")]);
  }

  lemma OnceIsSpaced()
    ensures Spaced(Substitute(SUM_OF_FORMALS, "a", [Ident("b")]), "b")
  {
    assert SUM_OF_FORMALS[1..] == [Plus, Ident("b")] && [Plus, Ident("b")][1..] == [Ident("b")];
    assert Substitute([Ident("b")], "a", [Ident("b")]) == [Ident("b")];
    assert Substitute([Plus, Ident("b")], "a", [Ident("b")]) == [Plus, Ident("b")];
    assert Substitute(SUM_OF_FORMALS, "a", [Ident("b")]) == [Open, Ident("b"), Close, Plus, Ident("b")];
  }

  lemma SubstitutedCall(v: real)
    ensures Substitute([Ident("sin"), Ident("t")], "t", [Num(v)]) == [Ident("sin"), Open, Num(v), Close]
  {
    assert [Ident("sin"), Ident("t")][1..] == [Ident("t")] && [Ident("t")][1..] == [];
    assert Substitute([], "t", [Num(v)]) == [];
    assert Substitute([Ident("t")], "t", [Num(v)]) == [Open] + [Num(v)] + [Close];
  }

  /** A formal written right behind a function name turns a rejected text into a call. */
  lemma SpacingMatters(env: Env, f: real -> real, v: real)
    requires env.function_("sin") == Some(f) && env.value("sin").None?
    ensures Evaluate(env, Substitute([Ident("sin"), Ident("t")], "t", [Num(v)])) == Some(f(v))
    ensures Evaluate(Bind(env, "t", Some(v)), [Ident("sin"), Ident("t")]).None?
  {
    var body := [Ident("sin"), Ident("t")];
    SubstitutedCall(v);
    hide Substitute;
    assert body[1..] == [Ident("t")];
    var call := [Ident("sin"), Open, Num(v), Close];
    var argument := [Num(v), Close];
    assert call[1..] == [Open, Num(v), Close] && call[2..] == argument && argument[1..] == [Close]
      && [Close][1..] == [];
    assert Atom(env, argument) == Some((v, [Close]));
    assert Power(env, argument) == Some((v, [Close]));
    assert Unary(env, argument) == Some((v, [Close]));
    assert Term(env, argument) == Some((v, [Close]));
    assert Expression(env, argument) == Some((v, [Close]));
    assert Atom(env, call) == Some((f(v), []));
    assert Power(env, call) == Some((f(v), []));
    assert Unary(env, call) == Some((f(v), []));
    assert Term(env, call) == Some((f(v), []));
    assert Expression(env, call) == Some((f(v), []));
    assert Atom(Bind(env, "t", Some(v)), body).None?;
    assert Power(Bind(env, "t", Some(v)), body).None?;
    assert Unary(Bind(env, "t", Some(v)), body).None?;
    assert Term(Bind(env, "t", Some(v)), body).None?;
  }
}
