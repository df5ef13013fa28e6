/**
 * The grammar of parameter expressions (src/engine/parameters.ts:65-180) over tokens, and what parentheses in them do.
 */
module Expressions {
  import opened Options

  datatype Token = Num(value: real) | Ident(name: string) | Plus | Minus | Star | StarStar | Slash | Open | Close
    | Unknown(character: char)

  /** The constants and functions of the host, and its power operator. */
  datatype Env = Env(value: string -> Option<real>, function_: string -> Option<real -> real>,
                     power: (real, real) -> real)

  /** A value and the tokens left over, or nothing when the text is rejected. */
  type Parsed = Option<(real, seq<Token>)>

  predicate Starts(ts: seq<Token>, t: Token) {
    |ts| > 0 && ts[0] == t
  }

  function Multiply(x: real, y: real): real {
    x * y
  }

  function Divide(x: real, y: real): real
    requires y != 0.0
  {
    x / y
  }

  // ---------------------------------------------------------------- the grammar as functions

  function Expression(env: Env, ts: seq<Token>): (r: Parsed)
    ensures r.Some? ==> |r.value.1| < |ts|
    decreases |ts|, 5
  {
    var first := Term(env, ts);
    if first.None? then None else SumTail(env, first.value.0, first.value.1)
  }

  function SumTail(env: Env, value: real, ts: seq<Token>): (r: Parsed)
    ensures r.Some? ==> |r.value.1| <= |ts|
    decreases |ts|, 0
  {
    if Starts(ts, Plus) then
      var next := Term(env, ts[1..]);
      if next.None? then None else SumTail(env, value + next.value.0, next.value.1)
    else if Starts(ts, Minus) then
      var next := Term(env, ts[1..]);
      if next.None? then None else SumTail(env, value - next.value.0, next.value.1)
    else Some((value, ts))
  }

  function Term(env: Env, ts: seq<Token>): (r: Parsed)
    ensures r.Some? ==> |r.value.1| < |ts|
    decreases |ts|, 4
  {
    var first := Unary(env, ts);
    if first.None? then None else ProductTail(env, first.value.0, first.value.1)
  }

  function ProductTail(env: Env, value: real, ts: seq<Token>): (r: Parsed)
    ensures r.Some? ==> |r.value.1| <= |ts|
    decreases |ts|, 0
  {
    if Starts(ts, Star) then
      var next := Unary(env, ts[1..]);
      if next.None? then None else ProductTail(env, Multiply(value, next.value.0), next.value.1)
    else if Starts(ts, Slash) then
      var next := Unary(env, ts[1..]);
      if next.None? || next.value.0 == 0.0 then None else ProductTail(env, Divide(value, next.value.0), next.value.1)
    else Some((value, ts))
  }

  function Unary(env: Env, ts: seq<Token>): (r: Parsed)
    ensures r.Some? ==> |r.value.1| < |ts|
    decreases |ts|, 3
  {
    if Starts(ts, Minus) then
      var inner := Unary(env, ts[1..]);
      if inner.None? then None else Some((-inner.value.0, inner.value.1))
    else if Starts(ts, Plus) then Unary(env, ts[1..])
    else Power(env, ts)
  }

  function Power(env: Env, ts: seq<Token>): (r: Parsed)
    ensures r.Some? ==> |r.value.1| < |ts|
    decreases |ts|, 2
  {
    var base := Atom(env, ts);
    if base.None? then None
    else if Starts(base.value.1, StarStar) then
      var exponent := Unary(env, base.value.1[1..]);
      if exponent.None? then None else Some((env.power(base.value.0, exponent.value.0), exponent.value.1))
    else base
  }

  /** The expression after an opening parenthesis, up to its closing one. */
  function Enclosed(env: Env, ts: seq<Token>): (r: Parsed)
    ensures r.Some? ==> |r.value.1| < |ts|
    decreases |ts|, 6
  {
    var inner := Expression(env, ts);
    if inner.Some? && Starts(inner.value.1, Close) then Some((inner.value.0, inner.value.1[1..])) else None
  }

  function Atom(env: Env, ts: seq<Token>): (r: Parsed)
    ensures r.Some? ==> |r.value.1| < |ts|
    decreases |ts|, 1
  {
    if |ts| == 0 then None
    else match ts[0]
      case Open => Enclosed(env, ts[1..])
      case Num(value) => Some((value, ts[1..]))
      case Ident(name) =>
        if Starts(ts[1..], Open) then
          var f := env.function_(name);
          if f.None? then None
          else
            var argument := Enclosed(env, ts[2..]);
            if argument.None? then None else Some((f.value(argument.value.0), argument.value.1))
        else
          var v := env.value(name);
          if v.None? then None else Some((v.value, ts[1..]))
      case _ => None
  }

  /** The value of a whole text. */
  function Evaluate(env: Env, ts: seq<Token>): Option<real> {
    var r := Expression(env, ts);
    if r.Some? && |r.value.1| == 0 then Some(r.value.0) else None
  }

  // ---------------------------------------------------------------- a parenthesised expression in any context

  /** Appending a closing parenthesis and more cannot change what was read before it. */
  lemma {:induction false} ExtendExpression(env: Env, ts: seq<Token>, more: seq<Token>)
    requires Expression(env, ts).Some?
    ensures var r := Expression(env, ts).value;
      Expression(env, ts + [Close] + more) == Some((r.0, r.1 + [Close] + more))
    decreases |ts|, 5
  {
    hide Term, SumTail;
    ExtendTerm(env, ts, more);
    var first := Term(env, ts).value;
    ExtendSumTail(env, first.0, first.1, more);
  }

  lemma AppendRest(ts: seq<Token>, more: seq<Token>)
    ensures |ts| > 0 ==> (ts + [Close] + more)[0] == ts[0] && (ts + [Close] + more)[1..] == ts[1..] + [Close] + more
    ensures |ts| == 0 ==> (ts + [Close] + more)[0] == Close
  {
  }

  lemma {:induction false} ExtendSumTail(env: Env, value: real, ts: seq<Token>, more: seq<Token>)
    requires SumTail(env, value, ts).Some?
    ensures var r := SumTail(env, value, ts).value;
      SumTail(env, value, ts + [Close] + more) == Some((r.0, r.1 + [Close] + more))
    decreases |ts|, 0
  {
    hide Term;
    AppendRest(ts, more);
    if Starts(ts, Plus) || Starts(ts, Minus) {
      ExtendTerm(env, ts[1..], more);
      var next := Term(env, ts[1..]).value;
      ExtendSumTail(env, if Starts(ts, Plus) then value + next.0 else value - next.0, next.1, more);
    }
  }

  lemma {:induction false} ExtendTerm(env: Env, ts: seq<Token>, more: seq<Token>)
    requires Term(env, ts).Some?
    ensures var r := Term(env, ts).value; Term(env, ts + [Close] + more) == Some((r.0, r.1 + [Close] + more))
    decreases |ts|, 4
  {
    hide Unary, ProductTail;
    ExtendUnary(env, ts, more);
    var first := Unary(env, ts).value;
    ExtendProductTail(env, first.0, first.1, more);
  }

  lemma {:induction false} ExtendProductTail(env: Env, value: real, ts: seq<Token>, more: seq<Token>)
    requires ProductTail(env, value, ts).Some?
    ensures var r := ProductTail(env, value, ts).value;
      ProductTail(env, value, ts + [Close] + more) == Some((r.0, r.1 + [Close] + more))
    decreases |ts|, 0
  {
    hide Unary, Multiply, Divide;
    AppendRest(ts, more);
    if Starts(ts, Star) || Starts(ts, Slash) {
      ExtendUnary(env, ts[1..], more);
      var next := Unary(env, ts[1..]).value;
      ExtendProductTail(env, if Starts(ts, Star) then Multiply(value, next.0) else Divide(value, next.0), next.1, more);
    }
  }

  lemma {:induction false} ExtendUnary(env: Env, ts: seq<Token>, more: seq<Token>)
    requires Unary(env, ts).Some?
    ensures var r := Unary(env, ts).value; Unary(env, ts + [Close] + more) == Some((r.0, r.1 + [Close] + more))
    decreases |ts|, 3
  {
    hide Power;
    AppendRest(ts, more);
    if Starts(ts, Minus) || Starts(ts, Plus) {
      ExtendUnary(env, ts[1..], more);
    } else {
      ExtendPower(env, ts, more);
      NonEmpty(env, ts);
    }
  }

  lemma NonEmpty(env: Env, ts: seq<Token>)
    requires Power(env, ts).Some?
    ensures |ts| > 0
  {
  }

  lemma {:induction false} ExtendPower(env: Env, ts: seq<Token>, more: seq<Token>)
    requires Power(env, ts).Some?
    ensures var r := Power(env, ts).value; Power(env, ts + [Close] + more) == Some((r.0, r.1 + [Close] + more))
    decreases |ts|, 2
  {
    hide Atom, Unary;
    ExtendAtom(env, ts, more);
    var base := Atom(env, ts).value;
    AppendRest(base.1, more);
    if Starts(base.1, StarStar) { ExtendUnary(env, base.1[1..], more); }
  }

  lemma {:induction false} ExtendEnclosed(env: Env, ts: seq<Token>, more: seq<Token>)
    requires Enclosed(env, ts).Some?
    ensures var r := Enclosed(env, ts).value; Enclosed(env, ts + [Close] + more) == Some((r.0, r.1 + [Close] + more))
    decreases |ts|, 6
  {
    hide Expression;
    ExtendExpression(env, ts, more);
    AppendRest(Expression(env, ts).value.1, more);
  }

  lemma {:induction false} ExtendAtom(env: Env, ts: seq<Token>, more: seq<Token>)
    requires Atom(env, ts).Some?
    ensures var r := Atom(env, ts).value; Atom(env, ts + [Close] + more) == Some((r.0, r.1 + [Close] + more))
    decreases |ts|, 1
  {
    hide Enclosed;
    AppendRest(ts, more);
    AppendRest(ts[1..], more);
    match ts[0] {
      case Open => ExtendEnclosed(env, ts[1..], more);
      case Num(_) =>
      case Ident(name) =>
        if Starts(ts[1..], Open) {
          ExtendEnclosed(env, ts[2..], more);
          assert ts[1..][1..] == ts[2..];
        }
      case _ =>
    }
  }

  // ---------------------------------------------------------------- rejected texts stay rejected

  /** From a nesting depth on, no parenthesis closes too early and all are closed at the end. */
  predicate Closes(ts: seq<Token>, depth: nat)
    decreases |ts|
  {
    if |ts| == 0 then depth == 0
    else if ts[0] == Open then Closes(ts[1..], depth + 1)
    else if ts[0] == Close then depth > 0 && Closes(ts[1..], depth - 1)
    else Closes(ts[1..], depth)
  }

  /** What is rejected, or left over, before a closing parenthesis is so whatever follows. */
  predicate Keeps(r: Parsed, extended: Parsed, depth: nat) {
    (r.None? ==> extended.None?) && (r.Some? ==> Closes(r.value.1, depth))
  }

  lemma {:induction false} KeepExpression(env: Env, ts: seq<Token>, depth: nat, more: seq<Token>)
    requires Closes(ts, depth)
    ensures Keeps(Expression(env, ts), Expression(env, ts + [Close] + more), depth)
    decreases |ts|, 5
  {
    hide Term, SumTail, Closes;
    KeepTerm(env, ts, depth, more);
    var first := Term(env, ts);
    if first.Some? {
      ExtendTerm(env, ts, more);
      KeepSumTail(env, first.value.0, first.value.1, depth, more);
    }
  }

  lemma {:induction false} KeepSumTail(env: Env, value: real, ts: seq<Token>, depth: nat, more: seq<Token>)
    requires Closes(ts, depth)
    ensures Keeps(SumTail(env, value, ts), SumTail(env, value, ts + [Close] + more), depth)
    decreases |ts|, 0
  {
    hide Term;
    AppendRest(ts, more);
    if Starts(ts, Plus) || Starts(ts, Minus) {
      KeepTerm(env, ts[1..], depth, more);
      var next := Term(env, ts[1..]);
      if next.Some? {
        ExtendTerm(env, ts[1..], more);
        KeepSumTail(env, if Starts(ts, Plus) then value + next.value.0 else value - next.value.0, next.value.1, depth,
                    more);
      }
    }
  }

  lemma {:induction false} KeepTerm(env: Env, ts: seq<Token>, depth: nat, more: seq<Token>)
    requires Closes(ts, depth)
    ensures Keeps(Term(env, ts), Term(env, ts + [Close] + more), depth)
    decreases |ts|, 4
  {
    hide Unary, ProductTail, Closes;
    KeepUnary(env, ts, depth, more);
    var first := Unary(env, ts);
    if first.Some? {
      ExtendUnary(env, ts, more);
      KeepProductTail(env, first.value.0, first.value.1, depth, more);
    }
  }

  lemma {:induction false} KeepProductTail(env: Env, value: real, ts: seq<Token>, depth: nat, more: seq<Token>)
    requires Closes(ts, depth)
    ensures Keeps(ProductTail(env, value, ts), ProductTail(env, value, ts + [Close] + more), depth)
    decreases |ts|, 0
  {
    hide Unary, Multiply, Divide;
    AppendRest(ts, more);
    if Starts(ts, Star) || Starts(ts, Slash) {
      KeepUnary(env, ts[1..], depth, more);
      var next := Unary(env, ts[1..]);
      if next.Some? {
        ExtendUnary(env, ts[1..], more);
        if Starts(ts, Star) || next.value.0 != 0.0 {
          var product := if Starts(ts, Star) then Multiply(value, next.value.0) else Divide(value, next.value.0);
          KeepProductTail(env, product, next.value.1, depth, more);
        }
      }
    }
  }

  lemma {:induction false} KeepUnary(env: Env, ts: seq<Token>, depth: nat, more: seq<Token>)
    requires Closes(ts, depth)
    ensures Keeps(Unary(env, ts), Unary(env, ts + [Close] + more), depth)
    decreases |ts|, 3
  {
    hide Power;
    AppendRest(ts, more);
    if Starts(ts, Minus) || Starts(ts, Plus) {
      KeepUnary(env, ts[1..], depth, more);
    } else {
      KeepPower(env, ts, depth, more);
    }
  }

  lemma {:induction false} KeepPower(env: Env, ts: seq<Token>, depth: nat, more: seq<Token>)
    requires Closes(ts, depth)
    ensures Keeps(Power(env, ts), Power(env, ts + [Close] + more), depth)
    decreases |ts|, 2
  {
    hide Atom, Unary;
    KeepAtom(env, ts, depth, more);
    var base := Atom(env, ts);
    if base.Some? {
      ExtendAtom(env, ts, more);
      var rest := base.value.1;
      AppendRest(rest, more);
      if Starts(rest, StarStar) {
        KeepUnary(env, rest[1..], depth, more);
        if Unary(env, rest[1..]).Some? { ExtendUnary(env, rest[1..], more); }
      }
    }
  }

  lemma {:induction false} KeepEnclosed(env: Env, ts: seq<Token>, depth: nat, more: seq<Token>)
    requires Closes(ts, depth + 1)
    ensures Keeps(Enclosed(env, ts), Enclosed(env, ts + [Close] + more), depth)
    decreases |ts|, 6
  {
    hide Expression;
    KeepExpression(env, ts, depth + 1, more);
    var inner := Expression(env, ts);
    if inner.Some? {
      ExtendExpression(env, ts, more);
      AppendRest(inner.value.1, more);
    }
  }

  lemma {:induction false} KeepAtom(env: Env, ts: seq<Token>, depth: nat, more: seq<Token>)
    requires Closes(ts, depth)
    ensures Keeps(Atom(env, ts), Atom(env, ts + [Close] + more), depth)
    decreases |ts|, 1
  {
    hide Enclosed;
    AppendRest(ts, more);
    if |ts| > 0 {
      AppendRest(ts[1..], more);
      match ts[0] {
        case Open => KeepEnclosed(env, ts[1..], depth, more);
        case Num(_) =>
        case Ident(name) =>
          if Starts(ts[1..], Open) {
            assert ts[1..][1..] == ts[2..];
            assert (ts + [Close] + more)[2..] == ts[2..] + [Close] + more;
            KeepEnclosed(env, ts[2..], depth, more);
            if Enclosed(env, ts[2..]).Some? { ExtendEnclosed(env, ts[2..], more); }
          }
        case _ =>
      }
    }
  }

  /** A rejected text whose parentheses match is rejected in parentheses too. */
  lemma ParenthesisedRejection(env: Env, actual: seq<Token>, rest: seq<Token>)
    requires Evaluate(env, actual).None? && Closes(actual, 0)
    ensures Atom(env, [Open] + actual + [Close] + rest).None?
  {
    hide Expression;
    KeepExpression(env, actual, 0, rest);
    var r := Expression(env, actual);
    if r.Some? {
      ExtendExpression(env, actual, rest);
      AppendRest(r.value.1, rest);
    }
    var ts := [Open] + actual + [Close] + rest;
    assert ts[1..] == actual + [Close] + rest;
  }

  /** A parenthesised text stands for its value, whatever follows. */
  lemma ParenthesisedAtom(env: Env, actual: seq<Token>, rest: seq<Token>)
    requires Evaluate(env, actual).Some?
    ensures Atom(env, [Open] + actual + [Close] + rest) == Some((Evaluate(env, actual).value, rest))
  {
    hide Expression;
    ExtendExpression(env, actual, rest);
    var ts := [Open] + actual + [Close] + rest;
    assert ts[1..] == actual + [Close] + rest;
    assert [] + [Close] + rest == [Close] + rest;
    assert ([Close] + rest)[1..] == rest;
  }
}
