/**
 * What a parameter expression is worth (src/engine/parameters.ts:65-180): a tree with its value in real arithmetic,
 * printed with the parentheses it needs, is read back with that value; and nothing else is accepted.
 */
module ExpressionTrees {
  import opened Options
  import opened Expressions

  datatype Tree =
    | Number(value: real)
    | Name(name: string)
    | Call(name: string, argument: Tree)
    | Grouped(inside: Tree)
    | Negative(operand: Tree)
    | Positive(operand: Tree)
    | Sum(left: Tree, right: Tree)
    | Difference(left: Tree, right: Tree)
    | Product(left: Tree, right: Tree)
    | Quotient(left: Tree, right: Tree)
    | Raised(left: Tree, right: Tree)

  function Times(x: real, y: real): real { x * y }

  function Over(x: real, y: real): real
    requires y != 0.0
  {
    x / y
  }

  /** The value of a tree; none when a name has none, a function is unknown, or a divisor is 0. */
  function Value(env: Env, e: Tree): Option<real> {
    match e
    case Number(value) => Some(value)
    case Name(name) => env.value(name)
    case Call(name, argument) =>
      var f :- env.function_(name);
      var x :- Value(env, argument);
      Some(f(x))
    case Grouped(inside) => Value(env, inside)
    case Negative(operand) =>
      var x :- Value(env, operand);
      Some(0.0 - x)
    case Positive(operand) => Value(env, operand)
    case Sum(left, right) =>
      var x :- Value(env, left);
      var y :- Value(env, right);
      Some(x + y)
    case Difference(left, right) =>
      var x :- Value(env, left);
      var y :- Value(env, right);
      Some(x - y)
    case Product(left, right) =>
      var x :- Value(env, left);
      var y :- Value(env, right);
      Some(Times(x, y))
    case Quotient(left, right) =>
      var x :- Value(env, left);
      var y :- Value(env, right);
      if y == 0.0 then None else Some(Over(x, y))
    case Raised(left, right) =>
      var x :- Value(env, left);
      var y :- Value(env, right);
      Some(env.power(x, y))
  }

  // ---------------------------------------------------------------- printing

  /** How tightly a tree binds: sums loosest, then products, signs, powers, and what stands alone. */
  function Rank(e: Tree): nat {
    match e
    case Sum(_, _) => 0
    case Difference(_, _) => 0
    case Product(_, _) => 1
    case Quotient(_, _) => 1
    case Negative(_) => 2
    case Positive(_) => 2
    case Raised(_, _) => 3
    case _ => 4
  }

  /** Sums and products lean to the left; a power takes a sign on its right but not on its left. */
  function Bare(e: Tree): seq<Token>
    decreases e, 0
  {
    match e
    case Number(value) => [Num(value)]
    case Name(name) => [Ident(name)]
    case Call(name, argument) => [Ident(name), Open] + Printed(argument, 0) + [Close]
    case Grouped(inside) => [Open] + Printed(inside, 0) + [Close]
    case Negative(operand) => [Minus] + Printed(operand, 2)
    case Positive(operand) => [Plus] + Printed(operand, 2)
    case Sum(left, right) => Printed(left, 0) + [Plus] + Printed(right, 1)
    case Difference(left, right) => Printed(left, 0) + [Minus] + Printed(right, 1)
    case Product(left, right) => Printed(left, 1) + [Star] + Printed(right, 2)
    case Quotient(left, right) => Printed(left, 1) + [Slash] + Printed(right, 2)
    case Raised(left, right) => Printed(left, 4) + [StarStar] + Printed(right, 2)
  }

  /** In parentheses when it binds too loosely for where it stands. */
  function Printed(e: Tree, rank: nat): seq<Token>
    decreases e, 1
  {
    if Rank(e) < rank then [Open] + Bare(e) + [Close] else Bare(e)
  }

  // ---------------------------------------------------------------- reading what was printed

  /** What may follow an operand without being read into it. */
  predicate Ends(rest: seq<Token>, deep: bool) {
    && !Starts(rest, Open) && !Starts(rest, StarStar)
    && (deep ==> !Starts(rest, Star) && !Starts(rest, Slash))
  }

  /** The value with what is left, or a rejection. */
  function With(v: Option<real>, rest: seq<Token>): Parsed {
    if v.None? then None else Some((v.value, rest))
  }

  function SumOn(env: Env, v: Option<real>, rest: seq<Token>): Parsed {
    if v.None? then None else SumTail(env, v.value, rest)
  }

  function ProductOn(env: Env, v: Option<real>, rest: seq<Token>): Parsed {
    if v.None? then None else ProductTail(env, v.value, rest)
  }

  lemma Joined(a: seq<Token>, t: Token, b: seq<Token>, rest: seq<Token>)
    ensures a + [t] + b + rest == a + ([t] + (b + rest))
    ensures ([t] + (b + rest))[1..] == b + rest
  {
  }

  lemma {:induction false} ReadsSum(env: Env, e: Tree, rest: seq<Token>)
    requires Ends(rest, true)
    ensures Expression(env, Printed(e, 0) + rest) == SumOn(env, Value(env, e), rest)
    decreases e, Rank(e)
  {
    hide Printed, Term, Times, Over;
    if e.Sum? || e.Difference? {
      var t := if e.Sum? then Plus else Minus;
      var tail := [t] + (Printed(e.right, 1) + rest);
      InPlace(e, 0);
      Joined(Printed(e.left, 0), t, Printed(e.right, 1), rest);
      ReadsSum(env, e.left, tail);
      ReadsProduct(env, e.right, rest);
    } else {
      InPlace(e, 0);
      InPlace(e, 1);
      ReadsProduct(env, e, rest);
    }
  }

  lemma InPlace(e: Tree, rank: nat)
    requires rank <= Rank(e)
    ensures Printed(e, rank) == Bare(e)
  {
  }

  lemma {:induction false} ReadsProduct(env: Env, e: Tree, rest: seq<Token>)
    requires Ends(rest, false)
    ensures Term(env, Printed(e, 1) + rest) == ProductOn(env, Value(env, e), rest)
    decreases e, if Rank(e) < 1 then 19 else Rank(e) - 1
  {
    hide Printed, Unary, Multiply, Divide, Times, Over;
    if e.Product? || e.Quotient? {
      var t := if e.Product? then Star else Slash;
      var tail := [t] + (Printed(e.right, 2) + rest);
      InPlace(e, 1);
      Joined(Printed(e.left, 1), t, Printed(e.right, 2), rest);
      ReadsProduct(env, e.left, tail);
      ReadsSigned(env, e.right, rest);
      var x, y := Value(env, e.left), Value(env, e.right);
      if x.Some? && y.Some? { RealArithmetic(x.value, y.value); }
    } else {
      SameFrom(e, 1, 2);
      ReadsSigned(env, e, rest);
    }
  }

  /** The parser's arithmetic is that of the real numbers. */
  lemma RealArithmetic(x: real, y: real)
    ensures Multiply(x, y) == Times(x, y)
    ensures y != 0.0 ==> Divide(x, y) == Over(x, y)
  {
  }

  lemma SameFrom(e: Tree, low: nat, high: nat)
    requires low <= high && (Rank(e) < low || Rank(e) >= high)
    ensures Printed(e, low) == Printed(e, high)
  {
  }

  lemma {:induction false} ReadsSigned(env: Env, e: Tree, rest: seq<Token>)
    requires Ends(rest, false)
    ensures Unary(env, Printed(e, 2) + rest) == With(Value(env, e), rest)
    decreases e, if Rank(e) < 2 then 18 else Rank(e) - 2
  {
    hide Printed, Power, Times, Over;
    if e.Negative? || e.Positive? {
      InPlace(e, 2);
      var t := if e.Negative? then Minus else Plus;
      var ts := Printed(e, 2) + rest;
      assert ts == [t] + (Printed(e.operand, 2) + rest) && ts[1..] == Printed(e.operand, 2) + rest;
      ReadsSigned(env, e.operand, rest);
    } else if e.Raised? {
      InPlace(e, 2);
      ReadsRaised(env, e, rest);
      NoSign(e.left, [StarStar] + (Printed(e.right, 2) + rest));
      Joined(Printed(e.left, 4), StarStar, Printed(e.right, 2), rest);
    } else {
      SameFrom(e, 2, 4);
      ReadsAtom(env, e, rest);
      NoSign(e, rest);
      PowerOfAtom(env, Printed(e, 4) + rest);
    }
  }

  lemma PowerOfAtom(env: Env, ts: seq<Token>)
    requires Atom(env, ts).Some? ==> !Starts(Atom(env, ts).value.1, StarStar)
    ensures Power(env, ts) == Atom(env, ts)
  {
  }

  lemma {:induction false} ReadsRaised(env: Env, e: Tree, rest: seq<Token>)
    requires e.Raised? && Ends(rest, false)
    ensures Power(env, Bare(e) + rest) == With(Value(env, e), rest)
    decreases e, 0
  {
    hide Printed, Atom, Unary, Times, Over;
    var tail := [StarStar] + (Printed(e.right, 2) + rest);
    Joined(Printed(e.left, 4), StarStar, Printed(e.right, 2), rest);
    ReadsAtom(env, e.left, tail);
    ReadsSigned(env, e.right, rest);
  }

  /** What stands alone begins with no sign. */
  lemma NoSign(e: Tree, rest: seq<Token>)
    ensures var ts := Printed(e, 4) + rest; !Starts(ts, Minus) && !Starts(ts, Plus)
  {
  }

  lemma {:induction false} ReadsAtom(env: Env, e: Tree, rest: seq<Token>)
    requires !Starts(rest, Open)
    ensures Atom(env, Printed(e, 4) + rest) == With(Value(env, e), rest)
    decreases e, if Rank(e) < 4 then 16 else 0
  {
    hide Enclosed, Times, Over;
    var ts := Printed(e, 4) + rest;
    if Rank(e) < 4 {
      assert ts == [Open] + (Bare(e) + ([Close] + rest)) && ts[1..] == Bare(e) + ([Close] + rest);
      InPlace(e, 0);
      ReadsEnclosed(env, e, rest);
    } else {
      match e {
        case Grouped(inside) =>
          assert ts == [Open] + (Printed(inside, 0) + ([Close] + rest));
          assert ts[1..] == Printed(inside, 0) + ([Close] + rest);
          ReadsEnclosed(env, inside, rest);
        case Call(name, argument) =>
          assert ts == [Ident(name), Open] + (Printed(argument, 0) + ([Close] + rest));
          assert ts[1..][0] == Open && ts[2..] == Printed(argument, 0) + ([Close] + rest);
          ReadsEnclosed(env, argument, rest);
        case Number(value) =>
          assert ts == [Num(value)] + rest && ts[1..] == rest;
        case Name(name) =>
          assert ts == [Ident(name)] + rest && ts[1..] == rest;
      }
    }
  }

  lemma {:induction false} ReadsEnclosed(env: Env, e: Tree, rest: seq<Token>)
    ensures Enclosed(env, Printed(e, 0) + ([Close] + rest)) == With(Value(env, e), rest)
    decreases e, 15
  {
    hide Expression;
    var close := [Close] + rest;
    assert close[0] == Close && close[1..] == rest;
    ReadsSum(env, e, close);
  }

  /** Reading what was printed gives the value of the tree, or rejects it exactly when it has none. */
  lemma PrintingReads(env: Env, e: Tree)
    ensures Evaluate(env, Printed(e, 0)) == Value(env, e)
  {
    hide Expression, Printed;
    var none: seq<Token> := [];
    assert Printed(e, 0) + none == Printed(e, 0);
    ReadsSum(env, e, none);
  }

  // ---------------------------------------------------------------- nothing else is read

  /** A tree of at least some rank stands in front of what is left, with the value that was read. */
  ghost predicate IsReading(env: Env, e: Tree, rank: nat, ts: seq<Token>, r: (real, seq<Token>)) {
    Rank(e) >= rank && ts == Bare(e) + r.1 && Value(env, e) == Some(r.0)
  }

  lemma {:induction false} SumIsTree(env: Env, ts: seq<Token>) returns (e: Tree)
    requires Expression(env, ts).Some?
    ensures IsReading(env, e, 0, ts, Expression(env, ts).value)
    decreases |ts|, 5
  {
    hide Term, SumTail;
    var first := ProductIsTree(env, ts);
    var r := Term(env, ts).value;
    e := SumTailIsTree(env, first, r.0, r.1);
  }

  lemma {:induction false} SumTailIsTree(env: Env, a: Tree, v: real, ts: seq<Token>) returns (e: Tree)
    requires Value(env, a) == Some(v) && SumTail(env, v, ts).Some?
    ensures IsReading(env, e, 0, Bare(a) + ts, SumTail(env, v, ts).value)
    decreases |ts|, 0
  {
    hide Term, Bare, Rank, Times, Over;
    e := a;
    if Starts(ts, Plus) || Starts(ts, Minus) {
      var next := ProductIsTree(env, ts[1..]);
      var r := Term(env, ts[1..]).value;
      var both := if Starts(ts, Plus) then Sum(a, next) else Difference(a, next);
      BareSum(a, next);
      assert ts == [ts[0]] + ts[1..];
      assert Bare(a) + ts == Bare(both) + r.1;
      e := SumTailIsTree(env, both, if Starts(ts, Plus) then v + r.0 else v - r.0, r.1);
    }
  }

  lemma BareSum(a: Tree, b: Tree)
    requires Rank(b) >= 1
    ensures Bare(Sum(a, b)) == Bare(a) + [Plus] + Bare(b) && Bare(Difference(a, b)) == Bare(a) + [Minus] + Bare(b)
  {
  }

  lemma {:induction false} ProductIsTree(env: Env, ts: seq<Token>) returns (e: Tree)
    requires Term(env, ts).Some?
    ensures IsReading(env, e, 1, ts, Term(env, ts).value)
    decreases |ts|, 4
  {
    hide Unary, ProductTail;
    var first := SignedIsTree(env, ts);
    var r := Unary(env, ts).value;
    e := ProductTailIsTree(env, first, r.0, r.1);
  }

  lemma {:induction false} ProductTailIsTree(env: Env, a: Tree, v: real, ts: seq<Token>) returns (e: Tree)
    requires Rank(a) >= 1 && Value(env, a) == Some(v) && ProductTail(env, v, ts).Some?
    ensures IsReading(env, e, 1, Bare(a) + ts, ProductTail(env, v, ts).value)
    decreases |ts|, 0
  {
    hide Unary, Bare, Multiply, Divide, Times, Over;
    e := a;
    if Starts(ts, Star) || Starts(ts, Slash) {
      var next := SignedIsTree(env, ts[1..]);
      var r := Unary(env, ts[1..]).value;
      var both := if Starts(ts, Star) then Product(a, next) else Quotient(a, next);
      BareProduct(a, next);
      RealArithmetic(v, r.0);
      assert ts == [ts[0]] + ts[1..];
      assert Bare(a) + ts == Bare(both) + r.1;
      e := ProductTailIsTree(env, both, if Starts(ts, Star) then Multiply(v, r.0) else Divide(v, r.0), r.1);
    }
  }

  lemma BareProduct(a: Tree, b: Tree)
    requires Rank(a) >= 1 && Rank(b) >= 2
    ensures Bare(Product(a, b)) == Bare(a) + [Star] + Bare(b) && Bare(Quotient(a, b)) == Bare(a) + [Slash] + Bare(b)
  {
  }

  lemma {:induction false} SignedIsTree(env: Env, ts: seq<Token>) returns (e: Tree)
    requires Unary(env, ts).Some?
    ensures IsReading(env, e, 2, ts, Unary(env, ts).value)
    decreases |ts|, 3
  {
    hide Power, Times, Over;
    if Starts(ts, Minus) || Starts(ts, Plus) {
      var inner := SignedIsTree(env, ts[1..]);
      e := if Starts(ts, Minus) then Negative(inner) else Positive(inner);
      InPlace(inner, 2);
      assert Bare(e) == [ts[0]] + Bare(inner);
      assert ts == [ts[0]] + ts[1..];
    } else {
      e := PowerIsTree(env, ts);
    }
  }

  lemma {:induction false} PowerIsTree(env: Env, ts: seq<Token>) returns (e: Tree)
    requires Power(env, ts).Some?
    ensures IsReading(env, e, 3, ts, Power(env, ts).value)
    decreases |ts|, 2
  {
    hide Atom, Unary, Times, Over;
    e := AtomIsTree(env, ts);
    var base := Atom(env, ts).value;
    if Starts(base.1, StarStar) {
      var exponent := SignedIsTree(env, base.1[1..]);
      InPlace(e, 4);
      InPlace(exponent, 2);
      assert base.1 == [StarStar] + base.1[1..];
      assert Bare(Raised(e, exponent)) == Bare(e) + [StarStar] + Bare(exponent);
      e := Raised(e, exponent);
    }
  }

  lemma {:induction false} EnclosedIsTree(env: Env, ts: seq<Token>) returns (e: Tree)
    requires Enclosed(env, ts).Some?
    ensures ts == Bare(e) + ([Close] + Enclosed(env, ts).value.1)
    ensures Value(env, e) == Some(Enclosed(env, ts).value.0)
    decreases |ts|, 6
  {
    hide Expression;
    e := SumIsTree(env, ts);
    var rest := Expression(env, ts).value.1;
    assert rest == [Close] + rest[1..];
  }

  lemma {:induction false} AtomIsTree(env: Env, ts: seq<Token>) returns (e: Tree)
    requires Atom(env, ts).Some?
    ensures IsReading(env, e, 4, ts, Atom(env, ts).value)
    decreases |ts|, 1
  {
    hide Enclosed, Times, Over;
    assert ts == [ts[0]] + ts[1..];
    match ts[0] {
      case Num(v) => e := Number(v);
      case Ident(name) =>
        if Starts(ts[1..], Open) {
          var argument := EnclosedIsTree(env, ts[2..]);
          assert ts == [ts[0], Open] + ts[2..];
          InPlace(argument, 0);
          e := Call(name, argument);
          assert Bare(e) == [ts[0], Open] + Bare(argument) + [Close];
        } else {
          e := Name(name);
        }
      case Open =>
        var inside := EnclosedIsTree(env, ts[1..]);
        InPlace(inside, 0);
        e := Grouped(inside);
        assert Bare(e) == [Open] + Bare(inside) + [Close];
    }
  }

  /** A text is accepted with a value exactly when it is the printing of a tree with that value. */
  lemma AcceptedExactlyWhen(env: Env, ts: seq<Token>, v: real)
    ensures Evaluate(env, ts) == Some(v) <==> exists e: Tree :: Printed(e, 0) == ts && Value(env, e) == Some(v)
  {
    hide Expression, Value;
    if Evaluate(env, ts) == Some(v) {
      var e := SumIsTree(env, ts);
      InPlace(e, 0);
      assert Bare(e) + [] == Bare(e);
    }
    forall e: Tree | Printed(e, 0) == ts && Value(env, e) == Some(v) ensures Evaluate(env, ts) == Some(v) {
      PrintingReads(env, e);
    }
  }
}
