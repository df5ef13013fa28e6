/** Zero-noise extrapolation (src/engine/mitigation.ts:228-239, 308-345), in exact arithmetic. */
module Extrapolation {
  import Numbers = ComplexNumbers

  datatype Point = Point(scale: real, value: real)

  predicate Distinct(xs: seq<real>) {
    forall i, j :: 0 <= i < j < |xs| ==> xs[i] != xs[j]
  }

  function Scales(points: seq<Point>): (xs: seq<real>)
    ensures |xs| == |points| && forall i :: 0 <= i < |xs| ==> xs[i] == points[i].scale
  {
    seq(|points|, i requires 0 <= i < |points| => points[i].scale)
  }

  // ---------------------------------------------------------------- products, kept from the solver's arithmetic

  function Times(x: real, y: real): real {
    x * y
  }

  lemma TimesAdd(c: real, p: real, q: real)
    ensures Times(c, p + q) == Times(c, p) + Times(c, q)
    ensures Times(p + q, c) == Times(p, c) + Times(q, c)
  {
  }

  lemma TimesAssoc(a: real, b: real, c: real)
    ensures Times(Times(a, b), c) == Times(a, Times(b, c))
    ensures Times(a, b) == Times(b, a)
  {
    assert (a * b) * c == a * (b * c);
  }

  lemma TimesUnit(x: real)
    ensures Times(1.0, x) == x && Times(x, 1.0) == x && Times(0.0, x) == 0.0 && Times(x, 0.0) == 0.0
  {
  }

  // ---------------------------------------------------------------- the Lagrange basis at zero

  /** What the point at y contributes to the weight of the point at x. */
  function Factor(x: real, y: real): real {
    if x == y then 1.0 else (0.0 - y) / (x - y)
  }

  /** The weight of the point at x among points at xs. */
  function Basis(xs: seq<real>, x: real): real {
    if |xs| == 0 then 1.0 else Times(Basis(xs[..|xs| - 1], x), Factor(x, xs[|xs| - 1]))
  }

  /** The extrapolated value of a function sampled at part of the points. */
  function Combination(all: seq<real>, part: seq<real>, f: real -> real): real {
    if |part| == 0 then 0.0
    else
      var x := part[|part| - 1];
      Combination(all, part[..|part| - 1], f) + Times(f(x), Basis(all, x))
  }

  lemma {:induction false} BasisFirst(x0: real, rest: seq<real>, x: real)
    ensures Basis([x0] + rest, x) == Times(Factor(x, x0), Basis(rest, x))
    decreases |rest|
  {
    hide Factor, Times;
    if |rest| == 0 {
      assert ([x0] + rest)[..0] == [];
      TimesUnit(Factor(x, x0));
    } else {
      var n := |rest| - 1;
      assert ([x0] + rest)[..n + 1] == [x0] + rest[..n];
      BasisFirst(x0, rest[..n], x);
      TimesAssoc(Factor(x, x0), Basis(rest[..n], x), Factor(x, rest[n]));
    }
  }

  /** h = a f + b g on the points. */
  ghost predicate IsSum(part: seq<real>, h: real -> real, a: real, f: real -> real, b: real, g: real -> real) {
    forall i :: 0 <= i < |part| ==> h(part[i]) == Times(a, f(part[i])) + Times(b, g(part[i]))
  }

  /** Extrapolation is linear in the samples. */
  lemma {:induction false} CombinationLinear(
    all: seq<real>, part: seq<real>, h: real -> real, a: real, f: real -> real, b: real, g: real -> real)
    requires IsSum(part, h, a, f, b, g)
    ensures Combination(all, part, h) == Times(a, Combination(all, part, f)) + Times(b, Combination(all, part, g))
    decreases |part|
  {
    hide Basis, Times;
    if |part| == 0 {
      TimesUnit(a);
      TimesUnit(b);
    } else {
      var n := |part| - 1;
      var x := part[n];
      CombinationLinear(all, part[..n], h, a, f, b, g);
      var w := Basis(all, x);
      TimesAdd(w, Times(a, f(x)), Times(b, g(x)));
      TimesAssoc(a, f(x), w);
      TimesAssoc(b, g(x), w);
      TimesAdd(a, Combination(all, part[..n], f), Times(f(x), w));
      TimesAdd(b, Combination(all, part[..n], g), Times(g(x), w));
    }
  }

  /** f is (x - c) g(x) on the points. */
  ghost predicate HasRoot(part: seq<real>, f: real -> real, c: real, g: real -> real) {
    forall i :: 0 <= i < |part| ==> f(part[i]) == Times(part[i] - c, g(part[i]))
  }

  lemma RootTerm(x: real, c: real, value: real, weight: real)
    requires x != c
    ensures Times(Times(x - c, value), Times(weight, Factor(x, c))) == Times(-c, Times(value, weight))
    ensures Times(Times(x - c, value), Times(Factor(x, c), weight)) == Times(-c, Times(value, weight))
  {
    var q, d := Factor(x, c), x - c;
    assert Times(d, q) == -c;
    hide Factor, Times;
    TimesAssoc(weight, q, q);
    TimesAssoc(d, value, Times(q, weight));
    TimesAssoc(value, q, weight);
    TimesAssoc(q, value, weight);
    TimesAssoc(d, q, Times(value, weight));
  }

  /** Sampling (x - c) g(x), where c is the last point, drops that point and multiplies by -c. */
  lemma {:induction false} DropLast(all: seq<real>, c: real, part: seq<real>, f: real -> real, g: real -> real)
    requires HasRoot(part, f, c, g) && c !in part
    ensures Combination(all + [c], part, f) == Times(-c, Combination(all, part, g))
    decreases |part|
  {
    hide Factor, Times;
    if |part| == 0 {
      TimesUnit(-c);
    } else {
      var n := |part| - 1;
      var x := part[n];
      DropLast(all, c, part[..n], f, g);
      assert (all + [c])[..|all|] == all;
      assert Basis(all + [c], x) == Times(Basis(all, x), Factor(x, c));
      hide Basis;
      RootTerm(x, c, g(x), Basis(all, x));
      TimesAdd(-c, Combination(all, part[..n], g), Times(g(x), Basis(all, x)));
    }
  }

  lemma {:induction false} DropFirst(all: seq<real>, c: real, part: seq<real>, f: real -> real, g: real -> real)
    requires HasRoot(part, f, c, g) && c !in part
    ensures Combination([c] + all, part, f) == Times(-c, Combination(all, part, g))
    decreases |part|
  {
    hide Factor, Times;
    if |part| == 0 {
      TimesUnit(-c);
    } else {
      var n := |part| - 1;
      var x := part[n];
      DropFirst(all, c, part[..n], f, g);
      BasisFirst(c, all, x);
      hide Basis;
      RootTerm(x, c, g(x), Basis(all, x));
      TimesAdd(-c, Combination(all, part[..n], g), Times(g(x), Basis(all, x)));
    }
  }

  lemma {:induction false} CombinationFirst(all: seq<real>, x0: real, rest: seq<real>, f: real -> real)
    ensures Combination(all, [x0] + rest, f) == Times(f(x0), Basis(all, x0)) + Combination(all, rest, f)
    decreases |rest|
  {
    hide Basis, Times;
    if |rest| == 0 {
      assert ([x0] + rest)[..0] == [];
    } else {
      var n := |rest| - 1;
      assert ([x0] + rest)[..n + 1] == [x0] + rest[..n];
      CombinationFirst(all, x0, rest[..n], f);
    }
  }

  lemma RootVanishes(c: real, value: real, w: real)
    ensures Times(Times(c - c, value), w) == 0.0
  {
  }

  /** The value extrapolated from all points. */
  function Extrapolated(xs: seq<real>, f: real -> real): real {
    Combination(xs, xs, f)
  }

  lemma RootAtLast(all: seq<real>, c: real, f: real -> real, g: real -> real)
    requires HasRoot(all + [c], f, c, g) && c !in all
    ensures Extrapolated(all + [c], f) == Times(-c, Extrapolated(all, g))
  {
    hide Factor, Times, Basis;
    assert (all + [c])[..|all|] == all;
    assert (all + [c])[|all|] == c;
    assert HasRoot(all, f, c, g) by {
      forall i | 0 <= i < |all| ensures f(all[i]) == Times(all[i] - c, g(all[i])) { assert (all + [c])[i] == all[i]; }
    }
    DropLast(all, c, all, f, g);
    RootVanishes(c, g(c), Basis(all + [c], c));
  }

  lemma RootAtFirst(all: seq<real>, c: real, f: real -> real, g: real -> real)
    requires HasRoot([c] + all, f, c, g) && c !in all
    ensures Extrapolated([c] + all, f) == Times(-c, Extrapolated(all, g))
  {
    hide Factor, Times, Basis;
    assert ([c] + all)[0] == c;
    assert HasRoot(all, f, c, g) by {
      forall i | 0 <= i < |all| ensures f(all[i]) == Times(all[i] - c, g(all[i])) {
        assert ([c] + all)[i + 1] == all[i];
      }
    }
    DropFirst(all, c, all, f, g);
    CombinationFirst([c] + all, c, all, f);
    RootVanishes(c, g(c), Basis([c] + all, c));
  }

  lemma ExtrapolatedLinear(
    xs: seq<real>, h: real -> real, a: real, f: real -> real, b: real, g: real -> real)
    requires IsSum(xs, h, a, f, b, g)
    ensures Extrapolated(xs, h) == Times(a, Extrapolated(xs, f)) + Times(b, Extrapolated(xs, g))
  {
    CombinationLinear(xs, xs, h, a, f, b, g);
  }

  // ---------------------------------------------------------------- exactness

  function One(): real -> real {
    (x: real) => 1.0
  }

  /** x - c. */
  function Offset(c: real): real -> real {
    (x: real) => x - c
  }

  /** The weights of distinct scales sum to one. */
  lemma {:induction false} WeightsSumToOne(xs: seq<real>)
    requires |xs| > 0 && Distinct(xs)
    ensures Extrapolated(xs, One()) == 1.0
    decreases |xs|
  {
    hide Factor, Times, Basis, Combination, Extrapolated, IsSum, HasRoot;
    if |xs| == 1 {
      assert xs == [xs[0]];
      SingleSample(xs[0], One());
    } else {
      var n := |xs| - 1;
      var a, b := xs[0], xs[n];
      var front, back := xs[..n], xs[1..];
      assert xs == front + [b] && xs == [a] + back;
      WeightsSumToOne(front);
      WeightsSumToOne(back);
      OffsetRoots(xs, a);
      OffsetRoots(xs, b);
      RootAtLast(front, b, Offset(b), One());
      RootAtFirst(back, a, Offset(a), One());
      TimesUnit(-a);
      TimesUnit(-b);
      DifferenceOfOffsets(xs, a, b);
      ExtrapolatedLinear(xs, Constant(a - b), 1.0, Offset(b), -1.0, Offset(a));
      ExtrapolatedLinear(xs, Constant(a - b), a - b, One(), 0.0, One());
      TimesUnit(Extrapolated(xs, One()));
      Negated(-a);
      SolveUnit(a - b, Extrapolated(xs, One()));
    }
  }

  lemma SingleSample(x: real, f: real -> real)
    ensures Extrapolated([x], f) == f(x)
  {
    assert [x][..0] == [] && [x][0] == x;
    assert Factor(x, x) == 1.0;
    hide Times, Factor;
    TimesUnit(1.0);
    TimesUnit(f(x));
    assert Basis([x], x) == Times(Basis([], x), Factor(x, x));
    assert Basis([x], x) == 1.0;
    assert Combination([x], [x][..0], f) == 0.0;
  }

  function Constant(c: real): real -> real {
    (x: real) => c
  }

  lemma OffsetRoots(xs: seq<real>, c: real)
    ensures HasRoot(xs, Offset(c), c, One())
  {
  }

  lemma DifferenceOfOffsets(xs: seq<real>, a: real, b: real)
    ensures IsSum(xs, Constant(a - b), 1.0, Offset(b), -1.0, Offset(a))
    ensures IsSum(xs, Constant(a - b), a - b, One(), 0.0, One())
  {
  }

  lemma Negated(x: real)
    ensures Times(-1.0, x) == -x
  {
  }

  lemma SolveUnit(d: real, r: real)
    requires d != 0.0
    ensures Times(d, r) == d ==> r == 1.0
  {
    if Times(d, r) == d {
      assert r == d / d;
    }
  }

  /** A polynomial by its coefficients, lowest first. */
  function Evaluate(c: seq<real>, x: real): real {
    if |c| == 0 then 0.0 else c[0] + Times(x, Evaluate(c[1..], x))
  }

  function Polynomial(c: seq<real>): real -> real {
    (x: real) => Evaluate(c, x)
  }

  function ShiftedPolynomial(c: seq<real>): real -> real {
    (x: real) => Times(x, Evaluate(c, x))
  }

  function RootedPolynomial(c: seq<real>, b: real): real -> real {
    (x: real) => Times(x - b, Evaluate(c, x))
  }

  function AtZero(c: seq<real>): real {
    if |c| == 0 then 0.0 else c[0]
  }

  lemma AtZeroIsValue(c: seq<real>)
    ensures AtZero(c) == Evaluate(c, 0.0)
  {
    if |c| > 0 { TimesUnit(Evaluate(c[1..], 0.0)); }
  }

  lemma SplitPolynomial(xs: seq<real>, c: seq<real>, b: real)
    requires |c| > 0
    ensures IsSum(xs, Polynomial(c), c[0], One(), 1.0, ShiftedPolynomial(c[1..]))
    ensures IsSum(xs, ShiftedPolynomial(c[1..]), 1.0, RootedPolynomial(c[1..], b), b, Polynomial(c[1..]))
    ensures HasRoot(xs, RootedPolynomial(c[1..], b), b, Polynomial(c[1..]))
  {
    hide Times;
    forall i | 0 <= i < |xs|
      ensures Polynomial(c)(xs[i]) == Times(c[0], One()(xs[i])) + Times(1.0, ShiftedPolynomial(c[1..])(xs[i]))
    {
      TimesUnit(c[0]);
      TimesUnit(ShiftedPolynomial(c[1..])(xs[i]));
    }
    forall i | 0 <= i < |xs|
      ensures ShiftedPolynomial(c[1..])(xs[i])
           == Times(1.0, RootedPolynomial(c[1..], b)(xs[i])) + Times(b, Polynomial(c[1..])(xs[i]))
    {
      TimesUnit(RootedPolynomial(c[1..], b)(xs[i]));
      TimesAdd(Evaluate(c[1..], xs[i]), xs[i] - b, b);
      assert xs[i] - b + b == xs[i];
    }
  }

  /** Extrapolating any polynomial of degree below the number of distinct scales returns its value at zero. */
  lemma {:induction false} PolynomialsAreExact(xs: seq<real>, c: seq<real>)
    requires Distinct(xs) && |c| <= |xs|
    ensures Extrapolated(xs, Polynomial(c)) == Evaluate(c, 0.0)
    decreases |xs|, |c|
  {
    hide Factor, Times, Basis;
    AtZeroIsValue(c);
    if |c| == 0 {
      NothingSampled(xs, xs, Polynomial(c));
    } else {
      hide Combination;
      var n := |xs| - 1;
      var b, front, rest := xs[n], xs[..n], c[1..];
      assert xs == front + [b];
      SplitPolynomial(xs, c, b);
      WeightsSumToOne(xs);
      PolynomialsAreExact(front, rest);
      PolynomialsAreExact(xs, rest);
      RootAtLast(front, b, RootedPolynomial(rest, b), Polynomial(rest));
      CombinationLinear(xs, xs, ShiftedPolynomial(rest), 1.0, RootedPolynomial(rest, b), b, Polynomial(rest));
      CombinationLinear(xs, xs, Polynomial(c), c[0], One(), 1.0, ShiftedPolynomial(rest));
      Cancels(b, Evaluate(rest, 0.0), c[0]);
    }
  }

  lemma {:induction false} NothingSampled(all: seq<real>, part: seq<real>, f: real -> real)
    requires forall x :: f(x) == 0.0
    ensures Combination(all, part, f) == 0.0
    decreases |part|
  {
    hide Basis;
    if |part| > 0 {
      NothingSampled(all, part[..|part| - 1], f);
      TimesUnit(Basis(all, part[|part| - 1]));
    }
  }

  lemma Cancels(b: real, r: real, c: real)
    ensures Times(1.0, Times(-b, r)) + Times(b, r) == 0.0
    ensures Times(c, 1.0) + Times(1.0, 0.0) == c
  {
    assert (-b) * r == -(b * r);
  }

  // ---------------------------------------------------------------- Richardson extrapolation of measured points

  /** The values of part of the points, weighted by the scales of all. */
  function WeightedSum(points: seq<Point>, xs: seq<real>): real {
    if |points| == 0 then 0.0
    else
      var last := points[|points| - 1];
      WeightedSum(points[..|points| - 1], xs) + Times(last.value, Basis(xs, last.scale))
  }

  lemma SamplesAreWeighted(points: seq<Point>, all: seq<real>, f: real -> real)
    requires forall i :: 0 <= i < |points| ==> points[i].value == f(points[i].scale)
    ensures WeightedSum(points, all) == Combination(all, Scales(points), f)
    decreases |points|
  {
    hide Basis, Times;
    if |points| > 0 {
      var n := |points| - 1;
      assert Scales(points)[..n] == Scales(points[..n]);
      SamplesAreWeighted(points[..n], all, f);
    }
  }

  lemma TermStep(term: real, value: real, basis: real, x: real, y: real)
    requires x != y && term == Times(value, basis)
    ensures term * ((0.0 - y) / (x - y)) == Times(value, Times(basis, Factor(x, y)))
  {
    TimesAssoc(value, basis, Factor(x, y));
  }

  /** One term of the sum, factor by factor. */
  method LagrangeTerm(points: seq<Point>, i: nat) returns (term: real)
    requires i < |points| && Distinct(Scales(points))
    ensures term == Times(points[i].value, Basis(Scales(points), points[i].scale))
  {
    hide Factor, Times;
    var xs := Scales(points);
    var x := points[i].scale;
    term := points[i].value;
    TimesUnit(term);
    for j := 0 to |points|
      invariant term == Times(points[i].value, Basis(xs[..j], x))
    {
      var y := points[j].scale;
      assert xs[..j + 1][..j] == xs[..j] && xs[..j + 1][j] == y;
      if i != j {
        assert xs[i] != xs[j];
        TermStep(term, points[i].value, Basis(xs[..j], x), x, y);
        term := term * ((0.0 - y) / (x - y));
      } else {
        OwnFactor(x);
        TimesUnit(Basis(xs[..j], x));
      }
    }
    assert xs[..|points|] == xs;
  }

  lemma OwnFactor(x: real)
    ensures Factor(x, x) == 1.0
  {
  }

  lemma SinglePoint(point: Point)
    ensures WeightedSum([point], [point.scale]) == point.value
  {
    assert [point][..0] == [];
    SingleSample(point.scale, Constant(point.value));
    SamplesAreWeighted([point], [point.scale], Constant(point.value));
    assert Scales([point]) == [point.scale];
  }

  /** The polynomial through every point, at zero. */
  method RichardsonExtrapolateToZero(points: seq<Point>) returns (total: real)
    requires Distinct(Scales(points))
    ensures total == WeightedSum(points, Scales(points))
  {
    hide Basis, Times;
    if |points| == 0 { return 0.0; }
    if |points| == 1 {
      SinglePoint(points[0]);
      assert points == [points[0]] && Scales(points) == [points[0].scale];
      return points[0].value;
    }
    total := 0.0;
    for i := 0 to |points|
      invariant total == WeightedSum(points[..i], Scales(points))
    {
      var term := LagrangeTerm(points, i);
      assert points[..i + 1][..i] == points[..i];
      total := total + term;
    }
    assert points[..|points|] == points;
  }

  /** Richardson extrapolation is exact on polynomials of degree below the number of points. */
  lemma RichardsonIsExact(points: seq<Point>, c: seq<real>)
    requires Distinct(Scales(points)) && |c| <= |points|
    requires forall i :: 0 <= i < |points| ==> points[i].value == Evaluate(c, points[i].scale)
    ensures WeightedSum(points, Scales(points)) == Evaluate(c, 0.0)
  {
    SamplesAreWeighted(points, Scales(points), Polynomial(c));
    PolynomialsAreExact(Scales(points), c);
  }

  // ---------------------------------------------------------------- the least-squares line

  function SumScales(points: seq<Point>): real {
    if |points| == 0 then 0.0 else SumScales(points[..|points| - 1]) + points[|points| - 1].scale
  }

  function SumValues(points: seq<Point>): real {
    if |points| == 0 then 0.0 else SumValues(points[..|points| - 1]) + points[|points| - 1].value
  }

  function SumProducts(points: seq<Point>): real {
    if |points| == 0 then 0.0
    else SumProducts(points[..|points| - 1]) + Times(points[|points| - 1].scale, points[|points| - 1].value)
  }

  function SumSquares(points: seq<Point>): real {
    if |points| == 0 then 0.0
    else SumSquares(points[..|points| - 1]) + Times(points[|points| - 1].scale, points[|points| - 1].scale)
  }

  function Denominator(points: seq<Point>): real {
    Times(|points| as real, SumSquares(points)) - Times(SumScales(points), SumScales(points))
  }

  function Intercept(n: real, sumX: real, sumY: real, sumXY: real, denominator: real): real
    requires n != 0.0 && denominator != 0.0
  {
    var slope := (Times(n, sumXY) - Times(sumX, sumY)) / denominator;
    (sumY - Times(slope, sumX)) / n
  }

  function LinearExtrapolateToZero(points: seq<Point>): real {
    var n := |points|;
    if n == 0 then 0.0
    else if n == 1 then points[0].value
    else if Denominator(points) == 0.0 then SumValues(points) / n as real
    else Intercept(n as real, SumScales(points), SumValues(points), SumProducts(points), Denominator(points))
  }

  /** The intercept of the fitted line, cleared of the slope. */
  lemma InterceptForm(n: real, sumX: real, sumY: real, sumXY: real, sumXX: real, denominator: real)
    requires n != 0.0 && denominator != 0.0 && denominator == Times(n, sumXX) - Times(sumX, sumX)
    ensures Intercept(n, sumX, sumY, sumXY, denominator) == (Times(sumXX, sumY) - Times(sumX, sumXY)) / denominator
  {
    var d := denominator;
    var top := Times(n, sumXY) - Times(sumX, sumY);
    var slope := top / d;
    assert slope * d == top;
    var goal := (Times(sumXX, sumY) - Times(sumX, sumXY)) / d;
    assert goal * d == sumXX * sumY - sumX * sumXY;
    var rest := sumY - slope * sumX;
    Scaled(rest, sumY, slope, sumX, d, top);
    ClearSlope(n, sumX, sumY, sumXY, sumXX, d, top);
    CancelFactor(rest, n, goal, d, sumXX * sumY - sumX * sumXY);
  }

  lemma Scaled(rest: real, sumY: real, slope: real, sumX: real, d: real, top: real)
    requires slope * d == top && rest == sumY - slope * sumX
    ensures rest * d == sumY * d - top * sumX
  {
    assert (slope * sumX) * d == (slope * d) * sumX;
  }

  lemma ClearSlope(n: real, sumX: real, sumY: real, sumXY: real, sumXX: real, d: real, top: real)
    requires d == n * sumXX - sumX * sumX && top == n * sumXY - sumX * sumY
    ensures sumY * d - top * sumX == n * (sumXX * sumY - sumX * sumXY)
  {
    assert sumY * d == sumY * (n * sumXX) - sumY * (sumX * sumX);
    assert top * sumX == (n * sumXY) * sumX - (sumX * sumY) * sumX;
  }

  lemma CancelFactor(rest: real, n: real, goal: real, d: real, value: real)
    requires n != 0.0 && d != 0.0 && rest * d == n * value && goal * d == value
    ensures rest / n == goal
  {
    assert n * value == (n * goal) * d;
    assert (rest - n * goal) * d == 0.0;
    assert rest == n * goal;
  }

  /** The fit is exact on straight lines, as soon as two scales differ. */
  lemma LinearIsExact(points: seq<Point>, a: real, b: real)
    requires |points| > 1 && Denominator(points) != 0.0
    requires forall i :: 0 <= i < |points| ==> points[i].value == a + Times(b, points[i].scale)
    ensures LinearExtrapolateToZero(points) == a
  {
    hide Times;
    LineSums(points, a, b);
    var n, sumX, sumXX, d := |points| as real, SumScales(points), SumSquares(points), Denominator(points);
    InterceptForm(n, sumX, SumValues(points), SumProducts(points), sumXX, d);
    LineIntercept(n, sumX, sumXX, SumValues(points), SumProducts(points), a, b, d);
  }

  lemma {:induction false} LineSums(points: seq<Point>, a: real, b: real)
    requires forall i :: 0 <= i < |points| ==> points[i].value == a + Times(b, points[i].scale)
    ensures SumValues(points) == Times(|points| as real, a) + Times(b, SumScales(points))
    ensures SumProducts(points) == Times(a, SumScales(points)) + Times(b, SumSquares(points))
  {
    hide Times;
    if |points| == 0 {
      TimesUnit(a);
      TimesUnit(b);
    } else {
      var n := |points| - 1;
      LineSums(points[..n], a, b);
      var x := points[n].scale;
      TimesAdd(a, n as real, 1.0);
      TimesUnit(a);
      TimesAdd(a, SumScales(points[..n]), x);
      TimesAdd(b, SumScales(points[..n]), x);
      TimesAdd(b, SumSquares(points[..n]), Times(x, x));
      TimesAdd(x, a, Times(b, x));
      TimesAssoc(x, a + Times(b, x), x);
      TimesAssoc(a, x, x);
      TimesAssoc(b, x, x);
    }
  }

  lemma LineIntercept(n: real, sumX: real, sumXX: real, sumY: real, sumXY: real, a: real, b: real, d: real)
    requires d != 0.0 && d == Times(n, sumXX) - Times(sumX, sumX)
    requires sumY == Times(n, a) + Times(b, sumX) && sumXY == Times(a, sumX) + Times(b, sumXX)
    ensures (Times(sumXX, sumY) - Times(sumX, sumXY)) / d == a
  {
    assert sumXX * sumY == sumXX * (n * a) + sumXX * (b * sumX);
    assert sumX * sumXY == sumX * (a * sumX) + sumX * (b * sumXX);
    assert sumXX * (b * sumX) == sumX * (b * sumXX);
    assert sumXX * (n * a) - sumX * (a * sumX) == a * d;
  }

  // ---------------------------------------------------------------- weights by bumping

  datatype Model = Linear | Richardson

  predicate Applicable(model: Model, points: seq<Point>) {
    model.Richardson? ==> Distinct(Scales(points))
  }

  function Extrapolation(model: Model, points: seq<Point>): real {
    if model.Linear? then LinearExtrapolateToZero(points) else WeightedSum(points, Scales(points))
  }

  /** The weight each extrapolator puts on a point, from the scales alone. */
  function WeightOf(model: Model, points: seq<Point>, i: nat): real
    requires i < |points|
  {
    var n := |points|;
    if model.Richardson? then Basis(Scales(points), points[i].scale)
    else if n == 1 then 1.0
    else if Denominator(points) == 0.0 then 1.0 / n as real
    else (SumSquares(points) - Times(points[i].scale, SumScales(points))) / Denominator(points)
  }

  function Bumped(points: seq<Point>, i: nat): seq<Point>
    requires i < |points|
  {
    points[i := Point(points[i].scale, points[i].value + 1.0)]
  }

  lemma {:induction false} BumpedSums(points: seq<Point>, i: nat)
    requires i < |points|
    ensures SumScales(Bumped(points, i)) == SumScales(points) && SumSquares(Bumped(points, i)) == SumSquares(points)
    ensures SumValues(Bumped(points, i)) == SumValues(points) + 1.0
    ensures SumProducts(Bumped(points, i)) == SumProducts(points) + points[i].scale
    ensures forall all :: WeightedSum(Bumped(points, i), all) == WeightedSum(points, all) + Basis(all, points[i].scale)
  {
    hide Times, Basis;
    var n := |points| - 1;
    var p := points[i];
    if i == n {
      assert Bumped(points, i)[..n] == points[..n];
      TimesAdd(p.scale, p.value, 1.0);
      TimesUnit(p.scale);
      forall all ensures WeightedSum(Bumped(points, i), all) == WeightedSum(points, all) + Basis(all, p.scale) {
        TimesAdd(Basis(all, p.scale), p.value, 1.0);
        TimesUnit(Basis(all, p.scale));
      }
    } else {
      BumpedSums(points[..n], i);
      assert Bumped(points, i)[..n] == Bumped(points[..n], i);
      assert Bumped(points, i)[n] == points[n];
    }
  }

  lemma BumpedLine(sumX: real, sumXX: real, sumY: real, sumXY: real, x: real, d: real)
    requires d != 0.0
    ensures (Times(sumXX, sumY + 1.0) - Times(sumX, sumXY + x)) / d
         == (Times(sumXX, sumY) - Times(sumX, sumXY)) / d + (sumXX - Times(x, sumX)) / d
  {
    assert sumXX * (sumY + 1.0) == sumXX * sumY + sumXX;
    assert sumX * (sumXY + x) == sumX * sumXY + x * sumX;
  }

  /** Moving one measured value by one moves the result by exactly that point's weight. */
  lemma BumpIsWeight(model: Model, points: seq<Point>, i: nat)
    requires i < |points|
    ensures Extrapolation(model, Bumped(points, i)) - Extrapolation(model, points) == WeightOf(model, points, i)
  {
    hide Times, Basis;
    BumpedSums(points, i);
    if model.Richardson? {
      assert Scales(Bumped(points, i)) == Scales(points);
    } else if |points| > 1 {
      var n, d := |points| as real, Denominator(points);
      assert Denominator(Bumped(points, i)) == d;
      var sumX, sumXX, sumY, sumXY := SumScales(points), SumSquares(points), SumValues(points), SumProducts(points);
      if d == 0.0 {
        hide Intercept;
        MeanStep(sumY, n);
      } else {
        InterceptForm(n, sumX, sumY, sumXY, sumXX, d);
        InterceptForm(n, sumX, sumY + 1.0, sumXY + points[i].scale, sumXX, d);
        hide Intercept;
        BumpedLine(sumX, sumXX, sumY, sumXY, points[i].scale, d);
      }
    }
  }

  lemma MeanStep(sumY: real, n: real)
    requires n != 0.0
    ensures (sumY + 1.0) / n - sumY / n == 1.0 / n
  {
  }

  /** The weights as the uncertainty estimate derives them. */
  method BumpedWeights(model: Model, points: seq<Point>) returns (weights: seq<real>)
    requires Applicable(model, points)
    ensures |weights| == |points|
    ensures forall i :: 0 <= i < |points| ==> weights[i] == WeightOf(model, points, i)
    ensures |points| > 0 ==> Total(weights) == 1.0
  {
    hide WeightOf, Extrapolation;
    var baseline := Extrapolate(model, points);
    weights := [];
    for i := 0 to |points|
      invariant |weights| == i
      invariant forall j :: 0 <= j < i ==> weights[j] == WeightOf(model, points, j)
    {
      BumpIsWeight(model, points, i);
      assert Scales(Bumped(points, i)) == Scales(points);
      var moved := Extrapolate(model, Bumped(points, i));
      weights := weights + [moved - baseline];
    }
    if |points| > 0 {
      WeightsTotalOne(model, points);
      assert weights == Weights(model, points);
    }
  }

  method Extrapolate(model: Model, points: seq<Point>) returns (value: real)
    requires Applicable(model, points)
    ensures value == Extrapolation(model, points)
  {
    if model.Linear? {
      value := LinearExtrapolateToZero(points);
    } else {
      value := RichardsonExtrapolateToZero(points);
    }
  }

  function Total(weights: seq<real>): real {
    if |weights| == 0 then 0.0 else Total(weights[..|weights| - 1]) + weights[|weights| - 1]
  }

  function Weights(model: Model, points: seq<Point>): (w: seq<real>)
    ensures |w| == |points| && forall i :: 0 <= i < |w| ==> w[i] == WeightOf(model, points, i)
  {
    seq(|points|, i requires 0 <= i < |points| => WeightOf(model, points, i))
  }

  lemma {:induction false} RichardsonTotal(points: seq<Point>, k: nat)
    requires k <= |points|
    ensures Total(Weights(Richardson, points)[..k]) == Combination(Scales(points), Scales(points)[..k], One())
  {
    hide Basis, Times;
    if k > 0 {
      var w, xs := Weights(Richardson, points), Scales(points);
      RichardsonTotal(points, k - 1);
      assert w[..k][..k - 1] == w[..k - 1] && xs[..k][..k - 1] == xs[..k - 1];
      TimesUnit(Basis(xs, xs[k - 1]));
    }
  }

  lemma {:induction false} LinearTotal(points: seq<Point>, k: nat)
    requires 1 < |points| && k <= |points| && Denominator(points) != 0.0
    ensures Total(Weights(Linear, points)[..k])
         == (Times(k as real, SumSquares(points)) - Times(SumScales(points[..k]), SumScales(points)))
           / Denominator(points)
  {
    hide Times, Denominator;
    var w, sumX, sumXX, d := Weights(Linear, points), SumScales(points), SumSquares(points), Denominator(points);
    if k == 0 {
      TimesUnit(sumXX);
      TimesUnit(sumX);
    } else {
      LinearTotal(points, k - 1);
      assert w[..k][..k - 1] == w[..k - 1] && points[..k][..k - 1] == points[..k - 1];
      var x := points[k - 1].scale;
      TimesAdd(sumXX, (k - 1) as real, 1.0);
      TimesUnit(sumXX);
      TimesAdd(sumX, SumScales(points[..k - 1]), x);
      AddQuotients(Times((k - 1) as real, sumXX) - Times(SumScales(points[..k - 1]), sumX), sumXX - Times(x, sumX), d);
    }
  }

  lemma AddQuotients(p: real, q: real, d: real)
    requires d != 0.0
    ensures p / d + q / d == (p + q) / d
  {
  }

  lemma {:induction false} EqualTotal(weights: seq<real>, w: real)
    requires forall i :: 0 <= i < |weights| ==> weights[i] == w
    ensures Total(weights) == Times(|weights| as real, w)
  {
    hide Times;
    if |weights| == 0 {
      TimesUnit(w);
    } else {
      EqualTotal(weights[..|weights| - 1], w);
      TimesAdd(w, (|weights| - 1) as real, 1.0);
      TimesUnit(w);
    }
  }

  lemma UnitShares(n: real)
    requires n != 0.0
    ensures Times(n, 1.0 / n) == 1.0
  {
  }

  /** The weights of either extrapolator sum to one, so a constant is extrapolated to itself. */
  lemma WeightsTotalOne(model: Model, points: seq<Point>)
    requires |points| > 0 && Applicable(model, points)
    ensures Total(Weights(model, points)) == 1.0
  {
    hide Times, Basis, Combination;
    var n := |points|;
    var w := Weights(model, points);
    assert w[..n] == w && points[..n] == points && Scales(points)[..n] == Scales(points);
    if model.Richardson? {
      RichardsonTotal(points, n);
      WeightsSumToOne(Scales(points));
    } else if n == 1 {
      EqualTotal(w, 1.0);
      TimesUnit(1.0);
    } else if Denominator(points) == 0.0 {
      EqualTotal(w, 1.0 / n as real);
      UnitShares(n as real);
    } else {
      LinearTotal(points, n);
    }
  }

  // ---------------------------------------------------------------- when the line is determined

  /** The sum of (x - c)^2 over the scales. */
  function Spread(points: seq<Point>, c: real): real {
    if |points| == 0 then 0.0 else Spread(points[..|points| - 1], c) + Numbers.Square(points[|points| - 1].scale - c)
  }

  lemma {:induction false} SpreadIsZero(points: seq<Point>, c: real)
    ensures Spread(points, c) >= 0.0
    ensures Spread(points, c) == 0.0 <==> forall i :: 0 <= i < |points| ==> points[i].scale == c
  {
    hide Numbers.Square;
    if |points| > 0 {
      var n := |points| - 1;
      SpreadIsZero(points[..n], c);
      Numbers.SquareSign(points[n].scale - c);
      SquareOfZero(points[n].scale - c);
    }
  }

  lemma SquareOfZero(x: real)
    ensures x == 0.0 ==> Numbers.Square(x) == 0.0
  {
  }

  lemma {:induction false} SpreadForm(points: seq<Point>, c: real)
    ensures Spread(points, c)
         == SumSquares(points) - 2.0 * Times(c, SumScales(points)) + Times(|points| as real, Times(c, c))
  {
    hide Times, Numbers.Square;
    if |points| == 0 {
      TimesUnit(c);
      TimesUnit(Times(c, c));
    } else {
      var n := |points| - 1;
      SpreadForm(points[..n], c);
      var x := points[n].scale;
      SquareOffset(x, c);
      TimesAdd(c, SumScales(points[..n]), x);
      TimesAdd(Times(c, c), n as real, 1.0);
      TimesUnit(Times(c, c));
    }
  }

  lemma SquareOffset(x: real, c: real)
    ensures Numbers.Square(x - c) == Times(x, x) - 2.0 * Times(c, x) + Times(c, c)
  {
    Numbers.SquareSumDifference(x, c);
  }

  lemma DenominatorStep(n: real, sumXX: real, sumX: real, x: real)
    ensures Times(n + 1.0, sumXX + Times(x, x)) - Times(sumX + x, sumX + x)
         == (Times(n, sumXX) - Times(sumX, sumX)) + (sumXX - 2.0 * Times(x, sumX) + Times(n, Times(x, x)))
  {
    assert (n + 1.0) * (sumXX + x * x) == n * sumXX + sumXX + n * (x * x) + x * x;
    assert (sumX + x) * (sumX + x) == sumX * sumX + 2.0 * (x * sumX) + x * x;
  }

  /** The denominator of the fit vanishes exactly when all scales are equal. */
  lemma {:induction false} DenominatorIsZero(points: seq<Point>)
    ensures Denominator(points) >= 0.0
    ensures Denominator(points) == 0.0 <==> forall i, j :: 0 <= i < j < |points| ==> points[i].scale == points[j].scale
  {
    hide Times, Spread;
    if |points| == 0 {
      TimesUnit(0.0);
    } else {
      var n := |points| - 1;
      var front, x := points[..n], points[n].scale;
      DenominatorIsZero(front);
      SpreadIsZero(front, x);
      SpreadForm(front, x);
      DenominatorStep(n as real, SumSquares(front), SumScales(front), x);
      assert Denominator(points) == Denominator(front) + Spread(front, x);
      hide Denominator, SumScales, SumSquares;
      assert forall i :: 0 <= i < n ==> front[i] == points[i];
    }
  }
}
