/**
 How well a judge's scores agree with human labels (shared/judge_agreement.py), in exact
 arithmetic. The square root is a parameter.
 */
module Agreement {
  import opened Wrappers

  const WEAK_CORRELATION := 0.3
  const TOLERANCE := 0.000000001

  /** A judge's score and a human's. */
  datatype Pair = Pair(judge: real, human: real)

  /** An example as it is read: either side may be missing. */
  datatype Example = Example(judge: Option<real>, human: Option<real>)

  function Abs(x: real): real {
    if x < 0.0 then -x else x
  }

  /******* Sums *******/

  function Sum(xs: seq<real>): real {
    if xs == [] then 0.0 else Sum(xs[..|xs| - 1]) + xs[|xs| - 1]
  }

  function Products(xs: seq<real>, ys: seq<real>): (zs: seq<real>)
    requires |xs| == |ys|
    ensures |zs| == |xs| && forall i | 0 <= i < |xs| :: zs[i] == xs[i] * ys[i]
  {
    seq(|xs|, i requires 0 <= i < |xs| => xs[i] * ys[i])
  }

  function Dot(xs: seq<real>, ys: seq<real>): real
    requires |xs| == |ys|
  {
    Sum(Products(xs, ys))
  }

  lemma DotNext(xs: seq<real>, ys: seq<real>)
    requires |xs| == |ys| > 0
    ensures (var n := |xs| - 1; Dot(xs, ys) == Dot(xs[..n], ys[..n]) + xs[n] * ys[n])
  {
    var n := |xs| - 1;
    var all, before := Products(xs, ys), Products(xs[..n], ys[..n]);
    forall i | 0 <= i < n ensures all[..n][i] == before[i] {
      assert xs[..n][i] == xs[i] && ys[..n][i] == ys[i];
    }
    assert all[..n] == before;
  }

  lemma SquareAtLeastZero(x: real)
    ensures x * x >= 0.0
  {
  }

  lemma {:induction false} SquaresAtLeastZero(xs: seq<real>)
    ensures Dot(xs, xs) >= 0.0
  {
    if xs != [] {
      DotNext(xs, xs);
      SquaresAtLeastZero(xs[..|xs| - 1]);
      SquareAtLeastZero(xs[|xs| - 1]);
    }
  }

  /** Of two numbers that are not negative, the one with the greater square is the greater. */
  lemma SquareOrder(x: real, y: real)
    requires y >= 0.0 && x * x <= y * y
    ensures -y <= x <= y
  {
    if x > y {
      Product(x - y, x + y);
    } else if -x > y {
      Product(-x - y, -x + y);
    }
  }

  lemma Product(x: real, y: real)
    requires x > 0.0 && y > 0.0
    ensures x * y > 0.0
  {
  }

  lemma ProductAtLeastZero(x: real, y: real)
    requires x >= 0.0 && y >= 0.0
    ensures x * y >= 0.0
  {
  }

  /** The inequality of Cauchy and Schwarz. */
  lemma {:induction false} CauchySchwarz(xs: seq<real>, ys: seq<real>)
    requires |xs| == |ys|
    ensures Dot(xs, ys) * Dot(xs, ys) <= Dot(xs, xs) * Dot(ys, ys)
  {
    if xs == [] {
    } else {
      var n := |xs| - 1;
      CauchySchwarz(xs[..n], ys[..n]);
      SquaresAtLeastZero(xs[..n]);
      SquaresAtLeastZero(ys[..n]);
      DotNext(xs, ys);
      DotNext(xs, xs);
      DotNext(ys, ys);
      OneMore(Dot(xs[..n], ys[..n]), Dot(xs[..n], xs[..n]), Dot(ys[..n], ys[..n]), xs[n], ys[n]);
    }
  }

  lemma OneMore(p: real, a: real, b: real, x: real, y: real)
    requires a >= 0.0 && b >= 0.0 && p * p <= a * b
    ensures (p + x * y) * (p + x * y) <= (a + x * x) * (b + y * y)
  {
    var u, v, w := a * (y * y), b * (x * x), p * (x * y);
    SquareAtLeastZero(x);
    SquareAtLeastZero(y);
    ProductAtLeastZero(a, y * y);
    ProductAtLeastZero(b, x * x);
    Scaled(p, a, b, x, y);
    TwiceBelowSum(w, u, v);
    assert (p + x * y) * (p + x * y) == p * p + 2.0 * w + (x * y) * (x * y);
    assert (a + x * x) * (b + y * y) == a * b + u + v + (x * x) * (y * y);
    assert (x * y) * (x * y) == (x * x) * (y * y);
  }

  lemma Scaled(p: real, a: real, b: real, x: real, y: real)
    requires p * p <= a * b
    ensures (p * (x * y)) * (p * (x * y)) <= (a * (y * y)) * (b * (x * x))
  {
    var z := x * y;
    SquareAtLeastZero(z);
    ProductAtLeastZero(a * b - p * p, z * z);
    assert (p * z) * (p * z) == (p * p) * (z * z);
    assert (a * (y * y)) * (b * (x * x)) == (a * b) * (z * z);
  }

  lemma TwiceBelowSum(w: real, u: real, v: real)
    requires u >= 0.0 && v >= 0.0 && w * w <= u * v
    ensures 2.0 * w <= u + v
  {
    SquareAtLeastZero(u - v);
    assert (u + v) * (u + v) == (u - v) * (u - v) + 4.0 * (u * v);
    assert (2.0 * w) * (2.0 * w) == 4.0 * (w * w);
    SquareOrder(2.0 * w, u + v);
  }

  /******* Correlation *******/

  function Mean(xs: seq<real>): real
    requires xs != []
  {
    Sum(xs) / |xs| as real
  }

  function Deviations(xs: seq<real>): (ds: seq<real>)
    requires xs != []
    ensures |ds| == |xs|
  {
    seq(|xs|, i requires 0 <= i < |xs| => xs[i] - Mean(xs))
  }

  ghost predicate IsRoot(root: real -> real) {
    forall x :: x >= 0.0 ==> root(x) >= 0.0 && root(x) * root(x) == x
  }

  function Max(x: real, y: real): real {
    if x >= y then x else y
  }

  function Min(x: real, y: real): real {
    if x <= y then x else y
  }

  /** `_pearson`; None where a side does not vary. */
  function Pearson(xs: seq<real>, ys: seq<real>, root: real -> real): Option<real>
    requires |xs| == |ys| && IsRoot(root)
  {
    if |xs| < 2 then None else
    var dx, dy := Deviations(xs), Deviations(ys);
    var denomX, denomY := root(Dot(dx, dx)), root(Dot(dy, dy));
    if denomX < TOLERANCE || denomY < TOLERANCE then None else
    Product(denomX, denomY);
    Some(Max(-1.0, Min(1.0, Dot(dx, dy) / (denomX * denomY))))
  }

  /** The tolerance apart, the correlation is undefined exactly where a side does not vary. */
  predicate Varies(xs: seq<real>, root: real -> real)
    requires IsRoot(root) && xs != []
  {
    root(Dot(Deviations(xs), Deviations(xs))) >= 0.000000001
  }

  /**
   The clamp changes nothing: the quotient is between -1 and 1, and its square is the
   numerator's over the product of the sums of squares.
   */
  lemma PearsonIsExact(xs: seq<real>, ys: seq<real>, root: real -> real)
    requires |xs| == |ys| && IsRoot(root)
    ensures Pearson(xs, ys, root).Some? <==> |xs| >= 2 && Varies(xs, root) && Varies(ys, root)
    ensures Pearson(xs, ys, root).Some? ==>
      (var r, dx, dy := Pearson(xs, ys, root).value, Deviations(xs), Deviations(ys);
       && r * (root(Dot(dx, dx)) * root(Dot(dy, dy))) == Dot(dx, dy)
       && -1.0 <= r <= 1.0
       && r * r * (Dot(dx, dx) * Dot(dy, dy)) == Dot(dx, dy) * Dot(dx, dy))
  {
    if |xs| >= 2 && Varies(xs, root) && Varies(ys, root) {
      var dx, dy := Deviations(xs), Deviations(ys);
      SquaresAtLeastZero(dx);
      SquaresAtLeastZero(dy);
      CauchySchwarz(dx, dy);
      Quotient(Dot(dx, dy), Dot(dx, dx), Dot(dy, dy), root(Dot(dx, dx)), root(Dot(dy, dy)));
    }
  }

  lemma Quotient(n: real, a: real, b: real, x: real, y: real)
    requires x > 0.0 && y > 0.0 && x * x == a && y * y == b && n * n <= a * b
    ensures x * y > 0.0
    ensures (var r := n / (x * y); r * (x * y) == n && -1.0 <= r <= 1.0 && r * r * (a * b) == n * n)
  {
    Product(x, y);
    var d := x * y;
    assert d * d == a * b;
    SquareOrder(n, d);
    Divided(n, d);
    var r := n / d;
    assert r * r * (d * d) == (r * d) * (r * d);
  }

  lemma Divided(n: real, d: real)
    requires d > 0.0 && -d <= n <= d
    ensures (n / d) * d == n && -1.0 <= n / d <= 1.0
  {
  }

  /** It does not matter which side is called the judge. */
  lemma PearsonIsSymmetric(xs: seq<real>, ys: seq<real>, root: real -> real)
    requires |xs| == |ys| && IsRoot(root)
    ensures Pearson(xs, ys, root) == Pearson(ys, xs, root)
  {
    if |xs| >= 2 {
      var dx, dy := Deviations(xs), Deviations(ys);
      assert Products(dx, dy) == Products(dy, dx);
      var x, y := root(Dot(dx, dx)), root(Dot(dy, dy));
      assert x * y == y * x;
    }
  }

  /** A judge that gives the human's scores correlates perfectly, if there is anything to correlate. */
  lemma PearsonOfItself(xs: seq<real>, root: real -> real)
    requires IsRoot(root) && |xs| >= 2 && Varies(xs, root)
    ensures Pearson(xs, xs, root) == Some(1.0)
  {
    var d := Deviations(xs);
    SquaresAtLeastZero(d);
    var x := root(Dot(d, d));
    Product(x, x);
    var y := x * x;
    assert Dot(d, d) == y && y / y == 1.0;
  }

  lemma {:induction false} SumOfConstant(xs: seq<real>, c: real)
    requires forall i | 0 <= i < |xs| :: xs[i] == c
    ensures Sum(xs) == |xs| as real * c
  {
    if xs != [] { SumOfConstant(xs[..|xs| - 1], c); }
  }

  lemma MeanOfConstant(xs: seq<real>, c: real)
    requires xs != [] && forall i | 0 <= i < |xs| :: xs[i] == c
    ensures Mean(xs) == c
  {
    SumOfConstant(xs, c);
    var n := |xs| as real;
    assert (n * c) / n == c;
  }

  /** A judge that never varies has no correlation. */
  lemma ConstantHasNoCorrelation(xs: seq<real>, ys: seq<real>, c: real, root: real -> real)
    requires |xs| == |ys| && IsRoot(root) && forall i | 0 <= i < |xs| :: xs[i] == c
    ensures Pearson(xs, ys, root) == None
  {
    if |xs| >= 2 {
      NoDeviation(xs, c);
      assert root(0.0) * root(0.0) == 0.0;
    }
  }

  lemma NoDeviation(xs: seq<real>, c: real)
    requires xs != [] && forall i | 0 <= i < |xs| :: xs[i] == c
    ensures Dot(Deviations(xs), Deviations(xs)) == 0.0
  {
    MeanOfConstant(xs, c);
    var d := Deviations(xs);
    assert forall i | 0 <= i < |d| :: d[i] == 0.0;
    var z := Products(d, d);
    assert forall i | 0 <= i < |z| :: z[i] == 0.0;
    SumOfConstant(z, 0.0);
  }

  /******* The report *******/

  datatype Verdict = NoData | Insufficient | MatchesBaseRate | Weak | Undetermined | Lenient | Harsh | Good | Mixed

  datatype Report = Report(compared: nat, agreement: Option<real>, correlation: Option<real>, meanError: Option<real>,
                           bias: Option<real>, verdict: Verdict)

  function Usable(examples: seq<Example>): seq<Pair> {
    if examples == [] then [] else
    var e := examples[|examples| - 1];
    Usable(examples[..|examples| - 1]) + (if e.judge.Some? && e.human.Some? then [Pair(e.judge.value, e.human.value)] else [])
  }

  function Judges(ps: seq<Pair>): (xs: seq<real>)
    ensures |xs| == |ps| && forall i | 0 <= i < |ps| :: xs[i] == ps[i].judge
  {
    seq(|ps|, i requires 0 <= i < |ps| => ps[i].judge)
  }

  function Humans(ps: seq<Pair>): (xs: seq<real>)
    ensures |xs| == |ps| && forall i | 0 <= i < |ps| :: xs[i] == ps[i].human
  {
    seq(|ps|, i requires 0 <= i < |ps| => ps[i].human)
  }

  predicate SameSide(p: Pair, threshold: real) {
    (p.judge >= threshold) == (p.human >= threshold)
  }

  function Agreeing(ps: seq<Pair>, threshold: real): (n: nat)
    ensures n <= |ps|
  {
    if ps == [] then 0 else Agreeing(ps[..|ps| - 1], threshold) + (if SameSide(ps[|ps| - 1], threshold) then 1 else 0)
  }

  function Positives(ps: seq<Pair>, threshold: real): (n: nat)
    ensures n <= |ps|
  {
    if ps == [] then 0 else Positives(ps[..|ps| - 1], threshold) + (if ps[|ps| - 1].human >= threshold then 1 else 0)
  }

  function Errors(ps: seq<Pair>): (xs: seq<real>)
    ensures |xs| == |ps| && forall i | 0 <= i < |ps| :: xs[i] == ps[i].judge - ps[i].human
  {
    seq(|ps|, i requires 0 <= i < |ps| => ps[i].judge - ps[i].human)
  }

  function AbsErrors(ps: seq<Pair>): (xs: seq<real>)
    ensures |xs| == |ps| && forall i | 0 <= i < |ps| :: xs[i] == Abs(ps[i].judge - ps[i].human)
  {
    seq(|ps|, i requires 0 <= i < |ps| => Abs(ps[i].judge - ps[i].human))
  }

  function Share(part: nat, all: nat): real
    requires all > 0
  {
    part as real / all as real
  }

  /** `threshold` is 0.5 unless the caller says otherwise. */
  function Compare(examples: seq<Example>, threshold: real, root: real -> real): Report
    requires IsRoot(root)
  {
    var ps := Usable(examples);
    if ps == [] then Report(0, None, None, None, None, NoData) else
    var agreement := Share(Agreeing(ps, threshold), |ps|);
    var correlation := Pearson(Judges(ps), Humans(ps), root);
    var bias := Mean(Errors(ps));
    Report(|ps|, Some(agreement), correlation, Some(Mean(AbsErrors(ps))), Some(bias), VerdictOn(ps, agreement, correlation, bias))
  }

  /** The share of the commoner label; it is counted at one half, whatever the threshold. */
  function BaseRate(ps: seq<Pair>): real
    requires ps != []
  {
    var positives := Positives(ps, 0.5);
    Share(if positives >= |ps| - positives then positives else |ps| - positives, |ps|)
  }

  predicate Constant(xs: seq<real>) {
    forall i | 0 <= i < |xs| :: xs[i] == xs[0]
  }

  function VerdictOn(ps: seq<Pair>, agreement: real, correlation: Option<real>, bias: real): Verdict
    requires ps != []
  {
    if |ps| < 10 then Insufficient
    else if Constant(Judges(ps)) then (if agreement >= BaseRate(ps) - 0.05 then MatchesBaseRate else Weak)
    else if correlation.None? then Undetermined
    else if correlation.value < WEAK_CORRELATION && agreement >= BaseRate(ps) - 0.05 then MatchesBaseRate
    else if correlation.value < WEAK_CORRELATION then Weak
    else if bias > 0.15 then Lenient
    else if bias < -0.15 then Harsh
    else if agreement >= 0.8 then Good
    else Mixed
  }

  /******* What the report means *******/

  lemma {:induction false} TriangleInequality(ps: seq<Pair>)
    ensures Abs(Sum(Errors(ps))) <= Sum(AbsErrors(ps))
  {
    if ps != [] {
      var n := |ps| - 1;
      TriangleInequality(ps[..n]);
      assert Errors(ps)[..n] == Errors(ps[..n]) && AbsErrors(ps)[..n] == AbsErrors(ps[..n]);
    }
  }

  lemma {:induction false} ErrorsAreDifferences(ps: seq<Pair>)
    ensures Sum(Errors(ps)) == Sum(Judges(ps)) - Sum(Humans(ps))
  {
    if ps != [] {
      var n := |ps| - 1;
      ErrorsAreDifferences(ps[..n]);
      assert Errors(ps)[..n] == Errors(ps[..n]) && Judges(ps)[..n] == Judges(ps[..n]) && Humans(ps)[..n] == Humans(ps[..n]);
    }
  }

  lemma DividedOrder(x: real, y: real, n: real)
    requires n > 0.0 && x <= y
    ensures x / n <= y / n
  {
  }

  lemma MeanErrorBounds(ps: seq<Pair>)
    requires ps != []
    ensures Abs(Mean(Errors(ps))) <= Mean(AbsErrors(ps))
    ensures Mean(Errors(ps)) == Mean(Judges(ps)) - Mean(Humans(ps))
  {
    var n := |ps| as real;
    TriangleInequality(ps);
    ErrorsAreDifferences(ps);
    Bounded(Sum(Errors(ps)), Sum(AbsErrors(ps)), n);
    DividedDifference(Sum(Judges(ps)), Sum(Humans(ps)), n);
  }

  lemma Bounded(e: real, a: real, n: real)
    requires n > 0.0 && Abs(e) <= a
    ensures Abs(e / n) <= a / n
  {
    DividedOrder(e, a, n);
    DividedOrder(-e, a, n);
    DividedDifference(0.0, e, n);
  }

  /** The bias is the difference of the means, and never greater than the mean error. */
  lemma BiasWithinMeanError(examples: seq<Example>, threshold: real, root: real -> real)
    requires IsRoot(root) && Usable(examples) != []
    ensures (var r, ps := Compare(examples, threshold, root), Usable(examples);
             && Abs(r.bias.value) <= r.meanError.value
             && r.bias.value == Mean(Judges(ps)) - Mean(Humans(ps)))
  {
    MeanErrorBounds(Usable(examples));
  }

  lemma DividedDifference(x: real, y: real, n: real)
    requires n > 0.0
    ensures (x - y) / n == x / n - y / n
  {
  }

  lemma {:induction false} ConstantAgreement(ps: seq<Pair>, threshold: real, c: real)
    requires forall i | 0 <= i < |ps| :: ps[i].judge == c
    ensures Agreeing(ps, threshold) == if c >= threshold then Positives(ps, threshold) else |ps| - Positives(ps, threshold)
  {
    if ps != [] { ConstantAgreement(ps[..|ps| - 1], threshold, c); }
  }

  /**
   A judge that never varies agrees, at one half, with the positive labels or with the
   others: with no more than the base rate, and its verdict is never a good one.
   */
  lemma ConstantJudge(examples: seq<Example>, root: real -> real)
    requires IsRoot(root) && Usable(examples) != [] && Constant(Judges(Usable(examples)))
    ensures (var r, ps := Compare(examples, 0.5, root), Usable(examples);
             var share := Share(Positives(ps, 0.5), |ps|);
             && r.agreement.value == (if ps[0].judge >= 0.5 then share else 1.0 - share)
             && r.agreement.value <= BaseRate(ps)
             && r.correlation == None
             && r.verdict in {Insufficient, MatchesBaseRate, Weak})
  {
    var ps := Usable(examples);
    assert forall i | 0 <= i < |ps| :: Judges(ps)[i] == ps[i].judge;
    ConstantShare(ps, ps[0].judge);
    ConstantBounded(ps, ps[0].judge);
    ConstantHasNoCorrelation(Judges(ps), Humans(ps), ps[0].judge, root);
  }

  lemma ConstantShare(ps: seq<Pair>, c: real)
    requires ps != [] && forall i | 0 <= i < |ps| :: ps[i].judge == c
    ensures (var share := Share(Positives(ps, 0.5), |ps|);
             Share(Agreeing(ps, 0.5), |ps|) == if c >= 0.5 then share else 1.0 - share)
  {
    ConstantAgreement(ps, 0.5, c);
    ShareComplement(Positives(ps, 0.5), |ps|);
  }

  lemma ConstantBounded(ps: seq<Pair>, c: real)
    requires ps != [] && forall i | 0 <= i < |ps| :: ps[i].judge == c
    ensures Share(Agreeing(ps, 0.5), |ps|) <= BaseRate(ps)
  {
    ConstantAgreement(ps, 0.5, c);
    var p, n := Positives(ps, 0.5), |ps|;
    ShareOrder(Agreeing(ps, 0.5), if p >= n - p then p else n - p, n);
  }

  lemma ShareOrder(p: nat, q: nat, n: nat)
    requires p <= q && n > 0
    ensures Share(p, n) <= Share(q, n)
  {
    DividedOrder(p as real, q as real, n as real);
  }

  lemma ShareComplement(p: nat, n: nat)
    requires p <= n && n > 0
    ensures Share(n - p, n) == 1.0 - Share(p, n)
  {
    assert (n - p) as real == n as real - p as real;
    DividedDifference(n as real, p as real, n as real);
    ShareOfAll(n);
  }

  lemma ShareOfAll(n: nat)
    requires n > 0
    ensures Share(n, n) == 1.0
  {
  }

  /**
   That a judge which never varies agrees with at most the base rate holds at one half,
   where the base rate is counted, and at no other threshold.
   */
  lemma ConstantJudgeExactly(threshold: real)
    ensures (forall ps: seq<Pair> | ps != [] && Constant(Judges(ps)) :: Share(Agreeing(ps, threshold), |ps|) <= BaseRate(ps))
       <==> threshold == 0.5
  {
    if threshold == 0.5 {
      forall ps: seq<Pair> | ps != [] && Constant(Judges(ps)) ensures Share(Agreeing(ps, threshold), |ps|) <= BaseRate(ps) {
        assert forall i | 0 <= i < |ps| :: Judges(ps)[i] == ps[i].judge;
        ConstantBounded(ps, ps[0].judge);
      }
    } else {
      var ps := SameSideOf(threshold);
      OneOfTwo(ps[0], ps[1], threshold);
      assert Constant(Judges(ps));
      assert Share(Agreeing(ps, threshold), |ps|) > BaseRate(ps);
    }
  }

  /** Two labels on different sides of one half, and a judge, all on the same side of the threshold. */
  function SameSideOf(threshold: real): (ps: seq<Pair>)
    requires threshold != 0.5
    ensures |ps| == 2 && ps == [ps[0], ps[1]] && ps[0].judge == ps[1].judge
    ensures SameSide(ps[0], threshold) && SameSide(ps[1], threshold) && ps[0].human < 0.5 <= ps[1].human
  {
    if threshold > 0.5 then [Pair(0.0, 0.0), Pair(0.0, 0.5)] else [Pair(0.5, threshold), Pair(0.5, 0.5)]
  }

  lemma OneOfTwo(p: Pair, q: Pair, threshold: real)
    requires SameSide(p, threshold) && SameSide(q, threshold) && p.human < 0.5 <= q.human
    ensures Share(Agreeing([p, q], threshold), 2) == 1.0 && BaseRate([p, q]) == 0.5
  {
    assert [p, q][..1] == [p] && [p][..0] == [];
    assert Agreeing([p], threshold) == 1 && Agreeing([p, q], threshold) == 2;
    assert Positives([p], 0.5) == 0 && Positives([p, q], 0.5) == 1;
  }

  /** The judge moves with the humans, on their level and mostly on their side. */
  ghost predicate DeservesGood(ps: seq<Pair>, agreement: real, correlation: Option<real>) {
    && |ps| >= 10 && correlation.Some? && correlation.value >= 0.3
    && Abs(Mean(Judges(ps)) - Mean(Humans(ps))) <= 0.15
    && agreement >= 0.8
  }

  lemma VerdictGood(ps: seq<Pair>, agreement: real, root: real -> real)
    requires IsRoot(root) && ps != []
    ensures (var correlation := Pearson(Judges(ps), Humans(ps), root);
             VerdictOn(ps, agreement, correlation, Mean(Errors(ps))) == Good <==> DeservesGood(ps, agreement, correlation))
  {
    if Constant(Judges(ps)) { ConstantHasNoCorrelation(Judges(ps), Humans(ps), Judges(ps)[0], root); }
    MeanErrorBounds(ps);
  }

  /** That a good judge varies need not be asked: the correlation is None otherwise. */
  lemma GoodExactly(examples: seq<Example>, threshold: real, root: real -> real)
    requires IsRoot(root)
    ensures (var r := Compare(examples, threshold, root);
             r.verdict == Good <==> r.agreement.Some? && DeservesGood(Usable(examples), r.agreement.value, r.correlation))
  {
    var ps := Usable(examples);
    if ps != [] { VerdictGood(ps, Share(Agreeing(ps, threshold), |ps|), root); }
  }

  /** A judge that gives the humans' scores is right by every number. */
  lemma PerfectJudge(examples: seq<Example>, threshold: real, root: real -> real)
    requires IsRoot(root) && Usable(examples) != [] && forall p | p in Usable(examples) :: p.judge == p.human
    ensures (var r, ps := Compare(examples, threshold, root), Usable(examples);
             && r.agreement == Some(1.0) && r.meanError == Some(0.0) && r.bias == Some(0.0)
             && (r.correlation == if |ps| >= 2 && Varies(Humans(ps), root) then Some(1.0) else None))
  {
    var ps := Usable(examples);
    AllAgree(ps, threshold);
    ShareOfAll(|ps|);
    NoErrors(ps);
    if |ps| >= 2 && Varies(Humans(ps), root) { PearsonOfItself(Humans(ps), root); }
  }

  lemma NoErrors(ps: seq<Pair>)
    requires ps != [] && forall p | p in ps :: p.judge == p.human
    ensures Judges(ps) == Humans(ps) && Mean(Errors(ps)) == 0.0 == Mean(AbsErrors(ps))
  {
    assert forall i | 0 <= i < |ps| :: ps[i] in ps;
    MeanOfConstant(Errors(ps), 0.0);
    MeanOfConstant(AbsErrors(ps), 0.0);
  }

  lemma {:induction false} AllAgree(ps: seq<Pair>, threshold: real)
    requires forall p | p in ps :: p.judge == p.human
    ensures Agreeing(ps, threshold) == |ps|
  {
    if ps != [] {
      assert ps[|ps| - 1] in ps;
      AllAgree(ps[..|ps| - 1], threshold);
    }
  }
}
