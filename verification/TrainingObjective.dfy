/**
  What the training loop looks for: the weights under which the points' own classes are most likely,
  large weights counting against it. The logarithm of this objective lies below each of its tangents,
  whose slope is what the loop descends, so where the loop rests there is nothing better anywhere.
 */
module TrainingObjective {
  import opened Seqs
  import opened GradientDescent
  import opened TrainingDirection

  /** The exponential function lies above its tangent at zero. */
  ghost predicate AboveTangent(exp: Exp) { forall x :: exp(x) >= 1.0 + x }

  ghost predicate IsExp(exp: Exp) { Positive(exp) && TurnsSumsIntoProducts(exp) && AboveTangent(exp) }

  lemma ExpAdds(exp: Exp, x: real, y: real)
    requires IsExp(exp)
    ensures exp(x + y) == Slope(exp(x), exp(y)) && exp(x) > 0.0 && exp(x) >= 1.0 + x
  {
    assert ProductAt(exp, x, y);
  }

  lemma ExpOfZero(exp: Exp)
    requires IsExp(exp)
    ensures exp(0.0) == 1.0
  {
    var z := 0.0;
    ExpAdds(exp, z, z);
    hide IsExp;
    var x := exp(z);
    assert z + z == z && x == Slope(x, x) == x * x;
    assert (x * x) / x == x;
    assert x / x == 1.0;
  }

  lemma ExpGrows(exp: Exp, x: real, y: real)
    requires IsExp(exp) && x <= y
    ensures exp(x) <= exp(y)
  {
    ExpAdds(exp, x, y - x);
    ExpAdds(exp, y - x, 0.0);
    hide IsExp;
    assert x + (y - x) == y;
    SlopeGrows(exp(x), 1.0, exp(y - x));
    NoSlope(exp(x));
  }

  lemma SlopeGrows(a: real, x: real, y: real)
    requires a >= 0.0 && x <= y
    ensures Slope(a, x) <= Slope(a, y) && Slope(x, a) <= Slope(y, a)
  {
  }

  lemma SlopeTurns(a: real, b: real, f: real)
    ensures Slope(a, b) == Slope(b, a) && Slope(Slope(a, b), f) == Slope(a, Slope(b, f))
  {
    assert a * b * f == a * (b * f);
  }

  // ---------------------------------------------------------------- one point

  function Minus(a: seq<real>, b: seq<real>): (d: seq<real>)
    requires |a| == |b|
    ensures |d| == |a| && forall k :: 0 <= k < |d| ==> d[k] == a[k] - b[k]
  {
    seq(|a|, k requires 0 <= k < |a| => a[k] - b[k])
  }

  /** One term of the sum: it grows at least along the tangent. */
  lemma TermGrows(exp: Exp, x: real, d: real, s: real)
    requires IsExp(exp)
    ensures exp(x + d) >= Slope(exp(s), Slope(exp(x), 1.0 + d - s))
  {
    ExpAdds(exp, x, d);
    ExpAdds(exp, s, d - s);
    ExpAdds(exp, d - s, 0.0);
    hide IsExp;
    assert s + (d - s) == d;
    assert exp(d) == Slope(exp(s), exp(d - s));
    SlopeGrows(exp(s), 1.0 + (d - s), exp(d - s));
    SlopeGrows(exp(x), Slope(exp(s), 1.0 + (d - s)), exp(d));
    SlopeTurns(exp(x), exp(s), 1.0 + (d - s));
    SlopeTurns(exp(s), exp(x), 1.0 + (d - s));
    hide Slope;
    assert 1.0 + (d - s) == 1.0 + d - s;
  }

  /** The first `n` terms. */
  lemma {:induction false} SumGrows(exp: Exp, l: seq<real>, e: seq<real>, m: seq<real>, f: seq<real>, s: real, n: nat)
    requires IsExp(exp) && IsExpOf(exp, l, e) && IsExpOf(exp, m, f) && |l| == |m| && n <= |l|
    ensures Sum(f[..n]) >= Slope(exp(s), Sum(e[..n]) + Inner(e, Minus(m, l), n) - Slope(Sum(e[..n]), s))
  {
    hide IsExp, Slope, Sum;
    SumOfNone();
    NoSlope(exp(s));
    NoSlope(s);
    if n == 0 {
      assert e[..0] == [] && f[..0] == [];
    } else {
      var k, d := n - 1, Minus(m, l)[n - 1];
      SumGrows(exp, l, e, m, f, s, k);
      TermGrows(exp, l[k], d, s);
      assert f[k] == exp(l[k] + d) && e[k] == exp(l[k]);
      SumNext(e, k);
      SumNext(f, k);
      AddTerm(exp(s), Sum(e[..k]), Inner(e, Minus(m, l), k), e[k], d, s);
    }
  }

  lemma SumOfNone()
    ensures Sum([]) == 0.0
  {
  }

  lemma SumNext(v: seq<real>, k: nat)
    requires k < |v|
    ensures Sum(v[..k + 1]) == Sum(v[..k]) + v[k]
  {
    TakeNext(v, k);
  }

  lemma AddTerm(t: real, sum: real, inner: real, x: real, d: real, s: real)
    ensures Slope(t, sum + inner - Slope(sum, s)) + Slope(t, Slope(x, 1.0 + d - s))
            == Slope(t, sum + x + (inner + Slope(x, d)) - Slope(sum + x, s))
  {
    var a, b := sum + inner - sum * s, x * (1.0 + d - s);
    assert x * (1.0 + d - s) == x + x * d - x * s;
    assert (sum + x) * s == sum * s + x * s;
    assert t * a + t * b == t * (a + b);
  }

  ghost predicate AreShares(e: seq<real>, p: seq<real>, total: real) {
    |p| == |e| && total > 0.0 && forall k :: 0 <= k < |e| ==> p[k] == e[k] / total
  }

  lemma {:induction false} InnerOfShares(e: seq<real>, p: seq<real>, d: seq<real>, total: real, n: nat)
    requires AreShares(e, p, total) && |e| == |d| && n <= |e|
    ensures Inner(e, d, n) == Slope(total, Inner(p, d, n))
  {
    hide Slope;
    NoSlope(total);
    if n > 0 {
      InnerOfShares(e, p, d, total, n - 1);
      ShareTimesTotal(e[n - 1], total, p[n - 1]);
      SlopeTurns(total, p[n - 1], d[n - 1]);
      SlopeAdds(Inner(p, d, n - 1), Slope(p[n - 1], d[n - 1]), total);
    }
  }

  lemma ShareTimesTotal(x: real, total: real, share: real)
    requires total > 0.0 && share == x / total
    ensures Slope(total, share) == x
  {
  }

  lemma AllTermsGrow(exp: Exp, l: seq<real>, e: seq<real>, m: seq<real>, f: seq<real>, s: real)
    requires IsExp(exp) && IsExpOf(exp, l, e) && IsExpOf(exp, m, f) && |l| == |m|
    ensures Sum(f) >= Slope(exp(s), Sum(e) + Inner(e, Minus(m, l), |l|) - Slope(Sum(e), s))
  {
    hide IsExp, Slope, Sum, Inner, AreShares;
    SumGrows(exp, l, e, m, f, s, |l|);
    TakeAll(e);
    TakeAll(f);
  }

  /** The sum of the exponentials grows at least as the weighted mean of the changes says. */
  lemma WholeSumGrows(exp: Exp, l: seq<real>, e: seq<real>, m: seq<real>, f: seq<real>, p: seq<real>)
    requires IsExp(exp) && IsExpOf(exp, l, e) && IsExpOf(exp, m, f) && |l| == |m| == |p| && AreShares(e, p, Sum(e))
    ensures Sum(f) >= Slope(exp(Inner(p, Minus(m, l), |l|)), Sum(e))
  {
    hide IsExp, Slope, Sum, Inner, AreShares;
    var s := Inner(p, Minus(m, l), |l|);
    AllTermsGrow(exp, l, e, m, f, s);
    InnerOfShares(e, p, Minus(m, l), Sum(e), |l|);
  }

  lemma ShareFalls(x: real, d: real, total: real, grown: real, rate: real)
    requires total > 0.0 && rate > 0.0 && x > 0.0 && d > 0.0 && grown >= Slope(rate, total)
    ensures grown > 0.0 && Slope(x, d) / grown <= Slope(x / total, d / rate)
  {
    var least := rate * total;
    assert least > 0.0;
    DivideLess(x * d, least, grown);
    QuotientOfProducts(x, d, total, rate);
  }

  lemma DivideLess(a: real, b: real, c: real)
    requires a > 0.0 && 0.0 < b <= c
    ensures a / c <= a / b
  {
    var q, r := a / c, a / b;
    assert q * c == a && r * b == a;
    assert r * c >= r * b;
    DivideMonotone(r * c, a, c);
    assert (r * c) / c == r;
  }

  lemma QuotientOfProducts(x: real, d: real, total: real, rate: real)
    requires total > 0.0 && rate > 0.0
    ensures rate * total > 0.0 && (x * d) / (rate * total) == (x / total) * (d / rate)
  {
    var q, r := x / total, d / rate;
    assert q * total == x && r * rate == d;
    assert (q * total) * (r * rate) == (q * r) * (rate * total);
  }

  function Exps(exp: Exp, l: seq<real>): (e: seq<real>)
    ensures |e| == |l| && forall k :: 0 <= k < |l| ==> e[k] == exp(l[k])
  {
    seq(|l|, k requires 0 <= k < |l| => exp(l[k]))
  }

  lemma SharesOfExps(exp: Exp, l: seq<real>)
    requires IsExp(exp) && l != [] && Sum(Shifted(exp, l)) > 0.0
    ensures IsExpOf(exp, l, Exps(exp, l)) && AreShares(Exps(exp, l), Probs(exp, l), Sum(Exps(exp, l)))
  {
    var e := Exps(exp, l);
    forall k | 0 <= k < |l| ensures Sum(e) > 0.0 && Probs(exp, l)[k] == e[k] / Sum(e) {
      ShiftingIsHarmless(exp, l, e, k);
    }
    assert Sum(e) > 0.0 by { ShiftingIsHarmless(exp, l, e, 0); }
  }

  lemma ExpOfDifference(exp: Exp, x: real, y: real)
    requires IsExp(exp)
    ensures exp(y) > 0.0 && exp(x) / exp(y) == exp(x - y)
  {
    ExpAdds(exp, x - y, y);
    ExpAdds(exp, y, 0.0);
    hide IsExp;
    assert (x - y) + y == x;
    assert Slope(exp(x - y), exp(y)) / exp(y) == exp(x - y);
  }

  lemma ShareBelowTangent(exp: Exp, l: seq<real>, m: seq<real>, e: seq<real>, f: seq<real>, s: real, y: nat)
    requires IsExp(exp) && IsExpOf(exp, l, e) && IsExpOf(exp, m, f) && y < |l| == |m|
    requires Sum(e) > 0.0 && Sum(f) >= Slope(exp(s), Sum(e))
    ensures Sum(f) > 0.0 && f[y] / Sum(f) <= Slope(e[y] / Sum(e), exp(m[y] - l[y] - s))
  {
    hide IsExp, Sum;
    var d := m[y] - l[y];
    ExpAdds(exp, l[y], d);
    ExpAdds(exp, d, s);
    ExpAdds(exp, s, d);
    ExpOfDifference(exp, d, s);
    assert l[y] + d == m[y];
    ShareFalls(e[y], exp(d), Sum(e), Sum(f), exp(s));
  }

  lemma SharesBelowTangent(exp: Exp, l: seq<real>, m: seq<real>, e: seq<real>, f: seq<real>,
                           p: seq<real>, q: seq<real>, y: nat)
    requires IsExp(exp) && IsExpOf(exp, l, e) && IsExpOf(exp, m, f) && y < |l| == |m| == |p| == |q|
    requires AreShares(e, p, Sum(e)) && AreShares(f, q, Sum(f))
    ensures q[y] <= Slope(p[y], exp(m[y] - l[y] - Inner(p, Minus(m, l), |l|)))
  {
    hide IsExp, Sum, Slope, Inner, Minus;
    var s := Inner(p, Minus(m, l), |l|);
    WholeSumGrows(exp, l, e, m, f, p);
    ShareBelowTangent(exp, l, m, e, f, s, y);
  }

  lemma SharesOfPoint(exp: Exp, w: Weights, c: nat, p: Point)
    requires IsExp(exp) && Positive(exp) && GoodPoint(p, c) && |w| == c * STRIDE
    ensures var l := Logits(w, c, p.emb);
            IsExpOf(exp, l, Exps(exp, l)) && AreShares(Exps(exp, l), ProbsOf(exp, w, c, p), Sum(Exps(exp, l)))
  {
    hide IsExp, Positive, Sum, Probs, Shifted, Logits;
    TotalIsPositive(exp, Logits(w, c, p.emb));
    SharesOfExps(exp, Logits(w, c, p.emb));
  }

  /** The probability of the own class grows at most by what the change of the scores along the tangent says. */
  lemma ProbBelowTangent(exp: Exp, w: Weights, v: Weights, c: nat, p: Point)
    requires IsExp(exp) && Positive(exp) && GoodPoint(p, c) && |w| == |v| == c * STRIDE
    ensures var l, m, shares := Logits(w, c, p.emb), Logits(v, c, p.emb), ProbsOf(exp, w, c, p);
            ProbsOf(exp, v, c, p)[p.class_]
            <= Slope(shares[p.class_], exp(m[p.class_] - l[p.class_] - Inner(shares, Minus(m, l), c)))
  {
    hide IsExp, Positive, Sum, Slope, Inner, AreShares, IsExpOf, Minus, ProbsOf, Logits, Exps;
    var l, m := Logits(w, c, p.emb), Logits(v, c, p.emb);
    SharesOfPoint(exp, w, c, p);
    SharesOfPoint(exp, v, c, p);
    SharesBelowTangent(exp, l, m, Exps(exp, l), Exps(exp, m), ProbsOf(exp, w, c, p), ProbsOf(exp, v, c, p), p.class_);
  }

  // ---------------------------------------------------------------- along the gradient

  lemma {:induction false} DotOfDifference(v: Weights, w: Weights, k: nat, emb: seq<real>, n: nat)
    requires |v| == |w| >= (k + 1) * STRIDE && n <= DIM == |emb|
    ensures Dot(Difference(v, w), k, emb, n) == Dot(v, k, emb, n) - Dot(w, k, emb, n)
  {
    if n > 0 {
      DotOfDifference(v, w, k, emb, n - 1);
      var i, x := k * STRIDE + n - 1, emb[n - 1];
      assert (v[i] - w[i]) * x == v[i] * x - w[i] * x;
    }
  }

  /** The errors weigh the changes of the scores as the probabilities do, less the change of the own class. */
  lemma {:induction false} ErrScoresAre(exp: Exp, w: Weights, v: Weights, c: nat, p: Point, n: nat)
    requires Positive(exp) && GoodPoint(p, c) && |w| == |v| == c * STRIDE && n <= c
    ensures var d := Minus(Logits(v, c, p.emb), Logits(w, c, p.emb));
            ErrScores(exp, w, c, p, Difference(v, w), n)
            == Inner(ProbsOf(exp, w, c, p), d, n) - if p.class_ < n then d[p.class_] else 0.0
  {
    hide Err, Positive, Slope, Dot, ProbsOf, Difference;
    if n > 0 {
      var k := n - 1;
      var shares, d := ProbsOf(exp, w, c, p), Minus(Logits(v, c, p.emb), Logits(w, c, p.emb));
      ErrScoresAre(exp, w, v, c, p, k);
      ErrIs(exp, w, c, p, k);
      DotOfDifference(v, w, k, p.emb, DIM);
      SlopeAdds(shares[k], -1.0, d[k]);
      NegativeUnit(d[k]);
    }
  }

  /** How likely the points' own classes are, together. */
  ghost function Likelihood(exp: Exp, w: Weights, c: nat, ps: seq<Point>): real
    requires Positive(exp) && GoodPoints(ps, c) && |w| == c * STRIDE
  {
    if ps == [] then 1.0
    else
      var p := ps[|ps| - 1];
      Slope(Likelihood(exp, w, c, ps[..|ps| - 1]), ProbsOf(exp, w, c, p)[p.class_])
  }

  lemma ProbIsPositive(exp: Exp, w: Weights, c: nat, p: Point)
    requires IsExp(exp) && Positive(exp) && GoodPoint(p, c) && |w| == c * STRIDE
    ensures ProbsOf(exp, w, c, p)[p.class_] > 0.0
  {
    hide IsExp, Positive, Logits, ProbsOf, Sum;
    var l := Logits(w, c, p.emb);
    SharesOfPoint(exp, w, c, p);
    ExpAdds(exp, l[p.class_], 0.0);
    DivideMonotone(0.0, Exps(exp, l)[p.class_], Sum(Exps(exp, l)));
  }

  lemma {:induction false} LikelihoodIsPositive(exp: Exp, w: Weights, c: nat, ps: seq<Point>)
    requires IsExp(exp) && Positive(exp) && GoodPoints(ps, c) && |w| == c * STRIDE
    ensures Likelihood(exp, w, c, ps) > 0.0
    decreases |ps|
  {
    hide IsExp, Positive, ProbsOf;
    if ps != [] {
      LikelihoodIsPositive(exp, w, c, ps[..|ps| - 1]);
      ProbIsPositive(exp, w, c, ps[|ps| - 1]);
      SlopeIsPositive(Likelihood(exp, w, c, ps[..|ps| - 1]), ProbsOf(exp, w, c, ps[|ps| - 1])[ps[|ps| - 1].class_]);
    }
  }

  lemma SlopeIsPositive(a: real, b: real)
    requires a > 0.0 && b > 0.0
    ensures Slope(a, b) > 0.0
  {
  }

  lemma BoundsMultiply(a: real, a': real, x: real, b: real, b': real, y: real)
    requires a > 0.0 && b > 0.0 && b' > 0.0 && x > 0.0 && y > 0.0 && a' <= Slope(a, x) && b' <= Slope(b, y)
    ensures Slope(a', b') <= Slope(Slope(a, b), Slope(x, y))
  {
    SlopeGrows(b', a', Slope(a, x));
    SlopeIsPositive(a, x);
    SlopeGrows(Slope(a, x), b', Slope(b, y));
    assert (a * x) * (b * y) == (a * b) * (x * y);
  }

  lemma PointBelowTangent(exp: Exp, w: Weights, v: Weights, c: nat, p: Point)
    requires IsExp(exp) && Positive(exp) && GoodPoint(p, c) && |w| == |v| == c * STRIDE
    ensures ProbsOf(exp, v, c, p)[p.class_]
            <= Slope(ProbsOf(exp, w, c, p)[p.class_], exp(-ErrScores(exp, w, c, p, Difference(v, w), c)))
  {
    hide IsExp, Positive, Slope, ProbsOf, Logits, ErrScores, Inner;
    ProbBelowTangent(exp, w, v, c, p);
    ErrScoresAre(exp, w, v, c, p, c);
  }

  /** From any weights to any others, the likelihood grows at most by what its slope says. */
  lemma {:induction false} LikelihoodBelowTangent(exp: Exp, w: Weights, v: Weights, c: nat, ps: seq<Point>)
    requires IsExp(exp) && Positive(exp) && GoodPoints(ps, c) && |w| == |v| == c * STRIDE
    ensures Likelihood(exp, v, c, ps)
            <= Slope(Likelihood(exp, w, c, ps), exp(-AllErrScores(exp, w, c, ps, Difference(v, w))))
    decreases |ps|
  {
    hide IsExp, Positive, Slope, ProbsOf, ErrScores, Difference;
    if ps == [] {
      ExpOfZero(exp);
      NoSlope(1.0);
    } else {
      var rest, p, u := ps[..|ps| - 1], ps[|ps| - 1], Difference(v, w);
      var a, b := -AllErrScores(exp, w, c, rest, u), -ErrScores(exp, w, c, p, u, c);
      LikelihoodBelowTangent(exp, w, v, c, rest);
      PointBelowTangent(exp, w, v, c, p);
      LikelihoodIsPositive(exp, w, c, rest);
      ProbIsPositive(exp, w, c, p);
      ProbIsPositive(exp, v, c, p);
      ExpAdds(exp, a, b);
      ExpAdds(exp, b, a);
      BoundsMultiply(Likelihood(exp, w, c, rest), Likelihood(exp, v, c, rest), exp(a),
                     ProbsOf(exp, w, c, p)[p.class_], ProbsOf(exp, v, c, p)[p.class_], exp(b));
    }
  }

  // ---------------------------------------------------------------- with the penalty

  /** The weights that are penalised: all but the biases. */
  function Pulled(w: Weights): (r: seq<real>)
    ensures |r| == |w| && forall i :: 0 <= i < |w| ==> r[i] == if IsBias(i) then 0.0 else w[i]
  {
    seq(|w|, i requires 0 <= i < |w| => if IsBias(i) then 0.0 else w[i])
  }

  /** Sum of their squares. */
  function Squares(w: Weights): real { Inner(Pulled(w), Pulled(w), |w|) }

  function Half(ps: seq<Point>): real { Batch(ps) * L2 / 2.0 }

  /** What training maximises: the likelihood, shrunk by half of L2 times the squares for every point. */
  ghost function Objective(exp: Exp, w: Weights, c: nat, ps: seq<Point>): real
    requires Positive(exp) && GoodPoints(ps, c) && |w| == c * STRIDE
  {
    Slope(Likelihood(exp, w, c, ps), exp(-Slope(Squares(w), Half(ps))))
  }

  lemma SquareAboveTangent(x: real, y: real)
    ensures Slope(y, y) >= Slope(x, x) + 2.0 * Slope(x, y - x)
  {
    assert (y - x) * (y - x) == y * y - 2.0 * (x * y) + x * x;
    SquareSign(y - x, (y - x) * (y - x));
    assert x * (y - x) == x * y - x * x;
  }

  lemma {:induction false} SquaresAboveTangent(w: Weights, v: Weights, n: nat)
    requires |w| == |v| && n <= |w|
    ensures Inner(Pulled(v), Pulled(v), n)
            >= Inner(Pulled(w), Pulled(w), n) + 2.0 * Inner(Pulled(w), Difference(v, w), n)
  {
    hide Slope;
    if n > 0 {
      var i := n - 1;
      SquaresAboveTangent(w, v, i);
      if IsBias(i) {
        NoSlope(Difference(v, w)[i]);
        NoSlope(0.0);
      } else {
        SquareAboveTangent(w[i], v[i]);
      }
    }
  }

  lemma {:induction false} InnerScales(a: seq<real>, b: seq<real>, u: seq<real>, f: real, n: nat)
    requires |a| == |b| && n <= |a| && n <= |u| && forall i :: 0 <= i < |a| ==> b[i] == Slope(a[i], f)
    ensures Inner(b, u, n) == Slope(Inner(a, u, n), f)
  {
    hide Slope;
    NoSlope(f);
    if n > 0 {
      InnerScales(a, b, u, f, n - 1);
      SlopeTurns(a[n - 1], f, u[n - 1]);
      SlopeTurns(f, u[n - 1], f);
      SlopeTurns(a[n - 1], u[n - 1], f);
      SlopeAdds(Inner(a, u, n - 1), Slope(a[n - 1], u[n - 1]), f);
    }
  }

  function Times(a: seq<real>, f: real): (b: seq<real>)
    ensures |b| == |a| && forall i :: 0 <= i < |a| ==> b[i] == Slope(a[i], f)
  {
    seq(|a|, i requires 0 <= i < |a| => Slope(a[i], f))
  }

  lemma FactorParts(g: real, x: real, n: real)
    requires n > 0.0
    ensures Slope(g / n + L2 * x, n) == g + Slope(x, n * L2)
  {
    assert g / n * n == g;
    assert (g / n + L2 * x) * n == g / n * n + L2 * x * n;
  }

  /** The slope of the penalty in direction `u`. */
  function PullOf(w: Weights, u: Weights): real
    requires |u| == |w|
  {
    Inner(Pulled(w), u, |w|)
  }

  lemma HalfIsPositive(ps: seq<Point>)
    ensures Half(ps) > 0.0 && Batch(ps) * L2 == 2.0 * Half(ps)
  {
  }

  /** The slope in direction `u` of what a step goes down on, for all points together. */
  ghost function SlopeAlong(exp: Exp, w: Weights, c: nat, ps: seq<Point>, u: Weights): real
    requires Positive(exp) && GoodPoints(ps, c) && |w| == |u| == c * STRIDE
  {
    Slope(Inner(Factors(exp, w, c, ps), u, |w|), Batch(ps))
  }

  /** It is that of the likelihood and that of the penalty. */
  lemma SlopesAdd(exp: Exp, w: Weights, c: nat, ps: seq<Point>, u: Weights)
    requires Positive(exp) && GoodPoints(ps, c) && |w| == |u| == c * STRIDE
    ensures SlopeAlong(exp, w, c, ps, u) == AllErrScores(exp, w, c, ps, u) + Slope(PullOf(w, u), 2.0 * Half(ps))
  {
    hide Grad, Positive, GoodPoints, Slope, Inner, Batch, Half, Factors, Gradient, AllErrScores;
    var n, k, g := Batch(ps), 2.0 * Half(ps), Gradient(exp, w, c, ps);
    var f, r := Factors(exp, w, c, ps), Pulled(w);
    HalfIsPositive(ps);
    InnerScales(f, Times(f, n), u, n, |w|);
    InnerScales(r, Times(r, k), u, k, |w|);
    forall i | 0 <= i < |w| ensures Times(f, n)[i] == g[i] + Times(r, k)[i] { FactorParts(g[i], r[i], n); }
    InnerAdds(g, Times(r, k), Times(f, n), u, |w|);
    InnerOfGradient(exp, w, c, ps, u);
  }

  lemma PenaltyParts(x: real, y: real, pull: real, h: real)
    requires h > 0.0 && y >= x + 2.0 * pull
    ensures Slope(y, h) >= Slope(x, h) + Slope(pull, 2.0 * h)
  {
    SlopeGrows(h, x + 2.0 * pull, y);
    assert (x + 2.0 * pull) * h == x * h + pull * (2.0 * h);
  }

  /** What the penalty gives up is at least what its slope says. */
  lemma PenaltyAboveTangent(w: Weights, v: Weights, h: real)
    requires |w| == |v| && h > 0.0
    ensures Slope(Squares(v), h) >= Slope(Squares(w), h) + Slope(PullOf(w, Difference(v, w)), 2.0 * h)
  {
    SquaresAboveTangent(w, v, |w|);
    SquaresAre(w, v);
    hide *;
    PenaltyParts(Squares(w), Squares(v), PullOf(w, Difference(v, w)), h);
  }

  lemma SquaresAre(w: Weights, v: Weights)
    requires |w| == |v|
    ensures Squares(w) == Inner(Pulled(w), Pulled(w), |w|) && Squares(v) == Inner(Pulled(v), Pulled(v), |w|)
    ensures PullOf(w, Difference(v, w)) == Inner(Pulled(w), Difference(v, w), |w|)
  {
  }

  lemma CombineBounds(exp: Exp, like: real, like': real, slope: real, sq: real, sq': real, pull: real)
    requires IsExp(exp) && like > 0.0 && like' <= Slope(like, exp(-slope)) && sq' >= sq + pull
    ensures Slope(like', exp(-sq')) <= Slope(Slope(like, exp(-sq)), exp(-(slope + pull)))
  {
    ExpGrows(exp, -sq', -sq + -pull);
    ExpAdds(exp, -sq, -pull);
    ExpAdds(exp, -slope, -pull);
    ExpAdds(exp, -pull, -sq');
    ExpAdds(exp, -sq', -sq);
    hide IsExp;
    assert -slope + -pull == -(slope + pull);
    BoundsMultiply(like, like', exp(-slope), exp(-sq), exp(-sq'), exp(-pull));
  }

  /**
    From any weights to any others, the objective grows at most by what its slope says: the loop's
    gradient is the slope of the logarithm of what it maximises, which has no other hills.
   */
  lemma ObjectiveBelowTangent(exp: Exp, w: Weights, v: Weights, c: nat, ps: seq<Point>)
    requires IsExp(exp) && Positive(exp) && GoodPoints(ps, c) && |w| == |v| == c * STRIDE
    ensures Objective(exp, v, c, ps)
            <= Slope(Objective(exp, w, c, ps), exp(-SlopeAlong(exp, w, c, ps, Difference(v, w))))
  {
    hide IsExp, Positive, GoodPoints, Slope, Likelihood, SlopeAlong, Squares, Half, Difference, PullOf, AllErrScores;
    var u, h := Difference(v, w), Half(ps);
    HalfIsPositive(ps);
    LikelihoodBelowTangent(exp, w, v, c, ps);
    LikelihoodIsPositive(exp, w, c, ps);
    PenaltyAboveTangent(w, v, h);
    CombineBounds(exp, Likelihood(exp, w, c, ps), Likelihood(exp, v, c, ps), AllErrScores(exp, w, c, ps, u),
                  Slope(Squares(w), h), Slope(Squares(v), h), Slope(PullOf(w, u), 2.0 * h));
    SlopesAdd(exp, w, c, ps, u);
  }

  /** Where a step changes nothing, no weights at all are better. */
  lemma RestIsBest(exp: Exp, w: Weights, v: Weights, c: nat, ps: seq<Point>)
    requires IsExp(exp) && Positive(exp) && GoodPoints(ps, c) && |w| == |v| == c * STRIDE
    requires Descend(exp, w, c, ps) == w
    ensures Objective(exp, v, c, ps) <= Objective(exp, w, c, ps)
  {
    StepGoesDown(exp, w, c, ps);
    hide IsExp, Positive, GoodPoints, Slope, Objective, Batch, Difference, Descend;
    InnerOfZero(Factors(exp, w, c, ps), Difference(v, w), |w|);
    NoSlope(Batch(ps));
    assert SlopeAlong(exp, w, c, ps, Difference(v, w)) == 0.0;
    hide Factors, Inner, SlopeAlong;
    ObjectiveBelowTangent(exp, w, v, c, ps);
    ExpOfZero(exp);
    NoSlope(Objective(exp, w, c, ps));
  }
}
