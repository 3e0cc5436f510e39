/**
  Where the training loop goes. Its gradient is the slope of a likelihood that lies below each of its
  tangents; a step never goes up that slope, rests only at the best weights there are, and the first
  one raises the own-class scores.
 */
module TrainingDirection {
  import opened Seqs
  import opened GradientDescent

  // ---------------------------------------------------------------- sums of products

  /** Sum of the products of the first `n` entries. */
  function Inner(a: seq<real>, b: seq<real>, n: nat): real
    requires n <= |a| && n <= |b|
  {
    if n == 0 then 0.0 else Inner(a, b, n - 1) + Slope(a[n - 1], b[n - 1])
  }

  lemma SlopeAdds(a: real, b: real, x: real)
    ensures Slope(a + b, x) == Slope(a, x) + Slope(b, x) && Slope(x, a + b) == Slope(x, a) + Slope(x, b)
  {
  }

  lemma SlopeScales(a: real, b: real, f: real)
    ensures Slope(a, Slope(b, f)) == Slope(Slope(a, b), f)
  {
    assert a * (b * f) == (a * b) * f;
  }

  lemma NoSlope(x: real)
    ensures Slope(x, 0.0) == 0.0 == Slope(0.0, x) && Slope(x, 1.0) == x == Slope(1.0, x)
  {
  }

  ghost predicate Adds(a: seq<real>, b: seq<real>, s: seq<real>) {
    |a| == |b| == |s| && forall i :: 0 <= i < |s| ==> s[i] == a[i] + b[i]
  }

  lemma {:induction false} InnerAdds(a: seq<real>, b: seq<real>, s: seq<real>, u: seq<real>, n: nat)
    requires Adds(a, b, s) && n <= |s| && n <= |u|
    ensures Inner(s, u, n) == Inner(a, u, n) + Inner(b, u, n)
  {
    hide Slope;
    if n > 0 {
      InnerAdds(a, b, s, u, n - 1);
      SlopeAdds(a[n - 1], b[n - 1], u[n - 1]);
    }
  }

  lemma {:induction false} InnerOfZero(a: seq<real>, u: seq<real>, n: nat)
    requires n <= |a| && n <= |u| && forall i :: 0 <= i < n ==> a[i] == 0.0
    ensures Inner(a, u, n) == 0.0
  {
    if n > 0 { InnerOfZero(a, u, n - 1); }
  }

  /** `v` is `f` times `a`. */
  lemma {:induction false} InnerOfMultiple(a: seq<real>, v: seq<real>, f: real, n: nat)
    requires n <= |a| && n <= |v| && forall i :: 0 <= i < n ==> v[i] == Slope(a[i], f)
    ensures Inner(a, v, n) == Slope(Inner(a, a, n), f)
  {
    hide Slope;
    NoSlope(f);
    if n > 0 {
      InnerOfMultiple(a, v, f, n - 1);
      SlopeScales(a[n - 1], a[n - 1], f);
      SlopeAdds(Inner(a, a, n - 1), Slope(a[n - 1], a[n - 1]), f);
    }
  }

  lemma SquareIsPositive(x: real)
    ensures Slope(x, x) >= 0.0 && (Slope(x, x) == 0.0 <==> x == 0.0)
  {
    var z := x * x;
    assert Slope(x, x) == z;
    SquareSign(x, z);
  }

  lemma SquareSign(x: real, z: real)
    requires z == x * x
    ensures z >= 0.0 && (z == 0.0 <==> x == 0.0)
  {
    if x != 0.0 { assert z / x == x; }
  }

  predicate AllZero(a: seq<real>) { forall i :: 0 <= i < |a| ==> a[i] == 0.0 }

  lemma {:induction false} InnerOfItself(a: seq<real>, n: nat)
    requires n <= |a|
    ensures Inner(a, a, n) >= 0.0 && (Inner(a, a, n) == 0.0 <==> AllZero(a[..n]))
  {
    hide Slope, AllZero;
    if n == 0 {
      NoneIsZero();
      assert a[..0] == [];
    } else {
      InnerOfItself(a, n - 1);
      SquareIsPositive(a[n - 1]);
      TakeNext(a, n - 1);
      AllZeroMore(a[..n - 1], a[n - 1]);
    }
  }

  lemma NoneIsZero()
    ensures AllZero([])
  {
  }

  lemma AllZeroMore(a: seq<real>, x: real)
    ensures AllZero(a + [x]) <==> AllZero(a) && x == 0.0
  {
    if AllZero(a + [x]) {
      assert (a + [x])[|a|] == x;
      forall i | 0 <= i < |a| ensures a[i] == 0.0 { assert (a + [x])[i] == a[i]; }
    }
  }

  lemma SlopeSign(x: real, f: real)
    requires x >= 0.0 && f < 0.0
    ensures Slope(x, f) <= 0.0 && (Slope(x, f) == 0.0 <==> x == 0.0)
  {
    if x != 0.0 { assert Slope(x, f) / x == f; }
  }

  lemma AgainstSlope(g: seq<real>, v: seq<real>, f: real)
    requires |v| == |g| && f < 0.0 && forall i :: 0 <= i < |g| ==> v[i] == Slope(g[i], f)
    ensures Inner(g, v, |g|) <= 0.0 && (Inner(g, v, |g|) == 0.0 <==> AllZero(g))
  {
    hide Slope, AllZero, Inner;
    InnerOfMultiple(g, v, f, |g|);
    InnerOfItself(g, |g|);
    TakeAll(g);
    SlopeSign(Inner(g, g, |g|), f);
  }

  // ---------------------------------------------------------------- a step goes down

  function Difference(v: seq<real>, w: seq<real>): (u: seq<real>)
    requires |v| == |w|
    ensures |u| == |v| && forall i :: 0 <= i < |u| ==> u[i] == v[i] - w[i]
  {
    seq(|v|, i requires 0 <= i < |v| => v[i] - w[i])
  }

  /** Gradient of the summed loss. */
  ghost function Gradient(exp: Exp, w: Weights, c: nat, ps: seq<Point>): (g: seq<real>)
    requires Positive(exp) && GoodPoints(ps, c) && |w| == c * STRIDE
    ensures |g| == |w| && forall i :: 0 <= i < |g| ==> g[i] == Grad(exp, w, c, ps, i)
  {
    seq(|w|, i requires 0 <= i < |w| => Grad(exp, w, c, ps, i))
  }

  predicate IsBias(i: int) { i % STRIDE == DIM }

  /** Gradient of what is minimised: the mean loss and half of L2 times the squares of all weights but the bias. */
  ghost function Factors(exp: Exp, w: Weights, c: nat, ps: seq<Point>): (g: seq<real>)
    requires Positive(exp) && GoodPoints(ps, c) && |w| == c * STRIDE
    ensures |g| == |w|
    ensures forall i :: 0 <= i < |g| ==>
              g[i] == Grad(exp, w, c, ps, i) / Batch(ps) + if IsBias(i) then 0.0 else L2 * w[i]
  {
    seq(|w|, i requires 0 <= i < |w| =>
      Grad(exp, w, c, ps, i) / Batch(ps) + if IsBias(i) then 0.0 else L2 * w[i])
  }

  lemma StepIs(exp: Exp, w: Weights, c: nat, ps: seq<Point>)
    requires Positive(exp) && GoodPoints(ps, c) && |w| == c * STRIDE
    ensures var v := Descend(exp, w, c, ps);
            forall i :: 0 <= i < |w| ==> Difference(v, w)[i] == Slope(Factors(exp, w, c, ps)[i], -LR)
  {
    hide Grad, Positive, GoodPoints;
  }

  lemma DifferenceIsZero(v: seq<real>, w: seq<real>, g: seq<real>)
    requires |v| == |w| == |g| && forall i :: 0 <= i < |g| ==> Difference(v, w)[i] == Slope(g[i], -LR)
    ensures v == w <==> AllZero(g)
  {
    if v == w {
      forall i | 0 <= i < |g| ensures g[i] == 0.0 { assert Difference(v, w)[i] == 0.0; }
    }
    if AllZero(g) {
      forall i | 0 <= i < |g| ensures v[i] == w[i] { assert Difference(v, w)[i] == 0.0; }
    }
  }

  /** From any weights, a step goes down the gradient of what is minimised, and stays only where that vanishes. */
  lemma StepGoesDown(exp: Exp, w: Weights, c: nat, ps: seq<Point>)
    requires Positive(exp) && GoodPoints(ps, c) && |w| == c * STRIDE
    ensures var g, v := Factors(exp, w, c, ps), Descend(exp, w, c, ps);
            && Inner(g, Difference(v, w), |w|) <= 0.0
            && (Inner(g, Difference(v, w), |w|) == 0.0 <==> AllZero(g))
            && (v == w <==> AllZero(g))
  {
    var g, v := Factors(exp, w, c, ps), Descend(exp, w, c, ps);
    StepIs(exp, w, c, ps);
    hide Descend, Factors, Difference, Positive, GoodPoints, AllZero, Inner, Slope;
    AgainstSlope(g, Difference(v, w), -LR);
    DifferenceIsZero(v, w, g);
  }

  // ---------------------------------------------------------------- the gradient, point by point

  /** Share of one point in the gradient. */
  ghost function PointGradient(exp: Exp, w: Weights, c: nat, p: Point): (g: seq<real>)
    requires Positive(exp) && GoodPoint(p, c) && |w| == c * STRIDE
    ensures |g| == |w|
    ensures forall i :: 0 <= i < |g| ==> g[i] == Slope(Err(exp, w, c, p, i / STRIDE), Input(p, i % STRIDE))
  {
    seq(|w|, i requires 0 <= i < |w| => Slope(Err(exp, w, c, p, i / STRIDE), Input(p, i % STRIDE)))
  }

  /** Errors of the first `m` classes, each times the score that `u` gives the class. */
  ghost function ErrScores(exp: Exp, w: Weights, c: nat, p: Point, u: Weights, m: nat): real
    requires Positive(exp) && GoodPoint(p, c) && |w| == c * STRIDE == |u| && m <= c
  {
    if m == 0 then 0.0
    else ErrScores(exp, w, c, p, u, m - 1) + Slope(Err(exp, w, c, p, m - 1), Dot(u, m - 1, p.emb, DIM))
  }

  ghost function AllErrScores(exp: Exp, w: Weights, c: nat, ps: seq<Point>, u: Weights): real
    requires Positive(exp) && GoodPoints(ps, c) && |w| == c * STRIDE == |u|
  {
    if ps == [] then 0.0
    else
      AllErrScores(exp, w, c, ps[..|ps| - 1], u) + ErrScores(exp, w, c, ps[|ps| - 1], u, c)
  }

  lemma RegroupRow(err: real, x: real, u: real, score: real, bias: real, next: real)
    requires next == score + u * x
    ensures Slope(err, score - bias) + Slope(Slope(err, x), u) == Slope(err, next - bias)
  {
    assert err * x * u == err * (u * x);
    assert err * (score - bias) + err * (u * x) == err * (score - bias + u * x);
  }

  /** The first `n` inputs of class `k`. */
  lemma {:induction false} RowOfPoint(g: seq<real>, err: real, emb: seq<real>, u: Weights, k: nat, n: nat)
    requires n <= DIM == |emb| && |g| == |u| >= (k + 1) * STRIDE
    requires forall d :: 0 <= d < DIM ==> InputAt(g, k, d) == Slope(err, emb[d])
    ensures Inner(g, u, k * STRIDE + n)
            == Inner(g, u, k * STRIDE) + Slope(err, Dot(u, k, emb, n) - u[k * STRIDE + DIM])
  {
    hide Slope;
    NoSlope(err);
    if n == 0 {
      var none := Dot(u, k, emb, n) - u[k * STRIDE + DIM];
      assert none == 0.0 && Slope(err, none) == 0.0;
      assert k * STRIDE + n == k * STRIDE;
    } else {
      RowOfPoint(g, err, emb, u, k, n - 1);
      var i := k * STRIDE + n - 1;
      assert g[i] == InputAt(g, k, n - 1) == Slope(err, emb[n - 1]);
      RegroupRow(err, emb[n - 1], u[i], Dot(u, k, emb, n - 1), u[k * STRIDE + DIM], Dot(u, k, emb, n));
      assert Inner(g, u, i + 1) == Inner(g, u, i) + Slope(g[i], u[i]);
    }
  }

  function InputAt(g: seq<real>, k: nat, d: nat): real
    requires d < STRIDE && |g| >= (k + 1) * STRIDE
  {
    g[k * STRIDE + d]
  }

  lemma PointInputs(exp: Exp, w: Weights, c: nat, p: Point, k: nat)
    requires Positive(exp) && GoodPoint(p, c) && |w| == c * STRIDE && k < c
    ensures |w| >= (k + 1) * STRIDE
    ensures var g := PointGradient(exp, w, c, p);
            && (forall d :: 0 <= d < DIM ==> InputAt(g, k, d) == Slope(Err(exp, w, c, p, k), p.emb[d]))
            && InputAt(g, k, DIM) == Slope(Err(exp, w, c, p, k), 1.0)
  {
    hide Err, Positive, Slope;
    forall d: nat | d < STRIDE
      ensures InputAt(PointGradient(exp, w, c, p), k, d) == Slope(Err(exp, w, c, p, k), Input(p, d)) {
      FlatIndex(k, d);
    }
  }

  lemma RowOfClass(g: seq<real>, err: real, emb: seq<real>, u: Weights, k: nat)
    requires DIM == |emb| && |g| == |u| >= (k + 1) * STRIDE
    requires forall d :: 0 <= d < DIM ==> InputAt(g, k, d) == Slope(err, emb[d])
    requires InputAt(g, k, DIM) == Slope(err, 1.0)
    ensures Inner(g, u, (k + 1) * STRIDE) == Inner(g, u, k * STRIDE) + Slope(err, Dot(u, k, emb, DIM))
  {
    RowOfPoint(g, err, emb, u, k, DIM);
    hide Slope, Dot;
    var i := k * STRIDE + DIM;
    assert g[i] == InputAt(g, k, DIM);
    NoSlope(err);
    SlopeAdds(Dot(u, k, emb, DIM) - u[i], u[i], err);
    assert Inner(g, u, i + 1) == Inner(g, u, i) + Slope(g[i], u[i]);
  }

  lemma {:induction false} InnerOfPoint(exp: Exp, w: Weights, c: nat, p: Point, u: Weights, m: nat)
    requires Positive(exp) && GoodPoint(p, c) && |w| == c * STRIDE == |u| && m <= c
    ensures Inner(PointGradient(exp, w, c, p), u, m * STRIDE) == ErrScores(exp, w, c, p, u, m)
  {
    hide Err, Positive, Slope, Dot, Inner, InputAt, PointGradient;
    var g := PointGradient(exp, w, c, p);
    if m == 0 {
      NoInner(g, u);
    } else {
      InnerOfPoint(exp, w, c, p, u, m - 1);
      PointInputs(exp, w, c, p, m - 1);
      RowOfClass(g, Err(exp, w, c, p, m - 1), p.emb, u, m - 1);
    }
  }

  lemma NoInner(a: seq<real>, b: seq<real>)
    ensures Inner(a, b, 0) == 0.0
  {
  }

  /** The slope of the gradient in direction `u` is made of the scores that `u` gives the points. */
  lemma {:induction false} InnerOfGradient(exp: Exp, w: Weights, c: nat, ps: seq<Point>, u: Weights)
    requires Positive(exp) && GoodPoints(ps, c) && |w| == c * STRIDE == |u|
    ensures Inner(Gradient(exp, w, c, ps), u, |w|) == AllErrScores(exp, w, c, ps, u)
    decreases |ps|
  {
    hide Err, Positive, Slope;
    if ps == [] {
      InnerOfZero(Gradient(exp, w, c, ps), u, |w|);
    } else {
      var rest, p := ps[..|ps| - 1], ps[|ps| - 1];
      InnerOfGradient(exp, w, c, rest, u);
      InnerOfPoint(exp, w, c, p, u, c);
      InnerAdds(Gradient(exp, w, c, rest), PointGradient(exp, w, c, p), Gradient(exp, w, c, ps), u, |w|);
    }
  }

  // ---------------------------------------------------------------- the first step

  function Zero(c: nat): (w: Weights)
    ensures |w| == c * STRIDE && forall i :: 0 <= i < |w| ==> w[i] == 0.0
  {
    seq(c * STRIDE, i => 0.0)
  }

  /** What the weights give each point's own class, summed over the points. */
  function OwnScores(w: Weights, c: nat, ps: seq<Point>): real
    requires |w| == c * STRIDE && forall i :: 0 <= i < |ps| ==> |ps[i].emb| == DIM && ps[i].class_ < c
  {
    if ps == [] then 0.0
    else
      var p := ps[|ps| - 1];
      OwnScores(w, c, ps[..|ps| - 1]) + Dot(w, p.class_, p.emb, DIM)
  }

  /** Scores of the first `m` classes. */
  function ScoreSum(u: Weights, c: nat, emb: seq<real>, m: nat): real
    requires m <= c && |u| == c * STRIDE && |emb| == DIM
  {
    if m == 0 then 0.0 else ScoreSum(u, c, emb, m - 1) + Dot(u, m - 1, emb, DIM)
  }

  /** Scores of the first `m` classes by the first `n` inputs. */
  function PartSum(u: Weights, c: nat, emb: seq<real>, m: nat, n: nat): real
    requires m <= c && |u| == c * STRIDE && n <= DIM == |emb|
  {
    if m == 0 then 0.0 else PartSum(u, c, emb, m - 1, n) + Dot(u, m - 1, emb, n)
  }

  lemma {:induction false} PartSumMore(u: Weights, c: nat, emb: seq<real>, m: nat, n: nat)
    requires m <= c && |u| == c * STRIDE && n < DIM == |emb|
    ensures PartSum(u, c, emb, m, n + 1) == PartSum(u, c, emb, m, n) + Slope(Column(u, m, n), emb[n])
    ensures PartSum(u, c, emb, m, 0) == Column(u, m, DIM)
  {
    hide Slope;
    NoSlope(emb[n]);
    if m > 0 {
      PartSumMore(u, c, emb, m - 1, n);
      DotMore(u, m - 1, emb, n);
      SlopeAdds(Column(u, m - 1, n), u[(m - 1) * STRIDE + n], emb[n]);
    }
  }

  lemma DotMore(u: Weights, k: nat, emb: seq<real>, n: nat)
    requires |u| >= (k + 1) * STRIDE && n < DIM == |emb|
    ensures Dot(u, k, emb, n + 1) == Dot(u, k, emb, n) + Slope(u[k * STRIDE + n], emb[n])
  {
  }

  ghost predicate Balanced(u: Weights, c: nat)
    requires |u| == c * STRIDE
  {
    forall d: nat :: d < STRIDE ==> Column(u, c, d) == 0.0
  }

  /** Weights that balance over the classes give every embedding scores that balance. */
  lemma {:induction false} BalancedScores(u: Weights, c: nat, emb: seq<real>, n: nat)
    requires |u| == c * STRIDE && n <= DIM == |emb| && Balanced(u, c)
    ensures PartSum(u, c, emb, c, n) == 0.0
  {
    hide Slope, Column, PartSum;
    if n == 0 {
      PartSumMore(u, c, emb, c, 0);
    } else {
      BalancedScores(u, c, emb, n - 1);
      PartSumMore(u, c, emb, c, n - 1);
      NoSlope(emb[n - 1]);
    }
  }

  lemma {:induction false} SumIsWhole(u: Weights, c: nat, emb: seq<real>, m: nat)
    requires m <= c && |u| == c * STRIDE && |emb| == DIM
    ensures ScoreSum(u, c, emb, m) == PartSum(u, c, emb, m, DIM)
  {
    if m > 0 { SumIsWhole(u, c, emb, m - 1); }
  }

  lemma {:induction false} ZeroDot(c: nat, k: nat, emb: seq<real>, n: nat)
    requires k < c && n <= DIM == |emb|
    ensures Dot(Zero(c), k, emb, n) == 0.0
  {
    if n > 0 { ZeroDot(c, k, emb, n - 1); }
  }

  /** Probability of each class under the zero weights. */
  ghost function Even(exp: Exp, c: nat, p: Point): real
    requires Positive(exp) && GoodPoint(p, c)
  {
    ProbsOf(exp, Zero(c), c, p)[0]
  }

  lemma SameScoreSameProb(exp: Exp, l: seq<real>, i: nat, j: nat)
    requires i < |l| && j < |l| && l[i] == l[j] && Sum(Shifted(exp, l)) > 0.0
    ensures Probs(exp, l)[i] == Probs(exp, l)[j]
  {
    hide Sum, MaxOf;
    assert Shifted(exp, l)[i] == Shifted(exp, l)[j];
  }

  /** The zero weights find all classes equally likely. */
  lemma EvenAtZero(exp: Exp, c: nat, p: Point, k: nat)
    requires Positive(exp) && GoodPoint(p, c) && k < c
    ensures Err(exp, Zero(c), c, p, k) == Even(exp, c, p) - if k == p.class_ then 1.0 else 0.0
  {
    hide Err, Dot, Zero, Positive, Probs, Shifted, Sum;
    ErrIs(exp, Zero(c), c, p, k);
    ZeroDot(c, k, p.emb, DIM);
    ZeroDot(c, 0, p.emb, DIM);
    TotalIsPositive(exp, Logits(Zero(c), c, p.emb));
    SameScoreSameProb(exp, Logits(Zero(c), c, p.emb), k, 0);
  }

  lemma {:induction false} ErrScoresAtZero(exp: Exp, c: nat, p: Point, u: Weights, m: nat)
    requires Positive(exp) && GoodPoint(p, c) && |u| == c * STRIDE && m <= c
    ensures ErrScores(exp, Zero(c), c, p, u, m)
            == Slope(Even(exp, c, p), ScoreSum(u, c, p.emb, m))
               - if p.class_ < m then Dot(u, p.class_, p.emb, DIM) else 0.0
  {
    hide Err, Even, Positive, Slope, Dot, Zero;
    var q := Even(exp, c, p);
    NoSlope(q);
    if m > 0 {
      var score := Dot(u, m - 1, p.emb, DIM);
      ErrScoresAtZero(exp, c, p, u, m - 1);
      EvenAtZero(exp, c, p, m - 1);
      SlopeAdds(ScoreSum(u, c, p.emb, m - 1), score, q);
      SlopeAdds(q, -1.0, score);
      NegativeUnit(score);
    }
  }

  lemma NegativeUnit(x: real)
    ensures Slope(-1.0, x) == -x
  {
  }

  lemma {:induction false} OwnScoresAreSlope(exp: Exp, c: nat, ps: seq<Point>, u: Weights)
    requires Positive(exp) && GoodPoints(ps, c) && |u| == c * STRIDE && Balanced(u, c)
    ensures AllErrScores(exp, Zero(c), c, ps, u) == -OwnScores(u, c, ps)
    decreases |ps|
  {
    hide Even, Positive, Slope, Dot, Zero, Balanced, ErrScores;
    if ps != [] {
      var p := ps[|ps| - 1];
      OwnScoresAreSlope(exp, c, ps[..|ps| - 1], u);
      ErrScoresAtZero(exp, c, p, u, c);
      SumIsWhole(u, c, p.emb, c);
      BalancedScores(u, c, p.emb, DIM);
      NoSlope(Even(exp, c, p));
    }
  }

  lemma FirstIs(exp: Exp, c: nat, ps: seq<Point>)
    requires Positive(exp) && GoodPoints(ps, c)
    ensures var g, v := Gradient(exp, Zero(c), c, ps), Trained(exp, c, ps, 1);
            forall i :: 0 <= i < |g| ==> v[i] == Slope(g[i], -LR / Batch(ps))
  {
    hide Grad, Positive, GoodPoints;
    assert Trained(exp, c, ps, 0) == Zero(c);
    assert Trained(exp, c, ps, 1) == Descend(exp, Zero(c), c, ps);
    forall i | 0 <= i < c * STRIDE
      ensures Descend(exp, Zero(c), c, ps)[i] == Slope(Grad(exp, Zero(c), c, ps, i), -LR / Batch(ps)) {
      FromZero(Grad(exp, Zero(c), c, ps, i), Batch(ps));
    }
  }

  lemma FromZero(g: real, n: real)
    requires n > 0.0
    ensures Stepped(0.0, g, n, true) == Stepped(0.0, g, n, false) == Slope(g, -LR / n)
  {
    assert g / n == g * (1.0 / n);
    assert -LR / n == -LR * (1.0 / n);
  }

  /** Nothing is known at first: every class of every point scores zero. */
  lemma {:induction false} NothingKnown(c: nat, ps: seq<Point>)
    requires GoodPoints(ps, c)
    ensures OwnScores(Zero(c), c, ps) == 0.0
    decreases |ps|
  {
    if ps != [] {
      NothingKnown(c, ps[..|ps| - 1]);
      ZeroDot(c, ps[|ps| - 1].class_, ps[|ps| - 1].emb, DIM);
    }
  }

  lemma FirstIsBalanced(exp: Exp, c: nat, ps: seq<Point>)
    requires Positive(exp) && GoodPoints(ps, c)
    ensures Balanced(Trained(exp, c, ps, 1), c)
  {
    hide Trained, Positive, GoodPoints, Column;
    forall d: nat | d < STRIDE ensures Column(Trained(exp, c, ps, 1), c, d) == 0.0 {
      ColumnsStayZero(exp, c, ps, 1, d);
    }
  }

  lemma DownIsNegative(n: real)
    requires n > 0.0
    ensures -LR / n < 0.0
  {
    assert (-LR / n) * n == -LR;
  }

  /** The first step raises the own-class scores of the points as a whole, strictly unless the gradient vanishes. */
  lemma FirstStepLearns(exp: Exp, c: nat, ps: seq<Point>)
    requires Positive(exp) && GoodPoints(ps, c)
    ensures OwnScores(Zero(c), c, ps) == 0.0 <= OwnScores(Trained(exp, c, ps, 1), c, ps)
    ensures OwnScores(Trained(exp, c, ps, 1), c, ps) == 0.0 <==> AllZero(Gradient(exp, Zero(c), c, ps))
  {
    var g, v := Gradient(exp, Zero(c), c, ps), Trained(exp, c, ps, 1);
    NothingKnown(c, ps);
    FirstIs(exp, c, ps);
    FirstIsBalanced(exp, c, ps);
    DownIsNegative(Batch(ps));
    hide *;
    AgainstSlope(g, v, -LR / Batch(ps));
    InnerOfGradient(exp, Zero(c), c, ps, v);
    OwnScoresAreSlope(exp, c, ps, v);
  }

  // ---------------------------------------------------------------- size of the batch

  lemma {:induction false} GradOfBoth(exp: Exp, w: Weights, c: nat, ps: seq<Point>, qs: seq<Point>, i: nat)
    requires Positive(exp) && GoodPoints(ps, c) && GoodPoints(qs, c) && |w| == c * STRIDE && i < c * STRIDE
    ensures GoodPoints(ps + qs, c)
    ensures Grad(exp, w, c, ps + qs, i) == Grad(exp, w, c, ps, i) + Grad(exp, w, c, qs, i)
  {
    hide Slope, Err, Input, Positive;
    if qs == [] {
      Units(ps);
    } else {
      var n := |qs| - 1;
      GradOfBoth(exp, w, c, ps, qs[..n], i);
      assert (ps + qs)[..|ps + qs| - 1] == ps + qs[..n];
    }
  }

  lemma HalvesCancel(g: real, n: real)
    requires n > 0.0
    ensures (g + g) / (n + n) == g / n
  {
    var q := g / n;
    assert q * n == g;
    assert q * (n + n) == g + g;
  }

  /** A step follows the average over the batch: giving every sample twice changes nothing. */
  lemma TwiceIsTheSame(exp: Exp, w: Weights, c: nat, ps: seq<Point>)
    requires Positive(exp) && GoodPoints(ps, c) && |w| == c * STRIDE
    ensures GoodPoints(ps + ps, c) && Descend(exp, w, c, ps + ps) == Descend(exp, w, c, ps)
  {
    hide Grad, Positive;
    var v, u := Descend(exp, w, c, ps), Descend(exp, w, c, ps + ps);
    forall i | 0 <= i < |w| ensures u[i] == v[i] {
      GradOfBoth(exp, w, c, ps, ps, i);
      if ps == [] {
        Units(ps);
      } else {
        HalvesCancel(Grad(exp, w, c, ps, i), Batch(ps));
      }
    }
  }
}
