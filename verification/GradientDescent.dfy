/**
  The training loop and the prediction of the face classifier (`face_classifier.rs`): softmax
  regression by full-batch gradient descent over flat weight, gradient and logit arrays.
  Arithmetic is exact; `exp` is a parameter with only the laws each proof needs.
 */
module GradientDescent {
  import opened Options
  import opened Seqs

  const DIM := 512
  const STRIDE := 513
  const ITERS := 250
  const LR := 0.5
  const L2 := 0.001

  type Exp = real -> real

  ghost predicate Positive(exp: Exp) { forall x :: exp(x) > 0.0 }

  ghost predicate Increasing(exp: Exp) { forall x, y :: x < y ==> exp(x) < exp(y) }

  predicate ProductAt(exp: Exp, x: real, y: real) { exp(x + y) == exp(x) * exp(y) }

  ghost predicate TurnsSumsIntoProducts(exp: Exp) { forall x, y :: ProductAt(exp, x, y) }

  // ---------------------------------------------------------------- what one iteration computes

  type Weights = seq<real>

  /** A training point: its embedding, and its class. */
  datatype Point = Point(emb: seq<real>, class_: nat)

  ghost predicate GoodPoint(p: Point, c: nat) { |p.emb| == DIM && p.class_ < c }

  ghost predicate GoodPoints(ps: seq<Point>, c: nat) { forall i :: 0 <= i < |ps| ==> GoodPoint(ps[i], c) }

  function Dot(w: Weights, k: nat, emb: seq<real>, n: nat): real
    requires n <= |emb| && n <= DIM && |w| >= (k + 1) * STRIDE
  {
    if n == 0 then w[k * STRIDE + DIM] else Dot(w, k, emb, n - 1) + w[k * STRIDE + n - 1] * emb[n - 1]
  }

  function Logits(w: Weights, c: nat, emb: seq<real>): (l: seq<real>)
    requires |emb| == DIM && |w| == c * STRIDE
    ensures |l| == c && forall k :: 0 <= k < c ==> l[k] == Dot(w, k, emb, DIM)
  {
    seq(c, k requires 0 <= k < c => Dot(w, k, emb, DIM))
  }

  function MaxOf(l: seq<real>): (m: real)
    requires l != []
    ensures m in l && forall i :: 0 <= i < |l| ==> l[i] <= m
  {
    if |l| == 1 then l[0]
    else
      var m := MaxOf(l[..|l| - 1]);
      if l[|l| - 1] > m then l[|l| - 1] else m
  }

  function Sum(v: seq<real>): real {
    if v == [] then 0.0 else Sum(v[..|v| - 1]) + v[|v| - 1]
  }

  function Shifted(exp: Exp, l: seq<real>): (e: seq<real>)
    ensures |e| == |l| && forall k :: 0 <= k < |l| ==> e[k] == exp(l[k] - MaxOf(l))
  {
    if l == [] then [] else seq(|l|, k requires 0 <= k < |l| => exp(l[k] - MaxOf(l)))
  }

  lemma {:induction false} SumIsPositive(v: seq<real>)
    requires forall k :: 0 <= k < |v| ==> v[k] > 0.0
    ensures v != [] ==> Sum(v) > 0.0
    ensures Sum(v) >= 0.0
  {
    if v != [] { SumIsPositive(v[..|v| - 1]); }
  }

  /** Softmax as the code computes it, after subtracting the largest logit. */
  function Probs(exp: Exp, l: seq<real>): (p: seq<real>)
    requires l != [] && Sum(Shifted(exp, l)) > 0.0
    ensures |p| == |l| && forall k :: 0 <= k < |l| ==> p[k] == Shifted(exp, l)[k] / Sum(Shifted(exp, l))
  {
    var e := Shifted(exp, l);
    seq(|l|, k requires 0 <= k < |l| => e[k] / Sum(e))
  }

  lemma TotalIsPositive(exp: Exp, l: seq<real>)
    requires Positive(exp) && l != []
    ensures Sum(Shifted(exp, l)) > 0.0
  {
    SumIsPositive(Shifted(exp, l));
  }

  /** Derivative of the loss of one point by the logit of class `k`. */
  ghost function Err(exp: Exp, w: Weights, c: nat, p: Point, k: nat): real
    requires Positive(exp) && GoodPoint(p, c) && |w| == c * STRIDE && k < c
  {
    var l := Logits(w, c, p.emb);
    TotalIsPositive(exp, l);
    Probs(exp, l)[k] - if k == p.class_ then 1.0 else 0.0
  }

  /** Input `d` of a point; the last input is the constant one of the bias. */
  function Input(p: Point, d: nat): real
    requires |p.emb| == DIM && d < STRIDE
  {
    if d < DIM then p.emb[d] else 1.0
  }

  /** Gradient of the summed loss by weight `i` of the flat array. */
  ghost function Grad(exp: Exp, w: Weights, c: nat, ps: seq<Point>, i: nat): real
    requires Positive(exp) && GoodPoints(ps, c) && |w| == c * STRIDE && i < c * STRIDE
  {
    if ps == [] then 0.0
    else
      var p := ps[|ps| - 1];
      Grad(exp, w, c, ps[..|ps| - 1], i) + Slope(Err(exp, w, c, p, i / STRIDE), Input(p, i % STRIDE))
  }

  function Slope(err: real, input: real): real { err * input }

  function Batch(ps: seq<Point>): (n: real)
    ensures n >= 1.0
  {
    if |ps| >= 1 then |ps| as real else 1.0
  }

  /** One weight after one step: averaged gradient, L2 on everything but the bias. */
  function Stepped(w: real, grad: real, n: real, bias: bool): real
    requires n > 0.0
  {
    if bias then w - LR * (grad / n) else w - LR * (grad / n + L2 * w)
  }

  ghost function Descend(exp: Exp, w: Weights, c: nat, ps: seq<Point>): (v: Weights)
    requires Positive(exp) && GoodPoints(ps, c) && |w| == c * STRIDE
    ensures |v| == |w|
  {
    seq(c * STRIDE, i requires 0 <= i < c * STRIDE =>
      Stepped(w[i], Grad(exp, w, c, ps, i), Batch(ps), i % STRIDE == DIM))
  }

  /** The weights after `t` iterations from zero. */
  ghost function Trained(exp: Exp, c: nat, ps: seq<Point>, t: nat): (w: Weights)
    requires Positive(exp) && GoodPoints(ps, c)
    ensures |w| == c * STRIDE
  {
    if t == 0 then seq(c * STRIDE, i => 0.0) else Descend(exp, Trained(exp, c, ps, t - 1), c, ps)
  }

  // ---------------------------------------------------------------- a conserved quantity

  lemma Distribute(a: real, b: real, x: real)
    ensures (a + b) * x == a * x + b * x
  {
  }

  lemma AddFractions(a: real, b: real, n: real)
    requires n != 0.0
    ensures a / n + b / n == (a + b) / n
  {
  }

  lemma {:induction false} SumOfFractions(e: seq<real>, n: real, p: seq<real>)
    requires n != 0.0 && |p| == |e| && forall k :: 0 <= k < |e| ==> p[k] == e[k] / n
    ensures Sum(p) == Sum(e) / n
  {
    if e != [] {
      var m := |e| - 1;
      SumOfFractions(e[..m], n, p[..m]);
      AddFractions(Sum(e[..m]), e[m], n);
    }
  }

  lemma WholeIsOne(x: real)
    requires x != 0.0
    ensures x / x == 1.0
  {
  }

  lemma ProbsSumToOne(exp: Exp, l: seq<real>)
    requires l != [] && Sum(Shifted(exp, l)) > 0.0
    ensures Sum(Probs(exp, l)) == 1.0
  {
    hide Shifted, Sum, Probs;
    var e := Shifted(exp, l);
    SumOfFractions(e, Sum(e), Probs(exp, l));
    WholeIsOne(Sum(e));
  }

  /** Errors of the first `m` classes. */
  ghost function ErrSum(exp: Exp, w: Weights, c: nat, p: Point, m: nat): real
    requires Positive(exp) && GoodPoint(p, c) && |w| == c * STRIDE && m <= c
  {
    if m == 0 then 0.0 else ErrSum(exp, w, c, p, m - 1) + Err(exp, w, c, p, m - 1)
  }

  ghost function ProbsOf(exp: Exp, w: Weights, c: nat, p: Point): (r: seq<real>)
    requires Positive(exp) && GoodPoint(p, c) && |w| == c * STRIDE
    ensures |r| == c
  {
    TotalIsPositive(exp, Logits(w, c, p.emb));
    Probs(exp, Logits(w, c, p.emb))
  }

  lemma {:induction false} ErrSumIs(exp: Exp, w: Weights, c: nat, p: Point, m: nat)
    requires Positive(exp) && GoodPoint(p, c) && |w| == c * STRIDE && m <= c
    ensures ErrSum(exp, w, c, p, m) == Sum(ProbsOf(exp, w, c, p)[..m]) - if p.class_ < m then 1.0 else 0.0
  {
    hide ProbsOf, Err, Positive;
    if m > 0 {
      ErrSumIs(exp, w, c, p, m - 1);
      ErrIs(exp, w, c, p, m - 1);
      TakeNext(ProbsOf(exp, w, c, p), m - 1);
    }
  }

  /** The errors of one point cancel over the classes. */
  lemma ErrorsCancel(exp: Exp, w: Weights, c: nat, p: Point)
    requires Positive(exp) && GoodPoint(p, c) && |w| == c * STRIDE
    ensures ErrSum(exp, w, c, p, c) == 0.0
  {
    ErrSumIs(exp, w, c, p, c);
    TakeAll(ProbsOf(exp, w, c, p));
    TotalIsPositive(exp, Logits(w, c, p.emb));
    ProbsSumToOne(exp, Logits(w, c, p.emb));
  }

  /** Sum of weight `d` over the first `m` classes. */
  function Column(w: Weights, m: nat, d: nat): real
    requires d < STRIDE && m * STRIDE <= |w|
  {
    if m == 0 then 0.0 else Column(w, m - 1, d) + w[(m - 1) * STRIDE + d]
  }

  ghost function GradColumn(exp: Exp, w: Weights, c: nat, ps: seq<Point>, m: nat, d: nat): real
    requires Positive(exp) && GoodPoints(ps, c) && |w| == c * STRIDE && m <= c && d < STRIDE
  {
    if m == 0 then 0.0 else GradColumn(exp, w, c, ps, m - 1, d) + Grad(exp, w, c, ps, (m - 1) * STRIDE + d)
  }

  lemma FlatIndex(k: nat, d: nat)
    requires d < STRIDE
    ensures (k * STRIDE + d) / STRIDE == k && (k * STRIDE + d) % STRIDE == d
  {
  }

  lemma {:induction false} GradColumnMore(exp: Exp, w: Weights, c: nat, ps: seq<Point>, m: nat, d: nat)
    requires Positive(exp) && GoodPoints(ps, c) && |w| == c * STRIDE && m <= c && d < STRIDE && ps != []
    ensures var p := ps[|ps| - 1];
            GradColumn(exp, w, c, ps, m, d)
            == GradColumn(exp, w, c, ps[..|ps| - 1], m, d) + ErrSum(exp, w, c, p, m) * Input(p, d)
  {
    hide Err, Input, Positive;
    if m > 0 {
      var p := ps[|ps| - 1];
      GradColumnMore(exp, w, c, ps, m - 1, d);
      FlatIndex(m - 1, d);
      Distribute(ErrSum(exp, w, c, p, m - 1), Err(exp, w, c, p, m - 1), Input(p, d));
    }
  }

  lemma {:induction false} GradientsCancel(exp: Exp, w: Weights, c: nat, ps: seq<Point>, d: nat)
    requires Positive(exp) && GoodPoints(ps, c) && |w| == c * STRIDE && d < STRIDE
    ensures GradColumn(exp, w, c, ps, c, d) == 0.0
  {
    hide Err, Input, Positive, ErrSum;
    if ps == [] {
      NoGradient(exp, w, c, c, d);
    } else {
      GradientsCancel(exp, w, c, ps[..|ps| - 1], d);
      GradColumnMore(exp, w, c, ps, c, d);
      ErrorsCancel(exp, w, c, ps[|ps| - 1]);
    }
  }

  lemma {:induction false} NoGradient(exp: Exp, w: Weights, c: nat, m: nat, d: nat)
    requires Positive(exp) && |w| == c * STRIDE && m <= c && d < STRIDE
    ensures GradColumn(exp, w, c, [], m, d) == 0.0
  {
    if m > 0 { NoGradient(exp, w, c, m - 1, d); }
  }

  lemma {:induction false} ColumnSteps(exp: Exp, w: Weights, c: nat, ps: seq<Point>, m: nat, d: nat)
    requires Positive(exp) && GoodPoints(ps, c) && |w| == c * STRIDE && m <= c && d < STRIDE
    ensures Column(Descend(exp, w, c, ps), m, d)
            == Stepped(Column(w, m, d), GradColumn(exp, w, c, ps, m, d), Batch(ps), d == DIM)
  {
    hide Grad, Positive, Batch;
    if m > 0 {
      ColumnSteps(exp, w, c, ps, m - 1, d);
      FlatIndex(m - 1, d);
      var i := (m - 1) * STRIDE + d;
      StepsAdd(Column(w, m - 1, d), GradColumn(exp, w, c, ps, m - 1, d), w[i], Grad(exp, w, c, ps, i),
               Batch(ps), d == DIM);
    }
  }

  lemma StepsAdd(w: real, g: real, v: real, h: real, n: real, bias: bool)
    requires n > 0.0
    ensures Stepped(w, g, n, bias) + Stepped(v, h, n, bias) == Stepped(w + v, g + h, n, bias)
  {
    AddFractions(g, h, n);
  }

  /**
    Conservation: after every iteration, whatever the samples and whatever the positive function
    used for `exp`, each weight column and the bias column sum to zero over the classes.
   */
  lemma {:induction false} ColumnsStayZero(exp: Exp, c: nat, ps: seq<Point>, t: nat, d: nat)
    requires Positive(exp) && GoodPoints(ps, c) && d < STRIDE
    ensures Column(Trained(exp, c, ps, t), c, d) == 0.0
  {
    hide Positive, Descend, Column;
    if t == 0 {
      ZeroColumn(c, c, d);
    } else {
      var w := Trained(exp, c, ps, t - 1);
      ColumnsStayZero(exp, c, ps, t - 1, d);
      ColumnSteps(exp, w, c, ps, c, d);
      GradientsCancel(exp, w, c, ps, d);
    }
  }

  lemma {:induction false} ZeroColumn(c: nat, m: nat, d: nat)
    requires d < STRIDE && m <= c
    ensures Column(seq(c * STRIDE, i => 0.0), m, d) == 0.0
  {
    if m > 0 { ZeroColumn(c, m - 1, d); }
  }

  // ---------------------------------------------------------------- the training loop

  /** Linear scores of one embedding. */
  method Forward(w: array<real>, c: nat, emb: seq<real>, logits: array<real>)
    requires |emb| == DIM && w.Length == c * STRIDE && logits.Length == c && w != logits
    modifies logits
    ensures logits[..] == Logits(w[..], c, emb)
  {
    for k := 0 to c
      invariant forall j :: 0 <= j < k ==> logits[j] == Dot(w[..], j, emb, DIM)
    {
      var base := k * STRIDE;
      var s := w[base + DIM];
      for d := 0 to DIM
        invariant s == Dot(w[..], k, emb, d)
      {
        s := s + w[base + d] * emb[d];
      }
      logits[k] := s;
    }
  }

  /** Largest entry, folded from the left. */
  method Largest(l: array<real>) returns (m: real)
    requires l.Length > 0
    ensures m == MaxOf(l[..])
  {
    m := l[0];
    for k := 1 to l.Length
      invariant m == MaxOf(l[..k])
    {
      assert l[..k + 1][..k] == l[..k];
      if l[k] > m { m := l[k]; }
    }
    TakeAll(l[..]);
    assert l[..l.Length] == l[..];
  }

  /** Shift by the largest logit, exponentiate and add up, in place. */
  method Exponentiate(exp: Exp, l: array<real>) returns (sum: real)
    requires l.Length > 0
    modifies l
    ensures l[..] == Shifted(exp, old(l[..])) && sum == Sum(l[..])
  {
    hide Shifted;
    ghost var e := Shifted(exp, l[..]);
    var max := Largest(l);
    sum := 0.0;
    for k := 0 to l.Length
      invariant forall j :: 0 <= j < k ==> l[j] == e[j]
      invariant forall j :: k <= j < l.Length ==> l[j] == old(l[j])
      invariant sum == Sum(e[..k])
    {
      l[k] := exp(l[k] - max);
      sum := sum + l[k];
      TakeNext(e, k);
    }
    TakeAll(e);
    assert l[..] == e;
  }

  /** Softmax in place. */
  method Normalise(exp: Exp, l: array<real>)
    requires l.Length > 0 && Positive(exp)
    modifies l
    ensures Sum(Shifted(exp, old(l[..]))) > 0.0 && l[..] == Probs(exp, old(l[..]))
  {
    hide Shifted, Sum;
    TotalIsPositive(exp, l[..]);
    ghost var l0 := l[..];
    var sum := Exponentiate(exp, l);
    ghost var e := l[..];
    for k := 0 to l.Length
      invariant forall j :: 0 <= j < k ==> l[j] == e[j] / sum
      invariant forall j :: k <= j < l.Length ==> l[j] == e[j]
    {
      l[k] := l[k] / sum;
    }
    assert l[..] == Probs(exp, l0);
  }

  ghost predicate Holds(grad: array<real>, exp: Exp, w: Weights, c: nat, ps: seq<Point>)
    requires Positive(exp) && GoodPoints(ps, c) && |w| == c * STRIDE
    reads grad
  {
    grad.Length == c * STRIDE && forall i :: 0 <= i < c * STRIDE ==> grad[i] == Grad(exp, w, c, ps, i)
  }

  function ErrOf(prob: real, k: nat, class_: nat): real { prob - if k == class_ then 1.0 else 0.0 }

  /** Add one point's share to the gradient. */
  method Accumulate(grad: array<real>, probs: array<real>, c: nat, emb: seq<real>, class_: nat)
    requires |emb| == DIM && grad.Length == c * STRIDE && probs.Length == c && grad != probs
    modifies grad
    ensures forall i :: 0 <= i < c * STRIDE ==>
              grad[i] == old(grad[i]) + Slope(ErrOf(probs[i / STRIDE], i / STRIDE, class_),
                                              Input(Point(emb, class_), i % STRIDE))
  {
    for k := 0 to c
      invariant forall i :: 0 <= i < k * STRIDE ==>
                  grad[i] == old(grad[i]) + Slope(ErrOf(probs[i / STRIDE], i / STRIDE, class_),
                                                  Input(Point(emb, class_), i % STRIDE))
      invariant forall i :: k * STRIDE <= i < c * STRIDE ==> grad[i] == old(grad[i])
    {
      var err := probs[k] - if k == class_ then 1.0 else 0.0;
      AccumulateClass(grad, k, err, emb);
    }
  }

  method AccumulateClass(grad: array<real>, k: nat, err: real, emb: seq<real>)
    requires |emb| == DIM && (k + 1) * STRIDE <= grad.Length
    modifies grad
    ensures forall i :: 0 <= i < grad.Length && i / STRIDE != k ==> grad[i] == old(grad[i])
    ensures forall i :: 0 <= i < grad.Length && i / STRIDE == k ==>
              grad[i] == old(grad[i]) + Slope(err, Input(Point(emb, k), i % STRIDE))
  {
    var base := k * STRIDE;
    for d := 0 to DIM
      invariant forall i :: 0 <= i < base || base + d <= i < grad.Length ==> grad[i] == old(grad[i])
      invariant forall i :: base <= i < base + d ==> grad[i] == old(grad[i]) + err * emb[i - base]
    {
      grad[base + d] := grad[base + d] + err * emb[d];
    }
    grad[base + DIM] := grad[base + DIM] + err;
  }

  /** Class probabilities of one point. */
  method PointProbs(exp: Exp, w: array<real>, c: nat, p: Point, logits: array<real>)
    requires Positive(exp) && GoodPoint(p, c) && w.Length == c * STRIDE && logits.Length == c && w != logits
    modifies logits
    ensures logits[..] == ProbsOf(exp, w[..], c, p)
  {
    hide Positive, Logits, Probs;
    Forward(w, c, p.emb, logits);
    Normalise(exp, logits);
  }

  lemma ErrIs(exp: Exp, w: Weights, c: nat, p: Point, k: nat)
    requires Positive(exp) && GoodPoint(p, c) && |w| == c * STRIDE && k < c
    ensures Err(exp, w, c, p, k) == ErrOf(ProbsOf(exp, w, c, p)[k], k, p.class_)
  {
  }

  lemma GradAfter(exp: Exp, w: Weights, c: nat, ps: seq<Point>, n: nat, i: nat, before: real, after: real)
    requires Positive(exp) && GoodPoints(ps, c) && |w| == c * STRIDE && n < |ps| && i < c * STRIDE
    requires before == Grad(exp, w, c, ps[..n], i)
    requires after == before + Slope(ErrOf(ProbsOf(exp, w, c, ps[n])[i / STRIDE], i / STRIDE, ps[n].class_),
                                    Input(ps[n], i % STRIDE))
    ensures after == Grad(exp, w, c, ps[..n + 1], i)
  {
    hide Grad, Err, ProbsOf, Input, ErrOf, Slope;
    PointAdds(exp, w, c, ps, n, i);
    ErrIs(exp, w, c, ps[n], i / STRIDE);
  }

  /** One point: forward, softmax, backward. */
  method AddPoint(exp: Exp, w: array<real>, c: nat, ps: seq<Point>, n: nat, grad: array<real>, logits: array<real>)
    requires Positive(exp) && GoodPoints(ps, c) && w.Length == c * STRIDE == grad.Length && logits.Length == c
    requires w != grad && w != logits && grad != logits
    requires n < |ps| && Holds(grad, exp, w[..], c, ps[..n])
    modifies grad, logits
    ensures w[..] == old(w[..]) && Holds(grad, exp, w[..], c, ps[..n + 1])
  {
    hide Positive, Grad, ProbsOf, Input, ErrOf, Slope;
    var p := ps[n];
    assert GoodPoint(p, c);
    ghost var w0, g0 := w[..], grad[..];
    PointProbs(exp, w, c, p, logits);
    ghost var probs := logits[..];
    Accumulate(grad, logits, c, p.emb, p.class_);
    assert w[..] == w0;
    forall i | 0 <= i < c * STRIDE ensures grad[i] == Grad(exp, w0, c, ps[..n + 1], i) {
      assert g0[i] == Grad(exp, w0, c, ps[..n], i);
      assert probs[i / STRIDE] == logits[i / STRIDE];
      GradAfter(exp, w0, c, ps, n, i, g0[i], grad[i]);
    }
  }

  /** The gradient of the whole batch, point by point. */
  method BatchGradient(exp: Exp, w: array<real>, c: nat, ps: seq<Point>, grad: array<real>, logits: array<real>)
    requires Positive(exp) && GoodPoints(ps, c) && w.Length == c * STRIDE == grad.Length && logits.Length == c
    requires w != grad && w != logits && grad != logits
    modifies grad, logits
    ensures Holds(grad, exp, w[..], c, ps)
    ensures w[..] == old(w[..])
  {
    for i := 0 to grad.Length
      invariant forall j :: 0 <= j < i ==> grad[j] == 0.0
    {
      grad[i] := 0.0;
    }
    for n := 0 to |ps|
      invariant w[..] == old(w[..])
      invariant Holds(grad, exp, w[..], c, ps[..n])
    {
      AddPoint(exp, w, c, ps, n, grad, logits);
    }
    TakeAll(ps);
  }

  lemma PointAdds(exp: Exp, w: Weights, c: nat, ps: seq<Point>, n: nat, i: nat)
    requires Positive(exp) && GoodPoints(ps, c) && |w| == c * STRIDE && n < |ps| && i < c * STRIDE
    ensures Grad(exp, w, c, ps[..n + 1], i)
            == Grad(exp, w, c, ps[..n], i) + Slope(Err(exp, w, c, ps[n], i / STRIDE), Input(ps[n], i % STRIDE))
  {
    hide Err, Input;
    TakeNext(ps, n);
  }

  /** The weight update of one iteration, in place. */
  method Update(exp: Exp, w: array<real>, c: nat, ps: seq<Point>, grad: array<real>)
    requires Positive(exp) && GoodPoints(ps, c) && w.Length == c * STRIDE && w != grad
    requires Holds(grad, exp, w[..], c, ps)
    modifies w
    ensures w[..] == Descend(exp, old(w[..]), c, ps)
  {
    hide Grad;
    var n := Batch(ps);
    for k := 0 to c
      invariant forall i :: 0 <= i < k * STRIDE ==> w[i] == Stepped(old(w[i]), grad[i], n, i % STRIDE == DIM)
      invariant forall i :: k * STRIDE <= i < c * STRIDE ==> w[i] == old(w[i])
      invariant forall i :: 0 <= i < c * STRIDE ==> grad[i] == old(grad[i])
    {
      UpdateClass(w, grad, k, n);
    }
    ghost var w0 := old(w[..]);
    assert forall i :: 0 <= i < c * STRIDE ==> w[i] == Descend(exp, w0, c, ps)[i];
  }

  method UpdateClass(w: array<real>, grad: array<real>, k: nat, n: real)
    requires w != grad && grad.Length == w.Length && (k + 1) * STRIDE <= w.Length && n > 0.0
    modifies w
    ensures forall i :: 0 <= i < w.Length && i / STRIDE != k ==> w[i] == old(w[i])
    ensures forall i :: 0 <= i < w.Length && i / STRIDE == k ==>
              w[i] == Stepped(old(w[i]), grad[i], n, i % STRIDE == DIM)
  {
    var base := k * STRIDE;
    for d := 0 to DIM
      invariant forall i :: 0 <= i < base || base + d <= i < w.Length ==> w[i] == old(w[i])
      invariant forall i :: base <= i < base + d ==> w[i] == Stepped(old(w[i]), grad[i], n, false)
    {
      var g := grad[base + d] / n + L2 * w[base + d];
      w[base + d] := w[base + d] - LR * g;
    }
    w[base + DIM] := w[base + DIM] - LR * (grad[base + DIM] / n);
  }

  /** `train_model` after upsampling: the weights are `ITERS` steps of descent from zero. */
  method Train(exp: Exp, c: nat, ps: seq<Point>) returns (w: array<real>)
    requires Positive(exp) && GoodPoints(ps, c)
    ensures fresh(w) && w[..] == Trained(exp, c, ps, ITERS)
    ensures forall d :: 0 <= d < STRIDE ==> Column(w[..], c, d) == 0.0
  {
    w := new real[c * STRIDE](i => 0.0);
    var grad := new real[c * STRIDE](i => 0.0);
    var logits := new real[c](i => 0.0);
    assert w[..] == seq(c * STRIDE, i => 0.0);
    for t := 0 to ITERS
      invariant fresh(w) && fresh(grad) && fresh(logits) && w != grad && w != logits && grad != logits
      invariant w[..] == Trained(exp, c, ps, t)
    {
      hide Positive, Descend;
      BatchGradient(exp, w, c, ps, grad, logits);
      Update(exp, w, c, ps, grad);
    }
    forall d | 0 <= d < STRIDE ensures Column(w[..], c, d) == 0.0 { ColumnsStayZero(exp, c, ps, ITERS, d); }
  }

  // ---------------------------------------------------------------- prediction

  /** The code's model: flat weights over `c` classes of `dim` inputs and a bias. */
  datatype Verdict = Verdict(class_: nat, prob: real)

  /** First index of the largest entry. */
  ghost predicate IsFirstMax(l: seq<real>, k: nat) {
    && k < |l|
    && (forall j :: 0 <= j < |l| ==> l[j] <= l[k])
    && (forall j :: 0 <= j < k ==> l[j] < l[k])
  }

  lemma DivideMonotone(a: real, b: real, n: real)
    requires n > 0.0
    ensures a < b <==> a / n < b / n
    ensures a > 0.0 ==> a / n > 0.0
  {
  }

  /** Softmax orders the classes as their scores are ordered. */
  lemma ProbsFollowScores(exp: Exp, l: seq<real>, i: nat, j: nat)
    requires Positive(exp) && Increasing(exp) && i < |l| && j < |l| && Sum(Shifted(exp, l)) > 0.0
    ensures l[i] < l[j] <==> Probs(exp, l)[i] < Probs(exp, l)[j]
    ensures Probs(exp, l)[i] > 0.0
  {
    var e := Shifted(exp, l);
    DivideMonotone(e[i], e[j], Sum(e));
    var x, y := l[i] - MaxOf(l), l[j] - MaxOf(l);
    assert x < y ==> exp(x) < exp(y);
    assert y < x ==> exp(y) < exp(x);
  }

  /** A probability that no other exceeds is at least an equal share. */
  lemma {:induction false} ShareOfLargest(p: seq<real>, x: real)
    requires forall k :: 0 <= k < |p| ==> p[k] <= x
    ensures Sum(p) <= x * |p| as real
  {
    if p != [] {
      var n := |p| - 1;
      ShareOfLargest(p[..n], x);
      Distribute(n as real, 1.0, x);
    }
  }

  /** `predict`: the first class with the highest linear score, and its softmax probability. */
  method Predict(exp: Exp, w: array<real>, c: nat, emb: seq<real>) returns (r: Option<Verdict>)
    requires Positive(exp) && Increasing(exp) && w.Length == c * STRIDE
    ensures r.None? <==> |emb| != DIM || c == 0
    ensures r.Some? ==> IsPrediction(exp, Logits(w[..], c, emb), r.value)
  {
    if |emb| != DIM || c == 0 { return None; }
    hide Positive, Increasing, Shifted, Logits, Sum, Probs, IsPrediction, IsFirstMax;
    var logits := new real[c](i => 0.0);
    Forward(w, c, emb, logits);
    ghost var l := logits[..];
    Normalise(exp, logits);
    ProbsArePositive(exp, l);
    assert forall k :: 0 <= k < c ==> logits[k] == logits[..][k];
    var best := ArgMax(logits);
    FirstMaxOfScores(exp, l, best);
    return Some(best);
  }

  /** The first class with the highest score, with its softmax probability, which is at least an equal share. */
  ghost predicate IsPrediction(exp: Exp, l: seq<real>, v: Verdict) {
    && IsFirstMax(l, v.class_)
    && Sum(Shifted(exp, l)) > 0.0 && v.prob == Probs(exp, l)[v.class_]
    && 0.0 < v.prob && 1.0 <= v.prob * |l| as real
  }

  lemma ProbsArePositive(exp: Exp, l: seq<real>)
    requires Positive(exp) && Increasing(exp) && l != [] && Sum(Shifted(exp, l)) > 0.0
    ensures forall k :: 0 <= k < |l| ==> Probs(exp, l)[k] > 0.0
  {
    hide Positive, Increasing, Shifted, Sum, Probs;
    forall k | 0 <= k < |l| ensures Probs(exp, l)[k] > 0.0 { ProbsFollowScores(exp, l, k, k); }
  }

  /** The walk over the probabilities, which starts below every one of them. */
  method ArgMax(p: array<real>) returns (best: Verdict)
    requires p.Length > 0 && forall k :: 0 <= k < p.Length ==> p[k] > 0.0
    ensures IsFirstMax(p[..], best.class_) && best.prob == p[best.class_]
  {
    best := Verdict(0, 0.0);
    for k := 0 to p.Length
      invariant k == 0 ==> best == Verdict(0, 0.0)
      invariant k > 0 ==> IsFirstMax(p[..k], best.class_) && best.prob == p[best.class_]
    {
      if p[k] > best.prob { best := Verdict(k, p[k]); }
    }
    assert p[..p.Length] == p[..];
  }

  lemma FirstMaxOfScores(exp: Exp, l: seq<real>, v: Verdict)
    requires Positive(exp) && Increasing(exp) && l != [] && Sum(Shifted(exp, l)) > 0.0
    requires IsFirstMax(Probs(exp, l), v.class_) && v.prob == Probs(exp, l)[v.class_]
    ensures IsPrediction(exp, l, v)
  {
    hide Positive, Increasing, Shifted, Sum, Probs;
    var k := v.class_;
    forall j | 0 <= j < |l| ensures l[j] <= l[k] && (j < k ==> l[j] < l[k]) {
      ProbsFollowScores(exp, l, k, j);
      ProbsFollowScores(exp, l, j, k);
    }
    ProbsFollowScores(exp, l, k, k);
    ProbsSumToOne(exp, l);
    ShareOfLargest(Probs(exp, l), v.prob);
  }

  /** `b` is `a` scaled by `f`. */
  ghost predicate Scales(a: seq<real>, b: seq<real>, f: real) {
    |a| == |b| && forall j :: 0 <= j < |a| ==> b[j] == Slope(a[j], f)
  }

  lemma {:induction false} SumScales(a: seq<real>, b: seq<real>, f: real)
    requires Scales(a, b, f)
    ensures Sum(b) == Slope(Sum(a), f)
  {
    if a != [] {
      var n := |a| - 1;
      SumScales(a[..n], b[..n], f);
      Distribute(Sum(a[..n]), a[n], f);
    }
  }

  lemma ExpOfShift(exp: Exp, x: real, m: real)
    requires TurnsSumsIntoProducts(exp)
    ensures exp(x) == Slope(exp(x - m), exp(m))
  {
    var y := x - m;
    assert ProductAt(exp, y, m);
    assert y + m == x;
  }

  ghost predicate IsExpOf(exp: Exp, l: seq<real>, e: seq<real>) {
    |e| == |l| && forall j :: 0 <= j < |l| ==> e[j] == exp(l[j])
  }

  lemma ShiftedScales(exp: Exp, l: seq<real>, e: seq<real>)
    requires TurnsSumsIntoProducts(exp) && l != [] && IsExpOf(exp, l, e)
    ensures Scales(Shifted(exp, l), e, exp(MaxOf(l)))
  {
    hide MaxOf, TurnsSumsIntoProducts, Slope, Shifted;
    var m := MaxOf(l);
    forall j | 0 <= j < |l| ensures e[j] == Slope(Shifted(exp, l)[j], exp(m)) { ExpOfShift(exp, l[j], m); }
  }

  lemma CancelFactor(x: real, y: real, f: real, xf: real, yf: real)
    requires y > 0.0 && f > 0.0 && xf == Slope(x, f) && yf == Slope(y, f)
    ensures yf > 0.0 && xf / yf == x / y
  {
    var q := x / y;
    assert q * y == x;
    assert q * (y * f) == (q * y) * f;
  }

  lemma PositiveAt(exp: Exp, x: real)
    requires Positive(exp)
    ensures exp(x) > 0.0
  {
  }

  /** Subtracting the largest score first changes nothing, for an `exp` that turns sums into products. */
  lemma ShiftingIsHarmless(exp: Exp, l: seq<real>, e: seq<real>, k: nat)
    requires Positive(exp) && TurnsSumsIntoProducts(exp) && k < |l| && IsExpOf(exp, l, e)
    requires Sum(Shifted(exp, l)) > 0.0
    ensures Sum(e) > 0.0 && Probs(exp, l)[k] == e[k] / Sum(e)
  {
    hide Shifted, Sum, TurnsSumsIntoProducts, Probs, Positive, MaxOf, Slope, IsExpOf;
    var shifted, f := Shifted(exp, l), exp(MaxOf(l));
    ShiftedScales(exp, l, e);
    SumScales(shifted, e, f);
    PositiveAt(exp, MaxOf(l));
    CancelFactor(shifted[k], Sum(shifted), f, e[k], Sum(e));
  }
}
