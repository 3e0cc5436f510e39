/**
  `train_model` end to end: people and, if there are enough of them, untagged negatives become
  classes; the classes are balanced; the balanced samples are descended on.
 */
module FaceTraining {
  import opened Upsampling
  import opened GradientDescent

  const MIN_NEGATIVES := 12

  type Emb = seq<real>

  /** The reject class is appended only with enough negatives. */
  function Classes(people: seq<seq<Emb>>, negatives: seq<Emb>): seq<seq<Emb>> {
    if |negatives| >= MIN_NEGATIVES then people + [negatives] else people
  }

  function Sizes(classes: seq<seq<Emb>>): (sizes: seq<nat>)
    ensures |sizes| == |classes| && forall k :: 0 <= k < |classes| ==> sizes[k] == |classes[k]|
  {
    seq(|classes|, k requires 0 <= k < |classes| => |classes[k]|)
  }

  ghost predicate InRange(samples: seq<Sample>, classes: seq<seq<Emb>>) {
    forall i :: 0 <= i < |samples| ==> samples[i].class_ < |classes| && samples[i].shot < |classes[samples[i].class_]|
  }

  function PointsOf(samples: seq<Sample>, classes: seq<seq<Emb>>): (ps: seq<Point>)
    requires InRange(samples, classes)
    ensures |ps| == |samples|
    ensures forall i :: 0 <= i < |ps| ==>
              ps[i] == Point(classes[samples[i].class_][samples[i].shot], samples[i].class_)
  {
    seq(|samples|, i requires 0 <= i < |samples| =>
        Point(classes[samples[i].class_][samples[i].shot], samples[i].class_))
  }

  /** Every sample drawn is an embedding that exists. */
  lemma UpsampledInRange(classes: seq<seq<Emb>>)
    ensures var sizes := Sizes(classes); InRange(Upsampled(sizes, MaxCount(sizes), |sizes|), classes)
  {
    hide Upsampled, Share;
    var sizes := Sizes(classes);
    var samples := Upsampled(sizes, MaxCount(sizes), |sizes|);
    forall i | 0 <= i < |samples|
      ensures samples[i].class_ < |classes| && samples[i].shot < |classes[samples[i].class_]|
    {
      assert multiset(samples)[samples[i]] > 0;
      UpsampledShare(sizes, MaxCount(sizes), |sizes|, samples[i]);
    }
  }

  ghost predicate AllOfDim(classes: seq<seq<Emb>>) {
    forall k, j :: 0 <= k < |classes| && 0 <= j < |classes[k]| ==> |classes[k][j]| == DIM
  }

  /** `train_model`: the weights balance to zero over the classes, column by column. */
  method TrainModel(exp: Exp, people: seq<seq<Emb>>, negatives: seq<Emb>) returns (c: nat, w: array<real>)
    requires Positive(exp) && AllOfDim(Classes(people, negatives))
    ensures c == |Classes(people, negatives)| && w.Length == c * STRIDE
    ensures var classes := Classes(people, negatives);
            var samples := Upsampled(Sizes(classes), MaxCount(Sizes(classes)), c);
            && InRange(samples, classes) && GoodPoints(PointsOf(samples, classes), c)
            && w[..] == Trained(exp, c, PointsOf(samples, classes), ITERS)
    ensures forall d :: 0 <= d < STRIDE ==> Column(w[..], c, d) == 0.0
  {
    hide Positive, Upsampled;
    var classes := Classes(people, negatives);
    c := |classes|;
    var samples := Upsample(Sizes(classes));
    UpsampledInRange(classes);
    var ps := PointsOf(samples, classes);
    w := Train(exp, c, ps);
  }

  /** What trains class `k` are embeddings of person `k`; the class after the last person is trained on negatives. */
  lemma PointsAreOwn(people: seq<seq<Emb>>, negatives: seq<Emb>, samples: seq<Sample>)
    requires InRange(samples, Classes(people, negatives))
    ensures forall p :: p in PointsOf(samples, Classes(people, negatives)) ==>
              if p.class_ < |people| then p.emb in people[p.class_]
              else |negatives| >= 12 && p.class_ == |people| && p.emb in negatives
  {
    var classes := Classes(people, negatives);
    var ps := PointsOf(samples, classes);
    forall p | p in ps
      ensures if p.class_ < |people| then p.emb in people[p.class_]
              else |negatives| >= 12 && p.class_ == |people| && p.emb in negatives
    {
      var i :| 0 <= i < |ps| && ps[i] == p;
      assert p.emb == classes[p.class_][samples[i].shot];
    }
  }

  /** The embeddings that class `k` stands for. */
  predicate BelongsTo(people: seq<seq<Emb>>, negatives: seq<Emb>, k: nat, e: Emb) {
    if k < |people| then e in people[k] else k == |people| && |negatives| >= 12 && e in negatives
  }

  /** And all of them do, the negatives as soon as there are twelve. */
  lemma EveryEmbeddingTrains(people: seq<seq<Emb>>, negatives: seq<Emb>, k: nat, e: Emb)
    requires BelongsTo(people, negatives, k, e)
    ensures var classes := Classes(people, negatives);
            var samples := Upsampled(Sizes(classes), MaxCount(Sizes(classes)), |classes|);
            InRange(samples, classes) && Point(e, k) in PointsOf(samples, classes)
  {
    hide Upsampled;
    var classes := Classes(people, negatives);
    var sizes := Sizes(classes);
    var samples := Upsampled(sizes, MaxCount(sizes), |classes|);
    UpsampledInRange(classes);
    var j :| 0 <= j < |classes[k]| && classes[k][j] == e;
    UpsampledShare(sizes, MaxCount(sizes), |sizes|, Sample(k, j));
    ShareIsPositive(sizes[k], MaxCount(sizes), j);
    assert Sample(k, j) in multiset(samples);
    var i :| 0 <= i < |samples| && samples[i] == Sample(k, j);
    assert PointsOf(samples, classes)[i] == Point(e, k);
  }

  lemma ShareIsPositive(size: nat, n: nat, j: nat)
    requires 0 < size <= n
    ensures Share(size, n, j) > 0
  {
    assert n / size >= 1;
  }
}
