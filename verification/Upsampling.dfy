/**
  The balancing step of the face classifier's training (`face_classifier.rs`): every class is
  drawn from round robin until it has as many samples as the largest class.
 */
module Upsampling {
  import opened Arithmetic
  import opened Seqs

  /** Which embedding of which class a training sample is. */
  datatype Sample = Sample(class_: nat, shot: nat)

  function MaxCount(sizes: seq<nat>): (m: nat)
    ensures m >= 1 && forall i :: 0 <= i < |sizes| ==> sizes[i] <= m
    ensures m == 1 || m in sizes
  {
    if sizes == [] then 1
    else
      var m := MaxCount(sizes[..|sizes| - 1]);
      if sizes[|sizes| - 1] > m then sizes[|sizes| - 1] else m
  }

  /** The first `n` samples drawn from a class of `size` embeddings, round robin. */
  function Drawn(class_: nat, size: nat, n: nat): seq<Sample>
    requires size > 0
  {
    if n == 0 then [] else Drawn(class_, size, n - 1) + [Sample(class_, (n - 1) % size)]
  }

  function Upsampled(sizes: seq<nat>, count: nat, k: nat): seq<Sample>
    requires k <= |sizes|
  {
    if k == 0 then []
    else Upsampled(sizes, count, k - 1) + DrawnOrNone(k - 1, sizes[k - 1], count)
  }

  /** An empty class contributes nothing. */
  function DrawnOrNone(class_: nat, size: nat, n: nat): seq<Sample> {
    if size == 0 then [] else Drawn(class_, size, n)
  }

  method Upsample(sizes: seq<nat>) returns (samples: seq<Sample>)
    ensures samples == Upsampled(sizes, MaxCount(sizes), |sizes|)
  {
    var count := MaxCount(sizes);
    samples := [];
    for ci := 0 to |sizes|
      invariant samples == Upsampled(sizes, count, ci)
    {
      if sizes[ci] == 0 {
        Units(samples);
        continue;
      }
      var drawn := [];
      for i := 0 to count
        invariant drawn == Drawn(ci, sizes[ci], i)
      {
        drawn := drawn + [Sample(ci, i % sizes[ci])];
      }
      samples := samples + drawn;
    }
  }

  function Share(size: nat, n: nat, j: nat): nat
    requires size > 0
  {
    n / size + if j < n % size then 1 else 0
  }

  /** Drawing one more sample takes the next embedding in turn. */
  lemma ShareMore(size: nat, n: nat, j: nat)
    requires size > 0 && j < size
    ensures Share(size, n + 1, j) == Share(size, n, j) + if j == n % size then 1 else 0
  {
    var q, r := n / size, n % size;
    DivMod(n, size);
    if r + 1 == size {
      DivModIs(n + 1, size, q + 1, 0);
    } else {
      DivModIs(n + 1, size, q, r + 1);
    }
  }

  lemma ShareOfNone(size: nat)
    requires size > 0
    ensures forall j: nat :: Share(size, 0, j) == 0
  {
    DivModIs(0, size, 0, 0);
  }

  lemma {:induction false} DrawnShare(class_: nat, size: nat, n: nat, s: Sample)
    requires size > 0
    ensures multiset(Drawn(class_, size, n))[s]
            == if s.class_ == class_ && s.shot < size then Share(size, n, s.shot) else 0
  {
    if n == 0 {
      ShareOfNone(size);
    } else {
      hide Share;
      DrawnShare(class_, size, n - 1, s);
      CountAppend(Drawn(class_, size, n - 1), [Sample(class_, (n - 1) % size)], s);
      if s.shot < size { ShareMore(size, n - 1, s.shot); }
    }
  }

  lemma DrawnOrNoneShare(class_: nat, size: nat, n: nat, s: Sample)
    ensures multiset(DrawnOrNone(class_, size, n))[s]
            == if s.class_ == class_ && s.shot < size then Share(size, n, s.shot) else 0
  {
    hide Drawn, Share;
    if size > 0 { DrawnShare(class_, size, n, s); }
  }

  lemma {:induction false} UpsampledShare(sizes: seq<nat>, count: nat, k: nat, s: Sample)
    requires k <= |sizes|
    ensures multiset(Upsampled(sizes, count, k))[s]
            == if s.class_ < k && s.shot < sizes[s.class_] then Share(sizes[s.class_], count, s.shot) else 0
  {
    hide DrawnOrNone, Share;
    if k > 0 {
      UpsampledShare(sizes, count, k - 1, s);
      DrawnOrNoneShare(k - 1, sizes[k - 1], count, s);
      CountAppend(Upsampled(sizes, count, k - 1), DrawnOrNone(k - 1, sizes[k - 1], count), s);
    }
  }

  function OfClass(samples: seq<Sample>, class_: nat): nat {
    if samples == [] then 0
    else OfClass(samples[..|samples| - 1], class_) + if samples[|samples| - 1].class_ == class_ then 1 else 0
  }

  lemma {:induction false} OfClassAppend(a: seq<Sample>, b: seq<Sample>, class_: nat)
    ensures OfClass(a + b, class_) == OfClass(a, class_) + OfClass(b, class_)
  {
    if b == [] {
      Units(a);
    } else {
      var v, x := b[..|b| - 1], b[|b| - 1];
      InitLast(b);
      Assoc(a, v, [x]);
      AppendTake(a + v, x);
      OfClassAppend(a, v, class_);
    }
  }

  lemma {:induction false} DrawnOfClass(class_: nat, size: nat, n: nat, c: nat)
    requires size > 0
    ensures OfClass(Drawn(class_, size, n), c) == if c == class_ then n else 0
  {
    if n > 0 {
      DrawnOfClass(class_, size, n - 1, c);
      AppendTake(Drawn(class_, size, n - 1), Sample(class_, (n - 1) % size));
    }
  }

  lemma NoneOfClass(c: nat)
    ensures OfClass([], c) == 0
  {
  }

  lemma {:induction false} UpsampledOfClass(sizes: seq<nat>, count: nat, k: nat, c: nat)
    requires k <= |sizes|
    ensures OfClass(Upsampled(sizes, count, k), c) == if c < k && sizes[c] > 0 then count else 0
  {
    hide Drawn, OfClass;
    NoneOfClass(c);
    if k > 0 {
      UpsampledOfClass(sizes, count, k - 1, c);
      if sizes[k - 1] > 0 { DrawnOfClass(k - 1, sizes[k - 1], count, c); }
      OfClassAppend(Upsampled(sizes, count, k - 1), DrawnOrNone(k - 1, sizes[k - 1], count), c);
    }
  }

  /**
    Balance: every class with embeddings contributes as many samples as the largest class has, and
    uses each of its embeddings the floor or the ceiling of an equal share, earlier ones first.
   */
  lemma {:induction false} UpsamplingBalances(sizes: seq<nat>, c: nat, j: nat)
    requires c < |sizes| && j < sizes[c]
    ensures var samples := Upsampled(sizes, MaxCount(sizes), |sizes|);
            && OfClass(samples, c) == MaxCount(sizes)
            && multiset(samples)[Sample(c, j)]
               == MaxCount(sizes) / sizes[c] + if j < MaxCount(sizes) % sizes[c] then 1 else 0
  {
    UpsampledOfClass(sizes, MaxCount(sizes), |sizes|, c);
    UpsampledShare(sizes, MaxCount(sizes), |sizes|, Sample(c, j));
  }
}
