/**
  Greedy non-maximum suppression, as `face.rs` and `inference.rs` share it: sort by score, keep a
  box unless it overlaps one already kept, stop at a cap. The two callers differ in what counts as
  a clash and in the cap.
 */
module Nms {
  import opened Numbers
  import opened Seqs

  datatype Box = Box(x1: real, y1: real, x2: real, y2: real)

  datatype Det = Det(name: string, score: real, box: Box)

  const FACE_CAP := 20
  const YOLO_CAP := 50
  const YOLO_IOU := 0.5

  // ---------------------------------------------------------------- overlap

  function Area(b: Box): real { Max(b.x2 - b.x1, 0.0) * Max(b.y2 - b.y1, 0.0) }

  /** Length of the overlap of two intervals. */
  function Overlap(a1: real, a2: real, b1: real, b2: real): real { Max(Min(a2, b2) - Max(a1, b1), 0.0) }

  function Inter(a: Box, b: Box): real { Overlap(a.x1, a.x2, b.x1, b.x2) * Overlap(a.y1, a.y2, b.y1, b.y2) }

  /** Intersection over union; inverted boxes have no area. */
  function Iou(a: Box, b: Box): real {
    var union := Area(a) + Area(b) - Inter(a, b);
    if union <= 0.0 then 0.0 else Inter(a, b) / union
  }

  lemma ProductMonotone(a: real, b: real, c: real, d: real)
    requires 0.0 <= a <= c && 0.0 <= b <= d
    ensures 0.0 <= a * b <= c * d
  {
    assert a * b <= c * b;
    assert c * b <= c * d;
  }

  lemma OverlapIsSmall(a1: real, a2: real, b1: real, b2: real)
    ensures 0.0 <= Overlap(a1, a2, b1, b2) <= Max(a2 - a1, 0.0)
    ensures Overlap(a1, a2, b1, b2) == Overlap(b1, b2, a1, a2)
  {
  }

  lemma InterIsSmall(a: Box, b: Box)
    ensures 0.0 <= Inter(a, b) <= Area(a)
    ensures Inter(a, b) == Inter(b, a)
  {
    hide Overlap, Max;
    OverlapIsSmall(a.x1, a.x2, b.x1, b.x2);
    OverlapIsSmall(a.y1, a.y2, b.y1, b.y2);
    ProductMonotone(Overlap(a.x1, a.x2, b.x1, b.x2), Overlap(a.y1, a.y2, b.y1, b.y2),
                    Max(a.x2 - a.x1, 0.0), Max(a.y2 - a.y1, 0.0));
  }

  lemma FractionOfMore(x: real, y: real)
    requires 0.0 <= x <= y && y > 0.0
    ensures 0.0 <= x / y <= 1.0
  {
  }

  /** For all boxes, even inverted ones. */
  lemma IouIsAFraction(a: Box, b: Box)
    ensures Iou(a, b) == Iou(b, a)
    ensures 0.0 <= Iou(a, b) <= 1.0
    ensures Area(a) > 0.0 ==> Iou(a, a) == 1.0
  {
    InterIsSmall(a, b);
    InterIsSmall(b, a);
    hide Inter, Area;
    var union := Area(a) + Area(b) - Inter(a, b);
    if union > 0.0 { FractionOfMore(Inter(a, b), union); }
    if Area(a) > 0.0 { SelfInter(a); }
  }

  lemma SelfInter(a: Box)
    ensures Inter(a, a) == Area(a)
  {
  }

  // ---------------------------------------------------------------- stable sort by score

  ghost predicate Descending(v: seq<Det>) {
    forall i, j :: 0 <= i < j < |v| ==> v[i].score >= v[j].score
  }

  function Insert(v: seq<Det>, d: Det): seq<Det> {
    if v == [] || v[|v| - 1].score >= d.score then v + [d] else Insert(v[..|v| - 1], d) + [v[|v| - 1]]
  }

  function Sorted(v: seq<Det>): seq<Det> {
    if v == [] then [] else Insert(Sorted(v[..|v| - 1]), v[|v| - 1])
  }

  ghost predicate AllAtLeast(v: seq<Det>, x: real) {
    forall i :: 0 <= i < |v| ==> v[i].score >= x
  }

  lemma {:induction false} InsertAtLeast(v: seq<Det>, d: Det, x: real)
    requires AllAtLeast(v, x) && d.score >= x
    ensures AllAtLeast(Insert(v, d), x)
  {
    if v != [] && v[|v| - 1].score < d.score { InsertAtLeast(v[..|v| - 1], d, x); }
  }

  lemma {:induction false} InsertDescends(v: seq<Det>, d: Det)
    requires Descending(v)
    ensures Descending(Insert(v, d))
  {
    if v != [] && v[|v| - 1].score < d.score {
      InsertDescends(v[..|v| - 1], d);
      InsertAtLeast(v[..|v| - 1], d, v[|v| - 1].score);
    }
  }

  lemma {:induction false} InsertKeeps(v: seq<Det>, d: Det)
    ensures multiset(Insert(v, d)) == multiset(v) + multiset{d}
  {
    if v != [] && v[|v| - 1].score < d.score {
      InsertKeeps(v[..|v| - 1], d);
      InitLast(v);
    }
  }

  /** Ordered by score, nothing lost and nothing added. */
  lemma {:induction false} SortedSorts(v: seq<Det>)
    ensures Descending(Sorted(v)) && multiset(Sorted(v)) == multiset(v)
  {
    if v != [] {
      SortedSorts(v[..|v| - 1]);
      InsertDescends(Sorted(v[..|v| - 1]), v[|v| - 1]);
      InsertKeeps(Sorted(v[..|v| - 1]), v[|v| - 1]);
      InitLast(v);
    }
  }

  lemma {:induction false} SortedIsStable(v: seq<Det>)
    requires Descending(v)
    ensures Sorted(v) == v
  {
    if v != [] {
      SortedIsStable(v[..|v| - 1]);
      InitLast(v);
    }
  }

  // ---------------------------------------------------------------- greedy selection

  type Clash = (Det, Det) -> bool

  function FaceClash(thr: real): Clash { (k: Det, d: Det) => Iou(k.box, d.box) > thr }

  function YoloClash(): Clash { (k: Det, d: Det) => k.name == d.name && Iou(k.box, d.box) > YOLO_IOU }

  predicate Suppressed(clash: Clash, keep: seq<Det>, d: Det) {
    exists i :: 0 <= i < |keep| && clash(keep[i], d)
  }

  /** Selection over a score-ordered list. */
  function Greedy(clash: Clash, cap: nat, dets: seq<Det>): (keep: seq<Det>)
    ensures |keep| <= |dets|
  {
    if dets == [] then []
    else
      var keep := Greedy(clash, cap, dets[..|dets| - 1]);
      var d := dets[|dets| - 1];
      if |keep| >= cap || Suppressed(clash, keep, d) then keep else keep + [d]
  }

  /** Walk the kept boxes until one clashes. */
  method ClashesWith(clash: Clash, keep: seq<Det>, d: Det) returns (dropped: bool)
    ensures dropped == Suppressed(clash, keep, d)
  {
    dropped := false;
    for i := 0 to |keep|
      invariant !exists k :: 0 <= k < i && clash(keep[k], d)
    {
      if clash(keep[i], d) { return true; }
    }
  }

  /** `nms`, and the tail of both YOLO decoders. */
  method Suppress(clash: Clash, cap: nat, dets: seq<Det>) returns (keep: seq<Det>)
    requires cap > 0
    ensures keep == Greedy(clash, cap, Sorted(dets))
  {
    var sorted := Sorted(dets);
    keep := [];
    for n := 0 to |sorted|
      invariant |keep| < cap
      invariant keep == Greedy(clash, cap, sorted[..n])
    {
      hide Sorted, Suppressed, Greedy;
      var dropped := ClashesWith(clash, keep, sorted[n]);
      GreedyStep(clash, cap, sorted, n);
      if !dropped { keep := keep + [sorted[n]]; }
      if |keep| >= cap {
        FullStaysFull(clash, cap, sorted, n + 1, |sorted|);
        TakeAll(sorted);
        return;
      }
    }
    TakeAll(sorted);
  }

  /** `nms` of the face detector: at most 20 faces, no two of them overlapping by more than the threshold. */
  method SuppressFaces(dets: seq<Det>, thr: real) returns (keep: seq<Det>)
    ensures keep == Greedy(FaceClash(thr), FACE_CAP, Sorted(dets))
    ensures |keep| <= FACE_CAP && Descending(keep) && multiset(keep) <= multiset(dets)
    ensures forall i, j :: 0 <= i < j < |keep| ==> Iou(keep[i].box, keep[j].box) <= thr
    ensures |keep| < FACE_CAP ==> forall d :: d in dets ==> d in keep || OverlapsKept(keep, d, thr)
  {
    keep := Suppress(FaceClash(thr), FACE_CAP, dets);
    SortedSorts(dets);
    KeptAreApart(FaceClash(thr), FACE_CAP, Sorted(dets));
    KeptIsPart(FaceClash(thr), FACE_CAP, Sorted(dets));
    hide Iou, Greedy, Sorted;
    forall i, j | 0 <= i < j < |keep| ensures Iou(keep[i].box, keep[j].box) <= thr {
      assert !FaceClash(thr)(keep[i], keep[j]);
    }
    forall d | d in dets && |keep| < FACE_CAP ensures d in keep || OverlapsKept(keep, d, thr) {
      assert d in multiset(Sorted(dets));
      var i :| 0 <= i < |Sorted(dets)| && Sorted(dets)[i] == d;
      DroppedHasAReason(FaceClash(thr), FACE_CAP, Sorted(dets), i);
    }
  }

  /** A kept face of at least the score of `d` overlaps it by more than the threshold. */
  ghost predicate OverlapsKept(keep: seq<Det>, d: Det, thr: real) {
    exists k :: k in keep && Iou(k.box, d.box) > thr && k.score >= d.score
  }

  lemma {:induction false} KeptIsPart(clash: Clash, cap: nat, dets: seq<Det>)
    ensures multiset(Greedy(clash, cap, dets)) <= multiset(dets)
  {
    if dets != [] {
      KeptIsPart(clash, cap, dets[..|dets| - 1]);
      InitLast(dets);
      hide Suppressed;
    }
  }

  lemma GreedyStep(clash: Clash, cap: nat, dets: seq<Det>, n: nat)
    requires n < |dets|
    ensures var keep := Greedy(clash, cap, dets[..n]);
            Greedy(clash, cap, dets[..n + 1])
            == if |keep| >= cap || Suppressed(clash, keep, dets[n]) then keep else keep + [dets[n]]
    ensures Greedy(clash, cap, dets[..0]) == []
  {
    TakeNext(dets, n);
  }

  lemma {:induction false} FullStaysFull(clash: Clash, cap: nat, dets: seq<Det>, m: nat, n: nat)
    requires m <= n <= |dets| && |Greedy(clash, cap, dets[..m])| >= cap
    ensures Greedy(clash, cap, dets[..n]) == Greedy(clash, cap, dets[..m])
  {
    if m < n {
      FullStaysFull(clash, cap, dets, m, n - 1);
      TakeNext(dets, n - 1);
    }
  }

  lemma {:induction false} GreedyGrows(clash: Clash, cap: nat, dets: seq<Det>, m: nat, n: nat)
    requires m <= n <= |dets|
    ensures Greedy(clash, cap, dets[..m]) <= Greedy(clash, cap, dets[..n])
  {
    if m < n {
      GreedyGrows(clash, cap, dets, m, n - 1);
      TakeNext(dets, n - 1);
    }
  }

  ghost predicate Apart(clash: Clash, keep: seq<Det>) {
    forall i, j :: 0 <= i < j < |keep| ==> !clash(keep[i], keep[j])
  }

  /** Kept boxes do not clash with each other, in score order, and never exceed the cap. */
  lemma {:induction false} KeptAreApart(clash: Clash, cap: nat, dets: seq<Det>)
    requires Descending(dets)
    ensures var keep := Greedy(clash, cap, dets);
            Apart(clash, keep) && Descending(keep) && |keep| <= cap && forall d :: d in keep ==> d in dets
    ensures var keep := Greedy(clash, cap, dets);
            keep != [] ==> keep[|keep| - 1].score >= dets[|dets| - 1].score
  {
    if dets != [] {
      var before := dets[..|dets| - 1];
      KeptAreApart(clash, cap, before);
      var keep := Greedy(clash, cap, before);
      if keep != [] { assert before[|before| - 1].score >= dets[|dets| - 1].score; }
    }
  }

  /** A dropped box clashes with a kept box of at least its score, unless the cap was reached. */
  lemma DroppedHasAReason(clash: Clash, cap: nat, dets: seq<Det>, i: nat)
    requires Descending(dets) && i < |dets|
    ensures var keep := Greedy(clash, cap, dets);
            || dets[i] in keep
            || |keep| == cap
            || exists k :: k in keep && clash(k, dets[i]) && k.score >= dets[i].score
  {
    var d := dets[i];
    var before, keep := Greedy(clash, cap, dets[..i]), Greedy(clash, cap, dets);
    TakeNext(dets, i);
    TakeAll(dets);
    GreedyGrows(clash, cap, dets, i, |dets|);
    GreedyGrows(clash, cap, dets, i + 1, |dets|);
    KeptAreApart(clash, cap, dets);
    if |before| < cap {
      if Suppressed(clash, before, d) {
        var k :| 0 <= k < |before| && clash(before[k], d);
        KeptAreApart(clash, cap, dets[..i]);
        assert before[k] in dets[..i] && before[k] in keep;
        var j :| 0 <= j < i && dets[j] == before[k];
      } else {
        assert (before + [d])[|before|] == d;
      }
    }
  }

  lemma {:induction false} ApartIsKept(clash: Clash, cap: nat, dets: seq<Det>)
    requires Apart(clash, dets) && |dets| <= cap
    ensures Greedy(clash, cap, dets) == dets
  {
    if dets != [] {
      ApartIsKept(clash, cap, dets[..|dets| - 1]);
      InitLast(dets);
    }
  }

  /** Running the suppression again changes nothing. */
  lemma {:induction false} SuppressingTwice(clash: Clash, cap: nat, dets: seq<Det>)
    ensures var keep := Greedy(clash, cap, Sorted(dets)); Greedy(clash, cap, Sorted(keep)) == keep
  {
    var keep := Greedy(clash, cap, Sorted(dets));
    SortedSorts(dets);
    KeptAreApart(clash, cap, Sorted(dets));
    SortedIsStable(keep);
    ApartIsKept(clash, cap, keep);
  }

  // ---------------------------------------------------------------- reference definition

  function Picked(dets: seq<Det>, flags: seq<bool>): seq<Det>
    requires |flags| == |dets|
  {
    if dets == [] then []
    else Picked(dets[..|dets| - 1], flags[..|dets| - 1]) + if flags[|dets| - 1] then [dets[|dets| - 1]] else []
  }

  /** A box is in exactly when no earlier box that is in clashes with it, up to the cap. */
  ghost predicate Selects(clash: Clash, cap: nat, dets: seq<Det>, flags: seq<bool>)
    requires |flags| == |dets|
  {
    forall i :: 0 <= i < |dets| ==>
      (flags[i] <==> && |Picked(dets[..i], flags[..i])| < cap
                     && forall j :: 0 <= j < i && flags[j] ==> !clash(dets[j], dets[i]))
  }

  lemma {:induction false} PickedAre(dets: seq<Det>, flags: seq<bool>, clash: Clash, d: Det)
    requires |flags| == |dets|
    ensures Suppressed(clash, Picked(dets, flags), d) <==> exists j :: 0 <= j < |dets| && flags[j] && clash(dets[j], d)
  {
    if dets != [] {
      var n := |dets| - 1;
      var p := Picked(dets[..n], flags[..n]);
      PickedAre(dets[..n], flags[..n], clash, d);
      SuppressedMore(clash, p, dets[n], d);
      Units(p);
      if j :| 0 <= j < n && flags[j] && clash(dets[j], d) { assert flags[..n][j] && clash(dets[..n][j], d); }
    }
  }

  lemma SuppressedMore(clash: Clash, p: seq<Det>, x: Det, d: Det)
    ensures Suppressed(clash, p + [x], d) <==> Suppressed(clash, p, d) || clash(x, d)
  {
    var q := p + [x];
    if clash(x, d) { assert clash(q[|p|], d); }
    if i :| 0 <= i < |p| && clash(p[i], d) { assert clash(q[i], d); }
    if i :| 0 <= i < |q| && clash(q[i], d) { if i < |p| { assert clash(p[i], d); } }
  }

  /** The greedy walk computes the one selection with that property. */
  lemma {:induction false} GreedyIsTheSelection(clash: Clash, cap: nat, dets: seq<Det>, flags: seq<bool>)
    requires |flags| == |dets| && Selects(clash, cap, dets, flags)
    ensures Picked(dets, flags) == Greedy(clash, cap, dets)
  {
    if dets != [] {
      var n := |dets| - 1;
      SelectsMore(clash, cap, dets, flags);
      GreedyIsTheSelection(clash, cap, dets[..n], flags[..n]);
      PickedAre(dets[..n], flags[..n], clash, dets[n]);
      Units(Greedy(clash, cap, dets[..n]));
    }
  }

  /** The flags have that property, and no other flags have it. */
  ghost predicate OnlySelection(clash: Clash, cap: nat, dets: seq<Det>, flags: seq<bool>) {
    && |flags| == |dets| && Selects(clash, cap, dets, flags)
    && forall other :: |other| == |dets| && Selects(clash, cap, dets, other) ==> other == flags
  }

  /** There is such a selection, and only one. */
  lemma {:induction false} SelectionExists(clash: Clash, cap: nat, dets: seq<Det>)
    ensures exists flags :: OnlySelection(clash, cap, dets, flags)
  {
    if dets == [] {
      assert OnlySelection(clash, cap, dets, []);
    } else {
      var n := |dets| - 1;
      SelectionExists(clash, cap, dets[..n]);
      var before :| OnlySelection(clash, cap, dets[..n], before);
      var flags := before + [FlagFor(clash, cap, dets, before)];
      AppendTake(before, FlagFor(clash, cap, dets, before));
      SelectsMore(clash, cap, dets, flags);
      forall other | |other| == |dets| && Selects(clash, cap, dets, other) ensures other == flags {
        SelectsMore(clash, cap, dets, other);
        hide Selects, FlagFor;
        InitLast(other);
      }
      assert OnlySelection(clash, cap, dets, flags);
    }
  }

  /** Whether the last box is in, given the flags of the earlier ones. */
  ghost predicate FlagFor(clash: Clash, cap: nat, dets: seq<Det>, before: seq<bool>)
    requires |dets| == |before| + 1
  {
    var n := |before|;
    |Picked(dets[..n], before)| < cap && forall j :: 0 <= j < n && before[j] ==> !clash(dets[j], dets[n])
  }

  lemma SelectsMore(clash: Clash, cap: nat, dets: seq<Det>, flags: seq<bool>)
    requires |flags| == |dets| && dets != []
    ensures var n := |dets| - 1;
            Selects(clash, cap, dets, flags)
            <==> Selects(clash, cap, dets[..n], flags[..n]) && flags[n] == FlagFor(clash, cap, dets, flags[..n])
  {
    hide Picked;
    var n := |dets| - 1;
    forall i | 0 <= i < n ensures dets[..n][..i] == dets[..i] && flags[..n][..i] == flags[..i] {
      TakeTake(dets, n, i);
      TakeTake(flags, n, i);
    }
  }

  // ---------------------------------------------------------------- labels

  function OfName(dets: seq<Det>, name: string): seq<Det> {
    if dets == [] then []
    else
      var rest := OfName(dets[..|dets| - 1], name);
      if dets[|dets| - 1].name == name then rest + [dets[|dets| - 1]] else rest
  }

  lemma OfNameMore(keep: seq<Det>, d: Det, name: string)
    ensures OfName(keep + [d], name) == if d.name == name then OfName(keep, name) + [d] else OfName(keep, name)
  {
    AppendTake(keep, d);
  }

  lemma {:induction false} OnlySameNameSuppresses(keep: seq<Det>, d: Det)
    ensures Suppressed(YoloClash(), keep, d) <==> Suppressed(YoloClash(), OfName(keep, d.name), d)
  {
    if keep != [] {
      var n := |keep| - 1;
      OnlySameNameSuppresses(keep[..n], d);
      InitLast(keep);
      SuppressedMore(YoloClash(), keep[..n], keep[n], d);
      SuppressedMore(YoloClash(), OfName(keep[..n], d.name), keep[n], d);
    }
  }

  /** Below the cap, labels do not compete: each label's survivors are those of its own boxes. */
  lemma {:induction false} LabelsDoNotCompete(dets: seq<Det>, cap: nat, name: string)
    requires |Greedy(YoloClash(), cap, dets)| < cap
    ensures OfName(Greedy(YoloClash(), cap, dets), name) == Greedy(YoloClash(), cap, OfName(dets, name))
    ensures |OfName(Greedy(YoloClash(), cap, dets), name)| <= |Greedy(YoloClash(), cap, dets)|
  {
    if dets != [] {
      hide Iou;
      var n := |dets| - 1;
      var d := dets[n];
      var keep := Greedy(YoloClash(), cap, dets[..n]);
      LabelsDoNotCompete(dets[..n], cap, name);
      OfNameMore(keep, d, name);
      AppendTake(OfName(dets[..n], name), d);
      OnlySameNameSuppresses(keep, d);
    }
  }
}
