/**
  The YOLO output decoder of `inference.rs`. Exports lay the same 84 x N tensor out in two ways;
  the decoder reads either, and yields the same detections for the same tensor unless N is 84, where
  the two shapes look alike.
 */
module YoloDecoder {
  import opened Arithmetic
  import opened Numbers
  import opened Options
  import opened Nms

  const CHANNELS := 84
  const FIRST_CLASS := 4
  const INPUT := 640.0

  datatype Layout = Layout(anchors: nat, channelsFirst: bool)

  /** The shape decides the layout; channels-first is tried before channels-last. */
  function LayoutOf(shape: seq<int>): Option<Layout> {
    var s := if |shape| == 3 && shape[0] == 1 then shape[1..] else shape;
    if |s| != 2 || (s[0] < 0 || s[1] < 0) then None
    else if s[0] == CHANNELS then Some(Layout(s[1], true))
    else if s[1] == CHANNELS then Some(Layout(s[0], false))
    else None
  }

  function Index(l: Layout, c: nat, a: nat): nat {
    if l.channelsFirst then c * l.anchors + a else a * CHANNELS + c
  }

  lemma IndexInRange(l: Layout, c: nat, a: nat)
    requires c < CHANNELS && a < l.anchors
    ensures Index(l, c, a) < CHANNELS * l.anchors
  {
    if l.channelsFirst { Times(c, CHANNELS, l.anchors); }
  }

  /** Channel `c` of anchor `a`. */
  function Read(data: seq<real>, l: Layout, c: nat, a: nat): real
    requires c < CHANNELS && a < l.anchors && |data| >= CHANNELS * l.anchors
  {
    IndexInRange(l, c, a);
    data[Index(l, c, a)]
  }

  datatype Best = Best(score: real, class_: nat)

  /** Highest class score among channels below `c`, starting from zero. */
  function BestBelow(data: seq<real>, l: Layout, a: nat, c: nat): Best
    requires FIRST_CLASS <= c <= CHANNELS && a < l.anchors && |data| >= CHANNELS * l.anchors
  {
    if c == FIRST_CLASS then Best(0.0, 0)
    else
      var b := BestBelow(data, l, a, c - 1);
      var s := Read(data, l, c - 1, a);
      if s > b.score then Best(s, c - 1 - FIRST_CLASS) else b
  }

  /** Frame size, confidence floor, and the class names. */
  datatype Setup = Setup(width: real, height: real, conf: real, names: seq<string>)

  function NameOf(u: Setup, class_: nat): string { if class_ < |u.names| then u.names[class_] else "unknown" }

  function BoxOf(u: Setup, cx: real, cy: real, w: real, h: real): Box {
    Box(Max((cx - w / 2.0) * (u.width / INPUT), 0.0), Max((cy - h / 2.0) * (u.height / INPUT), 0.0),
        Min((cx + w / 2.0) * (u.width / INPUT), u.width), Min((cy + h / 2.0) * (u.height / INPUT), u.height))
  }

  /** Detections of the first `a` anchors. */
  function DetsBelow(data: seq<real>, l: Layout, u: Setup, a: nat): seq<Det>
    requires a <= l.anchors && |data| >= CHANNELS * l.anchors
  {
    if a == 0 then []
    else
      var rest := DetsBelow(data, l, u, a - 1);
      var b := BestBelow(data, l, a - 1, CHANNELS);
      if b.score < u.conf then rest
      else rest + [Det(NameOf(u, b.class_), b.score,
                       BoxOf(u, Read(data, l, 0, a - 1), Read(data, l, 1, a - 1),
                             Read(data, l, 2, a - 1), Read(data, l, 3, a - 1)))]
  }

  /** The buffer holds what the shape announces. */
  predicate Holds(data: seq<real>, shape: seq<int>) {
    LayoutOf(shape).Some? ==> |data| >= CHANNELS * LayoutOf(shape).value.anchors
  }

  /** What a buffer with this shape decodes to; an unknown layout gives nothing. */
  function DecodeOf(data: seq<real>, shape: seq<int>, u: Setup): seq<Det>
    requires Holds(data, shape)
  {
    match LayoutOf(shape)
    case None => []
    case Some(l) => Greedy(YoloClash(), YOLO_CAP, Sorted(DetsBelow(data, l, u, l.anchors)))
  }

  /** `decode_yolo_output` */
  method Decode(data: seq<real>, shape: seq<int>, u: Setup) returns (keep: seq<Det>)
    requires Holds(data, shape)
    ensures keep == DecodeOf(data, shape, u)
  {
    if LayoutOf(shape).None? { return []; }
    var l := LayoutOf(shape).value;
    var dets := [];
    for a := 0 to l.anchors
      invariant dets == DetsBelow(data, l, u, a)
    {
      hide BoxOf, Read;
      var best := Best(0.0, 0);
      for c := FIRST_CLASS to CHANNELS
        invariant best == BestBelow(data, l, a, c)
      {
        var s := Read(data, l, c, a);
        if s > best.score { best := Best(s, c - FIRST_CLASS); }
      }
      if best.score < u.conf { continue; }
      var box := BoxOf(u, Read(data, l, 0, a), Read(data, l, 1, a), Read(data, l, 2, a), Read(data, l, 3, a));
      dets := dets + [Det(NameOf(u, best.class_), best.score, box)];
    }
    keep := Suppress(YoloClash(), YOLO_CAP, dets);
  }

  // ---------------------------------------------------------------- layout

  /** Both buffers hold the same tensor. */
  ghost predicate SameTensor(x: seq<real>, lx: Layout, y: seq<real>, ly: Layout) {
    && lx.anchors == ly.anchors && |x| >= CHANNELS * lx.anchors && |y| >= CHANNELS * ly.anchors
    && forall c, a :: 0 <= c < CHANNELS && 0 <= a < lx.anchors ==> Read(x, lx, c, a) == Read(y, ly, c, a)
  }

  lemma {:induction false} SameBest(x: seq<real>, lx: Layout, y: seq<real>, ly: Layout, a: nat, c: nat)
    requires SameTensor(x, lx, y, ly) && a < lx.anchors && FIRST_CLASS <= c <= CHANNELS
    ensures BestBelow(x, lx, a, c) == BestBelow(y, ly, a, c)
  {
    hide Read;
    if c > FIRST_CLASS { SameBest(x, lx, y, ly, a, c - 1); }
  }

  lemma {:induction false} SameDets(x: seq<real>, lx: Layout, y: seq<real>, ly: Layout, u: Setup, a: nat)
    requires SameTensor(x, lx, y, ly) && a <= lx.anchors
    ensures DetsBelow(x, lx, u, a) == DetsBelow(y, ly, u, a)
  {
    hide Read, BoxOf, NameOf;
    if a > 0 {
      SameDets(x, lx, y, ly, u, a - 1);
      SameBest(x, lx, y, ly, a - 1, CHANNELS);
    }
  }

  /** `y` is `x` transposed: one tensor with `n` anchors, channels first in `x` and channels last in `y`. */
  ghost predicate Transposed(x: seq<real>, y: seq<real>, n: nat) {
    |x| == |y| == CHANNELS * n && forall c: nat, a: nat :: c < CHANNELS && a < n ==> SameAt(x, y, n, c, a)
  }

  ghost predicate SameAt(x: seq<real>, y: seq<real>, n: nat, c: nat, a: nat)
    requires |x| == |y| == CHANNELS * n && c < CHANNELS && a < n
  {
    IndexInRange(Layout(n, true), c, a);
    IndexInRange(Layout(n, false), c, a);
    x[c * n + a] == y[a * CHANNELS + c]
  }

  /** The two shapes of an export, and the same without the batch axis. */
  lemma LayoutsOfExports(n: nat)
    ensures LayoutOf([1, CHANNELS, n]) == LayoutOf([CHANNELS, n]) == Some(Layout(n, true))
    ensures LayoutOf([1, n, CHANNELS]) == LayoutOf([n, CHANNELS]) == Some(Layout(n, n == CHANNELS))
  {
    assert [1, CHANNELS, n][1..] == [CHANNELS, n] && [1, n, CHANNELS][1..] == [n, CHANNELS];
  }

  lemma TransposedIsSame(x: seq<real>, y: seq<real>, n: nat)
    requires Transposed(x, y, n)
    ensures SameTensor(x, Layout(n, true), y, Layout(n, false))
  {
    forall c, a | 0 <= c < CHANNELS && 0 <= a < n
      ensures Read(x, Layout(n, true), c, a) == Read(y, Layout(n, false), c, a) {
      assert SameAt(x, y, n, c, a);
    }
  }

  ghost predicate BothExportsAgree(n: nat) {
    forall x, y, u :: Transposed(x, y, n) ==> DecodesAlike(x, y, n, u)
  }

  ghost predicate DecodesAlike(x: seq<real>, y: seq<real>, n: nat, u: Setup)
    requires Transposed(x, y, n)
  {
    LayoutsOfExports(n);
    && DecodeOf(x, [1, CHANNELS, n], u) == DecodeOf(y, [1, n, CHANNELS], u)
    && DecodeOf(x, [CHANNELS, n], u) == DecodeOf(y, [n, CHANNELS], u)
  }

  /** Any tensor of 84 channels and `n` anchors decodes alike from both exports, if and only if `n` is not 84. */
  lemma LayoutDoesNotMatterExactly(n: nat)
    ensures BothExportsAgree(n) <==> n != CHANNELS
  {
    LayoutsOfExports(n);
    hide LayoutOf, Greedy, DetsBelow, YoloClash;
    if n == CHANNELS {
      SquareIsMisread();
      assert !DecodesAlike(DOT_FIRST, DOT_LAST, CHANNELS, DOT_SETUP);
    } else {
      forall x, y, u | Transposed(x, y, n) ensures DecodesAlike(x, y, n, u) {
        TransposedIsSame(x, y, n);
        hide Transposed;
        SameDets(x, Layout(n, true), y, Layout(n, false), u, n);
      }
    }
  }

  // ---------------------------------------------------------------- the square tensor

  /** Anchor 0 of 84 sees class 0, and there is nothing else; channels first and channels last. */
  const DOT_FIRST := seq(CHANNELS * CHANNELS, i => if i == FIRST_CLASS * CHANNELS then 1.0 else 0.0)
  const DOT_LAST := seq(CHANNELS * CHANNELS, i => if i == FIRST_CLASS then 1.0 else 0.0)
  const DOT_SETUP := Setup(INPUT, INPUT, 0.5, ["person"])

  lemma {:induction false} NoDets(data: seq<real>, l: Layout, u: Setup, a: nat)
    requires a <= l.anchors && |data| >= CHANNELS * l.anchors
    requires forall b: nat :: b < a ==> BestBelow(data, l, b, CHANNELS).score < u.conf
    ensures DetsBelow(data, l, u, a) == []
  {
    hide BestBelow, Read, BoxOf;
    if a > 0 { NoDets(data, l, u, a - 1); }
  }

  lemma {:induction false} SomeDets(data: seq<real>, l: Layout, u: Setup, a: nat, b: nat)
    requires b < a <= l.anchors && |data| >= CHANNELS * l.anchors
    requires BestBelow(data, l, b, CHANNELS).score >= u.conf
    ensures DetsBelow(data, l, u, a) != []
  {
    hide BestBelow, Read, BoxOf;
    if b < a - 1 { SomeDets(data, l, u, a - 1, b); }
  }

  lemma {:induction false} SomeAreKept(clash: Clash, cap: nat, dets: seq<Det>)
    requires cap > 0 && dets != []
    ensures Greedy(clash, cap, dets) != []
  {
    if |dets| > 1 { SomeAreKept(clash, cap, dets[..|dets| - 1]); }
  }

  lemma DotsAreTransposed()
    ensures Transposed(DOT_FIRST, DOT_LAST, CHANNELS)
  {
    forall c: nat, a: nat | c < CHANNELS && a < CHANNELS ensures SameAt(DOT_FIRST, DOT_LAST, CHANNELS, c, a) {
      IndexInRange(Layout(CHANNELS, true), c, a);
      IndexInRange(Layout(CHANNELS, false), c, a);
    }
  }

  /** The square tensor: seen channels first, and missed channels last, where it is read as its transpose. */
  lemma SquareIsMisread()
    ensures Transposed(DOT_FIRST, DOT_LAST, CHANNELS)
    ensures DecodeOf(DOT_FIRST, [1, CHANNELS, CHANNELS], DOT_SETUP) != []
    ensures DecodeOf(DOT_LAST, [1, CHANNELS, CHANNELS], DOT_SETUP) == []
  {
    DotsAreTransposed();
    LayoutsOfExports(CHANNELS);
    var l := Layout(CHANNELS, true);
    DotIsSeen();
    SomeDets(DOT_FIRST, l, DOT_SETUP, CHANNELS, 0);
    forall b: nat | b < CHANNELS ensures BestBelow(DOT_LAST, l, b, CHANNELS).score < DOT_SETUP.conf { DotIsMissed(b); }
    NoDets(DOT_LAST, l, DOT_SETUP, CHANNELS);
    var found := DetsBelow(DOT_FIRST, l, DOT_SETUP, CHANNELS);
    SortedSorts(found);
    assert |multiset(Sorted(found))| == |multiset(found)|;
    SomeAreKept(YoloClash(), YOLO_CAP, Sorted(found));
  }

  lemma DotIsSeen()
    ensures BestBelow(DOT_FIRST, Layout(CHANNELS, true), 0, CHANNELS).score >= 0.5
  {
    var l := Layout(CHANNELS, true);
    BestIsFirstMax(DOT_FIRST, l, 0, CHANNELS);
    assert Read(DOT_FIRST, l, FIRST_CLASS, 0) == 1.0;
    hide Read;
  }

  lemma DotIsMissed(b: nat)
    requires b < CHANNELS
    ensures BestBelow(DOT_LAST, Layout(CHANNELS, true), b, CHANNELS).score < 0.5
  {
    var l := Layout(CHANNELS, true);
    BestIsFirstMax(DOT_LAST, l, b, CHANNELS);
    hide BestBelow;
    forall c | FIRST_CLASS <= c < CHANNELS ensures Read(DOT_LAST, l, c, b) == 0.0 { }
  }

  /** No two places of the tensor share an element of the buffer, in either layout. */
  lemma IndexIsOneToOne(l: Layout, c: nat, a: nat, c': nat, a': nat)
    requires c < CHANNELS && c' < CHANNELS && a < l.anchors && a' < l.anchors
    ensures Index(l, c, a) == Index(l, c', a') <==> c == c' && a == a'
  {
    if l.channelsFirst {
      if c < c' { Times(c, c', l.anchors); }
      if c' < c { Times(c', c, l.anchors); }
    }
  }

  /** The class is the first one with the highest positive score. */
  lemma {:induction false} BestIsFirstMax(data: seq<real>, l: Layout, a: nat, c: nat)
    requires FIRST_CLASS <= c <= CHANNELS && a < l.anchors && |data| >= CHANNELS * l.anchors
    ensures var b := BestBelow(data, l, a, c);
            && b.score >= 0.0
            && (forall k :: FIRST_CLASS <= k < c ==> Read(data, l, k, a) <= b.score)
            && (b.score > 0.0 ==> FIRST_CLASS + b.class_ < c && Read(data, l, FIRST_CLASS + b.class_, a) == b.score)
            && (b.score > 0.0 ==> forall k :: FIRST_CLASS <= k < FIRST_CLASS + b.class_ ==>
                  Read(data, l, k, a) < b.score)
            && (b.score == 0.0 ==> b.class_ == 0)
  {
    hide Read;
    if c > FIRST_CLASS { BestIsFirstMax(data, l, a, c - 1); }
  }
}
