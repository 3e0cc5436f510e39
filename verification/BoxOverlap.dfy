/**
  What the overlap of two boxes measures: of all the pixels that either box holds, the share that both
  hold. Whole pixels are no restriction, since scaling both boxes changes nothing.
 */
module BoxOverlap {
  import opened Numbers
  import opened Nms

  /** A box between pixel corners; one that is turned inside out holds nothing. */
  datatype Frame = Frame(left: int, top: int, right: int, bottom: int)

  function BoxOf(f: Frame): Box { Box(f.left as real, f.top as real, f.right as real, f.bottom as real) }

  /** The pixels that a box holds. */
  function Pixels(f: Frame): set<(int, int)> {
    set x, y | f.left <= x < f.right && f.top <= y < f.bottom :: (x, y)
  }

  function Extent(low: int, high: int): nat { if low < high then high - low else 0 }

  function Strip(left: int, right: int, y: int): set<(int, int)> { set x | left <= x < right :: (x, y) }

  lemma {:induction false} StripCount(left: int, right: int, y: int)
    ensures |Strip(left, right, y)| == Extent(left, right)
    decreases right - left
  {
    if left < right {
      StripCount(left, right - 1, y);
      assert Strip(left, right, y) == Strip(left, right - 1, y) + {(right - 1, y)};
    } else {
      assert Strip(left, right, y) == {};
    }
  }

  lemma {:induction false} PixelCount(f: Frame)
    ensures |Pixels(f)| == Extent(f.left, f.right) * Extent(f.top, f.bottom)
    decreases f.bottom - f.top
  {
    if f.top < f.bottom {
      var rest, last := f.(bottom := f.bottom - 1), Strip(f.left, f.right, f.bottom - 1);
      PixelCount(rest);
      StripCount(f.left, f.right, f.bottom - 1);
      PixelsAndStrip(f);
      MoreRows(Extent(f.left, f.right), Extent(f.top, f.bottom - 1));
    } else {
      assert Pixels(f) == {};
    }
  }

  lemma PixelsAndStrip(f: Frame)
    requires f.top < f.bottom
    ensures var rest, last := Pixels(f.(bottom := f.bottom - 1)), Strip(f.left, f.right, f.bottom - 1);
            Pixels(f) == rest + last && |Pixels(f)| == |rest| + |last|
  {
    var rest, last := Pixels(f.(bottom := f.bottom - 1)), Strip(f.left, f.right, f.bottom - 1);
    assert Pixels(f) == rest + last;
    assert rest * last == {};
  }

  lemma MoreRows(w: nat, h: nat)
    ensures w * h + w == w * (h + 1)
  {
  }

  function Larger(a: int, b: int): int { if a >= b then a else b }

  function Smaller(a: int, b: int): int { if a <= b then a else b }

  function Common(f: Frame, g: Frame): Frame {
    Frame(Larger(f.left, g.left), Larger(f.top, g.top), Smaller(f.right, g.right), Smaller(f.bottom, g.bottom))
  }

  lemma CommonPixels(f: Frame, g: Frame)
    ensures Pixels(Common(f, g)) == Pixels(f) * Pixels(g)
  {
  }

  lemma ProductOfReals(w: nat, h: nat)
    ensures (w * h) as real == w as real * h as real
  {
  }

  lemma AreaIsCount(f: Frame)
    ensures Area(BoxOf(f)) == |Pixels(f)| as real
  {
    PixelCount(f);
    hide Pixels;
    var w, h := Extent(f.left, f.right), Extent(f.top, f.bottom);
    ProductOfReals(w, h);
    assert Max(f.right as real - f.left as real, 0.0) == w as real;
    assert Max(f.bottom as real - f.top as real, 0.0) == h as real;
  }

  lemma InterIsCount(f: Frame, g: Frame)
    ensures Inter(BoxOf(f), BoxOf(g)) == |Pixels(f) * Pixels(g)| as real
  {
    AreaIsCount(Common(f, g));
    CommonPixels(f, g);
    hide Pixels;
    assert Inter(BoxOf(f), BoxOf(g)) == Area(BoxOf(Common(f, g)));
  }

  /** The overlap is the number of pixels in both boxes over the number in either, zero if there are none. */
  lemma IouIsShareOfPixels(f: Frame, g: Frame)
    ensures var both, either := Pixels(f) * Pixels(g), Pixels(f) + Pixels(g);
            Iou(BoxOf(f), BoxOf(g)) == if either == {} then 0.0 else |both| as real / |either| as real
  {
    var both, either := Pixels(f) * Pixels(g), Pixels(f) + Pixels(g);
    AreaIsCount(f);
    AreaIsCount(g);
    InterIsCount(f, g);
    hide Pixels, Area, Inter, BoxOf;
    assert |either| + |both| == |Pixels(f)| + |Pixels(g)|;
    if either != {} { assert |either| > 0; }
  }

  lemma AboveHalf(x: real, y: real)
    requires y > 0.0
    ensures x / y > 0.5 <==> 2.0 * x > y
  {
    var q := x / y;
    assert x == q * y;
    assert x - 0.5 * y == (q - 0.5) * y;
    if q > 0.5 { assert (q - 0.5) * y > 0.0; } else { assert (0.5 - q) * y >= 0.0; }
  }

  /** Two detections compete exactly if they have one label and share more than half of the pixels either covers. */
  lemma ClashExactly(f: Frame, g: Frame, d: Det, e: Det)
    requires d.box == BoxOf(f) && e.box == BoxOf(g)
    ensures YoloClash()(d, e) <==> d.name == e.name && 2 * |Pixels(f) * Pixels(g)| > |Pixels(f) + Pixels(g)|
  {
    hide Iou, Pixels, BoxOf;
    IouIsShareOfPixels(f, g);
    var both, either := Pixels(f) * Pixels(g), Pixels(f) + Pixels(g);
    if either != {} {
      assert |either| > 0;
      AboveHalf(|both| as real, |either| as real);
    } else {
      assert both == {};
    }
  }

  // ---------------------------------------------------------------- scale

  /** A product, kept apart from the arithmetic around it. */
  function By(k: real, x: real): real { k * x }

  function Scaled(b: Box, k: real): Box { Box(By(k, b.x1), By(k, b.y1), By(k, b.x2), By(k, b.y2)) }

  lemma ByIs(k: real, x: real, y: real)
    ensures By(k, x) - By(k, y) == By(k, x - y) && By(k, 0.0) == 0.0
  {
    assert k * x - k * y == k * (x - y);
  }

  lemma MaxScales(a: real, b: real, k: real)
    requires k > 0.0
    ensures Max(By(k, a), By(k, b)) == By(k, Max(a, b)) && Min(By(k, a), By(k, b)) == By(k, Min(a, b))
  {
    if a >= b { assert k * a >= k * b; }
    if a <= b { assert k * a <= k * b; }
  }

  lemma LengthScales(a: real, b: real, k: real)
    requires k > 0.0
    ensures Max(By(k, b) - By(k, a), 0.0) == By(k, Max(b - a, 0.0))
  {
    ByIs(k, b, a);
    MaxScales(b - a, 0.0, k);
    hide By;
  }

  lemma ProductScales(a: real, b: real, r: real, k: real, p: real, q: real, s: real)
    requires r == a * b && s == p * q && p == By(k, a) && q == By(k, b)
    ensures s == By(By(k, k), r)
  {
    assert (k * a) * (k * b) == (k * k) * (a * b);
  }

  lemma AreaScales(b: Box, k: real)
    requires k > 0.0
    ensures Area(Scaled(b, k)) == By(By(k, k), Area(b))
  {
    hide By, Max;
    LengthScales(b.x1, b.x2, k);
    LengthScales(b.y1, b.y2, k);
    var c := Scaled(b, k);
    ProductScales(Max(b.x2 - b.x1, 0.0), Max(b.y2 - b.y1, 0.0), Area(b), k,
                  Max(c.x2 - c.x1, 0.0), Max(c.y2 - c.y1, 0.0), Area(c));
  }

  lemma OverlapScales(a1: real, a2: real, b1: real, b2: real, k: real)
    requires k > 0.0
    ensures Overlap(By(k, a1), By(k, a2), By(k, b1), By(k, b2)) == By(k, Overlap(a1, a2, b1, b2))
  {
    hide By, Max, Min;
    MaxScales(a1, b1, k);
    MaxScales(a2, b2, k);
    LengthScales(Max(a1, b1), Min(a2, b2), k);
  }

  lemma InterScales(a: Box, b: Box, k: real)
    requires k > 0.0
    ensures Inter(Scaled(a, k), Scaled(b, k)) == By(By(k, k), Inter(a, b))
  {
    hide By, Overlap;
    OverlapScales(a.x1, a.x2, b.x1, b.x2, k);
    OverlapScales(a.y1, a.y2, b.y1, b.y2, k);
    var c, d := Scaled(a, k), Scaled(b, k);
    ProductScales(Overlap(a.x1, a.x2, b.x1, b.x2), Overlap(a.y1, a.y2, b.y1, b.y2), Inter(a, b), k,
                  Overlap(c.x1, c.x2, d.x1, d.x2), Overlap(c.y1, c.y2, d.y1, d.y2), Inter(c, d));
  }

  lemma CommonFactor(x: real, y: real, f: real)
    requires f > 0.0
    ensures f * y > 0.0 <==> y > 0.0
    ensures y > 0.0 ==> (f * x) / (f * y) == x / y
  {
    if y > 0.0 {
      assert f * y > 0.0 * y;
      var q := x / y;
      assert q * y == x;
      assert q * (f * y) == f * x;
    } else {
      assert f * y <= f * 0.0;
    }
  }

  lemma SharesScale(areaA: real, areaB: real, inter: real, f: real)
    requires f > 0.0
    ensures var union, scaled := areaA + areaB - inter, By(f, areaA) + By(f, areaB) - By(f, inter);
            && (scaled <= 0.0 <==> union <= 0.0)
            && (union > 0.0 ==> By(f, inter) / scaled == inter / union)
  {
    var union := areaA + areaB - inter;
    assert f * areaA + f * areaB - f * inter == f * union;
    CommonFactor(inter, union, f);
  }

  lemma SquareIsPositive(k: real)
    requires k > 0.0
    ensures By(k, k) > 0.0
  {
    var z := k * k;
    assert z / k == k;
  }

  /** The overlap does not depend on the scale of the picture. */
  lemma IouScales(a: Box, b: Box, k: real)
    requires k > 0.0
    ensures Iou(Scaled(a, k), Scaled(b, k)) == Iou(a, b)
  {
    hide Area, Inter, Scaled, By;
    AreaScales(a, k);
    AreaScales(b, k);
    InterScales(a, b, k);
    SquareIsPositive(k);
    SharesScale(Area(a), Area(b), Inter(a, b), By(k, k));
  }
}
