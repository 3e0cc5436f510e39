/**
  The geometry of a fence line, from its two ends alone: which side of the straight line through
  them a point is on. y grows downwards in the picture.
 */
module FenceGeometry {
  import opened Behaviour

  /** The fence is not upright, and `x` lies between its ends, whichever of them is on the left. */
  predicate Spans(f: Fence, x: real) {
    || (f.b.x - f.a.x >= 0.0001 && f.a.x <= x <= f.b.x)
    || (f.a.x - f.b.x >= 0.0001 && f.b.x <= x <= f.a.x)
  }

  /** Twice the area of the triangle of both ends and the point; zero on the line, signed by side. */
  function Turn(f: Fence, x: real, y: real): real {
    (y - f.a.y) * (f.b.x - f.a.x) - (f.b.y - f.a.y) * (x - f.a.x)
  }

  predicate OnLine(f: Fence, x: real, y: real) { Turn(f, x, y) == 0.0 }

  predicate Beneath(f: Fence, x: real, y: real) {
    if f.a.x < f.b.x then Turn(f, x, y) > 0.0 else Turn(f, x, y) < 0.0
  }

  predicate Overhead(f: Fence, x: real, y: real) {
    if f.a.x < f.b.x then Turn(f, x, y) < 0.0 else Turn(f, x, y) > 0.0
  }

  /** The height that the rules compare with is that of the one point of the line at `x`. */
  lemma LineIsStraight(f: Fence, x: real)
    ensures LineYAt(f, x).Some? <==> Spans(f, x)
    ensures Spans(f, x) ==> forall y :: OnLine(f, x, y) <==> y == LineYAt(f, x).value
  {
    if Spans(f, x) {
      var ly := LineYAt(f, x).value;
      hide LineYAt;
      LineHolds(f, x);
      forall y ensures OnLine(f, x, y) <==> y == ly { TurnFromLine(f, x, ly, y); }
    }
  }

  lemma LineHolds(f: Fence, x: real)
    requires Spans(f, x)
    ensures LineYAt(f, x).Some? && OnLine(f, x, LineYAt(f, x).value)
  {
    var w, rise, run := f.b.x - f.a.x, f.b.y - f.a.y, x - f.a.x;
    assert w != 0.0;
    assert rise * run / w * w == rise * run;
    assert LineYAt(f, x).value - f.a.y == rise * run / w;
  }

  /** Away from the line the triangle grows with the distance in height. */
  lemma TurnFromLine(f: Fence, x: real, ly: real, y: real)
    requires Spans(f, x) && OnLine(f, x, ly)
    ensures OnLine(f, x, y) <==> y == ly
    ensures Beneath(f, x, y) <==> y > ly
    ensures Overhead(f, x, y) <==> y < ly
  {
    var w := f.b.x - f.a.x;
    assert Turn(f, x, y) == Turn(f, x, ly) + (y - ly) * w;
    SignOfProduct(y - ly, w);
  }

  lemma SignOfProduct(d: real, w: real)
    requires w != 0.0
    ensures d * w == 0.0 <==> d == 0.0
    ensures d * w > 0.0 <==> (d > 0.0 && w > 0.0) || (d < 0.0 && w < 0.0)
  {
    if d * w == 0.0 { assert d * w / w == d; }
  }

  /** Which end of a fence was drawn first has no say. */
  lemma EndsSwap(f: Fence, x: real)
    ensures LineYAt(Fence(f.name, f.b, f.a), x) == LineYAt(f, x)
  {
    var g := Fence(f.name, f.b, f.a);
    LineIsStraight(f, x);
    LineIsStraight(g, x);
    hide LineYAt;
    if Spans(f, x) {
      var y := LineYAt(f, x).value;
      assert OnLine(f, x, y);
      assert Turn(g, x, y) == -Turn(f, x, y);
      assert OnLine(g, x, y);
    }
  }
}
