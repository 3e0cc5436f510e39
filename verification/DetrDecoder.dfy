/**
  The two-tensor YOLO decoder of `inference.rs`: raw class logits and normalised boxes, one
  proposal a row. The sigmoid is the numerically stable one, over an `exp` of which each lemma
  names the laws it needs.
 */
module DetrDecoder {
  import opened Numbers
  import opened Options
  import opened Nms
  import Yolo = YoloDecoder

  type Exp = real -> real

  /** `exp` is positive, increasing, and one at zero. */
  ghost predicate IsExp(exp: Exp) {
    && (forall x :: exp(x) > 0.0)
    && (forall x, y :: x < y ==> exp(x) < exp(y))
    && exp(0.0) == 1.0
  }

  function Sigmoid(exp: Exp, z: real): (p: real)
    requires exp(z) > 0.0 && exp(-z) > 0.0
  {
    if z >= 0.0 then 1.0 / (1.0 + exp(-z)) else exp(z) / (1.0 + exp(z))
  }

  lemma FractionsOrder(a: real, b: real)
    requires 0.0 < a < b
    ensures 1.0 / (1.0 + b) < 1.0 / (1.0 + a) && a / (1.0 + a) < b / (1.0 + b)
  {
    var p, q := 1.0 / (1.0 + a), 1.0 / (1.0 + b);
    assert p * (1.0 + a) == 1.0 && q * (1.0 + b) == 1.0;
    if q >= p {
      assert q * (1.0 + b) > q * (1.0 + a) >= p * (1.0 + a);
    }
    RestOfFraction(a);
    RestOfFraction(b);
  }

  lemma RestOfFraction(a: real)
    requires a > 0.0
    ensures a / (1.0 + a) == 1.0 - 1.0 / (1.0 + a) && 0.0 < 1.0 / (1.0 + a) < 1.0
  {
    var p := 1.0 / (1.0 + a);
    assert p * (1.0 + a) == 1.0;
    assert p > 0.0 && p + p * a == 1.0;
    assert a / (1.0 + a) == p * a;
  }

  lemma HalfAtOne(a: real)
    requires a > 0.0
    ensures a <= 1.0 ==> 1.0 / (1.0 + a) >= 0.5
    ensures a < 1.0 ==> a / (1.0 + a) < 0.5
  {
    if a < 1.0 { FractionsOrder(a, 1.0); }
  }

  /** The stable sigmoid lies strictly between 0 and 1. */
  lemma SigmoidIsAProbability(exp: Exp, z: real)
    requires IsExp(exp)
    ensures 0.0 < Sigmoid(exp, z) < 1.0
  {
    RestOfFraction(exp(z));
    RestOfFraction(exp(-z));
  }

  /** It orders scores as the logits are ordered, across its two branches too. */
  lemma SigmoidOrders(exp: Exp, y: real, z: real)
    requires IsExp(exp)
    ensures y < z <==> Sigmoid(exp, y) < Sigmoid(exp, z)
  {
    if y < z { SigmoidGrows(exp, y, z); }
    if z < y { SigmoidGrows(exp, z, y); }
  }

  lemma SigmoidGrows(exp: Exp, y: real, z: real)
    requires IsExp(exp) && y < z
    ensures Sigmoid(exp, y) < Sigmoid(exp, z)
  {
    if y >= 0.0 {
      FractionsOrder(exp(-z), exp(-y));
    } else if z < 0.0 {
      FractionsOrder(exp(y), exp(z));
    } else {
      assert exp(y) < exp(0.0);
      assert -z == 0.0 || exp(-z) < exp(0.0);
      HalfAtOne(exp(y));
      HalfAtOne(exp(-z));
    }
  }

  // ---------------------------------------------------------------- one proposal

  /** Best class among the first `c` of a row, with its score. */
  function BestOf(exp: Exp, row: seq<real>, c: nat): Yolo.Best
    requires IsExp(exp) && c <= |row|
  {
    if c == 0 then Yolo.Best(0.0, 0)
    else
      var b := BestOf(exp, row, c - 1);
      var p := Sigmoid(exp, row[c - 1]);
      if p > b.score then Yolo.Best(p, c - 1) else b
  }

  /** `k` is the first largest of the first `c` logits. */
  ghost predicate FirstLargest(row: seq<real>, c: nat, k: nat) {
    && k < c <= |row|
    && (forall i :: 0 <= i < c ==> row[i] <= row[k])
    && (forall i :: 0 <= i < k ==> row[i] < row[k])
  }

  /** The class of a proposal is its first largest logit, and its score that logit's sigmoid. */
  lemma {:induction false} BestIsFirstLargestLogit(exp: Exp, row: seq<real>, c: nat)
    requires IsExp(exp) && 0 < c <= |row|
    ensures var b := BestOf(exp, row, c);
            FirstLargest(row, c, b.class_) && b.score == Sigmoid(exp, row[b.class_])
  {
    SigmoidIsAProbability(exp, row[c - 1]);
    if c > 1 {
      BestIsFirstLargestLogit(exp, row, c - 1);
      var k := BestOf(exp, row, c - 1).class_;
      SigmoidOrders(exp, row[k], row[c - 1]);
      hide Sigmoid;
    } else {
      assert BestOf(exp, row, 0) == Yolo.Best(0.0, 0);
    }
  }

  // ---------------------------------------------------------------- the decoder

  datatype Shape = Shape(rows: nat, columns: nat)

  /** Two dimensions, or three with a batch of one. */
  function ShapeOf(shape: seq<int>): Option<Shape> {
    var s := if |shape| == 3 && shape[0] == 1 then shape[1..] else shape;
    if |s| == 2 && s[0] >= 0 && s[1] >= 0 then Some(Shape(s[0], s[1])) else None
  }

  /** Proposals and classes, if the two tensors go together and are complete. */
  function ProposalsOf(logits: seq<real>, logitsShape: seq<int>,
                       boxes: seq<real>, boxesShape: seq<int>): (r: Option<Shape>)
    ensures r.Some? ==> && r.value.columns >= 1
                        && |logits| >= r.value.rows * r.value.columns && |boxes| >= r.value.rows * 4
  {
    var l, b := ShapeOf(logitsShape), ShapeOf(boxesShape);
    if l.None? || b.None? || b.value.columns != 4 || l.value.rows != b.value.rows || l.value.columns < 1 then None
    else if |logits| < l.value.rows * l.value.columns || |boxes| < l.value.rows * 4 then None
    else l
  }

  lemma RowFits(i: nat, rows: nat, columns: nat)
    requires i < rows
    ensures 0 <= i * columns && (i + 1) * columns <= rows * columns
    ensures (i + 1) * columns == i * columns + columns
  {
  }

  function Row(v: seq<real>, s: Shape, i: nat): (row: seq<real>)
    requires i < s.rows && |v| >= s.rows * s.columns
    ensures |row| == s.columns
  {
    RowFits(i, s.rows, s.columns);
    v[i * s.columns..(i + 1) * s.columns]
  }

  function BoxOf(u: Yolo.Setup, b: seq<real>): Box
    requires |b| == 4
  {
    var cx, cy, w, h := b[0] * u.width, b[1] * u.height, b[2] * u.width, b[3] * u.height;
    Box(Max(cx - w / 2.0, 0.0), Max(cy - h / 2.0, 0.0), Min(cx + w / 2.0, u.width), Min(cy + h / 2.0, u.height))
  }

  function Classes(u: Yolo.Setup, columns: nat): nat { if columns < |u.names| then columns else |u.names| }

  /** Detections of the first `n` proposals. */
  function DetsBelow(exp: Exp, u: Yolo.Setup, logits: seq<real>, boxes: seq<real>, s: Shape, n: nat): seq<Det>
    requires IsExp(exp) && n <= s.rows && |logits| >= s.rows * s.columns && |boxes| >= s.rows * 4
  {
    if n == 0 then []
    else
      var rest := DetsBelow(exp, u, logits, boxes, s, n - 1);
      var b := BestOf(exp, Row(logits, s, n - 1), Classes(u, s.columns));
      if b.score < u.conf then rest
      else rest + [Det(Yolo.NameOf(u, b.class_), b.score, BoxOf(u, Row(boxes, Shape(s.rows, 4), n - 1)))]
  }

  /** `decode_yolo_output_detr`: shapes that do not fit, or buffers too short for them, give nothing. */
  method Decode(exp: Exp, u: Yolo.Setup, logits: seq<real>, logitsShape: seq<int>,
                boxes: seq<real>, boxesShape: seq<int>)
    returns (keep: seq<Det>)
    requires IsExp(exp)
    ensures match ProposalsOf(logits, logitsShape, boxes, boxesShape)
            case None => keep == []
            case Some(s) => keep == Greedy(YoloClash(), YOLO_CAP, Sorted(DetsBelow(exp, u, logits, boxes, s, s.rows)))
  {
    var shape := ProposalsOf(logits, logitsShape, boxes, boxesShape);
    if shape.None? { return []; }
    var s := shape.value;
    hide ProposalsOf;
    var dets := [];
    for i := 0 to s.rows
      invariant dets == DetsBelow(exp, u, logits, boxes, s, i)
    {
      hide BoxOf, Row, Sigmoid;
      var row := Row(logits, s, i);
      var best := Yolo.Best(0.0, 0);
      for c := 0 to Classes(u, s.columns)
        invariant best == BestOf(exp, row, c)
      {
        var p := Sigmoid(exp, row[c]);
        if p > best.score { best := Yolo.Best(p, c); }
      }
      if best.score < u.conf { continue; }
      dets := dets + [Det(Yolo.NameOf(u, best.class_), best.score, BoxOf(u, Row(boxes, Shape(s.rows, 4), i)))];
    }
    keep := Suppress(YoloClash(), YOLO_CAP, dets);
  }
}
