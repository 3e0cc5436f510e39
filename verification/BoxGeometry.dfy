/**
  Where the boxes of the two YOLO decoders lie. A decoder is given centre and size in the model's own
  coordinates; a point of the camera's frame is in the box that it makes exactly if the corresponding
  point of the model's picture is within half a size of the centre, on either axis.
 */
module BoxGeometry {
  import opened Numbers
  import opened Nms
  import Yolo = YoloDecoder
  import Detr = DetrDecoder

  predicate Between(x: real, low: real, high: real) { low <= x <= high }

  /** `m` is within half of `size` of `centre`. */
  predicate Near(m: real, centre: real, size: real) { Between(m, centre - size / 2.0, centre + size / 2.0) }

  predicate InBox(b: Box, x: real, y: real) { Between(x, b.x1, b.x2) && Between(y, b.y1, b.y2) }

  predicate InFrame(u: Yolo.Setup, x: real, y: real) { Between(x, 0.0, u.width) && Between(y, 0.0, u.height) }

  lemma ScaleKeepsOrder(m: real, n: real, k: real, mk: real, nk: real)
    requires k > 0.0 && mk == m * k && nk == n * k
    ensures m <= n <==> mk <= nk
  {
    if m > n { assert m * k > n * k; }
  }

  /** One axis: `left` and `right` are the scaled ends, `x` the point of the frame that belongs to `m`. */
  lemma AxisIsNear(m: real, centre: real, size: real, k: real, limit: real, x: real, left: real, right: real)
    requires k > 0.0 && x == m * k && Between(x, 0.0, limit)
    requires left == (centre - size / 2.0) * k && right == (centre + size / 2.0) * k
    ensures Between(x, Max(left, 0.0), Min(right, limit)) <==> Near(m, centre, size)
  {
    ScaleKeepsOrder(centre - size / 2.0, m, k, left, x);
    ScaleKeepsOrder(m, centre + size / 2.0, k, x, right);
  }

  /** Point `x`, `y` of the frame is where the model sees `mx`, `my`, at `kx` and `ky` pixels a unit. */
  predicate Shows(mx: real, my: real, kx: real, ky: real, x: real, y: real) { x == mx * kx && y == my * ky }

  lemma YoloAcross(u: Yolo.Setup, cx: real, cy: real, w: real, h: real, m: real, x: real)
    requires u.width > 0.0 && x == m * (u.width / 640.0) && Between(x, 0.0, u.width)
    ensures var b := Yolo.BoxOf(u, cx, cy, w, h); Between(x, b.x1, b.x2) <==> Near(m, cx, w)
  {
    hide Near;
    var k := u.width / 640.0;
    AxisIsNear(m, cx, w, k, u.width, x, (cx - w / 2.0) * k, (cx + w / 2.0) * k);
  }

  lemma YoloDown(u: Yolo.Setup, cx: real, cy: real, w: real, h: real, m: real, y: real)
    requires u.height > 0.0 && y == m * (u.height / 640.0) && Between(y, 0.0, u.height)
    ensures var b := Yolo.BoxOf(u, cx, cy, w, h); Between(y, b.y1, b.y2) <==> Near(m, cy, h)
  {
    hide Near;
    var k := u.height / 640.0;
    AxisIsNear(m, cy, h, k, u.height, y, (cy - h / 2.0) * k, (cy + h / 2.0) * k);
  }

  /** The first decoder's model works on a picture of 640 by 640. */
  lemma YoloBoxExactly(u: Yolo.Setup, cx: real, cy: real, w: real, h: real, mx: real, my: real, x: real, y: real)
    requires u.width > 0.0 && u.height > 0.0 && InFrame(u, x, y)
    requires Shows(mx, my, u.width / 640.0, u.height / 640.0, x, y)
    ensures InBox(Yolo.BoxOf(u, cx, cy, w, h), x, y) <==> Near(mx, cx, w) && Near(my, cy, h)
  {
    hide Yolo.BoxOf, Between, Near;
    YoloAcross(u, cx, cy, w, h, mx, x);
    YoloDown(u, cx, cy, w, h, my, y);
  }

  /** The same on an axis whose centre and size are scaled first. */
  lemma ScaledAxisIsNear(m: real, c: real, s: real, k: real, limit: real, x: real, ck: real, sk: real)
    requires k > 0.0 && x == m * k && Between(x, 0.0, limit) && ck == c * k && sk == s * k
    ensures Between(x, Max(ck - sk / 2.0, 0.0), Min(ck + sk / 2.0, limit)) <==> Near(m, c, s)
  {
    hide Between, Near;
    assert ck - sk / 2.0 == (c - s / 2.0) * k;
    assert ck + sk / 2.0 == (c + s / 2.0) * k;
    AxisIsNear(m, c, s, k, limit, x, ck - sk / 2.0, ck + sk / 2.0);
  }

  lemma DetrAcross(u: Yolo.Setup, b: seq<real>, m: real, x: real)
    requires |b| == 4 && u.width > 0.0 && x == m * u.width && Between(x, 0.0, u.width)
    ensures var box := Detr.BoxOf(u, b); Between(x, box.x1, box.x2) <==> Near(m, b[0], b[2])
  {
    hide Near, Detr.BoxOf;
    var cx, w := b[0] * u.width, b[2] * u.width;
    DetrSides(u, b, cx, w);
    ScaledAxisIsNear(m, b[0], b[2], u.width, u.width, x, cx, w);
  }

  lemma DetrSides(u: Yolo.Setup, b: seq<real>, cx: real, w: real)
    requires |b| == 4 && cx == b[0] * u.width && w == b[2] * u.width
    ensures var box := Detr.BoxOf(u, b); box.x1 == Max(cx - w / 2.0, 0.0) && box.x2 == Min(cx + w / 2.0, u.width)
  {
  }

  lemma DetrDown(u: Yolo.Setup, b: seq<real>, m: real, y: real)
    requires |b| == 4 && u.height > 0.0 && y == m * u.height && Between(y, 0.0, u.height)
    ensures var box := Detr.BoxOf(u, b); Between(y, box.y1, box.y2) <==> Near(m, b[1], b[3])
  {
    hide Near, Detr.BoxOf;
    var cy, h := b[1] * u.height, b[3] * u.height;
    DetrEdges(u, b, cy, h);
    ScaledAxisIsNear(m, b[1], b[3], u.height, u.height, y, cy, h);
  }

  lemma DetrEdges(u: Yolo.Setup, b: seq<real>, cy: real, h: real)
    requires |b| == 4 && cy == b[1] * u.height && h == b[3] * u.height
    ensures var box := Detr.BoxOf(u, b); box.y1 == Max(cy - h / 2.0, 0.0) && box.y2 == Min(cy + h / 2.0, u.height)
  {
  }

  /** The second decoder's model works on the unit square. */
  lemma DetrBoxExactly(u: Yolo.Setup, b: seq<real>, mx: real, my: real, x: real, y: real)
    requires |b| == 4 && u.width > 0.0 && u.height > 0.0 && InFrame(u, x, y) && Shows(mx, my, u.width, u.height, x, y)
    ensures InBox(Detr.BoxOf(u, b), x, y) <==> Near(mx, b[0], b[2]) && Near(my, b[1], b[3])
  {
    hide Detr.BoxOf, Between, Near;
    DetrAcross(u, b, mx, x);
    DetrDown(u, b, my, y);
  }

  /** No box of either decoder reaches out of the frame to the left or above, to the right or below. */
  lemma BoxesAreClipped(u: Yolo.Setup, cx: real, cy: real, w: real, h: real)
    ensures forall b :: b in [Yolo.BoxOf(u, cx, cy, w, h), Detr.BoxOf(u, [cx, cy, w, h])] ==>
              b.x1 >= 0.0 && b.y1 >= 0.0 && b.x2 <= u.width && b.y2 <= u.height
  {
  }
}
