/**
  What the two YOLO decoders read out of their tensors: which shapes they accept, which part of the
  buffer a proposal is, and which proposals become detections, before suppression thins them out.
 */
module Detections {
  import opened DetrDecoder
  import opened Nms
  import opened Options
  import Yolo = YoloDecoder

  /** A tensor of so many rows and columns, with or without a batch of one. */
  predicate Reads(shape: seq<int>, rows: nat, columns: nat) {
    shape == [rows, columns] || shape == [1, rows, columns]
  }

  lemma WithoutBatch(shape: seq<int>, rows: nat, columns: nat)
    ensures Reads(shape, rows, columns)
            <==> var s := if |shape| == 3 && shape[0] == 1 then shape[1..] else shape; s == [rows, columns]
  {
    if |shape| == 3 { assert shape == [shape[0], shape[1], shape[2]]; }
  }

  /** Channels first if there are 84 rows, channels last if only the columns are 84, nothing otherwise. */
  lemma LayoutExactly(shape: seq<int>, n: nat)
    ensures Yolo.LayoutOf(shape) == Some(Yolo.Layout(n, true)) <==> Reads(shape, 84, n)
    ensures Yolo.LayoutOf(shape) == Some(Yolo.Layout(n, false)) <==> Reads(shape, n, 84) && n != 84
  {
    WithoutBatch(shape, 84, n);
    WithoutBatch(shape, n, 84);
  }

  lemma ShapeExactly(shape: seq<int>, rows: nat, columns: nat)
    ensures ShapeOf(shape) == Some(Shape(rows, columns)) <==> Reads(shape, rows, columns)
  {
    WithoutBatch(shape, rows, columns);
  }

  /** The pair of tensors is accepted exactly if it goes together and both buffers are long enough. */
  lemma ProposalsExactly(logits: seq<real>, logitsShape: seq<int>, boxes: seq<real>, boxesShape: seq<int>,
                         rows: nat, columns: nat)
    ensures ProposalsOf(logits, logitsShape, boxes, boxesShape) == Some(Shape(rows, columns))
            <==> && Reads(logitsShape, rows, columns) && Reads(boxesShape, rows, 4) && columns >= 1
                 && |logits| >= rows * columns && |boxes| >= rows * 4
  {
    hide ShapeOf, Reads;
    ShapeExactly(logitsShape, rows, columns);
    ShapeExactly(boxesShape, rows, 4);
    if ShapeOf(boxesShape).Some? {
      ShapeExactly(boxesShape, ShapeOf(boxesShape).value.rows, ShapeOf(boxesShape).value.columns);
    }
  }

  /** A row is its stretch of the buffer. */
  lemma RowExactly(v: seq<real>, s: Shape, i: nat, c: nat)
    requires i < s.rows && c < s.columns && |v| >= s.rows * s.columns
    ensures i * s.columns + c < |v| && Row(v, s, i)[c] == v[i * s.columns + c]
  {
    RowFits(i, s.rows, s.columns);
  }

  // ---------------------------------------------------------------- detections

  /** `at` lists the set, in ascending order. */
  ghost predicate Lists(at: seq<nat>, which: set<nat>) {
    && (forall i, j :: 0 <= i < j < |at| ==> at[i] < at[j])
    && (forall a: nat :: a in at <==> a in which)
  }

  lemma ListsMore(at: seq<nat>, which: set<nat>, n: nat)
    requires Lists(at, which) && forall a :: a in which ==> a < n
    ensures Lists(at + [n], which + {n})
  {
    forall i | 0 <= i < |at| ensures at[i] < n { assert at[i] in at; }
  }

  function Named(u: Yolo.Setup, class_: nat): string {
    if class_ < |u.names| then u.names[class_] else "unknown"
  }

  /** The detection of an anchor: its best class, that score, and the box in its first four channels. */
  predicate AnchorShows(data: seq<real>, l: Yolo.Layout, u: Yolo.Setup, a: nat, d: Det)
    requires a < l.anchors && |data| >= 84 * l.anchors
  {
    var b := Yolo.BestBelow(data, l, a, 84);
    && d.name == Named(u, b.class_) && d.score == b.score
    && d.box == Yolo.BoxOf(u, Yolo.Read(data, l, 0, a), Yolo.Read(data, l, 1, a),
                           Yolo.Read(data, l, 2, a), Yolo.Read(data, l, 3, a))
  }

  /** The anchors below `n` whose best score is not below the floor. */
  function SureAnchors(data: seq<real>, l: Yolo.Layout, u: Yolo.Setup, n: nat): set<nat>
    requires n <= l.anchors && |data| >= 84 * l.anchors
  {
    set a: nat | a < n && Yolo.BestBelow(data, l, a, 84).score >= u.conf
  }

  /** One detection for every sure anchor, in the anchors' order, and no others. */
  lemma {:induction false} AnchorsExactly(data: seq<real>, l: Yolo.Layout, u: Yolo.Setup, n: nat)
      returns (at: seq<nat>)
    requires n <= l.anchors && |data| >= 84 * l.anchors
    ensures Lists(at, SureAnchors(data, l, u, n))
    ensures var dets := Yolo.DetsBelow(data, l, u, n);
            |dets| == |at| && forall i :: 0 <= i < |at| ==> at[i] < n && AnchorShows(data, l, u, at[i], dets[i])
  {
    hide Yolo.BoxOf, Yolo.Read, Yolo.BestBelow;
    if n == 0 {
      at := [];
    } else {
      at := AnchorsExactly(data, l, u, n - 1);
      var before := SureAnchors(data, l, u, n - 1);
      if Yolo.BestBelow(data, l, n - 1, 84).score >= u.conf {
        ListsMore(at, before, n - 1);
        at := at + [n - 1];
        assert SureAnchors(data, l, u, n) == before + {n - 1};
      } else {
        assert SureAnchors(data, l, u, n) == before;
      }
    }
  }

  /** As many classes as there are both columns and names. */
  function Scored(u: Yolo.Setup, s: Shape): nat { if s.columns <= |u.names| then s.columns else |u.names| }

  /** The detection of a proposal: its best class that has a name, that score, and its row of the other tensor. */
  ghost predicate ProposalShows(exp: Exp, u: Yolo.Setup, logits: seq<real>, boxes: seq<real>, s: Shape, i: nat, d: Det)
    requires IsExp(exp) && i < s.rows && |logits| >= s.rows * s.columns && |boxes| >= s.rows * 4
  {
    var b := BestOf(exp, Row(logits, s, i), Scored(u, s));
    d.name == Named(u, b.class_) && d.score == b.score && d.box == BoxOf(u, boxes[i * 4..i * 4 + 4])
  }

  ghost function SureProposals(exp: Exp, u: Yolo.Setup, logits: seq<real>, s: Shape, n: nat): set<nat>
    requires IsExp(exp) && n <= s.rows && |logits| >= s.rows * s.columns
  {
    set i: nat | i < n && BestOf(exp, Row(logits, s, i), Scored(u, s)).score >= u.conf
  }

  /** One detection for every sure proposal, in the proposals' order, and no others. */
  lemma {:induction false} DetectionsExactly(exp: Exp, u: Yolo.Setup, logits: seq<real>, boxes: seq<real>, s: Shape,
                                             n: nat)
      returns (at: seq<nat>)
    requires IsExp(exp) && n <= s.rows && |logits| >= s.rows * s.columns && |boxes| >= s.rows * 4
    ensures Lists(at, SureProposals(exp, u, logits, s, n))
    ensures var dets := DetsBelow(exp, u, logits, boxes, s, n);
            && |dets| == |at|
            && forall i :: 0 <= i < |at| ==>
                 at[i] < n && ProposalShows(exp, u, logits, boxes, s, at[i], dets[i])
  {
    hide BoxOf, BestOf, IsExp;
    if n == 0 {
      at := [];
    } else {
      at := DetectionsExactly(exp, u, logits, boxes, s, n - 1);
      var before := SureProposals(exp, u, logits, s, n - 1);
      if BestOf(exp, Row(logits, s, n - 1), Scored(u, s)).score >= u.conf {
        ListsMore(at, before, n - 1);
        at := at + [n - 1];
        assert SureProposals(exp, u, logits, s, n) == before + {n - 1};
      } else {
        assert SureProposals(exp, u, logits, s, n) == before;
      }
    }
  }
}
