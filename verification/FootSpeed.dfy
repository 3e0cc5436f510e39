/**
  What the foot speed of the running rule measures: the last second and a half, step by step, in body
  heights per second; somebody moving evenly is given exactly their speed.
 */
module FootSpeed {
  import opened Behaviour

  // ---------------------------------------------------------------- recent points

  ghost predicate InOrder(history: seq<TrackPoint>, now: Time) {
    && (forall i, j :: 0 <= i < j < |history| ==> history[i].t <= history[j].t)
    && (forall i :: 0 <= i < |history| ==> history[i].t <= now)
  }

  /** The points from number `k` on are those at most a second and a half old. */
  ghost predicate RecentFrom(history: seq<TrackPoint>, now: Time, k: nat) {
    && k <= |history|
    && (forall i :: 0 <= i < k ==> now - history[i].t > 1.5)
    && (forall i :: k <= i < |history| ==> now - history[i].t <= 1.5)
  }

  lemma TakeDrop(history: seq<TrackPoint>, k: nat)
    requires k < |history|
    ensures history[..|history| - 1][k..] + [history[|history| - 1]] == history[k..]
  {
  }

  lemma RecentFromMore(history: seq<TrackPoint>, now: Time, k: nat)
    requires history != [] && InOrder(history, now) && RecentFrom(history[..|history| - 1], now, k)
    ensures var n := |history| - 1;
            if now - history[n].t <= 1.5 then RecentFrom(history, now, k) else k == n && RecentFrom(history, now, n + 1)
  {
    var n := |history| - 1;
    var init := history[..n];
    forall i | 0 <= i < n ensures init[i] == history[i] { }
    if k < n { assert now - init[k].t <= 1.5 && history[k].t <= history[n].t; }
  }

  /** The points used are those at most a second and a half old, none twice and none reordered. */
  lemma {:induction false} RecentExactly(history: seq<TrackPoint>, now: Time)
    requires InOrder(history, now)
    ensures exists k: nat :: RecentFrom(history, now, k) && Recent(history, now) == history[k..]
  {
    if history == [] {
      assert RecentFrom(history, now, 0) && Recent(history, now) == history[0..];
    } else {
      var n := |history| - 1;
      RecentExactly(history[..n], now);
      var k: nat :| RecentFrom(history[..n], now, k) && Recent(history[..n], now) == history[..n][k..];
      RecentFromMore(history, now, k);
      RecentNext(history, now);
      hide Recent, InOrder, RecentFrom;
      if now - history[n].t <= 1.5 { TakeDrop(history, k); }
    }
  }

  lemma RecentNext(history: seq<TrackPoint>, now: Time)
    requires history != [] && history[|history| - 1].t <= now
    ensures var p, before := history[|history| - 1], Recent(history[..|history| - 1], now);
            Recent(history, now) == if now - p.t <= 1.5 then before + [p] else before
  {
  }

  // ---------------------------------------------------------------- steps

  /** The step to point `i` is long enough in time to be measured. */
  predicate Measured(pts: seq<TrackPoint>, i: nat)
    requires 0 < i < |pts|
  {
    Since(pts[i].t, pts[i - 1].t) > 0.01
  }

  /** Points whose steps are measured. */
  function Measurable(pts: seq<TrackPoint>): (steps: seq<nat>)
    ensures forall k :: 0 <= k < |steps| ==> 0 < steps[k] < |pts|
  {
    if |pts| < 2 then []
    else Measurable(pts[..|pts| - 1]) + if Measured(pts, |pts| - 1) then [|pts| - 1] else []
  }

  function Square(x: real): real { x * x }

  /** Squared way of a step, in pixels. */
  function Way(pts: seq<TrackPoint>, i: nat, fw: real, fh: real): real
    requires 0 < i < |pts|
  {
    Square((pts[i].at.x - pts[i - 1].at.x) * fw) + Square((pts[i].at.y - pts[i - 1].at.y) * fh)
  }

  lemma SpeedTimesTime(way: real, boxH: real, dt: real)
    requires boxH > 0.0 && dt > 0.0
    ensures Square(boxH) > 0.0 && Square(dt) > 0.0
    ensures way / Square(boxH) / Square(dt) * Square(dt) * Square(boxH) == way
  {
    PositiveSquare(boxH);
    PositiveSquare(dt);
    var a := way / Square(boxH);
    assert a * Square(boxH) == way;
    assert a / Square(dt) * Square(dt) == a;
  }

  lemma PositiveSquare(x: real)
    requires x > 0.0
    ensures Square(x) > 0.0
  {
    var z := x * x;
    assert z / x == x;
  }

  /** Speed `v` covers the squared way in the time of the step. */
  predicate Covers(v: real, pts: seq<TrackPoint>, i: nat, boxH: real, fw: real, fh: real)
    requires 0 < i < |pts|
  {
    v * Square(Since(pts[i].t, pts[i - 1].t)) * Square(boxH) == Way(pts, i, fw, fh)
  }

  lemma SpeedCovers(pts: seq<TrackPoint>, i: nat, boxH: real, fw: real, fh: real)
    requires 0 < i < |pts| && boxH > 0.0 && Measured(pts, i)
    ensures Covers(StepSpeed(pts[i - 1], pts[i], boxH, fw, fh), pts, i, boxH, fw, fh)
  {
    hide Since;
    SpeedTimesTime(Way(pts, i, fw, fh), boxH, Since(pts[i].t, pts[i - 1].t));
  }

  lemma LastSpeed(pts: seq<TrackPoint>, boxH: real, fw: real, fh: real)
    requires boxH > 0.0 && |pts| >= 2
    ensures var rest, n := StepSpeeds(pts[..|pts| - 1], boxH, fw, fh), |pts| - 1;
            var all := StepSpeeds(pts, boxH, fw, fh);
            if Measured(pts, n)
            then |all| == |rest| + 1 && all[..|rest|] == rest && Covers(all[|rest|], pts, n, boxH, fw, fh)
            else all == rest
  {
    hide StepSpeed, Covers, Since;
    if Measured(pts, |pts| - 1) { SpeedCovers(pts, |pts| - 1, boxH, fw, fh); }
  }

  ghost predicate AllCover(v: seq<real>, pts: seq<TrackPoint>, steps: seq<nat>, boxH: real, fw: real, fh: real) {
    |v| == |steps| && forall k :: 0 <= k < |v| ==> 0 < steps[k] < |pts| && Covers(v[k], pts, steps[k], boxH, fw, fh)
  }

  lemma CoversMore(v: real, pts: seq<TrackPoint>, n: nat, i: nat, boxH: real, fw: real, fh: real)
    requires 0 < i < n <= |pts| && Covers(v, pts[..n], i, boxH, fw, fh)
    ensures Covers(v, pts, i, boxH, fw, fh)
  {
    var init := pts[..n];
    assert init[i] == pts[i] && init[i - 1] == pts[i - 1];
    assert Way(init, i, fw, fh) == Way(pts, i, fw, fh);
    assert Since(init[i].t, init[i - 1].t) == Since(pts[i].t, pts[i - 1].t);
  }

  /** One speed for every measured step, in order, and each covers its way. */
  lemma {:induction false} SpeedsExactly(pts: seq<TrackPoint>, boxH: real, fw: real, fh: real)
    requires boxH > 0.0
    ensures AllCover(StepSpeeds(pts, boxH, fw, fh), pts, Measurable(pts), boxH, fw, fh)
  {
    if |pts| >= 2 {
      hide StepSpeeds, Covers;
      var n, init := |pts| - 1, pts[..|pts| - 1];
      SpeedsExactly(init, boxH, fw, fh);
      LastSpeed(pts, boxH, fw, fh);
      var v, before := StepSpeeds(pts, boxH, fw, fh), StepSpeeds(init, boxH, fw, fh);
      forall k | 0 <= k < |before| ensures v[k] == before[k] { assert v[..|before|][k] == v[k]; }
      forall k | 0 <= k < |before| ensures Covers(v[k], pts, Measurable(init)[k], boxH, fw, fh) {
        CoversMore(before[k], pts, n, Measurable(init)[k], boxH, fw, fh);
      }
    } else {
      NoSpeeds(pts, boxH, fw, fh);
    }
  }

  lemma NoSpeeds(pts: seq<TrackPoint>, boxH: real, fw: real, fh: real)
    requires boxH > 0.0 && |pts| < 2
    ensures StepSpeeds(pts, boxH, fw, fh) == []
  {
  }

  // ---------------------------------------------------------------- even motion

  /** Every step goes at the velocity `vx`, `vy`, in pixels per second. */
  ghost predicate Even(pts: seq<TrackPoint>, vx: real, vy: real, fw: real, fh: real) {
    forall i :: 0 < i < |pts| ==> EvenStep(pts, i, vx, vy, fw, fh)
  }

  predicate EvenStep(pts: seq<TrackPoint>, i: nat, vx: real, vy: real, fw: real, fh: real)
    requires 0 < i < |pts|
  {
    var dt := pts[i].t - pts[i - 1].t;
    && dt >= 0.0 && (pts[i].at.x - pts[i - 1].at.x) * fw == vx * dt && (pts[i].at.y - pts[i - 1].at.y) * fh == vy * dt
  }

  lemma SameSpeed(v: real, way: real, vx: real, vy: real, dt: real, boxH: real)
    requires boxH > 0.0 && dt > 0.0 && v * Square(dt) * Square(boxH) == way && way == Square(vx * dt) + Square(vy * dt)
    ensures v * Square(boxH) == Square(vx) + Square(vy)
  {
    PositiveSquare(dt);
    assert Square(vx * dt) == Square(vx) * Square(dt);
    assert Square(vy * dt) == Square(vy) * Square(dt);
    var a, b := v * Square(boxH), Square(vx) + Square(vy);
    assert a * Square(dt) == v * Square(dt) * Square(boxH) == b * Square(dt);
    SameFactor(a, b, Square(dt));
  }

  lemma SameFactor(a: real, b: real, f: real)
    requires f > 0.0 && a * f == b * f
    ensures a == b
  {
    assert a * f / f == a && b * f / f == b;
  }

  predicate AllAre(v: seq<real>, x: real) { forall k :: 0 <= k < |v| ==> v[k] == x }

  lemma {:induction false} InsertSame(v: seq<real>, x: real)
    requires AllAre(v, x)
    ensures AllAre(Insert(v, x), x)
  {
  }

  lemma {:induction false} SortedSame(v: seq<real>, x: real)
    requires AllAre(v, x)
    ensures AllAre(Sorted(v), x)
  {
    if v != [] {
      SortedSame(v[..|v| - 1], x);
      InsertSame(Sorted(v[..|v| - 1]), x);
    }
  }

  lemma EvenSpeedAt(pts: seq<TrackPoint>, v: real, i: nat, boxH: real, fw: real, fh: real, vx: real, vy: real)
    requires boxH > 0.0 && 0 < i < |pts| && Covers(v, pts, i, boxH, fw, fh) && Measured(pts, i)
    requires EvenStep(pts, i, vx, vy, fw, fh)
    ensures v * Square(boxH) == Square(vx) + Square(vy)
  {
    var dt := pts[i].t - pts[i - 1].t;
    var way := Way(pts, i, fw, fh);
    assert way == Square(vx * dt) + Square(vy * dt);
    hide Way, Square;
    SameSpeed(v, way, vx, vy, dt, boxH);
  }

  lemma EvenSpeeds(pts: seq<TrackPoint>, boxH: real, fw: real, fh: real, vx: real, vy: real)
    requires boxH > 0.0 && Even(pts, vx, vy, fw, fh)
    ensures var v := StepSpeeds(pts, boxH, fw, fh);
            v != [] ==> v[0] * Square(boxH) == Square(vx) + Square(vy) && AllAre(v, v[0])
  {
    hide StepSpeeds, Square, Covers, EvenStep, Measured;
    var v, steps := StepSpeeds(pts, boxH, fw, fh), Measurable(pts);
    SpeedsExactly(pts, boxH, fw, fh);
    PositiveSquare(boxH);
    forall k | 0 <= k < |v| ensures v[k] * Square(boxH) == Square(vx) + Square(vy) {
      assert EvenStep(pts, steps[k], vx, vy, fw, fh);
      MeasuredSteps(pts, k);
      EvenSpeedAt(pts, v[k], steps[k], boxH, fw, fh, vx, vy);
    }
    forall k | 0 <= k < |v| ensures v[k] == v[0] { SameFactor(v[k], v[0], Square(boxH)); }
  }

  /** Somebody who moves evenly is measured at exactly their speed, if at all. */
  lemma EvenMotionIsMeasured(history: seq<TrackPoint>, boxH: real, fw: real, fh: real, now: Time, vx: real, vy: real)
    requires Even(Recent(history, now), vx, vy, fw, fh)
    ensures match SquaredHeightsPerSec(history, boxH, fw, fh, now)
            case Some(v) => v * Square(boxH) == Square(vx) + Square(vy)
            case None => true
  {
    hide StepSpeeds, Recent, Sorted, Square, Even;
    if boxH >= 24.0 {
      var v := StepSpeeds(Recent(history, now), boxH, fw, fh);
      EvenSpeeds(Recent(history, now), boxH, fw, fh, vx, vy);
      if v != [] { SortedSame(v, v[0]); }
    }
  }

  lemma {:induction false} MeasuredSteps(pts: seq<TrackPoint>, k: nat)
    requires k < |Measurable(pts)|
    ensures Measured(pts, Measurable(pts)[k])
  {
    var init := pts[..|pts| - 1];
    if k < |Measurable(init)| {
      MeasuredSteps(init, k);
      assert init[Measurable(init)[k]] == pts[Measurable(init)[k]];
    }
  }

  /** It is measured if the box is 24 pixels high and the recent points, three at least, span a second. */
  lemma MeasuredExactly(history: seq<TrackPoint>, boxH: real, fw: real, fh: real, now: Time)
    ensures SquaredHeightsPerSec(history, boxH, fw, fh, now).Some?
            <==> var pts := Recent(history, now);
                 boxH >= 24.0 && |pts| >= 3 && Since(pts[|pts| - 1].t, pts[0].t) >= 1.0 && Measurable(pts) != []
  {
    if boxH >= 24.0 { SpeedsExactly(Recent(history, now), boxH, fw, fh); }
    hide StepSpeeds, Recent, Sorted;
  }
}
