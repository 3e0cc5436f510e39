/**
  How many pose samples a climb takes. The rule is meant to see the ankles above a fence in two
  samples; since the fences of a camera share its flags, one sample is enough exactly when it is
  above two lines, and some run shows that exactly when two fences have a line at one x.
 */
module ClimbingSamples {
  import opened Numbers
  import opened Options
  import opened Seqs
  import opened Behaviour
  import opened BehaviourRuns
  import opened BehaviourVisits
  import opened BehaviourClimbing

  /**
    The climb confirmed by side `c` of the last observation owes nothing to earlier observations but
    having been below: every above-side they saw is followed by a below-side.
   */
  ghost predicate OneSample(rules: Rules, obs: seq<Obs>, c: nat)
    requires obs != [] && c < |SidesOf(rules, Last(obs).p)|
  {
    var d, e := SidesBefore(rules, obs), SidesOf(rules, Last(obs).p);
    forall i :: 0 <= i < |d| && d[i] == Above ==> BelowWithin(d + e, i, |d| + c)
  }

  ghost predicate BelowWithin(all: seq<Side>, i: int, n: int) {
    exists j :: i < j < n && 0 <= j < |all| && all[j] == Below
  }

  /** The last observation has an above-side before side `c`, with no below-side between the two. */
  ghost predicate TwoInOne(e: seq<Side>, c: nat) {
    exists b :: 0 <= b < c && b < |e| && e[b] == Above && !BelowWithin(e, b, c)
  }

  lemma BelowInSuffix(d: seq<Side>, e: seq<Side>, b: nat, c: nat)
    requires b <= c <= |e|
    ensures BelowWithin(d + e, |d| + b, |d| + c) <==> BelowWithin(e, b, c)
  {
    if j :| b < j < c && 0 <= j < |e| && e[j] == Below { assert (d + e)[|d| + j] == Below; }
    if j :| |d| + b < j < |d| + c && 0 <= j < |d + e| && (d + e)[j] == Below { assert e[j - |d|] == Below; }
  }

  lemma OverNeedsTwo(d: seq<Side>, e: seq<Side>, c: nat)
    requires c < |e| && !WentOver(d + e[..c]) && WentOver(d + e[..c + 1])
    ensures exists i :: 0 <= i < |d| + c && (d + e)[i] == Above && !BelowWithin(d + e, i, |d| + c)
  {
    var all, f, n := d + e, d + e[..c + 1], |d| + c;
    var a, b, k :| ClimbWitness(f, a, b, k);
    assert f[..n] == d + e[..c];
    if k < n {
      assert f[..n][..k] == f[..k];
      assert ClimbWitness(f[..n], a, b, k);
    }
    assert all[b] == f[b];
    forall j | b < j < n ensures all[j] != Below {
      assert all[j] == f[j] == f[..k][j];
    }
  }

  lemma TwoAreOver(all: seq<Side>, a: int, b: int, c: int)
    requires 0 <= a < b < c < |all| && all[a] == Below && all[b] == Above && all[c] == Above && !BelowWithin(all, b, c)
    ensures WentOver(all[..c + 1])
  {
    var f := all[..c + 1];
    assert forall i :: b <= i < c ==> f[..c][i] != Below by { forall i | b <= i < c ensures all[i] != Below { } }
    assert ClimbWitness(f, a, b, c);
  }

  /** One sample makes the climb if and only if it holds both above-sides itself. */
  lemma OneSampleExactly(rules: Rules, obs: seq<Obs>, c: nat)
    requires obs != [] && Confirms(rules, obs, c)
    ensures OneSample(rules, obs, c) <==> TwoInOne(SidesOf(rules, Last(obs).p), c)
  {
    var d, e := SidesBefore(rules, obs), SidesOf(rules, Last(obs).p);
    hide WentOver, SidesOf, SidesBefore;
    var all := d + e;
    OverNeedsTwo(d, e, c);
    var i :| 0 <= i < |d| + c && all[i] == Above && !BelowWithin(all, i, |d| + c);
    if i >= |d| {
      BelowInSuffix(d, e, i - |d|, c);
      assert e[i - |d|] == Above;
    }
    if TwoInOne(e, c) && !OneSample(rules, obs, c) {
      var k :| 0 <= k < |d| && d[k] == Above && !BelowWithin(all, k, |d| + c);
      var b :| 0 <= b < c && b < |e| && e[b] == Above && !BelowWithin(e, b, c);
      EarlierIsEnough(d, e, k, b, c);
      assert false;
    }
  }

  /** An above-side that counts from before the last observation is joined by its first above-side. */
  lemma EarlierIsEnough(d: seq<Side>, e: seq<Side>, i: nat, b: nat, c: nat)
    requires b < c < |e| && e[b] == Above && WentOver(d + e[..c + 1])
    requires i < |d| && d[i] == Above && !BelowWithin(d + e, i, |d| + c)
    ensures WentOver(d + e[..c])
  {
    var all, f := d + e, d + e[..c + 1];
    var a0, b0, k :| ClimbWitness(f, a0, b0, k);
    assert all[a0] == f[a0] == Below && all[i] == Above && all[|d| + b] == Above;
    if a0 < i {
      assert !BelowWithin(all, i, |d| + b);
      TwoAreOver(all, a0, i, |d| + b);
      assert all[..|d| + b + 1] == (d + e[..c])[..|d| + b + 1];
      WentOverStays(d + e[..c], |d| + b + 1);
    } else {
      assert false;
    }
  }

  /** So a sample with at most one side never makes a climb alone: two samples are needed. */
  lemma TwoSamplesIfApart(rules: Rules, obs: seq<Obs>, c: nat)
    requires obs != [] && Confirms(rules, obs, c) && |SidesOf(rules, Last(obs).p)| <= 1
    ensures !OneSample(rules, obs, c)
  {
    OneSampleExactly(rules, obs, c);
    hide OneSample, WentOver, SidesOf, SidesBefore;
  }

  // ---------------------------------------------------------------- which fences allow it

  predicate HasLine(f: Fence, x: real) { LineYAt(f, x).Some? }

  /** Two fences of the camera have a line at one x. */
  ghost predicate LinesMeet(rules: Rules) {
    exists i, j, x: real :: 0 <= i < j < |rules.fences| && HasLine(rules.fences[i], x) && HasLine(rules.fences[j], x)
  }

  /** Number of the first `k` fences with a line at `x`. */
  function Lines(rules: Rules, x: real, k: nat): nat
    requires k <= |rules.fences|
  {
    if k == 0 then 0 else Lines(rules, x, k - 1) + if HasLine(rules.fences[k - 1], x) then 1 else 0
  }

  lemma {:induction false} SidesNeedLines(rules: Rules, p: PersonFrame, ay: real, k: nat)
    requires k <= |rules.fences|
    ensures |Sides(rules, p, ay, k)| <= Lines(rules, p.foot.x, k)
  {
    hide LineYAt, SidesAt;
    if k > 0 {
      SidesNeedLines(rules, p, ay, k - 1);
      SidesAtLine(rules.fences[k - 1], p.foot.x, ay);
    }
  }

  lemma {:induction false} SomeLine(rules: Rules, x: real, k: nat) returns (i: nat)
    requires k <= |rules.fences| && Lines(rules, x, k) >= 1
    ensures i < k && HasLine(rules.fences[i], x)
  {
    hide HasLine;
    if HasLine(rules.fences[k - 1], x) { i := k - 1; } else { i := SomeLine(rules, x, k - 1); }
  }

  lemma {:induction false} TwoLines(rules: Rules, x: real, k: nat)
    requires k <= |rules.fences| && Lines(rules, x, k) >= 2
    ensures LinesMeet(rules)
  {
    hide HasLine;
    if HasLine(rules.fences[k - 1], x) {
      var i := SomeLine(rules, x, k - 1);
      assert HasLine(rules.fences[i], x) && HasLine(rules.fences[k - 1], x);
    } else {
      TwoLines(rules, x, k - 1);
    }
  }

  lemma {:induction false} LinesCount(rules: Rules, x: real, k: nat, i: nat)
    requires i < k <= |rules.fences| && HasLine(rules.fences[i], x)
    ensures Lines(rules, x, k) >= 1 + if i > 0 then Lines(rules, x, i) else 0
  {
    hide HasLine;
    if i < k - 1 { LinesCount(rules, x, k - 1, i); }
  }

  /** Every line at `x` lies between the two. */
  ghost predicate Between(rules: Rules, x: real, k: nat, lo: real, hi: real)
    requires k <= |rules.fences|
  {
    forall i :: 0 <= i < k ==> match LineYAt(rules.fences[i], x) case Some(y) => lo <= y <= hi case None => true
  }

  lemma {:induction false} LinesAreBounded(rules: Rules, x: real, k: nat) returns (lo: real, hi: real)
    requires k <= |rules.fences|
    ensures Between(rules, x, k, lo, hi)
  {
    if k == 0 { return 0.0, 0.0; }
    lo, hi := LinesAreBounded(rules, x, k - 1);
    var y := LineYAt(rules.fences[k - 1], x);
    hide LineYAt;
    if y.Some? { lo, hi := Min(lo, y.value), Max(hi, y.value); }
  }

  function Repeat(x: Side, n: nat): (v: seq<Side>)
    ensures |v| == n && forall i :: 0 <= i < n ==> v[i] == x
  {
    if n == 0 then [] else Repeat(x, n - 1) + [x]
  }

  lemma {:induction false} AllBelow(rules: Rules, p: PersonFrame, ay: real, k: nat, lo: real, hi: real)
    requires k <= |rules.fences| && Between(rules, p.foot.x, k, lo, hi) && ay > hi + 0.01
    ensures Sides(rules, p, ay, k) == Repeat(Below, Lines(rules, p.foot.x, k))
  {
    hide LineYAt, SidesAt;
    if k > 0 {
      AllBelow(rules, p, ay, k - 1, lo, hi);
      SidesAtLine(rules.fences[k - 1], p.foot.x, ay);
      Units(Sides(rules, p, ay, k - 1));
    }
  }

  lemma {:induction false} AllAbove(rules: Rules, p: PersonFrame, ay: real, k: nat, lo: real, hi: real)
    requires k <= |rules.fences| && Between(rules, p.foot.x, k, lo, hi) && ay < lo - 0.01
    ensures Sides(rules, p, ay, k) == Repeat(Above, Lines(rules, p.foot.x, k))
  {
    hide LineYAt, SidesAt;
    if k > 0 {
      AllAbove(rules, p, ay, k - 1, lo, hi);
      SidesAtLine(rules.fences[k - 1], p.foot.x, ay);
      Units(Sides(rules, p, ay, k - 1));
    }
  }

  /** A person at `x` whose ankles are at height `ay` of the picture. */
  function Stander(x: real, ay: real): PersonFrame {
    PersonFrame(1, Point(x, ay), 100.0, 1920.0, 1080.0, [], Some(Pose(None)), Some(ay))
  }

  function Climber(x: real, low: real, high: real): seq<Obs> { [Obs(Stander(x, low), 0.0), Obs(Stander(x, high), 1.0)] }

  lemma ClimberSides(rules: Rules, x: real, low: real, high: real)
    requires rules.climbing
    ensures var obs := Climber(x, low, high);
            && Last(obs) == obs[1]
            && SidesBefore(rules, obs) == SidesOf(rules, Stander(x, low))
            && SidesOf(rules, Stander(x, low)) == Sides(rules, Stander(x, low), low, |rules.fences|)
            && SidesOf(rules, Stander(x, high)) == Sides(rules, Stander(x, high), high, |rules.fences|)
  {
    var obs := Climber(x, low, high);
    assert Earlier(obs) == [obs[0]];
    hide Sides;
    assert VisitSides(rules, [obs[0]]) == [] + SidesOf(rules, obs[0].p);
    Units(SidesOf(rules, obs[0].p));
  }

  lemma BelowsThenAboves(m: nat, n: nat)
    requires m >= 1 && n >= 2
    ensures var d, e := Repeat(Below, m), Repeat(Above, n); !WentOver(d + e[..1]) && WentOver(d + e[..2])
  {
    var d, e := Repeat(Below, m), Repeat(Above, n);
    var f := d + e[..2];
    assert f[..m + 1] == d + e[..1];
    assert f[0] == Below && f[m] == Above && f[m + 1] == Above;
    assert ClimbWitness(f, 0, m, m + 1);
  }

  /** With two lines at `x`, one sample below all lines and one above them make the climb. */
  lemma ClimberClimbs(rules: Rules, x: real, lo: real, hi: real)
    requires rules.climbing && Lines(rules, x, |rules.fences|) >= 2 && Between(rules, x, |rules.fences|, lo, hi)
    ensures var obs := Climber(x, hi + 1.0, lo - 1.0); Confirms(rules, obs, 1) && OneSample(rules, obs, 1)
  {
    var obs, n := Climber(x, hi + 1.0, lo - 1.0), Lines(rules, x, |rules.fences|);
    ClimberSides(rules, x, hi + 1.0, lo - 1.0);
    AllBelow(rules, Stander(x, hi + 1.0), hi + 1.0, |rules.fences|, lo, hi);
    AllAbove(rules, Stander(x, lo - 1.0), lo - 1.0, |rules.fences|, lo, hi);
    hide Lines, Between, Sides, SidesOf, SidesBefore, Climber, WentOver;
    BelowsThenAboves(n, n);
  }

  ghost predicate SomeOneSample(rules: Rules) {
    exists obs: seq<Obs>, c: nat :: OneSampleClimb(rules, obs, c)
  }

  ghost predicate OneSampleClimb(rules: Rules, obs: seq<Obs>, c: nat) {
    obs != [] && Confirms(rules, obs, c) && OneSample(rules, obs, c)
  }

  /** One sample can make a climb if and only if two fences have a line at one x. */
  lemma OneSamplePossibleExactly(rules: Rules)
    requires rules.climbing
    ensures SomeOneSample(rules) <==> LinesMeet(rules)
  {
    hide LineYAt, WentOver, Between;
    if obs: seq<Obs>, c: nat :| OneSampleClimb(rules, obs, c) {
      OneSampleExactly(rules, obs, c);
      var p := Last(obs).p;
      SidesNeedLines(rules, p, p.ankleY.value, |rules.fences|);
      TwoLines(rules, p.foot.x, |rules.fences|);
    }
    if i, j, x: real :| 0 <= i < j < |rules.fences| && HasLine(rules.fences[i], x) && HasLine(rules.fences[j], x) {
      LinesCount(rules, x, j, i);
      LinesCount(rules, x, |rules.fences|, j);
      var lo, hi := LinesAreBounded(rules, x, |rules.fences|);
      ClimberClimbs(rules, x, lo, hi);
      assert OneSampleClimb(rules, Climber(x, hi + 1.0, lo - 1.0), 1);
    }
  }

  // ---------------------------------------------------------------- an input

  /** Two level fences, one above the other in the picture. */
  const GARDEN := Rules([],
                        [Fence("wall", Point(0.0, 0.5), Point(1.0, 0.5)),
                         Fence("hedge", Point(0.0, 0.4), Point(1.0, 0.4))],
                        false, 0, false, false, true, 0)

  lemma GardenLines()
    ensures LineYAt(GARDEN.fences[0], 0.5) == Some(0.5) && LineYAt(GARDEN.fences[1], 0.5) == Some(0.4)
    ensures Lines(GARDEN, 0.5, 2) == 2 && Between(GARDEN, 0.5, 2, 0.4, 0.5)
  {
    hide Lines;
    assert Lines(GARDEN, 0.5, 0) == 0 by { NoLines(GARDEN, 0.5); }
    LinesNext(GARDEN, 0.5, 0);
    LinesNext(GARDEN, 0.5, 1);
  }

  lemma NoLines(rules: Rules, x: real)
    ensures Lines(rules, x, 0) == 0
  {
  }

  lemma LinesNext(rules: Rules, x: real, k: nat)
    requires k < |rules.fences|
    ensures Lines(rules, x, k + 1) == Lines(rules, x, k) + if HasLine(rules.fences[k], x) then 1 else 0
  {
  }

  lemma GardenFences()
    ensures var p := Stander(0.5, -0.6); FencesOf(GARDEN, p) == ["wall", "hedge"]
  {
    var p, ay := Stander(0.5, -0.6), -0.6;
    SidesAtLine(GARDEN.fences[0], 0.5, ay);
    SidesAtLine(GARDEN.fences[1], 0.5, ay);
    GardenLines();
    hide LineYAt, SidesAt, Lines, Between;
    assert SideFences(GARDEN, p, ay, 1) == SideFences(GARDEN, p, ay, 0) + ["wall"] == ["wall"];
    assert SideFences(GARDEN, p, ay, 2) == ["wall"] + ["hedge"];
  }

  lemma OverAtEnd(d: seq<Side>, e: seq<Side>, c: nat)
    requires c < |e| && WentOver(d + e[..c + 1]) && !WentOver(d + e[..c])
    ensures WentOver(d + e) && !WentOver(d)
  {
    hide WentOver;
    assert (d + e[..c])[..|d|] == d;
    if WentOver(d) { WentOverStays(d + e[..c], |d|); }
    assert (d + e)[..|d| + c + 1] == d + e[..c + 1];
    WentOverStays(d + e, |d| + c + 1);
  }

  lemma ConfirmedIsFirst(rules: Rules, obs: seq<Obs>, c: nat)
    requires obs != [] && Confirms(rules, obs, c)
    ensures FirstInVisit(obs, WhenClimbed(rules))
  {
    hide WentOver, SidesOf, SidesBefore, VisitSides, FirstInVisit;
    OverAtEnd(SidesBefore(rules, obs), SidesOf(rules, Last(obs).p), c);
    OverIsFirst(rules, obs);
    VisitSidesAre(rules, obs);
  }

  lemma VisitSidesAre(rules: Rules, obs: seq<Obs>)
    requires obs != []
    ensures VisitSides(rules, obs) == SidesBefore(rules, obs) + SidesOf(rules, Last(obs).p)
  {
  }

  /** A person below both lines in one sample and above both in the next raises the alert, for the second fence. */
  lemma OneSampleAlert()
    ensures multiset(FiredAt(GARDEN, Climber(0.5, 1.5, -0.6)))[Fired(1, Climbing, Over("hedge"))] == 1
    ensures OneSampleClimb(GARDEN, Climber(0.5, 1.5, -0.6), 1)
  {
    var obs := Climber(0.5, 1.5, -0.6);
    GardenLines();
    GardenFences();
    ClimberClimbs(GARDEN, 0.5, 0.4, 0.5);
    assert Last(obs).p == Stander(0.5, -0.6);
    hide LineYAt, Lines, Between, Confirms, OneSample, FiredAt, FencesOf, Climber;
    ConfirmedIsFirst(GARDEN, obs, 1);
    ClimbingExactly(GARDEN, obs);
    var c: nat :| Confirms(GARDEN, obs, c) && OneClimbAlert(GARDEN, obs, FencesOf(GARDEN, Last(obs).p)[c]);
    ConfirmsOnce(GARDEN, obs, 1, c);
  }
}
