/**
  The climbing rule of one track, over any number of fences. Each pose sample that shows an
  ankle is compared with every fence line at the foot's x, in the order of the fences; the
  rule reads that list of sides. Its flags are shared by all fences of the camera.
 */
module BehaviourClimbing {
  import opened Seqs
  import opened Behaviour
  import opened BehaviourRuns
  import opened BehaviourVisits
  import opened FenceGeometry

  datatype Side = Below | Above

  /** The side of the fence line the ankles at height `ay` are on, a margin of 0.01 belonging to neither. */
  function SidesAt(f: Fence, x: real, ay: real): seq<Side> {
    if !Spans(f, x) then []
    else if Beneath(f, x, ay - 0.01) then [Below]
    else if Overhead(f, x, ay + 0.01) then [Above]
    else []
  }

  lemma SidesAtLine(f: Fence, x: real, ay: real)
    ensures SidesAt(f, x, ay)
            == match LineYAt(f, x)
               case None => []
               case Some(ly) => if ay > ly + 0.01 then [Below] else if ay < ly - 0.01 then [Above] else []
  {
    LineIsStraight(f, x);
    hide LineYAt;
    if Spans(f, x) {
      var ly := LineYAt(f, x).value;
      assert OnLine(f, x, ly);
      TurnFromLine(f, x, ly, ay - 0.01);
      TurnFromLine(f, x, ly, ay + 0.01);
    }
  }

  /** Sides of the first `k` fences in one sample. */
  function Sides(rules: Rules, p: PersonFrame, ay: real, k: nat): seq<Side>
    requires k <= |rules.fences|
  {
    if k == 0 then [] else Sides(rules, p, ay, k - 1) + SidesAt(rules.fences[k - 1], p.foot.x, ay)
  }

  /** The fence behind each of these sides. */
  function SideFences(rules: Rules, p: PersonFrame, ay: real, k: nat): (names: seq<string>)
    requires k <= |rules.fences|
    ensures |names| == |Sides(rules, p, ay, k)|
  {
    if k == 0 then []
    else
      SideFences(rules, p, ay, k - 1) +
      if SidesAt(rules.fences[k - 1], p.foot.x, ay) == [] then [] else [rules.fences[k - 1].name]
  }

  function SidesOf(rules: Rules, p: PersonFrame): seq<Side> {
    if rules.climbing && p.pose.Some? && p.ankleY.Some? then Sides(rules, p, p.ankleY.value, |rules.fences|) else []
  }

  function FencesOf(rules: Rules, p: PersonFrame): (names: seq<string>)
    ensures |names| == |SidesOf(rules, p)|
  {
    if rules.climbing && p.pose.Some? && p.ankleY.Some? then SideFences(rules, p, p.ankleY.value, |rules.fences|)
    else []
  }

  /** All sides seen in the current visit, in order. */
  function VisitSides(rules: Rules, obs: seq<Obs>): seq<Side> {
    if obs == [] then []
    else (if NewVisit(obs) then [] else VisitSides(rules, Earlier(obs))) + SidesOf(rules, Last(obs).p)
  }

  ghost predicate NoBelowFrom(e: seq<Side>, k: int) {
    forall i :: 0 <= i < |e| && k <= i ==> e[i] != Below
  }

  /** Below some line once, above some line since. */
  ghost predicate WentUp(e: seq<Side>) {
    exists a, b :: 0 <= a < b < |e| && e[a] == Below && e[b] == Above && NoBelowFrom(e, b)
  }

  ghost predicate ClimbWitness(e: seq<Side>, a: int, b: int, c: int) {
    && 0 <= a < b < c < |e| && e[a] == Below && e[b] == Above && e[c] == Above
    && NoBelowFrom(e[..c], b)
  }

  /** Below a line, then twice above a line without being below in between. */
  ghost predicate WentOver(e: seq<Side>) {
    exists a, b, c :: ClimbWitness(e, a, b, c)
  }

  ghost function WhenClimbed(rules: Rules): Condition { (o: seq<Obs>) => WentOver(VisitSides(rules, o)) }

  // ---------------------------------------------------------------- the flags as an automaton

  datatype Flags = Flags(below: bool, above: nat, climbed: bool)

  function Next(w: Flags, x: Side): Flags {
    if w.climbed then w
    else if x.Below? then Flags(true, 0, false)
    else if w.below then Flags(true, w.above + 1, w.above + 1 >= 2)
    else w
  }

  function Watch(e: seq<Side>): Flags {
    if e == [] then Flags(false, 0, false) else Next(Watch(e[..|e| - 1]), e[|e| - 1])
  }

  lemma WentUpMore(e: seq<Side>, x: Side)
    ensures WentUp(e + [x]) <==> x == Above && Below in e
  {
    var f := e + [x];
    if WentUp(f) {
      var a, b :| 0 <= a < b < |f| && f[a] == Below && f[b] == Above && NoBelowFrom(f, b);
      assert f[|e|] != Below;
      assert e[a] == Below;
    }
    if x == Above && Below in e {
      var a :| 0 <= a < |e| && e[a] == Below;
      assert f[a] == Below && f[|e|] == Above && NoBelowFrom(f, |e|);
    }
  }

  lemma WentOverMore(e: seq<Side>, x: Side)
    ensures WentOver(e + [x]) <==> WentOver(e) || (x == Above && WentUp(e))
  {
    var f := e + [x];
    if WentOver(f) {
      var a, b, c :| ClimbWitness(f, a, b, c);
      if c < |e| {
        assert f[..c] == e[..c];
        assert ClimbWitness(e, a, b, c);
      } else {
        assert f[..c] == e;
        assert e[a] == Below && e[b] == Above && NoBelowFrom(e, b);
      }
    }
    if WentOver(e) {
      var a, b, c :| ClimbWitness(e, a, b, c);
      assert f[..c] == e[..c];
      assert ClimbWitness(f, a, b, c);
    }
    if x == Above && WentUp(e) {
      var a, b :| 0 <= a < b < |e| && e[a] == Below && e[b] == Above && NoBelowFrom(e, b);
      assert f[..|e|] == e;
      assert ClimbWitness(f, a, b, |e|);
    }
  }

  lemma WentUpWasBelow(e: seq<Side>)
    ensures WentUp(e) ==> Below in e
  {
  }

  ghost predicate FlagsMean(w: Flags, e: seq<Side>) {
    && w.climbed == WentOver(e)
    && (!w.climbed ==> w.below == (Below in e) && w.above == if WentUp(e) then 1 else 0)
  }

  /** The shared flags recognise exactly the lists that go over. */
  lemma {:induction false} WatchMeans(e: seq<Side>)
    ensures FlagsMean(Watch(e), e)
  {
    if e != [] {
      var d, x := e[..|e| - 1], e[|e| - 1];
      WatchMeans(d);
      InitLast(e);
      WentUpMore(d, x);
      WentOverMore(d, x);
      WentUpWasBelow(d);
      hide WentUp, WentOver;
      assert Below in e <==> Below in d || x == Below;
    }
  }

  lemma {:induction false} WatchAppend(d: seq<Side>, e: seq<Side>)
    ensures Watch(d).climbed ==> Watch(d + e) == Watch(d)
  {
    if e == [] {
      Units(d);
    } else {
      AppendInit(d, e);
      WatchAppend(d, e[..|e| - 1]);
    }
  }

  lemma WatchOneMore(d: seq<Side>, x: Side)
    ensures Watch(d + [x]) == Next(Watch(d), x)
  {
    AppendTake(d, x);
  }

  function FlagsOf(t: TrackState): Flags { Flags(t.belowFence, t.aboveFence, t.climbed) }

  // ---------------------------------------------------------------- the code against the automaton

  /** Side `c` of this sample is the one at which, after the sides `d`, the climb is confirmed. */
  predicate ClimbsAt(d: seq<Side>, e: seq<Side>, c: nat) {
    c < |e| && !Watch(d + e[..c]).climbed && Watch(d + e[..c + 1]).climbed
  }

  /** One alert at the confirming side, naming its fence; none without such a side. */
  ghost predicate FenceAlerts(p: PersonFrame, d: seq<Side>, e: seq<Side>, names: seq<string>, fired: seq<Fired>)
    requires |names| == |e|
  {
    if Watch(d + e).climbed && !Watch(d).climbed
    then exists c: nat :: ClimbsAt(d, e, c) && fired == [Fired(p.trackId, Climbing, Over(names[c]))]
    else fired == []
  }

  lemma {:induction false} FencesFollow(rules: Rules, t: TrackState, p: PersonFrame, ay: real, k: nat, d: seq<Side>)
    requires k <= |rules.fences| && FlagsOf(t) == Watch(d) && !t.climbed
    ensures FlagsOf(FencesStep(rules, t, p, ay, k).track) == Watch(d + Sides(rules, p, ay, k))
    ensures FenceAlerts(p, d, Sides(rules, p, ay, k), SideFences(rules, p, ay, k), FencesStep(rules, t, p, ay, k).fired)
  {
    hide FenceStep, FenceAlerts;
    if k == 0 {
      Units(d);
      NoSideNoAlert(p, d);
    } else {
      var f := rules.fences[k - 1];
      var e, names := Sides(rules, p, ay, k - 1), SideFences(rules, p, ay, k - 1);
      FencesFollow(rules, t, p, ay, k - 1, d);
      FenceFollows(FencesStep(rules, t, p, ay, k - 1), f, p, ay, d, e, names);
    }
  }

  lemma NoSideNoAlert(p: PersonFrame, d: seq<Side>)
    ensures FenceAlerts(p, d, [], [], [])
  {
    Units(d);
  }

  /** One more side: a climb already confirmed stays confirmed where it was. */
  lemma ClimbsAtMore(d: seq<Side>, e: seq<Side>, x: Side, c: nat)
    ensures ClimbsAt(d, e, c) ==> ClimbsAt(d, e + [x], c)
    ensures !Watch(d + e).climbed && Watch(d + e + [x]).climbed ==> ClimbsAt(d, e + [x], |e|)
  {
    hide Watch;
    assert (e + [x])[..|e|] == e && (e + [x])[..|e| + 1] == e + [x];
    Assoc(d, e, [x]);
    if c < |e| { assert (e + [x])[..c] == e[..c] && (e + [x])[..c + 1] == e[..c + 1]; }
  }

  lemma FenceFollows(before: TrackOut, f: Fence, p: PersonFrame, ay: real,
                     d: seq<Side>, e: seq<Side>, names: seq<string>)
    requires |names| == |e| && !Watch(d).climbed
    requires FlagsOf(before.track) == Watch(d + e) && FenceAlerts(p, d, e, names, before.fired)
    ensures var sides := SidesAt(f, p.foot.x, ay);
            var out := FenceStep(before, f, p, ay);
            && FlagsOf(out.track) == Watch(d + (e + sides))
            && FenceAlerts(p, d, e + sides, names + if sides == [] then [] else [f.name], out.fired)
  {
    SidesAtLine(f, p.foot.x, ay);
    hide LineYAt, Watch, SidesAt;
    var sides := SidesAt(f, p.foot.x, ay);
    Units(e);
    Units(names);
    Assoc(d, e, sides);
    if sides != [] {
      WatchOneMore(d + e, sides[0]);
      assert sides == [sides[0]];
      FenceFollowsSide(before, f, p, ay, d, e, names, sides[0]);
    }
  }

  lemma FenceFollowsSide(before: TrackOut, f: Fence, p: PersonFrame, ay: real,
                         d: seq<Side>, e: seq<Side>, names: seq<string>, x: Side)
    requires |names| == |e| && !Watch(d).climbed && SidesAt(f, p.foot.x, ay) == [x]
    requires FlagsOf(before.track) == Watch(d + e) && FenceAlerts(p, d, e, names, before.fired)
    requires Watch(d + e + [x]) == Next(Watch(d + e), x) && d + (e + [x]) == d + e + [x]
    ensures var out := FenceStep(before, f, p, ay);
            && FlagsOf(out.track) == Watch(d + e + [x])
            && FenceAlerts(p, d, e + [x], names + [f.name], out.fired)
  {
    SidesAtLine(f, p.foot.x, ay);
    hide Watch, LineYAt, SidesAt;
    if before.track.climbed {
      var c: nat :| ClimbsAt(d, e, c) && before.fired == [Fired(p.trackId, Climbing, Over(names[c]))];
      ClimbsAtMore(d, e, x, c);
      assert (names + [f.name])[c] == names[c];
    } else {
      ClimbsAtMore(d, e, x, |e|);
      assert (names + [f.name])[|e|] == f.name;
    }
  }

  lemma ClimbFollows(rules: Rules, t: TrackState, p: PersonFrame, d: seq<Side>)
    requires FlagsOf(t) == Watch(d)
    ensures var out := ClimbStep(rules, t, p);
            && FlagsOf(out.track) == Watch(d + SidesOf(rules, p))
            && FenceAlerts(p, d, SidesOf(rules, p), FencesOf(rules, p), out.fired)
  {
    hide FencesStep, Watch, Sides, SideFences;
    if t.climbed {
      WatchAppend(d, SidesOf(rules, p));
    } else if rules.climbing && p.pose.Some? && p.ankleY.Some? {
      FencesFollow(rules, t, p, p.ankleY.value, |rules.fences|, d);
    } else {
      Units(d);
    }
  }

  ghost predicate SameClimbAlerts(fired: seq<Fired>, own: seq<Fired>, id: nat) {
    forall name :: multiset(fired)[Fired(id, Climbing, Over(name))] == multiset(own)[Fired(id, Climbing, Over(name))]
  }

  /** What the last observation confirms, after the sides `d`. */
  ghost predicate ClimbAnswers(rules: Rules, obs: seq<Obs>, d: seq<Side>, own: seq<Fired>)
    requires obs != []
  {
    var p := Last(obs).p;
    FenceAlerts(p, d, SidesOf(rules, p), FencesOf(rules, p), own)
    && SameClimbAlerts(FiredAt(rules, obs), own, p.trackId)
  }

  lemma ClimbAtLast(rules: Rules, obs: seq<Obs>, d: seq<Side>)
    requires obs != [] && FlagsOf(Entry(rules, obs)) == Watch(d)
    ensures FlagsOf(Track(rules, obs)) == Watch(d + SidesOf(rules, Last(obs).p))
    ensures exists own :: ClimbAnswers(rules, obs, d, own)
  {
    hide TrackStep, ZonePart, ZonesStep, DwellStep, RunStep, DownStep, ClimbStep, Watch, SidesOf, FencesOf, FenceAlerts;
    var t, o := Entry(rules, obs), Last(obs);
    EntryOfVisit(rules, obs);
    FieldsByRule(rules, t, o.p, o.now);
    var o2 := DwellStep(rules, ZonePart(rules, t, o.p, o.now).track, o.p, o.now);
    var found := DownStep(rules, RunStep(rules, o2.track, o.p, o.now).track, o.p, o.now).track;
    ClimbFollows(rules, found, o.p, d);
    var own := ClimbStep(rules, found, o.p).fired;
    forall name ensures multiset(FiredAt(rules, obs))[Fired(o.p.trackId, Climbing, Over(name))]
                        == multiset(own)[Fired(o.p.trackId, Climbing, Over(name))] {
      CountByRule(rules, t, o.p, o.now, Fired(o.p.trackId, Climbing, Over(name)));
    }
    assert SameClimbAlerts(FiredAt(rules, obs), own, o.p.trackId);
    assert ClimbAnswers(rules, obs, d, own);
  }

  /** The sides the last observation finds already seen. */
  function SidesBefore(rules: Rules, obs: seq<Obs>): seq<Side>
    requires obs != []
  {
    if NewVisit(obs) then [] else VisitSides(rules, Earlier(obs))
  }

  lemma {:induction false} ClimbTable(rules: Rules, obs: seq<Obs>)
    requires obs != []
    ensures FlagsOf(Entry(rules, obs)) == Watch(SidesBefore(rules, obs))
    ensures FlagsOf(Track(rules, obs)) == Watch(VisitSides(rules, obs))
    decreases |obs|
  {
    hide TrackStep, Watch, SidesOf;
    EntryOfVisit(rules, obs);
    if NewVisit(obs) {
      WatchNothing();
    } else {
      ClimbTable(rules, Earlier(obs));
    }
    ClimbAtLast(rules, obs, SidesBefore(rules, obs));
  }

  lemma WatchNothing()
    ensures Watch([]) == Flags(false, 0, false)
  {
  }

  /** Going over, once reached in a visit, stays reached. */
  lemma {:induction false} OverIsFirst(rules: Rules, obs: seq<Obs>)
    requires obs != []
    ensures EverInVisit(obs, WhenClimbed(rules)) <==> WentOver(VisitSides(rules, obs))
    ensures FirstInVisit(obs, WhenClimbed(rules))
            <==> WentOver(VisitSides(rules, obs)) && !WentOver(SidesBefore(rules, obs))
  {
    hide EverInVisit, FirstInVisit, WentOver, Watch, SidesOf;
    var before, now_ := SidesBefore(rules, obs), SidesOf(rules, Last(obs).p);
    EverStep(obs, WhenClimbed(rules));
    WatchMeans([]);
    WatchNothing();
    WatchMeans(before);
    WatchMeans(before + now_);
    WatchAppend(before, now_);
    if !NewVisit(obs) { OverIsFirst(rules, Earlier(obs)); }
  }

  /** Side `c` of the last observation is the second above-side that completes the climb of the visit. */
  ghost predicate Confirms(rules: Rules, obs: seq<Obs>, c: nat)
    requires obs != []
  {
    var d, e := SidesBefore(rules, obs), SidesOf(rules, Last(obs).p);
    c < |e| && e[c] == Above && !WentOver(d + e[..c]) && WentOver(d + e[..c + 1])
  }

  ghost predicate OneClimbAlert(rules: Rules, obs: seq<Obs>, fence: string)
    requires obs != []
  {
    forall name :: multiset(FiredAt(rules, obs))[Fired(Last(obs).p.trackId, Climbing, Over(name))]
                   == if name == fence then 1 else 0
  }

  lemma ClimbsAtIsConfirmed(d: seq<Side>, e: seq<Side>, c: nat)
    requires ClimbsAt(d, e, c)
    ensures e[c] == Above && !WentOver(d + e[..c]) && WentOver(d + e[..c + 1])
  {
    WatchMeans(d + e[..c]);
    WatchMeans(d + e[..c + 1]);
    TakeNext(e, c);
    Assoc(d, e[..c], [e[c]]);
    WentOverMore(d + e[..c], e[c]);
    hide Watch, WentOver, WentUp;
  }

  /**
    Climbing, exactly: one alert at the first observation of the visit by which the sides seen went
    over, naming the fence of the above-side that completed it; none at any other observation.
   */
  lemma ClimbingExactly(rules: Rules, obs: seq<Obs>)
    requires obs != []
    ensures FirstInVisit(obs, WhenClimbed(rules)) ==>
              exists c: nat :: Confirms(rules, obs, c) && OneClimbAlert(rules, obs, FencesOf(rules, Last(obs).p)[c])
    ensures !FirstInVisit(obs, WhenClimbed(rules)) ==>
              forall name :: multiset(FiredAt(rules, obs))[Fired(Last(obs).p.trackId, Climbing, Over(name))] == 0
  {
    hide TrackStep, Watch, SidesOf, FencesOf, FirstInVisit, WentOver;
    var before, p := SidesBefore(rules, obs), Last(obs).p;
    ClimbTable(rules, obs);
    ClimbAtLast(rules, obs, before);
    WatchMeans(before);
    WatchMeans(VisitSides(rules, obs));
    OverIsFirst(rules, obs);
    var own :| ClimbAnswers(rules, obs, before, own);
    if FirstInVisit(obs, WhenClimbed(rules)) {
      var c: nat :| ClimbsAt(before, SidesOf(rules, p), c)
                    && own == [Fired(p.trackId, Climbing, Over(FencesOf(rules, p)[c]))];
      ClimbsAtIsConfirmed(before, SidesOf(rules, p), c);
      assert OneClimbAlert(rules, obs, FencesOf(rules, p)[c]);
    }
  }

  lemma {:induction false} WentOverStays(e: seq<Side>, n: nat)
    requires n <= |e| && WentOver(e[..n])
    ensures WentOver(e)
    decreases |e| - n
  {
    if n < |e| {
      TakeNext(e, n);
      WentOverMore(e[..n], e[n]);
      hide WentOver, WentUp;
      WentOverStays(e, n + 1);
    } else {
      TakeAll(e);
    }
  }

  /** There is one such side. */
  lemma ConfirmsOnce(rules: Rules, obs: seq<Obs>, b: nat, c: nat)
    requires obs != [] && Confirms(rules, obs, b) && Confirms(rules, obs, c)
    ensures b == c
  {
    var d, e := SidesBefore(rules, obs), SidesOf(rules, Last(obs).p);
    hide WentOver, SidesOf, SidesBefore;
    if b < c {
      var all := d + e[..c];
      assert all[..|d| + b + 1] == d + e[..b + 1];
      WentOverStays(all, |d| + b + 1);
    }
    if c < b {
      var all := d + e[..b];
      assert all[..|d| + c + 1] == d + e[..c + 1];
      WentOverStays(all, |d| + c + 1);
    }
  }
}
