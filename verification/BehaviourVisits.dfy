/**
  What the alerts of one track mean, in terms of what the camera observed: a visit is a
  stretch of observations with no gap of a minute, and every rule fires exactly once in a
  visit, at the first observation where its condition holds.

  This file has the visits themselves and the zone, dwell and running rules.
 */
module BehaviourVisits {
  import opened Numbers
  import opened Options
  import opened Seqs
  import opened Behaviour
  import opened BehaviourRuns

  /** State of the track after its observations. */
  function Track(rules: Rules, obs: seq<Obs>): TrackState {
    SoloRun(rules, NEW_TRACK, obs).track
  }

  /** State the last observation finds, and what that observation confirms. */
  function Entry(rules: Rules, obs: seq<Obs>): TrackState
    requires obs != []
  {
    Refresh(Track(rules, Earlier(obs)), Last(obs).now)
  }

  function FiredAt(rules: Rules, obs: seq<Obs>): seq<Fired>
    requires obs != []
  {
    TrackStep(rules, Entry(rules, obs), Last(obs).p, Last(obs).now).fired
  }

  function Last(obs: seq<Obs>): Obs
    requires obs != []
  {
    obs[|obs| - 1]
  }

  function Earlier(obs: seq<Obs>): seq<Obs>
    requires obs != []
  {
    obs[..|obs| - 1]
  }

  ghost predicate Ordered(obs: seq<Obs>) {
    forall i, j :: 0 <= i <= j < |obs| ==> obs[i].now <= obs[j].now
  }

  /** Index of the first observation of the current visit. */
  function VisitStart(obs: seq<Obs>): (v: nat)
    requires obs != []
    ensures v < |obs|
  {
    if |obs| == 1 || Since(Last(obs).now, obs[|obs| - 2].now) >= GONE then |obs| - 1
    else VisitStart(Earlier(obs))
  }

  predicate NewVisit(obs: seq<Obs>)
    requires obs != []
  {
    VisitStart(obs) == |obs| - 1
  }

  lemma LastSeen(rules: Rules, obs: seq<Obs>)
    requires obs != []
    ensures Track(rules, obs).last == Some(Last(obs).now)
  {
    hide TrackStep;
    ObservationIsOwn(rules, Entry(rules, obs), Last(obs).p, Last(obs).now);
  }

  /** An observation continues the visit, or starts from a track never seen. */
  lemma EntryOfVisit(rules: Rules, obs: seq<Obs>)
    requires obs != []
    ensures Entry(rules, obs) == if NewVisit(obs) then NEW_TRACK else Track(rules, Earlier(obs))
    ensures !NewVisit(obs) ==> |obs| >= 2 && VisitStart(obs) == VisitStart(Earlier(obs))
    ensures Track(rules, obs) == TrackStep(rules, Entry(rules, obs), Last(obs).p, Last(obs).now).track
  {
    hide TrackStep;
    if |obs| >= 2 { LastSeen(rules, Earlier(obs)); }
  }

  /** The alerts of a whole run about one track are what its observations confirmed, in order. */
  lemma AlertsAreFired(rules: Rules, ops: seq<Op>, id: nat)
    requires id != 0 && Clocked(ops) && ObsOf(ops, id) != []
    ensures var obs := ObsOf(ops, id);
            OfTrack(RunOps(rules, ops).alerts, id)
            == SoloRun(rules, NEW_TRACK, Earlier(obs)).alerts + Stamp(FiredAt(rules, obs), Last(obs).now)
  {
    hide TrackStep;
    NonInterference(rules, ops, id);
  }

  // ---------------------------------------------------------------- once per visit

  type Condition = seq<Obs> -> bool

  /** The condition held at some observation of the current visit. */
  ghost predicate EverInVisit(obs: seq<Obs>, cond: Condition) {
    obs != [] && exists m :: VisitStart(obs) < m <= |obs| && cond(obs[..m])
  }

  /** It holds now, and at no earlier observation of the visit. */
  ghost predicate FirstInVisit(obs: seq<Obs>, cond: Condition)
    requires obs != []
  {
    cond(obs) && forall m :: VisitStart(obs) < m < |obs| ==> !cond(obs[..m])
  }

  lemma EverStep(obs: seq<Obs>, cond: Condition)
    requires obs != []
    ensures EverInVisit(obs, cond) <==> cond(obs) || (!NewVisit(obs) && EverInVisit(Earlier(obs), cond))
    ensures FirstInVisit(obs, cond) <==> cond(obs) && (NewVisit(obs) || !EverInVisit(Earlier(obs), cond))
  {
    var n := |obs|;
    TakeAll(obs);
    forall m | 0 <= m < n ensures obs[..m] == Earlier(obs)[..m] { TakeTake(obs, n - 1, m); }
    if cond(obs) { assert cond(obs[..n]); }
  }

  /** In one visit there is at most one first time. */
  lemma OncePerVisit(obs: seq<Obs>, cond: Condition, m: nat, n: nat)
    requires 0 < m < n <= |obs|
    requires VisitStart(obs[..m]) == VisitStart(obs[..n])
    ensures !(FirstInVisit(obs[..m], cond) && FirstInVisit(obs[..n], cond))
  {
    TakeTake(obs, n, m);
  }

  // ---------------------------------------------------------------- counting alerts

  lemma CountOfParts(rules: Rules, t: TrackState, p: PersonFrame, now: Time, f: Fired)
    ensures var o1 := ZonePart(rules, t, p, now);
            var o2 := DwellStep(rules, o1.track, p, now);
            var o3 := RunStep(rules, o2.track, p, now);
            var o4 := DownStep(rules, o3.track, p, now);
            var o5 := ClimbStep(rules, o4.track, p);
            multiset(TrackStep(rules, t, p, now).fired)[f]
            == multiset(o1.fired)[f] + multiset(o2.fired)[f] + multiset(o3.fired)[f]
               + multiset(o4.fired)[f] + multiset(o5.fired)[f]
  {
    hide ZonePart, DwellStep, RunStep, DownStep, ClimbStep;
  }

  ghost predicate OnlyZoneAlerts(fired: seq<Fired>) {
    forall f :: f in fired ==> f.detail.Entered? || f.detail.Lingered?
  }

  lemma {:induction false} ZonesFireZoneAlerts(rules: Rules, zones: map<string, ZoneState>, p: PersonFrame,
                                               dt: real, now: Time, k: nat)
    requires k <= |rules.zones|
    ensures OnlyZoneAlerts(ZonesStep(rules, zones, p, dt, now, k).fired)
  {
    if k > 0 { ZonesFireZoneAlerts(rules, zones, p, dt, now, k - 1); }
  }

  ghost predicate OnlyFenceAlerts(fired: seq<Fired>) {
    forall f :: f in fired ==> f.detail.Over?
  }

  lemma {:induction false} FencesFireFenceAlerts(rules: Rules, t: TrackState, p: PersonFrame, ay: real, k: nat)
    requires k <= |rules.fences|
    ensures OnlyFenceAlerts(FencesStep(rules, t, p, ay, k).fired)
  {
    hide LineYAt;
    if k > 0 { FencesFireFenceAlerts(rules, t, p, ay, k - 1); }
  }

  lemma ClimbFiresFenceAlerts(rules: Rules, t: TrackState, p: PersonFrame)
    ensures OnlyFenceAlerts(ClimbStep(rules, t, p).fired)
  {
    hide FencesStep;
    if p.ankleY.Some? { FencesFireFenceAlerts(rules, t, p, p.ankleY.value, |rules.fences|); }
  }

  lemma RulesFireTheirKind(rules: Rules, t: TrackState, p: PersonFrame, now: Time)
    ensures forall f :: f in DwellStep(rules, t, p, now).fired ==> f.detail.InView?
    ensures forall f :: f in RunStep(rules, t, p, now).fired ==> f.detail.Speed?
    ensures forall f :: f in DownStep(rules, t, p, now).fired ==> f.detail.Held?
  {
    hide SquaredHeightsPerSec, Excused;
  }

  /** Each kind of alert comes out of its own rule. */
  lemma CountByRule(rules: Rules, t: TrackState, p: PersonFrame, now: Time, f: Fired)
    ensures var o1 := ZonePart(rules, t, p, now);
            var o2 := DwellStep(rules, o1.track, p, now);
            var o3 := RunStep(rules, o2.track, p, now);
            var o4 := DownStep(rules, o3.track, p, now);
            var o5 := ClimbStep(rules, o4.track, p);
            multiset(TrackStep(rules, t, p, now).fired)[f]
            == match f.detail
               case Entered(_) => multiset(o1.fired)[f]
               case Lingered(_, _) => multiset(o1.fired)[f]
               case InView(_) => multiset(o2.fired)[f]
               case Speed(_) => multiset(o3.fired)[f]
               case Held(_) => multiset(o4.fired)[f]
               case Over(_) => multiset(o5.fired)[f]
               case People(_) => 0
  {
    hide TrackStep, ZonePart, DwellStep, RunStep, DownStep, ClimbStep;
    var o1 := ZonePart(rules, t, p, now);
    var o2 := DwellStep(rules, o1.track, p, now);
    var o3 := RunStep(rules, o2.track, p, now);
    var o4 := DownStep(rules, o3.track, p, now);
    var o5 := ClimbStep(rules, o4.track, p);
    CountOfParts(rules, t, p, now, f);
    ZonePartFiresZoneAlerts(rules, t, p, now);
    RulesFireTheirKind(rules, o1.track, p, now);
    RulesFireTheirKind(rules, o2.track, p, now);
    RulesFireTheirKind(rules, o3.track, p, now);
    ClimbFiresFenceAlerts(rules, o4.track, p);
    assert f in o1.fired ==> f.detail.Entered? || f.detail.Lingered?;
    assert f in o2.fired ==> f.detail.InView?;
    assert f in o3.fired ==> f.detail.Speed?;
    assert f in o4.fired ==> f.detail.Held?;
    assert f in o5.fired ==> f.detail.Over?;
  }

  lemma ZonePartFiresZoneAlerts(rules: Rules, t: TrackState, p: PersonFrame, now: Time)
    ensures OnlyZoneAlerts(ZonePart(rules, t, p, now).fired)
  {
    ZonesFireZoneAlerts(rules, t.zones, p, Elapsed(t, now), now, |rules.zones|);
  }

  // ---------------------------------------------------------------- which rule owns which field

  ghost predicate SameDown(a: TrackState, b: TrackState) {
    a.upright == b.upright && a.downSince == b.downSince && a.downSamples == b.downSamples && a.downFired == b.downFired
  }

  ghost predicate SameClimb(a: TrackState, b: TrackState) {
    a.belowFence == b.belowFence && a.aboveFence == b.aboveFence && a.climbed == b.climbed
  }

  ghost predicate SameZonesAndDwell(a: TrackState, b: TrackState) {
    a.zones == b.zones && a.first == b.first && a.loitered == b.loitered
  }

  lemma ZonePartFields(rules: Rules, t: TrackState, p: PersonFrame, now: Time)
    ensures var u := ZonePart(rules, t, p, now).track;
            && SameDown(u, t) && SameClimb(u, t) && u.ran == t.ran && u.loitered == t.loitered
            && u.zones == ZonesStep(rules, t.zones, p, Elapsed(t, now), now, |rules.zones|).zones
            && u.first == (if t.first.Some? then t.first else Some(now))
  {
    hide ZonesStep;
  }

  lemma DwellFields(rules: Rules, t: TrackState, p: PersonFrame, now: Time)
    ensures var u := DwellStep(rules, t, p, now).track;
            SameDown(u, t) && SameClimb(u, t) && u.ran == t.ran && u.zones == t.zones && u.first == t.first
  {
  }

  lemma RunFields(rules: Rules, t: TrackState, p: PersonFrame, now: Time)
    ensures var u := RunStep(rules, t, p, now).track;
            SameDown(u, t) && SameClimb(u, t) && SameZonesAndDwell(u, t)
  {
    hide SquaredHeightsPerSec;
  }

  lemma DownFields(rules: Rules, t: TrackState, p: PersonFrame, now: Time)
    ensures var u := DownStep(rules, t, p, now).track;
            SameClimb(u, t) && SameZonesAndDwell(u, t) && u.ran == t.ran
  {
    hide Excused, Since;
  }

  lemma {:induction false} FencesFields(rules: Rules, t: TrackState, p: PersonFrame, ay: real, k: nat)
    requires k <= |rules.fences|
    ensures var u := FencesStep(rules, t, p, ay, k).track;
            SameDown(u, t) && SameZonesAndDwell(u, t) && u.ran == t.ran
  {
    hide LineYAt;
    if k > 0 { FencesFields(rules, t, p, ay, k - 1); }
  }

  lemma ClimbFields(rules: Rules, t: TrackState, p: PersonFrame)
    ensures var u := ClimbStep(rules, t, p).track;
            SameDown(u, t) && SameZonesAndDwell(u, t) && u.ran == t.ran
  {
    hide FencesStep;
    if p.ankleY.Some? { FencesFields(rules, t, p, p.ankleY.value, |rules.fences|); }
  }

  /** The state after one observation, rule by rule. */
  lemma FieldsByRule(rules: Rules, t: TrackState, p: PersonFrame, now: Time)
    ensures var o1 := ZonePart(rules, t, p, now);
            var o2 := DwellStep(rules, o1.track, p, now);
            var o3 := RunStep(rules, o2.track, p, now);
            var o4 := DownStep(rules, o3.track, p, now);
            var o5 := ClimbStep(rules, o4.track, p);
            var u := TrackStep(rules, t, p, now).track;
            && SameZonesAndDwell(u, o2.track)
            && u.zones == ZonesStep(rules, t.zones, p, Elapsed(t, now), now, |rules.zones|).zones
            && u.first == o1.track.first == (if t.first.Some? then t.first else Some(now))
            && o1.track.loitered == t.loitered
            && u.ran == o3.track.ran && o2.track.ran == t.ran
            && SameDown(u, o4.track) && SameDown(o3.track, t)
            && SameClimb(u, o5.track) && SameClimb(o4.track, t)
  {
    hide ZonePart, ZonesStep, DwellStep, RunStep, DownStep, ClimbStep;
    var o1 := ZonePart(rules, t, p, now);
    ZonePartFields(rules, t, p, now);
    DwellFields(rules, o1.track, p, now);
    var o2 := DwellStep(rules, o1.track, p, now);
    RunFields(rules, o2.track, p, now);
    var o3 := RunStep(rules, o2.track, p, now);
    DownFields(rules, o3.track, p, now);
    ClimbFields(rules, DownStep(rules, o3.track, p, now).track, p);
  }

  // ---------------------------------------------------------------- zones

  ghost predicate DistinctZones(rules: Rules) {
    forall i, j :: 0 <= i < j < |rules.zones| ==> rules.zones[i].name != rules.zones[j].name
  }

  /** A zone alert is about the zone it names. */
  predicate Names(f: Fired, name: string) {
    f.detail == Entered(name) || (f.detail.Lingered? && f.detail.zone == name)
  }

  /** With distinct names, the walk over the zones treats each zone by itself. */
  lemma {:induction false} ZoneByItself(rules: Rules, zones: map<string, ZoneState>, p: PersonFrame,
                                      dt: real, now: Time,
                                        k: nat, j: nat, f: Fired)
    requires DistinctZones(rules) && k <= |rules.zones| && j < |rules.zones| && Names(f, rules.zones[j].name)
    ensures var z := rules.zones[j];
            var out := ZonesStep(rules, zones, p, dt, now, k);
            var own := ZoneStep(rules, z, ZoneOf(zones, z.name), p, dt, now);
            && ZoneOf(out.zones, z.name) == (if j < k then own.zone else ZoneOf(zones, z.name))
            && multiset(out.fired)[f] == (if j < k then multiset(own.fired)[f] else 0)
  {
    hide ZoneStep;
    if k > 0 {
      ZoneByItself(rules, zones, p, dt, now, k - 1, j, f);
      var before := ZonesStep(rules, zones, p, dt, now, k - 1);
      var z := rules.zones[k - 1];
      var step := ZoneStep(rules, z, ZoneOf(before.zones, z.name), p, dt, now);
      CountAppend(before.fired, step.fired, f);
      if j != k - 1 {
        assert z.name != rules.zones[j].name;
        ZoneFiresItsName(rules, z, ZoneOf(before.zones, z.name), p, dt, now, f);
      }
    }
  }

  lemma ZoneFiresItsName(rules: Rules, z: Zone, zs: ZoneState, p: PersonFrame, dt: real, now: Time, f: Fired)
    requires !Names(f, z.name)
    ensures multiset(ZoneStep(rules, z, zs, p, dt, now).fired)[f] == 0
  {
    assert f !in ZoneStep(rules, z, zs, p, dt, now).fired;
  }

  predicate Inside(z: Zone, o: Obs) { z.covers(o.p.foot) }

  /** Consecutive observations of the visit, up to now, that are inside the zone. */
  function RunLength(z: Zone, obs: seq<Obs>): nat {
    if obs == [] || !Inside(z, Last(obs)) then 0
    else if NewVisit(obs) then 1
    else 1 + RunLength(z, Earlier(obs))
  }

  /** Time spent inside in this visit: gaps between consecutive inside observations, each capped at 2 s. */
  function DwellSum(z: Zone, obs: seq<Obs>): real {
    if obs == [] || NewVisit(obs) then 0.0
    else
      var before := DwellSum(z, Earlier(obs));
      if Inside(z, obs[|obs| - 2]) && Inside(z, Last(obs))
      then before + Min(Since(Last(obs).now, obs[|obs| - 2].now), DWELL_CAP)
      else before
  }

  predicate EntryConfirmed(rules: Rules, z: Zone, obs: seq<Obs>) {
    rules.intrusion && z.alertOnEnter && RunLength(z, obs) >= (if z.inertia > 1 then z.inertia else 1)
  }

  predicate LingeringConfirmed(z: Zone, obs: seq<Obs>) {
    z.loiteringSecs > 0 && DwellSum(z, obs) >= z.loiteringSecs as real
  }

  function WhenEntered(rules: Rules, z: Zone): Condition { (o: seq<Obs>) => EntryConfirmed(rules, z, o) }

  function WhenLingered(z: Zone): Condition { (o: seq<Obs>) => LingeringConfirmed(z, o) }

  ghost predicate ZoneMeans(rules: Rules, z: Zone, zs: ZoneState, obs: seq<Obs>)
    requires obs != []
  {
    && zs.inside == RunLength(z, obs)
    && zs.dwell == DwellSum(z, obs)
    && zs.lastIn.Some? == Inside(z, Last(obs))
    && zs.entered == EverInVisit(obs, WhenEntered(rules, z))
    && zs.loitered == EverInVisit(obs, WhenLingered(z))
  }

  /** The zone state the last observation finds. */
  ghost predicate ZoneFound(rules: Rules, z: Zone, zs: ZoneState, obs: seq<Obs>)
    requires obs != []
  {
    if NewVisit(obs) then zs == NEW_ZONE else ZoneMeans(rules, z, zs, Earlier(obs))
  }

  /** Dwell grows only while inside, so the threshold can only be crossed inside. */
  lemma OutsideAddsNothing(z: Zone, obs: seq<Obs>)
    requires obs != [] && !Inside(z, Last(obs))
    ensures LingeringConfirmed(z, obs) ==> !NewVisit(obs) && LingeringConfirmed(z, Earlier(obs))
  {
  }

  lemma EverNow(obs: seq<Obs>, cond: Condition)
    requires obs != [] && cond(obs)
    ensures EverInVisit(obs, cond)
  {
    TakeAll(obs);
    assert cond(obs[..|obs|]);
  }

  ghost predicate IsElapsed(obs: seq<Obs>, dt: real)
    requires obs != []
  {
    dt == if NewVisit(obs) then 0.0 else Min(Since(Last(obs).now, obs[|obs| - 2].now), DWELL_CAP)
  }

  ghost predicate ZoneAnswers(rules: Rules, z: Zone, out: ZoneOut, obs: seq<Obs>)
    requires obs != []
  {
    && ZoneMeans(rules, z, out.zone, obs)
    && out.fired == Entries(z.name, FirstInVisit(obs, WhenEntered(rules, z)), Last(obs).p.trackId)
                    + Lingerings(z.name, FirstInVisit(obs, WhenLingered(z)), Last(obs).p.trackId, DwellSum(z, obs))
  }

  lemma ZoneObservedOutside(rules: Rules, z: Zone, zs: ZoneState, obs: seq<Obs>, dt: real)
    requires obs != [] && ZoneFound(rules, z, zs, obs) && !Inside(z, Last(obs))
    ensures ZoneAnswers(rules, z, ZoneStep(rules, z, zs, Last(obs).p, dt, Last(obs).now), obs)
  {
    hide EverInVisit, FirstInVisit;
    var entered, lingered := WhenEntered(rules, z), WhenLingered(z);
    EverStep(obs, entered);
    EverStep(obs, lingered);
    OutsideAddsNothing(z, obs);
    if lingered(obs) { EverNow(Earlier(obs), lingered); }
  }

  lemma ZoneObservedInside(rules: Rules, z: Zone, zs: ZoneState, obs: seq<Obs>, dt: real)
    requires obs != [] && ZoneFound(rules, z, zs, obs) && IsElapsed(obs, dt) && Inside(z, Last(obs))
    ensures ZoneAnswers(rules, z, ZoneStep(rules, z, zs, Last(obs).p, dt, Last(obs).now), obs)
  {
    hide EverInVisit, FirstInVisit;
    EverStep(obs, WhenEntered(rules, z));
    EverStep(obs, WhenLingered(z));
  }

  lemma ZoneObserved(rules: Rules, z: Zone, zs: ZoneState, obs: seq<Obs>, dt: real)
    requires obs != [] && ZoneFound(rules, z, zs, obs) && IsElapsed(obs, dt)
    ensures ZoneAnswers(rules, z, ZoneStep(rules, z, zs, Last(obs).p, dt, Last(obs).now), obs)
  {
    hide ZoneFound, ZoneAnswers;
    if Inside(z, Last(obs)) {
      ZoneObservedInside(rules, z, zs, obs, dt);
    } else {
      ZoneObservedOutside(rules, z, zs, obs, dt);
    }
  }

  /** What the tables say about zone `j` after any observations. */
  lemma {:induction false} ZoneTable(rules: Rules, obs: seq<Obs>, j: nat)
    requires DistinctZones(rules) && j < |rules.zones| && obs != []
    ensures ZoneMeans(rules, rules.zones[j], ZoneOf(Track(rules, obs).zones, rules.zones[j].name), obs)
    decreases |obs|
  {
    hide ZoneMeans, ZoneAnswers;
    ZoneFoundByLast(rules, obs, j);
    ZoneAtLast(rules, obs, j, Fired(0, Intrusion, Entered(rules.zones[j].name)));
    AnswersMean(rules, obs, j);
  }

  lemma AnswersMean(rules: Rules, obs: seq<Obs>, j: nat)
    requires obs != [] && j < |rules.zones|
    ensures forall out :: ZoneAnswers(rules, rules.zones[j], out, obs) ==>
              ZoneMeans(rules, rules.zones[j], out.zone, obs)
  {
  }

  lemma {:induction false} ZoneFoundByLast(rules: Rules, obs: seq<Obs>, j: nat)
    requires DistinctZones(rules) && j < |rules.zones| && obs != []
    ensures var t := Entry(rules, obs);
            && ZoneFound(rules, rules.zones[j], ZoneOf(t.zones, rules.zones[j].name), obs)
            && IsElapsed(obs, Elapsed(t, Last(obs).now))
    decreases |obs|, 0
  {
    hide ZoneMeans, TrackStep;
    EntryOfVisit(rules, obs);
    if !NewVisit(obs) {
      ZoneTable(rules, Earlier(obs), j);
      LastSeen(rules, Earlier(obs));
    }
  }

  lemma ZoneAtLast(rules: Rules, obs: seq<Obs>, j: nat, f: Fired)
    requires DistinctZones(rules) && j < |rules.zones| && obs != [] && Names(f, rules.zones[j].name)
    requires ZoneFound(rules, rules.zones[j], ZoneOf(Entry(rules, obs).zones, rules.zones[j].name), obs)
    requires IsElapsed(obs, Elapsed(Entry(rules, obs), Last(obs).now))
    ensures exists out :: ZoneAnswers(rules, rules.zones[j], out, obs)
                          && ZoneOf(Track(rules, obs).zones, rules.zones[j].name) == out.zone
                          && multiset(FiredAt(rules, obs))[f] == multiset(out.fired)[f]
  {
    hide ZoneAnswers, ZoneFound, IsElapsed, TrackStep, ZonesStep, ZoneStep, DwellStep, RunStep, DownStep, ClimbStep;
    var t, o, z := Entry(rules, obs), Last(obs), rules.zones[j];
    var dt := Elapsed(t, o.now);
    EntryOfVisit(rules, obs);
    FieldsByRule(rules, t, o.p, o.now);
    CountByRule(rules, t, o.p, o.now, f);
    ZoneByItself(rules, t.zones, o.p, dt, o.now, |rules.zones|, j, f);
    ZoneObserved(rules, z, ZoneOf(t.zones, z.name), obs, dt);
  }

  /**
    Intrusion, exactly: one alert for the zone at the first observation of the visit at which the
    track has been inside for `max(inertia, 1)` observations in a row, and never otherwise.
   */
  lemma IntrusionExactly(rules: Rules, obs: seq<Obs>, j: nat)
    requires DistinctZones(rules) && j < |rules.zones| && obs != []
    ensures var z := rules.zones[j];
            multiset(FiredAt(rules, obs))[Fired(Last(obs).p.trackId, Intrusion, Entered(z.name))]
            == if FirstInVisit(obs, WhenEntered(rules, z)) then 1 else 0
  {
    hide FirstInVisit, TrackStep, ZoneMeans;
    var f := Fired(Last(obs).p.trackId, Intrusion, Entered(rules.zones[j].name));
    ZoneFoundByLast(rules, obs, j);
    ZoneAtLast(rules, obs, j, f);
  }

  /**
    Zone loitering, exactly: one alert at the first observation of the visit at which the summed
    dwell reaches the zone's threshold; the alert reports that sum.
   */
  lemma {:induction false} ZoneLoiteringExactly(rules: Rules, obs: seq<Obs>, j: nat, dwell: real)
    requires DistinctZones(rules) && j < |rules.zones| && obs != []
    ensures var z := rules.zones[j];
            multiset(FiredAt(rules, obs))[Fired(Last(obs).p.trackId, Loitering, Lingered(z.name, dwell))]
            == if FirstInVisit(obs, WhenLingered(z)) && dwell == DwellSum(z, obs) then 1 else 0
  {
    hide FirstInVisit, TrackStep, ZoneMeans;
    var f := Fired(Last(obs).p.trackId, Loitering, Lingered(rules.zones[j].name, dwell));
    ZoneFoundByLast(rules, obs, j);
    ZoneAtLast(rules, obs, j, f);
  }
}
