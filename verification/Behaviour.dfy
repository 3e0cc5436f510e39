/**
  The behaviour rule engine of `behaviour.rs`: per-track machines for intrusion, dwell,
  running, person-down and climbing, and a per-camera crowd machine.

  The class `CamState` is the code, with the tables it updates in place; the functions in
  front of it say what one frame does to one track, so that runs can be reasoned about.
  Times are seconds, coordinates and angles are exact reals, counters are unbounded.
 */
module Behaviour {
  import opened Numbers
  import opened Options
  import opened Seqs

  type Time = real

  const GONE := 60.0
  const RUN_HEIGHTS_PER_SEC := 1.8
  const DOWN_DEG := 60.0
  const UPRIGHT_DEG := 30.0
  const RISEN_DEG := 45.0
  const DOWN_HOLD := 10.0
  const DOWN_SAMPLES := 3
  const CROWD_HOLD := 5.0
  const CROWD_GAP := 3.0
  const CROWD_REARM := 30.0
  const POSE_EVERY := 1.0
  const DWELL_CAP := 2.0

  datatype Point = Point(x: real, y: real)

  /** `covers` stands for the point-in-polygon test of the zone's outline. */
  datatype Zone = Zone(name: string, covers: Point -> bool, alertOnEnter: bool,
                       loiteringSecs: nat, inertia: nat, ignoreDown: bool)

  datatype Fence = Fence(name: string, a: Point, b: Point)

  datatype Rules = Rules(zones: seq<Zone>, fences: seq<Fence>, intrusion: bool, loiterSecs: nat,
                         running: bool, down: bool, climbing: bool, crowdThreshold: nat)
  {
    predicate WantsPose() { down || (climbing && fences != []) }
  }

  datatype TrackPoint = TrackPoint(at: Point, t: Time)

  datatype Pose = Pose(torsoAngle: Option<real>)

  datatype PersonFrame = PersonFrame(trackId: nat, foot: Point, boxH: real, frameW: real, frameH: real,
                                     history: seq<TrackPoint>, pose: Option<Pose>, ankleY: Option<real>)

  datatype Kind = Intrusion | Loitering | Running | Down | Climbing | Crowd

  /** The values the code formats into the alert text. */
  datatype Detail =
    | Entered(zone: string)
    | Lingered(zone: string, dwell: real)
    | InView(dwell: real)
    | Speed(squared: real)
    | Held(secs: real)
    | Over(fence: string)
    | People(count: nat)

  datatype Fired = Fired(trackId: nat, kind: Kind, detail: Detail)

  datatype ZoneState = ZoneState(inside: nat, dwell: real, lastIn: Option<Time>, entered: bool, loitered: bool)

  datatype TrackState = TrackState(
    first: Option<Time>, last: Option<Time>, maxH: real, zones: map<string, ZoneState>,
    loitered: bool, ran: bool,
    upright: bool, downSince: Option<Time>, downSamples: nat, downFired: bool,
    belowFence: bool, aboveFence: nat, climbed: bool, lastPose: Option<Time>)

  datatype CrowdState = CrowdState(since: Option<Time>, last: Option<Time>, fired: bool)

  /** A machine after one input, with what it confirmed. */
  datatype ZoneOut = ZoneOut(zone: ZoneState, fired: seq<Fired>)
  datatype ZonesOut = ZonesOut(zones: map<string, ZoneState>, fired: seq<Fired>)
  datatype TrackOut = TrackOut(track: TrackState, fired: seq<Fired>)
  datatype TracksOut = TracksOut(tracks: Tracks, fired: seq<Fired>)
  datatype CrowdOut = CrowdOut(crowd: CrowdState, fired: seq<Fired>)

  const NEW_ZONE := ZoneState(0, 0.0, None, false, false)
  const NEW_TRACK := TrackState(None, None, 0.0, map[], false, false, false, None, 0, false, false, 0, false, None)
  const NEW_CROWD := CrowdState(None, None, false)

  /** `Instant::duration_since`, which is zero rather than negative. */
  function Since(now: Time, then_: Time): real {
    if now >= then_ then now - then_ else 0.0
  }

  // ---------------------------------------------------------------- speed

  /** Recent points: at most 1.5 s old. */
  function Recent(history: seq<TrackPoint>, now: Time): seq<TrackPoint> {
    if history == [] then []
    else
      var rest := Recent(history[..|history| - 1], now);
      var p := history[|history| - 1];
      if Since(now, p.t) <= 1.5 then rest + [p] else rest
  }

  /** Squared speed of one step, in body heights per second. */
  function StepSpeed(a: TrackPoint, b: TrackPoint, boxH: real, fw: real, fh: real): real
    requires boxH > 0.0 && Since(b.t, a.t) > 0.01
  {
    var dt := Since(b.t, a.t);
    var (dx, dy) := ((b.at.x - a.at.x) * fw, (b.at.y - a.at.y) * fh);
    ((dx * dx + dy * dy) / (boxH * boxH)) / (dt * dt)
  }

  /** That of every step of more than 10 ms. */
  function StepSpeeds(pts: seq<TrackPoint>, boxH: real, fw: real, fh: real): seq<real>
    requires boxH > 0.0
  {
    if |pts| < 2 then []
    else
      var rest := StepSpeeds(pts[..|pts| - 1], boxH, fw, fh);
      var (a, b) := (pts[|pts| - 2], pts[|pts| - 1]);
      if Since(b.t, a.t) <= 0.01 then rest else rest + [StepSpeed(a, b, boxH, fw, fh)]
  }

  function Insert(v: seq<real>, x: real): seq<real> {
    if v == [] || v[|v| - 1] <= x then v + [x] else Insert(v[..|v| - 1], x) + [v[|v| - 1]]
  }

  function Sorted(v: seq<real>): (r: seq<real>)
    ensures |r| == |v|
  {
    if v == [] then [] else InsertLength(Sorted(v[..|v| - 1]), v[|v| - 1]); Insert(Sorted(v[..|v| - 1]), v[|v| - 1])
  }

  lemma {:induction false} InsertLength(v: seq<real>, x: real)
    ensures |Insert(v, x)| == |v| + 1
  {
    if v != [] && v[|v| - 1] > x { InsertLength(v[..|v| - 1], x); }
  }

  /** Square of the median foot speed, once there is a second of motion history. */
  function SquaredHeightsPerSec(history: seq<TrackPoint>, boxH: real, fw: real, fh: real, now: Time): Option<real> {
    if boxH < 24.0 then None
    else
      var pts := Recent(history, now);
      if |pts| < 3 || Since(pts[|pts| - 1].t, pts[0].t) < 1.0 then None
      else
        var v := StepSpeeds(pts, boxH, fw, fh);
        if v == [] then None else Some(Sorted(v)[|v| / 2])
  }

  /** The fence line's y at `x`, when `x` lies within its horizontal span. */
  function LineYAt(f: Fence, x: real): Option<real> {
    var width := f.b.x - f.a.x;
    if x < Min(f.a.x, f.b.x) || x > Max(f.a.x, f.b.x) || (-0.0001 < width && width < 0.0001) then None
    else Some(f.a.y + (f.b.y - f.a.y) * (x - f.a.x) / width)
  }

  // ---------------------------------------------------------------- one observation of one track

  function Entries(name: string, yes: bool, id: nat): seq<Fired> {
    if yes then [Fired(id, Intrusion, Entered(name))] else []
  }

  function Lingerings(name: string, yes: bool, id: nat, dwell: real): seq<Fired> {
    if yes then [Fired(id, Loitering, Lingered(name, dwell))] else []
  }

  function ZoneStep(rules: Rules, z: Zone, zs: ZoneState, p: PersonFrame, dt: real, now: Time): ZoneOut {
    if z.covers(p.foot) then
      var inside := zs.inside + 1;
      var dwell := if zs.lastIn.Some? then zs.dwell + dt else zs.dwell;
      var enters := rules.intrusion && z.alertOnEnter && !zs.entered
                    && inside >= (if z.inertia > 1 then z.inertia else 1);
      var lingers := z.loiteringSecs > 0 && !zs.loitered && dwell >= z.loiteringSecs as real;
      ZoneOut(ZoneState(inside, dwell, Some(now), zs.entered || enters, zs.loitered || lingers),
              Entries(z.name, enters, p.trackId) + Lingerings(z.name, lingers, p.trackId, dwell))
    else ZoneOut(zs.(inside := 0, lastIn := None), [])
  }

  function ZoneOf(zones: map<string, ZoneState>, name: string): ZoneState {
    if name in zones then zones[name] else NEW_ZONE
  }

  /** After the first `k` zones. */
  function ZonesStep(rules: Rules, zones: map<string, ZoneState>, p: PersonFrame, dt: real, now: Time, k: nat): ZonesOut
    requires k <= |rules.zones|
  {
    if k == 0 then ZonesOut(zones, [])
    else
      var before := ZonesStep(rules, zones, p, dt, now, k - 1);
      var z := rules.zones[k - 1];
      var out := ZoneStep(rules, z, ZoneOf(before.zones, z.name), p, dt, now);
      ZonesOut(before.zones[z.name := out.zone], before.fired + out.fired)
  }

  function DwellStep(rules: Rules, t: TrackState, p: PersonFrame, now: Time): TrackOut {
    var dwell := if t.first.Some? then Since(now, t.first.value) else 0.0;
    if rules.loiterSecs > 0 && !t.loitered && dwell >= rules.loiterSecs as real
    then TrackOut(t.(loitered := true), [Fired(p.trackId, Loitering, InView(dwell))])
    else TrackOut(t, [])
  }

  function RunStep(rules: Rules, t: TrackState, p: PersonFrame, now: Time): TrackOut {
    if rules.running && !t.ran then
      match SquaredHeightsPerSec(p.history, p.boxH, p.frameW, p.frameH, now)
      case Some(v2) =>
        if v2 >= RUN_HEIGHTS_PER_SEC * RUN_HEIGHTS_PER_SEC
        then TrackOut(t.(ran := true), [Fired(p.trackId, Running, Speed(v2))])
        else TrackOut(t, [])
      case None => TrackOut(t, [])
    else TrackOut(t, [])
  }

  /** Lying down here is not an incident. */
  predicate Excused(rules: Rules, p: PersonFrame) {
    exists i :: 0 <= i < |rules.zones| && rules.zones[i].ignoreDown && rules.zones[i].covers(p.foot)
  }

  function AngleOf(p: PersonFrame): Option<real> {
    if p.pose.Some? then p.pose.value.torsoAngle else None
  }

  function DownStep(rules: Rules, t: TrackState, p: PersonFrame, now: Time): TrackOut {
    if !rules.down || t.downFired || AngleOf(p).None? then TrackOut(t, [])
    else
      var angle := AngleOf(p).value;
      if angle <= UPRIGHT_DEG then TrackOut(t.(upright := true, downSince := None, downSamples := 0), [])
      else if angle >= DOWN_DEG && t.upright && !Excused(rules, p) then
        var since := if t.downSince.Some? then t.downSince.value else now;
        var held := t.(downSince := Some(since), downSamples := t.downSamples + 1);
        if held.downSamples >= DOWN_SAMPLES && Since(now, since) >= DOWN_HOLD
        then TrackOut(held.(downFired := true), [Fired(p.trackId, Down, Held(Since(now, since)))])
        else TrackOut(held, [])
      else if angle < RISEN_DEG then TrackOut(t.(downSince := None, downSamples := 0), [])
      else TrackOut(t, [])
  }

  /** One fence line; a track that climbed is left alone. */
  function FenceStep(before: TrackOut, f: Fence, p: PersonFrame, ay: real): TrackOut {
    var u := before.track;
    if u.climbed then before
    else
      match LineYAt(f, p.foot.x)
      case None => before
      case Some(ly) =>
        if ay > ly + 0.01 then before.(track := u.(belowFence := true, aboveFence := 0))
        else if ay < ly - 0.01 && u.belowFence then
          if u.aboveFence + 1 >= 2
          then TrackOut(u.(aboveFence := u.aboveFence + 1, climbed := true),
                        before.fired + [Fired(p.trackId, Climbing, Over(f.name))])
          else before.(track := u.(aboveFence := u.aboveFence + 1))
        else before
  }

  /** After the first `k` fences of one pose sample. */
  function FencesStep(rules: Rules, t: TrackState, p: PersonFrame, ay: real, k: nat): TrackOut
    requires k <= |rules.fences|
  {
    if k == 0 then TrackOut(t, [])
    else FenceStep(FencesStep(rules, t, p, ay, k - 1), rules.fences[k - 1], p, ay)
  }

  function ClimbStep(rules: Rules, t: TrackState, p: PersonFrame): TrackOut {
    if rules.climbing && !t.climbed && p.pose.Some? && p.ankleY.Some?
    then FencesStep(rules, t, p, p.ankleY.value, |rules.fences|)
    else TrackOut(t, [])
  }

  /** The bookkeeping every observation does before the rules look at it. */
  function Seen(t: TrackState, p: PersonFrame, now: Time): TrackState {
    t.(first := if t.first.Some? then t.first else Some(now), last := Some(now), maxH := Max(t.maxH, p.boxH))
  }

  function Elapsed(t: TrackState, now: Time): real {
    if t.last.Some? then Min(Since(now, t.last.value), DWELL_CAP) else 0.0
  }

  function ZonePart(rules: Rules, t: TrackState, p: PersonFrame, now: Time): TrackOut {
    var out := ZonesStep(rules, t.zones, p, Elapsed(t, now), now, |rules.zones|);
    TrackOut(Seen(t, p, now).(zones := out.zones), out.fired)
  }

  /** What one observation does to its track, and what it confirms. */
  function TrackStep(rules: Rules, t: TrackState, p: PersonFrame, now: Time): TrackOut {
    var o1 := ZonePart(rules, t, p, now);
    var o2 := DwellStep(rules, o1.track, p, now);
    var o3 := RunStep(rules, o2.track, p, now);
    var o4 := DownStep(rules, o3.track, p, now);
    var o5 := ClimbStep(rules, o4.track, p);
    TrackOut(o5.track, o1.fired + o2.fired + o3.fired + o4.fired + o5.fired)
  }

  // ---------------------------------------------------------------- one frame

  type Tracks = map<nat, TrackState>

  predicate Stale(t: TrackState, now: Time) {
    t.last.Some? && Since(now, t.last.value) >= GONE
  }

  function Retained(tracks: Tracks, now: Time): Tracks {
    map id | id in tracks && !Stale(tracks[id], now) :: tracks[id]
  }

  function TrackOf(tracks: Tracks, id: nat): TrackState {
    if id in tracks then tracks[id] else NEW_TRACK
  }

  function PeopleStep(rules: Rules, tracks: Tracks, people: seq<PersonFrame>, now: Time): TracksOut {
    if people == [] then TracksOut(tracks, [])
    else
      var before := PeopleStep(rules, tracks, people[..|people| - 1], now);
      var p := people[|people| - 1];
      if p.trackId == 0 then before
      else
        var out := TrackStep(rules, TrackOf(before.tracks, p.trackId), p, now);
        TracksOut(before.tracks[p.trackId := out.track], before.fired + out.fired)
  }

  function Headcount(people: seq<PersonFrame>): nat {
    if people == [] then 0
    else Headcount(people[..|people| - 1]) + if people[|people| - 1].trackId != 0 then 1 else 0
  }

  function CrowdStep(rules: Rules, c: CrowdState, count: nat, now: Time): CrowdOut {
    if rules.crowdThreshold == 0 then CrowdOut(c, [])
    else if count >= rules.crowdThreshold then
      var since := if c.since.Some? && c.last.Some? && Since(now, c.last.value) <= CROWD_GAP
                   then c.since.value else now;
      if !c.fired && Since(now, since) >= CROWD_HOLD
      then CrowdOut(CrowdState(Some(since), Some(now), true), [Fired(0, Crowd, People(count))])
      else CrowdOut(CrowdState(Some(since), Some(now), c.fired), [])
    else if c.last.None? || Since(now, c.last.value) >= CROWD_REARM then CrowdOut(c.(fired := false, since := None), [])
    else CrowdOut(c, [])
  }

  /** `pose_due` on the table of tracks: the new table, and the answer. */
  datatype PoseOut = PoseOut(tracks: Tracks, due: bool)

  function PoseStep(rules: Rules, tracks: Tracks, id: nat, boxH: real, now: Time): PoseOut {
    if !rules.WantsPose() || id == 0 then PoseOut(tracks, false)
    else
      var t := TrackOf(tracks, id);
      var recently := t.lastPose.Some? && Since(now, t.lastPose.value) < POSE_EVERY;
      var young := t.first.None? || Since(now, t.first.value) < 3.0;
      var shrank := t.maxH > 0.0 && boxH < t.maxH * 0.65;
      var due := !recently && (young || shrank || t.downSince.Some? || (rules.climbing && rules.fences != []));
      PoseOut(tracks[id := if due then t.(lastPose := Some(now)) else t], due)
  }

  // ---------------------------------------------------------------- the code

  class CamState {
    var tracks: Tracks
    var crowdSince: Option<Time>
    var crowdLast: Option<Time>
    var crowdFired: bool

    constructor ()
      ensures tracks == map[] && CrowdOf() == NEW_CROWD
    {
      tracks := map[];
      crowdSince, crowdLast, crowdFired := None, None, false;
    }

    function CrowdOf(): CrowdState
      reads this
    {
      CrowdState(crowdSince, crowdLast, crowdFired)
    }

    /** One zone of one observation. */
    static method WatchZone(rules: Rules, z: Zone, zs0: ZoneState, p: PersonFrame, dt: real, now: Time)
      returns (zs: ZoneState, fired: seq<Fired>)
      ensures ZoneOut(zs, fired) == ZoneStep(rules, z, zs0, p, dt, now)
    {
      zs, fired := zs0, [];
      if z.covers(p.foot) {
        zs := zs.(inside := zs.inside + 1);
        if zs.lastIn.Some? { zs := zs.(dwell := zs.dwell + dt); }
        zs := zs.(lastIn := Some(now));
        if rules.intrusion && z.alertOnEnter && !zs.entered && zs.inside >= (if z.inertia > 1 then z.inertia else 1) {
          zs := zs.(entered := true);
          fired := fired + [Fired(p.trackId, Intrusion, Entered(z.name))];
        }
        if z.loiteringSecs > 0 && !zs.loitered && zs.dwell >= z.loiteringSecs as real {
          zs := zs.(loitered := true);
          fired := fired + [Fired(p.trackId, Loitering, Lingered(z.name, zs.dwell))];
        }
      } else {
        zs := zs.(inside := 0, lastIn := None);
      }
    }

    /** Zones of one observation, in place on the track's zone table. */
    static method WalkZones(rules: Rules, zones: map<string, ZoneState>, p: PersonFrame, dt: real, now: Time)
      returns (out: map<string, ZoneState>, fired: seq<Fired>)
      ensures ZonesOut(out, fired) == ZonesStep(rules, zones, p, dt, now, |rules.zones|)
    {
      hide ZoneStep;
      out, fired := zones, [];
      for k := 0 to |rules.zones|
        invariant ZonesOut(out, fired) == ZonesStep(rules, zones, p, dt, now, k)
      {
        var z := rules.zones[k];
        var zs, more := WatchZone(rules, z, ZoneOf(out, z.name), p, dt, now);
        out := out[z.name := zs];
        fired := fired + more;
      }
    }

    /** Fences of one pose sample; the walk stops at the fence that confirms the climb. */
    static method WalkFences(rules: Rules, t0: TrackState, p: PersonFrame, ay: real)
      returns (t: TrackState, fired: seq<Fired>)
      requires !t0.climbed
      ensures TrackOut(t, fired) == FencesStep(rules, t0, p, ay, |rules.fences|)
    {
      t, fired := t0, [];
      for k := 0 to |rules.fences|
        invariant !t.climbed
        invariant TrackOut(t, fired) == FencesStep(rules, t0, p, ay, k)
      {
        match LineYAt(rules.fences[k], p.foot.x)
        case None =>
        case Some(ly) =>
          if ay > ly + 0.01 {
            t := t.(belowFence := true, aboveFence := 0);
          } else if ay < ly - 0.01 && t.belowFence {
            t := t.(aboveFence := t.aboveFence + 1);
            if t.aboveFence >= 2 {
              t := t.(climbed := true);
              fired := fired + [Fired(p.trackId, Climbing, Over(rules.fences[k].name))];
              ClimbedStays(rules, t0, p, ay, k + 1, |rules.fences|);
              break;
            }
          }
      }
    }

    /** Whole-frame dwell. */
    static method WatchDwell(rules: Rules, t0: TrackState, p: PersonFrame, now: Time)
      returns (t: TrackState, fired: seq<Fired>)
      ensures TrackOut(t, fired) == DwellStep(rules, t0, p, now)
    {
      t, fired := t0, [];
      if rules.loiterSecs > 0 && !t.loitered {
        var dwell := if t.first.Some? then Since(now, t.first.value) else 0.0;
        if dwell >= rules.loiterSecs as real {
          t := t.(loitered := true);
          fired := [Fired(p.trackId, Loitering, InView(dwell))];
        }
      }
    }

    static method WatchRun(rules: Rules, t0: TrackState, p: PersonFrame, now: Time)
      returns (t: TrackState, fired: seq<Fired>)
      ensures TrackOut(t, fired) == RunStep(rules, t0, p, now)
    {
      t, fired := t0, [];
      if rules.running && !t.ran {
        var v2 := SquaredHeightsPerSec(p.history, p.boxH, p.frameW, p.frameH, now);
        if v2.Some? && v2.value >= RUN_HEIGHTS_PER_SEC * RUN_HEIGHTS_PER_SEC {
          t := t.(ran := true);
          fired := [Fired(p.trackId, Running, Speed(v2.value))];
        }
      }
    }

    static method WatchAnkles(rules: Rules, t0: TrackState, p: PersonFrame)
      returns (t: TrackState, fired: seq<Fired>)
      requires p.pose.Some?
      ensures TrackOut(t, fired) == ClimbStep(rules, t0, p)
    {
      t, fired := t0, [];
      if rules.climbing && !t.climbed && p.ankleY.Some? {
        t, fired := WalkFences(rules, t, p, p.ankleY.value);
      }
    }

    /** First and last sight of the track, and its height. */
    static method Arrive(t0: TrackState, p: PersonFrame, now: Time) returns (t: TrackState, dt: real)
      ensures t == Seen(t0, p, now) && dt == Elapsed(t0, now)
    {
      hide Max, Min;
      t := t0;
      dt := if t.last.Some? then Min(Since(now, t.last.value), DWELL_CAP) else 0.0;
      if t.first.None? { t := t.(first := Some(now)); }
      t := t.(last := Some(now), maxH := Max(t.maxH, p.boxH));
    }

    static method WatchZones(rules: Rules, t0: TrackState, p: PersonFrame, now: Time)
      returns (t: TrackState, fired: seq<Fired>)
      ensures TrackOut(t, fired) == ZonePart(rules, t0, p, now)
    {
      hide ZonesStep, Seen, Elapsed;
      var dt, zones;
      t, dt := Arrive(t0, p, now);
      zones, fired := WalkZones(rules, t0.zones, p, dt, now);
      t := t.(zones := zones);
    }

    /** The body of the loop over people. */
    static method Observe(rules: Rules, t0: TrackState, p: PersonFrame, now: Time)
      returns (t: TrackState, fired: seq<Fired>)
      ensures TrackOut(t, fired) == TrackStep(rules, t0, p, now)
    {
      hide ZonePart, DwellStep, RunStep, DownStep, ClimbStep;
      var f1, f2, f3;
      t, f1 := WatchZones(rules, t0, p, now);
      t, f2 := WatchDwell(rules, t, p, now);
      t, f3 := WatchRun(rules, t, p, now);
      var f4, f5 := [], [];
      if p.pose.Some? {
        t, f4 := WatchTorso(rules, t, p, now);
        t, f5 := WatchAnkles(rules, t, p);
      } else {
        WithoutPose(rules, t, p, now);
      }
      fired := f1 + f2 + f3 + f4 + f5;
    }

    static method WatchTorso(rules: Rules, t0: TrackState, p: PersonFrame, now: Time)
      returns (t: TrackState, fired: seq<Fired>)
      ensures TrackOut(t, fired) == DownStep(rules, t0, p, now)
    {
      t, fired := t0, [];
      var angle := AngleOf(p);
      if !rules.down || t.downFired || angle.None? { return; }
      if angle.value <= UPRIGHT_DEG {
        t := t.(upright := true, downSince := None, downSamples := 0);
      } else if angle.value >= DOWN_DEG && t.upright && !Excused(rules, p) {
        if t.downSince.None? { t := t.(downSince := Some(now)); }
        t := t.(downSamples := t.downSamples + 1);
        var since := t.downSince.value;
        if t.downSamples >= DOWN_SAMPLES && Since(now, since) >= DOWN_HOLD {
          t := t.(downFired := true);
          fired := [Fired(p.trackId, Down, Held(Since(now, since)))];
        }
      } else if angle.value < RISEN_DEG {
        t := t.(downSince := None, downSamples := 0);
      }
    }

    /** `step`: advance every rule by one frame. */
    method Step(rules: Rules, people: seq<PersonFrame>, now: Time) returns (fired: seq<Fired>)
      modifies this
      ensures var walked := PeopleStep(rules, Retained(old(tracks), now), people, now);
              var crowd := CrowdStep(rules, old(CrowdOf()), Headcount(people), now);
              tracks == walked.tracks && CrowdOf() == crowd.crowd && fired == walked.fired + crowd.fired
    {
      tracks := map id | id in tracks && !Stale(tracks[id], now) :: tracks[id];
      ghost var start := tracks;
      fired := [];
      var count := 0;
      for k := 0 to |people|
        invariant TracksOut(tracks, fired) == PeopleStep(rules, start, people[..k], now)
        invariant count == Headcount(people[..k])
        invariant CrowdOf() == old(CrowdOf())
      {
        var p := people[k];
        TakeNext(people, k);
        if p.trackId != 0 {
          count := count + 1;
          var t, more := Observe(rules, TrackOf(tracks, p.trackId), p, now);
          tracks := tracks[p.trackId := t];
          fired := fired + more;
        }
      }
      TakeAll(people);

      Units(fired);
      if rules.crowdThreshold > 0 {
        if count >= rules.crowdThreshold {
          var since := if crowdSince.Some? && crowdLast.Some? && Since(now, crowdLast.value) <= CROWD_GAP
                       then crowdSince.value else now;
          crowdSince := Some(since);
          crowdLast := Some(now);
          if !crowdFired && Since(now, since) >= CROWD_HOLD {
            crowdFired := true;
            fired := fired + [Fired(0, Crowd, People(count))];
          }
        } else if crowdLast.None? || Since(now, crowdLast.value) >= CROWD_REARM {
          crowdFired := false;
          crowdSince := None;
        }
      }
    }

    /** `pose_due`: whether this track gets a pose sample now, and if so, notes when. */
    method PoseDue(rules: Rules, id: nat, boxH: real, now: Time) returns (due: bool)
      modifies this
      ensures CrowdOf() == old(CrowdOf())
      ensures PoseOut(tracks, due) == PoseStep(rules, old(tracks), id, boxH, now)
    {
      if !rules.WantsPose() || id == 0 { return false; }
      var t := TrackOf(tracks, id);
      tracks := tracks[id := t];
      if t.lastPose.Some? && Since(now, t.lastPose.value) < POSE_EVERY { return false; }
      var young := t.first.None? || Since(now, t.first.value) < 3.0;
      var shrank := t.maxH > 0.0 && boxH < t.maxH * 0.65;
      due := young || shrank || t.downSince.Some? || (rules.climbing && rules.fences != []);
      if due { tracks := tracks[id := t.(lastPose := Some(now))]; }
    }
  }

  lemma WithoutPose(rules: Rules, t: TrackState, p: PersonFrame, now: Time)
    requires p.pose.None?
    ensures DownStep(rules, t, p, now) == TrackOut(t, []) && ClimbStep(rules, t, p) == TrackOut(t, [])
  {
  }

  lemma {:induction false} ClimbedStays(rules: Rules, t: TrackState, p: PersonFrame, ay: real, k: nat, n: nat)
    requires k <= n <= |rules.fences|
    requires FencesStep(rules, t, p, ay, k).track.climbed
    ensures FencesStep(rules, t, p, ay, n) == FencesStep(rules, t, p, ay, k)
  {
    hide LineYAt;
    if k < n {
      ClimbedStays(rules, t, p, ay, k, n - 1);
    }
  }
}
