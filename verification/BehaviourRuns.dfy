/**
  Whole runs of the behaviour engine: frames of people, with pose checks in between.
  The alerts of one track do not depend on who else is in view.
 */
module BehaviourRuns {
  import opened Options
  import opened Seqs
  import opened Behaviour

  datatype Op = Frame(people: seq<PersonFrame>, now: Time) | PoseCheck(id: nat, boxH: real, now: Time)

  datatype Alert = Alert(now: Time, what: Fired)

  datatype Run = Run(tracks: Tracks, crowd: CrowdState, alerts: seq<Alert>)

  function Stamp(fired: seq<Fired>, now: Time): seq<Alert> {
    if fired == [] then [] else Stamp(fired[..|fired| - 1], now) + [Alert(now, fired[|fired| - 1])]
  }

  function OpStep(rules: Rules, r: Run, op: Op): Run {
    match op
    case Frame(people, now) =>
      var walked := PeopleStep(rules, Retained(r.tracks, now), people, now);
      var crowd := CrowdStep(rules, r.crowd, Headcount(people), now);
      Run(walked.tracks, crowd.crowd, r.alerts + Stamp(walked.fired + crowd.fired, now))
    case PoseCheck(id, boxH, now) =>
      r.(tracks := PoseStep(rules, r.tracks, id, boxH, now).tracks)
  }

  function RunOps(rules: Rules, ops: seq<Op>): Run {
    if ops == [] then Run(map[], NEW_CROWD, [])
    else OpStep(rules, RunOps(rules, ops[..|ops| - 1]), ops[|ops| - 1])
  }

  /** The engine driven over a list of operations: `RunOps` is what it does. */
  method Replay(rules: Rules, ops: seq<Op>) returns (alerts: seq<Alert>)
    ensures alerts == RunOps(rules, ops).alerts
  {
    var cam := new CamState();
    alerts := [];
    for k := 0 to |ops|
      invariant fresh(cam)
      invariant RunOps(rules, ops[..k]) == Run(cam.tracks, cam.CrowdOf(), alerts)
    {
      hide PeopleStep, CrowdStep, PoseStep, Retained, Headcount;
      TakeNext(ops, k);
      match ops[k]
      case Frame(people, now) =>
        var fired := cam.Step(rules, people, now);
        alerts := alerts + Stamp(fired, now);
      case PoseCheck(id, boxH, now) =>
        var due := cam.PoseDue(rules, id, boxH, now);
    }
    TakeAll(ops);
  }

  // ---------------------------------------------------------------- one track on its own

  datatype Obs = Obs(p: PersonFrame, now: Time)

  /** The observations of one track in a frame, and in a run. */
  function ObsIn(people: seq<PersonFrame>, now: Time, id: nat): seq<Obs> {
    if people == [] then []
    else
      var rest := ObsIn(people[..|people| - 1], now, id);
      var p := people[|people| - 1];
      if p.trackId == id then rest + [Obs(p, now)] else rest
  }

  function ObsOf(ops: seq<Op>, id: nat): seq<Obs> {
    if ops == [] then []
    else
      var rest := ObsOf(ops[..|ops| - 1], id);
      match ops[|ops| - 1]
      case Frame(people, now) => rest + ObsIn(people, now, id)
      case PoseCheck(_, _, _) => rest
  }

  /** A track unseen for a minute is a new visit. */
  function Refresh(t: TrackState, now: Time): TrackState {
    if Stale(t, now) then NEW_TRACK else t
  }

  datatype Solo = Solo(track: TrackState, alerts: seq<Alert>)

  /** A run that sees nothing but these observations, starting from `t`. */
  function SoloRun(rules: Rules, t: TrackState, obs: seq<Obs>): Solo {
    if obs == [] then Solo(t, [])
    else
      var before := SoloRun(rules, t, obs[..|obs| - 1]);
      var o := obs[|obs| - 1];
      var out := TrackStep(rules, Refresh(before.track, o.now), o.p, o.now);
      Solo(out.track, before.alerts + Stamp(out.fired, o.now))
  }

  function OfTrack(alerts: seq<Alert>, id: nat): seq<Alert> {
    if alerts == [] then []
    else
      var rest := OfTrack(alerts[..|alerts| - 1], id);
      var a := alerts[|alerts| - 1];
      if a.what.trackId == id then rest + [a] else rest
  }

  function TimeOf(op: Op): Time { op.now }

  ghost predicate Clocked(ops: seq<Op>) {
    forall i, j :: 0 <= i <= j < |ops| ==> TimeOf(ops[i]) <= TimeOf(ops[j])
  }

  // ---------------------------------------------------------------- lists

  lemma {:induction false} StampAppend(a: seq<Fired>, b: seq<Fired>, now: Time)
    ensures Stamp(a + b, now) == Stamp(a, now) + Stamp(b, now)
  {
    if b == [] {
      Units(a);
      Units(Stamp(a, now));
    } else {
      var n := |b| - 1;
      AppendInit(a, b);
      StampAppend(a, b[..n], now);
    }
  }

  lemma AppendInit<T>(a: seq<T>, b: seq<T>)
    requires b != []
    ensures (a + b)[..|a + b| - 1] == a + b[..|b| - 1] && (a + b)[|a + b| - 1] == b[|b| - 1]
  {
  }

  lemma {:induction false} OfTrackAppend(a: seq<Alert>, b: seq<Alert>, id: nat)
    ensures OfTrack(a + b, id) == OfTrack(a, id) + OfTrack(b, id)
  {
    if b == [] {
      Units(a);
      Units(OfTrack(a, id));
    } else {
      AppendInit(a, b);
      OfTrackAppend(a, b[..|b| - 1], id);
    }
  }

  ghost predicate AllOf(fired: seq<Fired>, id: nat) {
    forall i :: 0 <= i < |fired| ==> fired[i].trackId == id
  }

  lemma {:induction false} OfTrackOfStamp(fired: seq<Fired>, now: Time, owner: nat, id: nat)
    requires AllOf(fired, owner)
    ensures OfTrack(Stamp(fired, now), id) == if owner == id then Stamp(fired, now) else []
  {
    if fired != [] { OfTrackOfStamp(fired[..|fired| - 1], now, owner, id); }
  }

  // ---------------------------------------------------------------- one observation

  lemma {:induction false} ZonesFireOwn(rules: Rules, zones: map<string, ZoneState>, p: PersonFrame,
                                      dt: real, now: Time, k: nat)
    requires k <= |rules.zones|
    ensures AllOf(ZonesStep(rules, zones, p, dt, now, k).fired, p.trackId)
  {
    if k > 0 { ZonesFireOwn(rules, zones, p, dt, now, k - 1); }
  }

  lemma {:induction false} FencesFireOwn(rules: Rules, t: TrackState, p: PersonFrame, ay: real, k: nat)
    requires k <= |rules.fences|
    ensures AllOf(FencesStep(rules, t, p, ay, k).fired, p.trackId)
  {
    if k > 0 { FencesFireOwn(rules, t, p, ay, k - 1); }
  }

  ghost predicate OwnAndLater(out: TrackOut, id: nat, last: Option<Time>) {
    AllOf(out.fired, id) && out.track.last == last
  }

  lemma {:induction false} FencesAreOwn(rules: Rules, t: TrackState, p: PersonFrame, ay: real, k: nat)
    requires k <= |rules.fences|
    ensures OwnAndLater(FencesStep(rules, t, p, ay, k), p.trackId, t.last)
  {
    hide LineYAt;
    if k > 0 { FencesAreOwn(rules, t, p, ay, k - 1); }
  }

  lemma ZonesAreOwn(rules: Rules, t: TrackState, p: PersonFrame, now: Time)
    ensures OwnAndLater(ZonePart(rules, t, p, now), p.trackId, Some(now))
  {
    ZonesFireOwn(rules, t.zones, p, Elapsed(t, now), now, |rules.zones|);
  }

  lemma RulesAreOwn(rules: Rules, t: TrackState, p: PersonFrame, now: Time)
    ensures OwnAndLater(DwellStep(rules, t, p, now), p.trackId, t.last)
    ensures OwnAndLater(RunStep(rules, t, p, now), p.trackId, t.last)
    ensures OwnAndLater(DownStep(rules, t, p, now), p.trackId, t.last)
  {
    hide SquaredHeightsPerSec, Excused;
  }

  lemma ClimbIsOwn(rules: Rules, t: TrackState, p: PersonFrame)
    ensures OwnAndLater(ClimbStep(rules, t, p), p.trackId, t.last)
  {
    hide FencesStep;
    if p.ankleY.Some? { FencesAreOwn(rules, t, p, p.ankleY.value, |rules.fences|); }
  }

  /** What an observation confirms is its own track's, and it is the track's last sight. */
  lemma ObservationIsOwn(rules: Rules, t: TrackState, p: PersonFrame, now: Time)
    ensures AllOf(TrackStep(rules, t, p, now).fired, p.trackId)
    ensures TrackStep(rules, t, p, now).track.last == Some(now)
  {
    hide ZonePart, DwellStep, RunStep, DownStep, ClimbStep;
    var o1 := ZonePart(rules, t, p, now);
    ZonesAreOwn(rules, t, p, now);
    RulesAreOwn(rules, o1.track, p, now);
    var o2 := DwellStep(rules, o1.track, p, now);
    RulesAreOwn(rules, o2.track, p, now);
    var o3 := RunStep(rules, o2.track, p, now);
    RulesAreOwn(rules, o3.track, p, now);
    ClimbIsOwn(rules, DownStep(rules, o3.track, p, now).track, p);
  }

  /** A track without the note of its last pose sample. */
  function Unposed(t: TrackState): TrackState { t.(lastPose := None) }

  ghost predicate SameButPose(a: TrackOut, b: TrackOut) {
    b == TrackOut(Unposed(a.track), a.fired)
  }

  lemma {:induction false} FencesIgnorePose(rules: Rules, t: TrackState, p: PersonFrame, ay: real, k: nat)
    requires k <= |rules.fences|
    ensures SameButPose(FencesStep(rules, t, p, ay, k), FencesStep(rules, Unposed(t), p, ay, k))
  {
    hide LineYAt;
    if k > 0 { FencesIgnorePose(rules, t, p, ay, k - 1); }
  }

  lemma DwellIgnoresPose(rules: Rules, t: TrackState, p: PersonFrame, now: Time)
    ensures SameButPose(DwellStep(rules, t, p, now), DwellStep(rules, Unposed(t), p, now))
  {
  }

  lemma RunIgnoresPose(rules: Rules, t: TrackState, p: PersonFrame, now: Time)
    ensures SameButPose(RunStep(rules, t, p, now), RunStep(rules, Unposed(t), p, now))
  {
    hide SquaredHeightsPerSec;
  }

  lemma DownIgnoresPose(rules: Rules, t: TrackState, p: PersonFrame, now: Time)
    ensures SameButPose(DownStep(rules, t, p, now), DownStep(rules, Unposed(t), p, now))
  {
    hide Excused, Since, AngleOf;
  }

  lemma ClimbIgnoresPose(rules: Rules, t: TrackState, p: PersonFrame)
    ensures SameButPose(ClimbStep(rules, t, p), ClimbStep(rules, Unposed(t), p))
  {
    hide FencesStep;
    if p.ankleY.Some? { FencesIgnorePose(rules, t, p, p.ankleY.value, |rules.fences|); }
  }

  /** No rule looks at when the last pose sample was taken. */
  lemma TrackIgnoresPose(rules: Rules, t: TrackState, p: PersonFrame, now: Time)
    ensures SameButPose(TrackStep(rules, t, p, now), TrackStep(rules, Unposed(t), p, now))
  {
    hide ZonesStep, DwellStep, RunStep, DownStep, ClimbStep;
    var o1 := ZonePart(rules, t, p, now);
    assert SameButPose(o1, ZonePart(rules, Unposed(t), p, now));
    DwellIgnoresPose(rules, o1.track, p, now);
    var o2 := DwellStep(rules, o1.track, p, now);
    RunIgnoresPose(rules, o2.track, p, now);
    var o3 := RunStep(rules, o2.track, p, now);
    DownIgnoresPose(rules, o3.track, p, now);
    ClimbIgnoresPose(rules, DownStep(rules, o3.track, p, now).track, p);
  }

  // ---------------------------------------------------------------- one frame

  /** Within a frame, the track sees its own observations only. */
  lemma {:induction false} FrameIsSolo(rules: Rules, tracks: Tracks, people: seq<PersonFrame>, now: Time, id: nat)
    requires id != 0
    requires !Stale(TrackOf(tracks, id), now)
    ensures var out := PeopleStep(rules, tracks, people, now);
            var solo := SoloRun(rules, Unposed(TrackOf(tracks, id)), ObsIn(people, now, id));
            && Unposed(TrackOf(out.tracks, id)) == solo.track
            && OfTrack(Stamp(out.fired, now), id) == solo.alerts
            && !Stale(TrackOf(out.tracks, id), now)
  {
    hide TrackStep;
    if people != [] {
      var n := |people| - 1;
      var p := people[n];
      FrameIsSolo(rules, tracks, people[..n], now, id);
      if p.trackId != 0 {
        var before := PeopleStep(rules, tracks, people[..n], now);
        var t := TrackOf(before.tracks, p.trackId);
        var out := TrackStep(rules, t, p, now);
        ObservationIsOwn(rules, t, p, now);
        StampAppend(before.fired, out.fired, now);
        OfTrackAppend(Stamp(before.fired, now), Stamp(out.fired, now), id);
        OfTrackOfStamp(out.fired, now, p.trackId, id);
        if p.trackId == id {
          TrackIgnoresPose(rules, t, p, now);
          var obs := ObsIn(people[..n], now, id);
          SoloOneMore(rules, Unposed(TrackOf(tracks, id)), obs, Obs(p, now));
        }
      }
    }
  }

  lemma SoloOneMore(rules: Rules, t: TrackState, obs: seq<Obs>, o: Obs)
    ensures var before := SoloRun(rules, t, obs);
            var out := TrackStep(rules, Refresh(before.track, o.now), o.p, o.now);
            SoloRun(rules, t, obs + [o]) == Solo(out.track, before.alerts + Stamp(out.fired, o.now))
  {
    hide TrackStep;
    AppendTake(obs, o);
  }

  lemma {:induction false} SoloAppend(rules: Rules, t: TrackState, a: seq<Obs>, b: seq<Obs>)
    ensures var first := SoloRun(rules, t, a);
            var then_ := SoloRun(rules, first.track, b);
            SoloRun(rules, t, a + b) == Solo(then_.track, first.alerts + then_.alerts)
  {
    hide TrackStep;
    if b == [] {
      Units(a);
      Units(SoloRun(rules, t, a).alerts);
    } else {
      AppendInit(a, b);
      SoloAppend(rules, t, a, b[..|b| - 1]);
    }
  }

  /** Forgetting a stale track before its first observation of the frame changes nothing. */
  lemma {:induction false} SoloForgets(rules: Rules, t: TrackState, obs: seq<Obs>, now: Time)
    requires obs != [] && forall i :: 0 <= i < |obs| ==> obs[i].now == now
    ensures SoloRun(rules, Refresh(t, now), obs) == SoloRun(rules, t, obs)
  {
    hide TrackStep;
    if |obs| > 1 { SoloForgets(rules, t, obs[..|obs| - 1], now); }
  }

  lemma {:induction false} ObsInTimes(people: seq<PersonFrame>, now: Time, id: nat)
    ensures forall i :: 0 <= i < |ObsIn(people, now, id)| ==> ObsIn(people, now, id)[i].now == now
  {
    if people != [] { ObsInTimes(people[..|people| - 1], now, id); }
  }

  // ---------------------------------------------------------------- whole runs

  /** The camera's entry for the track is the solo run's, or both count as never seen. */
  ghost predicate Agree(tracks: Tracks, t: TrackState, id: nat, now: Time) {
    var u := Unposed(TrackOf(tracks, id));
    u == t || (u == NEW_TRACK && Stale(t, now))
  }

  lemma AgreeAfterForgetting(tracks: Tracks, t: TrackState, id: nat, before: Time, now: Time)
    requires Agree(tracks, t, id, before) && before <= now
    ensures Unposed(TrackOf(Retained(tracks, now), id)) == Refresh(t, now)
    ensures !Stale(TrackOf(Retained(tracks, now), id), now)
  {
  }

  lemma FrameAgrees(rules: Rules, r: Run, t: TrackState, people: seq<PersonFrame>,
                                       before: Time, now: Time, id: nat)
    requires id != 0 && before <= now && Agree(r.tracks, t, id, before)
    ensures var after := OpStep(rules, r, Frame(people, now));
            var solo := SoloRun(rules, t, ObsIn(people, now, id));
            && Agree(after.tracks, solo.track, id, now)
            && OfTrack(after.alerts, id) == OfTrack(r.alerts, id) + solo.alerts
  {
    hide PeopleStep, Retained, SoloRun, TrackOf, Headcount;
    var kept := Retained(r.tracks, now);
    AgreeAfterForgetting(r.tracks, t, id, before, now);
    FrameIsSolo(rules, kept, people, now, id);
    var walked := PeopleStep(rules, kept, people, now);
    var crowd := CrowdStep(rules, r.crowd, Headcount(people), now);
    StampAppend(walked.fired, crowd.fired, now);
    OfTrackAppend(Stamp(walked.fired, now), Stamp(crowd.fired, now), id);
    OfTrackOfStamp(crowd.fired, now, 0, id);
    Units(OfTrack(Stamp(walked.fired, now), id));
    OfTrackAppend(r.alerts, Stamp(walked.fired + crowd.fired, now), id);
    var obs := ObsIn(people, now, id);
    if obs == [] {
      SoloNothing(rules, t);
      SoloNothing(rules, Refresh(t, now));
    } else {
      ObsInTimes(people, now, id);
      SoloForgets(rules, t, obs, now);
    }
  }

  lemma SoloNothing(rules: Rules, t: TrackState)
    ensures SoloRun(rules, t, []) == Solo(t, [])
  {
  }

  lemma {:induction false} RunAgrees(rules: Rules, ops: seq<Op>, id: nat)
    requires id != 0 && Clocked(ops)
    ensures var r := RunOps(rules, ops);
            var solo := SoloRun(rules, NEW_TRACK, ObsOf(ops, id));
            && (ops != [] ==> Agree(r.tracks, solo.track, id, TimeOf(ops[|ops| - 1])))
            && OfTrack(r.alerts, id) == solo.alerts
  {
    hide OpStep, SoloRun, Agree;
    if ops == [] {
      SoloNothing(rules, NEW_TRACK);
    } else {
      var n := |ops| - 1;
      RunAgrees(rules, ops[..n], id);
      var r := RunOps(rules, ops[..n]);
      var obs := ObsOf(ops[..n], id);
      var t := SoloRun(rules, NEW_TRACK, obs).track;
      var before := if n == 0 then TimeOf(ops[0]) else TimeOf(ops[n - 1]);
      if n == 0 { AgreeAtStart(rules, id, before); }
      assert before <= TimeOf(ops[n]);
      match ops[n]
      case Frame(people, now) =>
        FrameAgrees(rules, r, t, people, before, now, id);
        SoloAppend(rules, NEW_TRACK, obs, ObsIn(people, now, id));
      case PoseCheck(who, boxH, now) =>
        PoseAgrees(rules, r, t, who, boxH, before, now, id);
    }
  }

  lemma AgreeAtStart(rules: Rules, id: nat, now: Time)
    ensures Agree(map[], SoloRun(rules, NEW_TRACK, []).track, id, now)
  {
  }

  lemma PoseAgrees(rules: Rules, r: Run, t: TrackState, who: nat, boxH: real, before: Time, now: Time, id: nat)
    requires Agree(r.tracks, t, id, before) && before <= now
    ensures var after := OpStep(rules, r, PoseCheck(who, boxH, now));
            Agree(after.tracks, t, id, now) && after.alerts == r.alerts
  {
  }

  /**
    Non-interference: over any run on a non-decreasing clock, the alerts of a track are those
    of a run that sees this track alone, whoever else comes and goes, however the forgetting
    of a minute's absence falls, and whatever pose checks are made in between.
   */
  lemma NonInterference(rules: Rules, ops: seq<Op>, id: nat)
    requires id != 0 && Clocked(ops)
    ensures OfTrack(RunOps(rules, ops).alerts, id) == SoloRun(rules, NEW_TRACK, ObsOf(ops, id)).alerts
  {
    RunAgrees(rules, ops, id);
  }

  /** Two scenes that agree on one person raise the same alerts about that person. */
  lemma {:induction false} SameViewSameAlerts(rules: Rules, a: seq<Op>, b: seq<Op>, id: nat)
    requires id != 0 && Clocked(a) && Clocked(b) && ObsOf(a, id) == ObsOf(b, id)
    ensures OfTrack(RunOps(rules, a).alerts, id) == OfTrack(RunOps(rules, b).alerts, id)
  {
    NonInterference(rules, a, id);
    NonInterference(rules, b, id);
  }
}
