/**
  When a pose sample is taken (`pose_due`), over whole runs of the engine: only of a track that gives
  a reason for it in its present visit, and once a second at most.
 */
module PoseChecks {
  import opened Numbers
  import opened Options
  import opened Behaviour
  import opened BehaviourRuns
  import opened BehaviourVisits
  import opened BehaviourPersons

  // ---------------------------------------------------------------- the log

  /** The answer that a pose check would get after the run. */
  function Answer(rules: Rules, ops: seq<Op>, id: nat, boxH: real, now: Time): bool {
    PoseStep(rules, RunOps(rules, ops).tracks, id, boxH, now).due
  }

  /** A frame at `now` finds the track unseen for a minute. */
  predicate Forgets(held: seq<Obs>, now: Time) { held != [] && Since(now, Last(held).now) >= GONE }

  /** What has been seen of the track since it was last forgotten. */
  function Held(ops: seq<Op>, id: nat): seq<Obs> {
    if ops == [] then []
    else
      var before := Held(ops[..|ops| - 1], id);
      match ops[|ops| - 1]
      case Frame(people, now) => (if Forgets(before, now) then [] else before) + ObsIn(people, now, id)
      case PoseCheck(_, _, _) => before
  }

  /** When a pose check of the track was last answered yes, unless the track has been forgotten since. */
  function LastYes(rules: Rules, ops: seq<Op>, id: nat): Option<Time> {
    if ops == [] then None
    else
      var init := ops[..|ops| - 1];
      match ops[|ops| - 1]
      case Frame(people, now) => if Forgets(Held(init, id), now) then None else LastYes(rules, init, id)
      case PoseCheck(who, boxH, now) =>
        if who == id && Answer(rules, init, who, boxH, now) then Some(now) else LastYes(rules, init, id)
  }

  function Tallest(obs: seq<Obs>): real {
    if obs == [] then 0.0 else Max(Tallest(obs[..|obs| - 1]), obs[|obs| - 1].p.boxH)
  }

  /** Reasons for a pose sample, in what has been seen: new, shrunk, maybe down, or a camera with a fence. */
  ghost predicate Candidate(rules: Rules, obs: seq<Obs>, boxH: real, now: Time) {
    || obs == [] || Since(now, obs[0].now) < 3.0
    || (Tallest(obs) > 0.0 && boxH < 0.65 * Tallest(obs))
    || MaybeDown(rules, obs)
    || (rules.climbing && rules.fences != [])
  }

  /** Flat since it was last upright, or taken to be down already. */
  ghost predicate MaybeDown(rules: Rules, obs: seq<Obs>) {
    rules.down && obs != [] && (EverInVisit(obs, WhenDown(rules)) || (SeenUpright(obs) && FirstFlat(rules, obs).Some?))
  }

  // ---------------------------------------------------------------- fields that the rules leave alone

  ghost predicate SameNotes(a: TrackState, b: TrackState) { a.lastPose == b.lastPose && a.maxH == b.maxH }

  lemma {:induction false} FencesKeepNotes(rules: Rules, t: TrackState, p: PersonFrame, ay: real, k: nat)
    requires k <= |rules.fences|
    ensures SameNotes(FencesStep(rules, t, p, ay, k).track, t)
  {
    hide LineYAt;
    if k > 0 { FencesKeepNotes(rules, t, p, ay, k - 1); }
  }

  lemma RulesKeepNotes(rules: Rules, t: TrackState, p: PersonFrame, now: Time)
    ensures SameNotes(DwellStep(rules, t, p, now).track, t)
    ensures SameNotes(RunStep(rules, t, p, now).track, t)
    ensures SameNotes(DownStep(rules, t, p, now).track, t)
    ensures SameNotes(ClimbStep(rules, t, p).track, t)
  {
    hide SquaredHeightsPerSec, Excused, FencesStep, Since;
    if p.ankleY.Some? { FencesKeepNotes(rules, t, p, p.ankleY.value, |rules.fences|); }
  }

  lemma TrackNotes(rules: Rules, t: TrackState, p: PersonFrame, now: Time)
    ensures var u := TrackStep(rules, t, p, now).track;
            u.lastPose == t.lastPose && u.maxH == Max(t.maxH, p.boxH) && u.last == Some(now)
  {
    hide ZonesStep, DwellStep, RunStep, DownStep, ClimbStep;
    ObservationIsOwn(rules, t, p, now);
    var o1 := ZonePart(rules, t, p, now);
    RulesKeepNotes(rules, o1.track, p, now);
    var o2 := DwellStep(rules, o1.track, p, now);
    RulesKeepNotes(rules, o2.track, p, now);
    var o3 := RunStep(rules, o2.track, p, now);
    RulesKeepNotes(rules, o3.track, p, now);
    RulesKeepNotes(rules, DownStep(rules, o3.track, p, now).track, p, now);
  }

  // ---------------------------------------------------------------- the table keeps to the log

  ghost predicate TableIs(rules: Rules, tracks: Tracks, id: nat, held: seq<Obs>, yes: Option<Time>) {
    Unposed(TrackOf(tracks, id)) == Track(rules, held) && TrackOf(tracks, id).lastPose == yes
  }

  lemma {:induction false} PeopleKeepPose(rules: Rules, tracks: Tracks, people: seq<PersonFrame>, now: Time, id: nat)
    ensures TrackOf(PeopleStep(rules, tracks, people, now).tracks, id).lastPose == TrackOf(tracks, id).lastPose
  {
    hide TrackStep;
    if people != [] {
      var n := |people| - 1;
      PeopleKeepPose(rules, tracks, people[..n], now, id);
      var t := TrackOf(PeopleStep(rules, tracks, people[..n], now).tracks, people[n].trackId);
      TrackNotes(rules, t, people[n], now);
    }
  }

  lemma StaleIsForgotten(rules: Rules, tracks: Tracks, id: nat, held: seq<Obs>, yes: Option<Time>, now: Time)
    requires TableIs(rules, tracks, id, held, yes)
    ensures var gone := Forgets(held, now);
            && TableIs(rules, Retained(tracks, now), id, if gone then [] else held, if gone then None else yes)
            && !Stale(TrackOf(Retained(tracks, now), id), now)
  {
    if held != [] { LastSeen(rules, held); }
    hide TrackStep;
  }

  lemma FrameKeepsTable(rules: Rules, tracks: Tracks, people: seq<PersonFrame>, now: Time, id: nat,
                        held: seq<Obs>, yes: Option<Time>)
    requires id != 0 && TableIs(rules, tracks, id, held, yes) && !Stale(TrackOf(tracks, id), now)
    ensures TableIs(rules, PeopleStep(rules, tracks, people, now).tracks, id, held + ObsIn(people, now, id), yes)
  {
    FrameIsSolo(rules, tracks, people, now, id);
    PeopleKeepPose(rules, tracks, people, now, id);
    SoloAppend(rules, NEW_TRACK, held, ObsIn(people, now, id));
    hide PeopleStep, SoloRun;
  }

  lemma CheckKeepsTable(rules: Rules, tracks: Tracks, id: nat, held: seq<Obs>, yes: Option<Time>,
                        who: nat, boxH: real, now: Time)
    requires TableIs(rules, tracks, id, held, yes)
    ensures var out := PoseStep(rules, tracks, who, boxH, now);
            TableIs(rules, out.tracks, id, held, if who == id && out.due then Some(now) else yes)
  {
    hide Track, Since;
  }

  lemma {:induction false} TableInRun(rules: Rules, ops: seq<Op>, id: nat)
    requires id != 0
    ensures TableIs(rules, RunOps(rules, ops).tracks, id, Held(ops, id), LastYes(rules, ops, id))
  {
    hide PoseStep, PeopleStep, Retained, TableIs, Forgets, CrowdStep;
    if ops == [] {
      EmptyTable(rules, id);
    } else {
      var init := ops[..|ops| - 1];
      var tracks, held, yes := RunOps(rules, init).tracks, Held(init, id), LastYes(rules, init, id);
      TableInRun(rules, init, id);
      match ops[|ops| - 1]
      case Frame(people, now) =>
        StaleIsForgotten(rules, tracks, id, held, yes, now);
        var gone := Forgets(held, now);
        FrameKeepsTable(rules, Retained(tracks, now), people, now, id,
                        if gone then [] else held, if gone then None else yes);
      case PoseCheck(who, boxH, now) => CheckKeepsTable(rules, tracks, id, held, yes, who, boxH, now);
    }
  }

  lemma EmptyTable(rules: Rules, id: nat)
    ensures TableIs(rules, map[], id, [], None)
  {
  }

  // ---------------------------------------------------------------- the reasons

  /** Seen again within a minute each time. */
  ghost predicate OneVisit(obs: seq<Obs>) {
    forall i :: 0 < i < |obs| ==> Since(obs[i].now, obs[i - 1].now) < GONE
  }

  lemma {:induction false} OneVisitStarts(obs: seq<Obs>)
    requires obs != [] && OneVisit(obs)
    ensures VisitStart(obs) == 0
  {
    if |obs| > 1 {
      assert Since(obs[|obs| - 1].now, obs[|obs| - 2].now) < GONE;
      OneVisitStarts(Earlier(obs));
    }
  }

  /** The times are in order, and none is later than `now`. */
  ghost predicate SeenBy(obs: seq<Obs>, now: Time) {
    Ordered(obs) && forall i :: 0 <= i < |obs| ==> obs[i].now <= now
  }

  lemma FrameJoins(held: seq<Obs>, more: seq<Obs>, now: Time)
    requires OneVisit(held) && !Forgets(held, now) && SeenBy(held, now)
    requires forall i :: 0 <= i < |more| ==> more[i].now == now
    ensures OneVisit(held + more) && SeenBy(held + more, now)
  {
    var all := held + more;
    forall i | 0 < i < |all| ensures Since(all[i].now, all[i - 1].now) < GONE {
      if i < |held| { assert Since(held[i].now, held[i - 1].now) < GONE; }
    }
  }

  lemma {:induction false} HeldIsOneVisit(ops: seq<Op>, id: nat, now: Time)
    requires Clocked(ops) && forall i :: 0 <= i < |ops| ==> TimeOf(ops[i]) <= now
    ensures OneVisit(Held(ops, id)) && SeenBy(Held(ops, id), now)
  {
    if ops != [] {
      var init, op := ops[..|ops| - 1], ops[|ops| - 1];
      HeldIsOneVisit(init, id, TimeOf(op));
      match op
      case Frame(people, at) =>
        ObsInTimes(people, at, id);
        FrameJoins(if Forgets(Held(init, id), at) then [] else Held(init, id), ObsIn(people, at, id), at);
      case PoseCheck(_, _, _) =>
    }
  }

  lemma {:induction false} NotesOfVisit(rules: Rules, obs: seq<Obs>)
    requires OneVisit(obs)
    ensures var t := Track(rules, obs);
            t.maxH == Tallest(obs) && t.first == if obs == [] then None else Some(obs[0].now)
  {
    hide TrackStep;
    if obs != [] {
      NotesOfVisit(rules, Earlier(obs));
      OneVisitStarts(obs);
      EntryOfVisit(rules, obs);
      TrackNotes(rules, Entry(rules, obs), Last(obs).p, Last(obs).now);
      FieldsByRule(rules, Entry(rules, obs), Last(obs).p, Last(obs).now);
    }
  }

  predicate DownKept(rules: Rules, t: TrackState) {
    (t.downFired ==> t.downSince.Some?) && (!rules.down ==> t.downSince.None?)
  }

  lemma DownStepKeeps(rules: Rules, t: TrackState, p: PersonFrame, now: Time)
    requires DownKept(rules, t)
    ensures DownKept(rules, DownStep(rules, t, p, now).track)
  {
    hide Excused, Since;
  }

  lemma {:induction false} DownIsKept(rules: Rules, obs: seq<Obs>)
    ensures DownKept(rules, Track(rules, obs))
  {
    hide TrackStep, DownStep;
    if obs != [] {
      DownIsKept(rules, Earlier(obs));
      EntryOfVisit(rules, obs);
      var t, p, now := Entry(rules, obs), Last(obs).p, Last(obs).now;
      FieldsByRule(rules, t, p, now);
      var o2 := DwellStep(rules, ZonePart(rules, t, p, now).track, p, now);
      DownStepKeeps(rules, RunStep(rules, o2.track, p, now).track, p, now);
    }
  }

  lemma DownInVisit(rules: Rules, obs: seq<Obs>)
    requires Ordered(obs)
    ensures Track(rules, obs).downSince.Some? <==> MaybeDown(rules, obs)
  {
    hide TrackStep, EverInVisit, SeenUpright, FirstFlat;
    DownIsKept(rules, obs);
    if obs != [] && rules.down { DownTable(rules, obs); }
  }

  lemma AnswerBy(rules: Rules, tracks: Tracks, id: nat, boxH: real, now: Time, held: seq<Obs>, yes: Option<Time>)
    requires id != 0 && TableIs(rules, tracks, id, held, yes)
    requires var t := Track(rules, held);
             && t.maxH == Tallest(held) && t.first == (if held == [] then None else Some(held[0].now))
             && (t.downSince.Some? <==> MaybeDown(rules, held))
    ensures PoseStep(rules, tracks, id, boxH, now).due
            <==> && rules.WantsPose() && Candidate(rules, held, boxH, now)
                 && !(yes.Some? && Since(now, yes.value) < POSE_EVERY)
  {
    hide Track, MaybeDown, Tallest, Since;
  }

  /**
    A pose check is answered yes if and only if some rule needs poses, no check of the track was answered
    yes within the last second of its visit, and what the visit has shown of it is a reason to look.
   */
  lemma PoseDueExactly(rules: Rules, ops: seq<Op>, id: nat, boxH: real, now: Time)
    requires id != 0 && Clocked(ops)
    ensures Answer(rules, ops, id, boxH, now)
            <==> && rules.WantsPose() && Candidate(rules, Held(ops, id), boxH, now)
                 && !(LastYes(rules, ops, id).Some? && Since(now, LastYes(rules, ops, id).value) < POSE_EVERY)
  {
    var held := Held(ops, id);
    TableInRun(rules, ops, id);
    HeldIsOneVisit(ops, id, if ops == [] then now else TimeOf(ops[|ops| - 1]));
    NotesOfVisit(rules, held);
    DownInVisit(rules, held);
    hide Held, LastYes, RunOps, Track, PoseStep, Candidate, MaybeDown;
    AnswerBy(rules, RunOps(rules, ops).tracks, id, boxH, now, held, LastYes(rules, ops, id));
  }
}
