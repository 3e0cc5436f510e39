/**
  The remaining rules of one track: time in view, running, person-down and climbing.
  Each fires exactly once in a visit, at the first observation where its condition holds;
  the conditions speak of the observations only.
 */
module BehaviourPersons {
  import opened Options
  import opened Seqs
  import opened Behaviour
  import opened BehaviourRuns
  import opened BehaviourVisits

  // ---------------------------------------------------------------- time in view

  predicate InViewLong(rules: Rules, obs: seq<Obs>) {
    obs != [] && rules.loiterSecs > 0 && Since(Last(obs).now, obs[VisitStart(obs)].now) >= rules.loiterSecs as real
  }

  function WhenInView(rules: Rules): Condition { (o: seq<Obs>) => InViewLong(rules, o) }

  ghost predicate DwellMeans(rules: Rules, t: TrackState, obs: seq<Obs>)
    requires obs != []
  {
    t.first == Some(obs[VisitStart(obs)].now) && t.loitered == EverInVisit(obs, WhenInView(rules))
  }

  lemma {:induction false} DwellTable(rules: Rules, obs: seq<Obs>)
    requires obs != []
    ensures DwellMeans(rules, Track(rules, obs), obs)
    ensures var fired := FiredAt(rules, obs);
            var secs := Since(Last(obs).now, obs[VisitStart(obs)].now);
            forall d :: multiset(fired)[Fired(Last(obs).p.trackId, Loitering, InView(d))]
                        == if FirstInVisit(obs, WhenInView(rules)) && d == secs then 1 else 0
    decreases |obs|
  {
    hide TrackStep, ZonePart, ZonesStep, RunStep, DownStep, ClimbStep, EverInVisit, FirstInVisit;
    var t, o := Entry(rules, obs), Last(obs);
    EntryOfVisit(rules, obs);
    if !NewVisit(obs) { DwellTable(rules, Earlier(obs)); }
    FieldsByRule(rules, t, o.p, o.now);
    EverStep(obs, WhenInView(rules));
    forall d ensures multiset(FiredAt(rules, obs))[Fired(o.p.trackId, Loitering, InView(d))]
                     == multiset(DwellStep(rules, ZonePart(rules, t, o.p, o.now).track, o.p, o.now).fired)
                         [Fired(o.p.trackId, Loitering, InView(d))] {
      CountByRule(rules, t, o.p, o.now, Fired(o.p.trackId, Loitering, InView(d)));
    }
  }

  /** Whole-frame loitering, exactly: at the first observation `loiterSecs` into the visit. */
  lemma InViewExactly(rules: Rules, obs: seq<Obs>, dwell: real)
    requires obs != []
    ensures multiset(FiredAt(rules, obs))[Fired(Last(obs).p.trackId, Loitering, InView(dwell))]
            == if FirstInVisit(obs, WhenInView(rules)) && dwell == Since(Last(obs).now, obs[VisitStart(obs)].now)
               then 1 else 0
  {
    DwellTable(rules, obs);
  }

  // ---------------------------------------------------------------- running

  function SpeedOf(o: Obs): Option<real> {
    SquaredHeightsPerSec(o.p.history, o.p.boxH, o.p.frameW, o.p.frameH, o.now)
  }

  predicate RunsNow(rules: Rules, obs: seq<Obs>) {
    && obs != [] && rules.running && SpeedOf(Last(obs)).Some?
    && SpeedOf(Last(obs)).value >= RUN_HEIGHTS_PER_SEC * RUN_HEIGHTS_PER_SEC
  }

  function WhenRunning(rules: Rules): Condition { (o: seq<Obs>) => RunsNow(rules, o) }

  lemma {:induction false} RunTable(rules: Rules, obs: seq<Obs>)
    requires obs != []
    ensures Track(rules, obs).ran == EverInVisit(obs, WhenRunning(rules))
    ensures var fired := FiredAt(rules, obs);
            forall v :: multiset(fired)[Fired(Last(obs).p.trackId, Running, Speed(v))]
                        == if FirstInVisit(obs, WhenRunning(rules)) && SpeedOf(Last(obs)) == Some(v) then 1 else 0
    decreases |obs|
  {
    hide TrackStep, ZonePart, ZonesStep, DwellStep, DownStep, ClimbStep, EverInVisit, FirstInVisit,
         SquaredHeightsPerSec;
    var t, o := Entry(rules, obs), Last(obs);
    EntryOfVisit(rules, obs);
    if !NewVisit(obs) { RunTable(rules, Earlier(obs)); }
    FieldsByRule(rules, t, o.p, o.now);
    EverStep(obs, WhenRunning(rules));
    var found := DwellStep(rules, ZonePart(rules, t, o.p, o.now).track, o.p, o.now).track;
    forall v ensures multiset(FiredAt(rules, obs))[Fired(o.p.trackId, Running, Speed(v))]
                     == multiset(RunStep(rules, found, o.p, o.now).fired)[Fired(o.p.trackId, Running, Speed(v))] {
      CountByRule(rules, t, o.p, o.now, Fired(o.p.trackId, Running, Speed(v)));
    }
  }

  /** Running, exactly: at the first observation of the visit whose median speed reaches the bar. */
  lemma RunningExactly(rules: Rules, obs: seq<Obs>, v: real)
    requires obs != []
    ensures multiset(FiredAt(rules, obs))[Fired(Last(obs).p.trackId, Running, Speed(v))]
            == if FirstInVisit(obs, WhenRunning(rules)) && SpeedOf(Last(obs)) == Some(v) then 1 else 0
  {
    RunTable(rules, obs);
  }

  function AtLeast(v: seq<real>, c: real): nat {
    if v == [] then 0 else AtLeast(v[..|v| - 1], c) + if v[|v| - 1] >= c then 1 else 0
  }

  predicate Ascending(v: seq<real>) {
    forall i, j :: 0 <= i < j < |v| ==> v[i] <= v[j]
  }

  lemma AtLeastLast(v: seq<real>, x: real, c: real)
    ensures AtLeast(v + [x], c) == AtLeast(v, c) + if x >= c then 1 else 0
  {
    AppendTake(v, x);
  }

  predicate Bounded(v: seq<real>, y: real) {
    forall i :: 0 <= i < |v| ==> v[i] <= y
  }

  lemma {:induction false} InsertBounded(v: seq<real>, x: real, y: real)
    requires Bounded(v, y) && x <= y
    ensures Bounded(Insert(v, x), y)
  {
    if v != [] && v[|v| - 1] > x { InsertBounded(v[..|v| - 1], x, y); }
  }

  lemma {:induction false} InsertAscends(v: seq<real>, x: real)
    requires Ascending(v)
    ensures Ascending(Insert(v, x))
  {
    if v != [] && v[|v| - 1] > x {
      InsertAscends(v[..|v| - 1], x);
      InsertBounded(v[..|v| - 1], x, v[|v| - 1]);
    }
  }

  lemma {:induction false} InsertCounts(v: seq<real>, x: real, c: real)
    ensures AtLeast(Insert(v, x), c) == AtLeast(v, c) + if x >= c then 1 else 0
  {
    if v == [] || v[|v| - 1] <= x {
      AtLeastLast(v, x, c);
    } else {
      var n := |v| - 1;
      InsertCounts(v[..n], x, c);
      AtLeastLast(Insert(v[..n], x), v[n], c);
    }
  }

  lemma {:induction false} SortedKeeps(v: seq<real>, c: real)
    ensures Ascending(Sorted(v)) && AtLeast(Sorted(v), c) == AtLeast(v, c)
  {
    if v != [] {
      SortedKeeps(v[..|v| - 1], c);
      InsertAscends(Sorted(v[..|v| - 1]), v[|v| - 1]);
      InsertCounts(Sorted(v[..|v| - 1]), v[|v| - 1], c);
    }
  }

  lemma {:induction false} RankOfAscending(v: seq<real>, i: nat, c: real)
    requires Ascending(v) && i < |v|
    ensures v[i] >= c <==> AtLeast(v, c) >= |v| - i
    ensures AtLeast(v, c) <= |v|
  {
    var n := |v| - 1;
    if n > 0 {
      if i < n {
        RankOfAscending(v[..n], i, c);
      } else {
        RankOfAscending(v[..n], n - 1, c);
        assert v[n] >= c <== v[n - 1] >= c;
        if v[n] < c { RankOfAscending(v[..n], 0, c); NoneAtLeast(v, c); }
      }
      if i < n && v[n] < c { NoneAtLeast(v, c); }
    }
  }

  lemma {:induction false} NoneAtLeast(v: seq<real>, c: real)
    requires forall i :: 0 <= i < |v| ==> v[i] < c
    ensures AtLeast(v, c) == 0
  {
    if v != [] { NoneAtLeast(v[..|v| - 1], c); }
  }

  /** The median reaches the bar exactly when at least half of the steps do, rounded up. */
  lemma MedianMeansHalf(v: seq<real>, c: real)
    requires v != []
    ensures Sorted(v)[|v| / 2] >= c <==> AtLeast(v, c) >= |v| - |v| / 2
  {
    SortedKeeps(v, c);
    RankOfAscending(Sorted(v), |v| / 2, c);
  }

  // ---------------------------------------------------------------- person down

  predicate Upright(o: Obs) { AngleOf(o.p).Some? && AngleOf(o.p).value <= UPRIGHT_DEG }

  predicate Risen(o: Obs) { AngleOf(o.p).Some? && AngleOf(o.p).value < RISEN_DEG }

  predicate Flat(rules: Rules, o: Obs) {
    AngleOf(o.p).Some? && AngleOf(o.p).value >= DOWN_DEG && !Excused(rules, o.p)
  }

  /** Upright at `u`, then unexcused flat at `s`, `m` and now, 10 s after `s`, never below 45 degrees since `s`. */
  ghost predicate DownWitness(rules: Rules, obs: seq<Obs>, u: nat, s: nat, m: nat)
    requires obs != []
  {
    && VisitStart(obs) <= u < s < m < |obs| - 1
    && Upright(obs[u]) && Flat(rules, obs[s]) && Flat(rules, obs[m]) && Flat(rules, Last(obs))
    && NotRisenAfter(obs, s)
    && Since(Last(obs).now, obs[s].now) >= DOWN_HOLD
  }

  ghost predicate NotRisenAfter(obs: seq<Obs>, s: int) {
    forall i :: s < i < |obs| && 0 <= i ==> !Risen(obs[i])
  }

  /**
    Seen upright earlier in the visit, then at least three unexcused flat samples, the last one
    now, at least 10 s after the first of them, with no sample below 45 degrees in between.
   */
  ghost predicate LiesDown(rules: Rules, obs: seq<Obs>) {
    obs != [] && rules.down && exists u, s, m :: DownWitness(rules, obs, u, s, m)
  }

  ghost function WhenDown(rules: Rules): Condition { (o: seq<Obs>) => LiesDown(rules, o) }

  predicate SeenUpright(obs: seq<Obs>)
    requires obs != []
  {
    Upright(Last(obs)) || (!NewVisit(obs) && SeenUpright(Earlier(obs)))
  }

  /** Flat samples since the track last rose, and the first of them. */
  function Flats(rules: Rules, obs: seq<Obs>): nat
    requires obs != []
  {
    if Risen(Last(obs)) then 0
    else (if NewVisit(obs) then 0 else Flats(rules, Earlier(obs))) + if Flat(rules, Last(obs)) then 1 else 0
  }

  function FirstFlat(rules: Rules, obs: seq<Obs>): (r: Option<nat>)
    requires obs != []
    ensures r.Some? ==> r.value < |obs|
  {
    if Risen(Last(obs)) then None
    else
      var before := if NewVisit(obs) then None else FirstFlat(rules, Earlier(obs));
      if before.Some? then before else if Flat(rules, Last(obs)) then Some(|obs| - 1) else None
  }

  lemma {:induction false} UprightWasSeen(obs: seq<Obs>) returns (u: nat)
    requires obs != [] && SeenUpright(obs)
    ensures VisitStart(obs) <= u < |obs| && Upright(obs[u])
  {
    if Upright(Last(obs)) {
      u := |obs| - 1;
    } else {
      u := UprightWasSeen(Earlier(obs));
      assert Earlier(obs)[u] == obs[u];
    }
  }

  lemma {:induction false} UprightIsSeen(obs: seq<Obs>, u: nat)
    requires obs != [] && VisitStart(obs) <= u < |obs| && Upright(obs[u])
    ensures SeenUpright(obs)
  {
    if u < |obs| - 1 {
      assert Earlier(obs)[u] == obs[u];
      UprightIsSeen(Earlier(obs), u);
    }
  }

  lemma {:induction false} FlatShape(rules: Rules, obs: seq<Obs>)
    requires obs != []
    ensures (Flats(rules, obs) >= 1) == FirstFlat(rules, obs).Some?
    ensures match FirstFlat(rules, obs)
            case None => true
            case Some(s) =>
              && VisitStart(obs) <= s && Flat(rules, obs[s])
              && NotRisenAfter(obs, s)
              && (Flats(rules, obs) >= 2 ==> exists m :: s < m < |obs| && Flat(rules, obs[m]))
              && (SeenUpright(obs) ==> exists u :: VisitStart(obs) <= u < s && Upright(obs[u]))
  {
    hide Flat, Risen, Upright;
    var n := |obs| - 1;
    assert Upright(Last(obs)) ==> Risen(Last(obs)) by { UprightIsRisen(Last(obs)); }
    if !Risen(Last(obs)) && !NewVisit(obs) {
      FlatShape(rules, Earlier(obs));
      assert forall i :: 0 <= i < n ==> Earlier(obs)[i] == obs[i];
      if SeenUpright(obs) && FirstFlat(rules, Earlier(obs)).None? {
        var u := UprightWasSeen(Earlier(obs));
        assert Upright(obs[u]);
      }
      if Flats(rules, obs) >= 2 && FirstFlat(rules, Earlier(obs)).Some? && Flats(rules, Earlier(obs)) < 2 {
        assert Flat(rules, obs[n]);
      }
    }
  }

  lemma UprightIsRisen(o: Obs)
    ensures Upright(o) ==> Risen(o)
  {
  }

  /** Without rising, flat samples accumulate and the first one stays. */
  lemma {:induction false} FlatsGrow(rules: Rules, obs: seq<Obs>, k: nat)
    requires obs != [] && VisitStart(obs) < k <= |obs|
    requires NotRisenAfter(obs, k - 1)
    ensures Flats(rules, obs) >= Flats(rules, obs[..k]) + (if k < |obs| && Flat(rules, Last(obs)) then 1 else 0)
    ensures FirstFlat(rules, obs[..k]).Some? ==> FirstFlat(rules, obs) == FirstFlat(rules, obs[..k])
  {
    hide Flat, Risen;
    if k == |obs| {
      TakeAll(obs);
    } else {
      TakeTake(obs, |obs| - 1, k);
      assert forall i :: 0 <= i < |obs| - 1 ==> Earlier(obs)[i] == obs[i];
      FlatsGrow(rules, Earlier(obs), k);
    }
  }

  lemma {:induction false} FirstFlatIsEarly(rules: Rules, obs: seq<Obs>, s: nat)
    requires obs != [] && VisitStart(obs) <= s < |obs| && Flat(rules, obs[s])
    requires NotRisenAfter(obs, s)
    ensures FirstFlat(rules, obs).Some? && FirstFlat(rules, obs).value <= s
  {
    FlatIsNotRisen(rules, obs[s]);
    if s < |obs| - 1 {
      assert forall i :: 0 <= i < |obs| - 1 ==> Earlier(obs)[i] == obs[i];
      FirstFlatIsEarly(rules, Earlier(obs), s);
    }
  }

  lemma FlatIsNotRisen(rules: Rules, o: Obs)
    ensures Flat(rules, o) ==> !Risen(o)
  {
  }

  lemma {:induction false} VisitOfPrefix(obs: seq<Obs>, k: nat)
    requires obs != [] && VisitStart(obs) < k <= |obs|
    ensures VisitStart(obs[..k]) == VisitStart(obs)
  {
    if k == |obs| {
      TakeAll(obs);
    } else {
      TakeTake(obs, |obs| - 1, k);
      VisitOfPrefix(Earlier(obs), k);
    }
  }

  /** The counters of the code see the evidence, and nothing else. */
  lemma EvidenceIsCounted(rules: Rules, obs: seq<Obs>)
    requires obs != [] && rules.down && Ordered(obs)
    ensures LiesDown(rules, obs) <==>
            && Flat(rules, Last(obs)) && SeenUpright(obs) && Flats(rules, obs) >= DOWN_SAMPLES
            && Since(Last(obs).now, obs[FirstFlat(rules, obs).value].now) >= DOWN_HOLD
  {
    FlatShape(rules, obs);
    if LiesDown(rules, obs) {
      EvidenceReachesCounters(rules, obs);
    } else if Flat(rules, Last(obs)) && SeenUpright(obs) && Flats(rules, obs) >= DOWN_SAMPLES
              && Since(Last(obs).now, obs[FirstFlat(rules, obs).value].now) >= DOWN_HOLD {
      CountersGiveEvidence(rules, obs);
    }
  }

  lemma EvidenceReachesCounters(rules: Rules, obs: seq<Obs>)
    requires obs != [] && Ordered(obs) && LiesDown(rules, obs)
    ensures Flat(rules, Last(obs)) && SeenUpright(obs) && Flats(rules, obs) >= DOWN_SAMPLES
    ensures FirstFlat(rules, obs).Some? && Since(Last(obs).now, obs[FirstFlat(rules, obs).value].now) >= DOWN_HOLD
  {
    var u, s, m :| DownWitness(rules, obs, u, s, m);
    EvidenceAt(rules, obs, u, s, m);
  }

  lemma EvidenceAt(rules: Rules, obs: seq<Obs>, u: nat, s: nat, m: nat)
    requires obs != [] && Ordered(obs) && DownWitness(rules, obs, u, s, m)
    ensures Flat(rules, Last(obs)) && SeenUpright(obs) && Flats(rules, obs) >= DOWN_SAMPLES
    ensures FirstFlat(rules, obs).Some? && Since(Last(obs).now, obs[FirstFlat(rules, obs).value].now) >= DOWN_HOLD
  {
    hide VisitStart, Flats, FirstFlat, SeenUpright, Flat, Upright, NotRisenAfter;
    UprightIsSeen(obs, u);
    FirstFlatIsEarly(rules, obs, s);
    FlatsAtThird(rules, obs, s, m);
    assert obs[FirstFlat(rules, obs).value].now <= obs[s].now;
  }

  lemma FlatsAtThird(rules: Rules, obs: seq<Obs>, s: nat, m: nat)
    requires obs != [] && VisitStart(obs) <= s < m < |obs| - 1
    requires Flat(rules, obs[s]) && Flat(rules, obs[m]) && Flat(rules, Last(obs))
    requires NotRisenAfter(obs, s)
    ensures Flats(rules, obs) >= 3
  {
    hide Flat, Risen;
    FlatIsNotRisen(rules, obs[s]);
    var one, two := obs[..s + 1], obs[..m + 1];
    VisitOfPrefix(obs, s + 1);
    VisitOfPrefix(obs, m + 1);
    TakeTake(obs, m + 1, s + 1);
    assert Last(one) == obs[s] && Last(two) == obs[m];
    FlatsGrow(rules, two, s + 1);
    FlatsGrow(rules, obs, m + 1);
  }

  lemma CountersGiveEvidence(rules: Rules, obs: seq<Obs>)
    requires obs != [] && rules.down && Flat(rules, Last(obs)) && SeenUpright(obs) && Flats(rules, obs) >= 3
    requires FirstFlat(rules, obs).Some? && Since(Last(obs).now, obs[FirstFlat(rules, obs).value].now) >= DOWN_HOLD
    ensures LiesDown(rules, obs)
  {
    hide Flat, Risen, Upright;
    FlatShape(rules, obs);
    FlatIsNotRisen(rules, Last(obs));
    var s := FirstFlat(rules, obs).value;
    var u :| VisitStart(obs) <= u < s && Upright(obs[u]);
    FlatShape(rules, Earlier(obs));
    assert FirstFlat(rules, Earlier(obs)) == Some(s);
    var m :| s < m < |obs| - 1 && Flat(rules, Earlier(obs)[m]);
    assert Earlier(obs)[m] == obs[m];
    assert DownWitness(rules, obs, u, s, m);
  }

  ghost predicate DownCounters(rules: Rules, t: TrackState, obs: seq<Obs>)
    requires obs != []
  {
    && t.upright == SeenUpright(obs)
    && t.downSamples == (if SeenUpright(obs) then Flats(rules, obs) else 0)
    && t.downSince == (if SeenUpright(obs) && FirstFlat(rules, obs).Some?
                       then Some(obs[FirstFlat(rules, obs).value].now) else None)
  }

  /** What the code's fields say while the rule has not fired in this visit. */
  ghost predicate DownMeans(rules: Rules, t: TrackState, obs: seq<Obs>)
    requires obs != []
  {
    && t.downFired == EverInVisit(obs, WhenDown(rules))
    && (t.downFired || DownCounters(rules, t, obs))
  }

  ghost predicate DownFound(rules: Rules, t: TrackState, obs: seq<Obs>)
    requires obs != []
  {
    if NewVisit(obs) then SameDown(t, NEW_TRACK) else DownMeans(rules, t, Earlier(obs))
  }

  ghost predicate DownAnswers(rules: Rules, out: TrackOut, obs: seq<Obs>)
    requires obs != []
  {
    && DownMeans(rules, out.track, obs)
    && |out.fired| == (if FirstInVisit(obs, WhenDown(rules)) then 1 else 0)
    && (out.fired != [] ==>
          FirstFlat(rules, obs).Some? &&
          out.fired[0] == Fired(Last(obs).p.trackId, Down,
                                Held(Since(Last(obs).now, obs[FirstFlat(rules, obs).value].now))))
  }

  lemma DownQuiet(rules: Rules, t: TrackState, obs: seq<Obs>)
    requires obs != [] && rules.down && Ordered(obs) && DownFound(rules, t, obs) && !t.downFired
    requires !Flat(rules, Last(obs)) || !SeenUpright(obs)
    ensures DownAnswers(rules, DownStep(rules, t, Last(obs).p, Last(obs).now), obs)
  {
    hide LiesDown, EverInVisit, FirstInVisit, Excused;
    EvidenceIsCounted(rules, obs);
    EverStep(obs, WhenDown(rules));
    FlatShape(rules, obs);
    if !NewVisit(obs) { FlatShape(rules, Earlier(obs)); }
  }

  lemma DownCounts(rules: Rules, t: TrackState, obs: seq<Obs>)
    requires obs != [] && rules.down && Ordered(obs) && DownFound(rules, t, obs) && !t.downFired
    requires Flat(rules, Last(obs)) && SeenUpright(obs)
    ensures DownAnswers(rules, DownStep(rules, t, Last(obs).p, Last(obs).now), obs)
  {
    hide LiesDown, EverInVisit, FirstInVisit, Excused;
    EvidenceIsCounted(rules, obs);
    EverStep(obs, WhenDown(rules));
    FlatShape(rules, obs);
    FlatIsNotRisen(rules, Last(obs));
    if !NewVisit(obs) { FlatShape(rules, Earlier(obs)); }
  }

  lemma DownObserved(rules: Rules, t: TrackState, obs: seq<Obs>)
    requires obs != [] && Ordered(obs) && DownFound(rules, t, obs)
    ensures rules.down ==> DownAnswers(rules, DownStep(rules, t, Last(obs).p, Last(obs).now), obs)
  {
    if rules.down {
      if t.downFired {
        hide LiesDown, EverInVisit, FirstInVisit, Excused;
        EverStep(obs, WhenDown(rules));
      } else if Flat(rules, Last(obs)) && SeenUpright(obs) {
        DownCounts(rules, t, obs);
      } else {
        DownQuiet(rules, t, obs);
      }
    }
  }

  lemma {:induction false} DownTable(rules: Rules, obs: seq<Obs>)
    requires obs != [] && Ordered(obs) && rules.down
    ensures DownMeans(rules, Track(rules, obs), obs)
    decreases |obs|, 1
  {
    hide DownStep, TrackStep, ZonePart, ZonesStep, DwellStep, RunStep, ClimbStep, EverInVisit, FirstInVisit,
         LiesDown, DownMeans;
    DownAtLast(rules, obs);
  }

  lemma {:induction false} DownAtLast(rules: Rules, obs: seq<Obs>)
    requires obs != [] && Ordered(obs) && rules.down
    ensures exists out :: DownAnswers(rules, out, obs) && DownMeans(rules, Track(rules, obs), obs)
              && forall h :: multiset(FiredAt(rules, obs))[Fired(Last(obs).p.trackId, Down, Held(h))]
                             == multiset(out.fired)[Fired(Last(obs).p.trackId, Down, Held(h))]
    decreases |obs|, 0
  {
    hide DownStep, TrackStep, ZonePart, ZonesStep, DwellStep, RunStep, ClimbStep, DownMeans;
    var t, o := Entry(rules, obs), Last(obs);
    EntryOfVisit(rules, obs);
    if !NewVisit(obs) { DownTable(rules, Earlier(obs)); }
    FieldsByRule(rules, t, o.p, o.now);
    var o2 := DwellStep(rules, ZonePart(rules, t, o.p, o.now).track, o.p, o.now);
    var found := RunStep(rules, o2.track, o.p, o.now).track;
    DownFoundBySame(rules, t, found, obs);
    DownObserved(rules, found, obs);
    var out := DownStep(rules, found, o.p, o.now);
    DownMeansBySame(rules, out.track, Track(rules, obs), obs);
    forall h ensures multiset(FiredAt(rules, obs))[Fired(o.p.trackId, Down, Held(h))]
                     == multiset(out.fired)[Fired(o.p.trackId, Down, Held(h))] {
      CountByRule(rules, t, o.p, o.now, Fired(o.p.trackId, Down, Held(h)));
    }
  }

  lemma DownMeansBySame(rules: Rules, a: TrackState, b: TrackState, obs: seq<Obs>)
    requires obs != [] && SameDown(b, a)
    ensures DownMeans(rules, a, obs) ==> DownMeans(rules, b, obs)
  {
  }

  lemma DownFoundBySame(rules: Rules, t: TrackState, found: TrackState, obs: seq<Obs>)
    requires obs != [] && SameDown(found, t) && DownFound(rules, t, obs)
    ensures DownFound(rules, found, obs)
  {
  }

  /**
    Person-down, exactly: one alert at the first observation of the visit at which the track lies
    down in the sense of `LiesDown`, none at any other.
   */
  lemma PersonDownExactly(rules: Rules, obs: seq<Obs>)
    requires obs != [] && Ordered(obs) && rules.down
    ensures !FirstInVisit(obs, WhenDown(rules)) ==>
              forall h :: multiset(FiredAt(rules, obs))[Fired(Last(obs).p.trackId, Down, Held(h))] == 0
    ensures FirstInVisit(obs, WhenDown(rules)) ==> FirstFlat(rules, obs).Some?
    ensures FirstInVisit(obs, WhenDown(rules)) ==>
              forall h :: multiset(FiredAt(rules, obs))[Fired(Last(obs).p.trackId, Down, Held(h))]
                          == if h == Since(Last(obs).now, obs[FirstFlat(rules, obs).value].now) then 1 else 0
  {
    hide FirstInVisit, TrackStep, DownMeans;
    DownAtLast(rules, obs);
  }

  /** With the rule switched off there is no such alert. */
  lemma NoDownWhenOff(rules: Rules, obs: seq<Obs>, h: real)
    requires obs != [] && !rules.down
    ensures multiset(FiredAt(rules, obs))[Fired(Last(obs).p.trackId, Down, Held(h))] == 0
  {
    hide TrackStep, ZonePart, DwellStep, RunStep, ClimbStep;
    CountByRule(rules, Entry(rules, obs), Last(obs).p, Last(obs).now, Fired(Last(obs).p.trackId, Down, Held(h)));
  }

  /** Somebody lying in a zone that says so is left alone; other zones have no say. */
  lemma NoDownWhereIgnored(rules: Rules, obs: seq<Obs>, h: real)
    requires obs != [] && Ordered(obs) && rules.down
    ensures Flat(rules, Last(obs))
            <==> && AngleOf(Last(obs).p).Some? && AngleOf(Last(obs).p).value >= 60.0
                 && forall z :: z in rules.zones && z.ignoreDown ==> !z.covers(Last(obs).p.foot)
    ensures (exists z :: z in rules.zones && z.ignoreDown && z.covers(Last(obs).p.foot)) ==>
              multiset(FiredAt(rules, obs))[Fired(Last(obs).p.trackId, Down, Held(h))] == 0
  {
    var o := Last(obs);
    if i :| 0 <= i < |rules.zones| && rules.zones[i].ignoreDown && rules.zones[i].covers(o.p.foot) {
      assert rules.zones[i] in rules.zones;
    }
    if z :| z in rules.zones && z.ignoreDown && z.covers(o.p.foot) {
      var i :| 0 <= i < |rules.zones| && rules.zones[i] == z;
      assert Excused(rules, o.p);
      assert !LiesDown(rules, obs);
    }
    hide Excused, LiesDown, TrackStep, FiredAt;
    PersonDownExactly(rules, obs);
    assert obs[..|obs|] == obs;
  }
}
