/**
  The crowd rule over whole runs. It reads nothing but the headcount of each frame; a chain of
  over-threshold frames raises one alert, and the rule re-arms only after half a minute of calm.
 */
module BehaviourCrowd {
  import opened Options
  import opened Seqs
  import opened Behaviour
  import opened BehaviourRuns

  datatype Count = Count(people: nat, now: Time)

  function CountsOf(ops: seq<Op>): seq<Count> {
    if ops == [] then []
    else
      var rest := CountsOf(ops[..|ops| - 1]);
      match ops[|ops| - 1]
      case Frame(people, now) => rest + [Count(Headcount(people), now)]
      case PoseCheck(_, _, _) => rest
  }

  datatype CrowdRun = CrowdRun(state: CrowdState, alerts: seq<Alert>)

  function RunCrowd(rules: Rules, counts: seq<Count>): CrowdRun {
    if counts == [] then CrowdRun(NEW_CROWD, [])
    else
      var before := RunCrowd(rules, counts[..|counts| - 1]);
      var c := counts[|counts| - 1];
      var out := CrowdStep(rules, before.state, c.people, c.now);
      CrowdRun(out.crowd, before.alerts + Stamp(out.fired, c.now))
  }

  // ---------------------------------------------------------------- the camera's crowd alerts

  lemma {:induction false} PeopleRaiseNoCrowdAlert(rules: Rules, tracks: Tracks, people: seq<PersonFrame>, now: Time)
    ensures OfTrack(Stamp(PeopleStep(rules, tracks, people, now).fired, now), 0) == []
  {
    hide TrackStep;
    if people != [] {
      var n := |people| - 1;
      var p := people[n];
      PeopleRaiseNoCrowdAlert(rules, tracks, people[..n], now);
      if p.trackId != 0 {
        var before := PeopleStep(rules, tracks, people[..n], now);
        var t := TrackOf(before.tracks, p.trackId);
        ObservationIsOwn(rules, t, p, now);
        StampAppend(before.fired, TrackStep(rules, t, p, now).fired, now);
        OfTrackAppend(Stamp(before.fired, now), Stamp(TrackStep(rules, t, p, now).fired, now), 0);
        OfTrackOfStamp(TrackStep(rules, t, p, now).fired, now, p.trackId, 0);
      }
    }
  }

  lemma CrowdOfFrame(rules: Rules, r: Run, people: seq<PersonFrame>, now: Time)
    ensures var out := CrowdStep(rules, r.crowd, Headcount(people), now);
            var after := OpStep(rules, r, Frame(people, now));
            after.crowd == out.crowd && OfTrack(after.alerts, 0) == OfTrack(r.alerts, 0) + Stamp(out.fired, now)
  {
    hide PeopleStep, Headcount, Retained;
    var kept := Retained(r.tracks, now);
    var walked := PeopleStep(rules, kept, people, now);
    var crowd := CrowdStep(rules, r.crowd, Headcount(people), now);
    PeopleRaiseNoCrowdAlert(rules, kept, people, now);
    StampAppend(walked.fired, crowd.fired, now);
    OfTrackAppend(Stamp(walked.fired, now), Stamp(crowd.fired, now), 0);
    OfTrackOfStamp(crowd.fired, now, 0, 0);
    OfTrackAppend(r.alerts, Stamp(walked.fired + crowd.fired, now), 0);
    Units(Stamp(crowd.fired, now));
  }

  /** The crowd alerts of a run depend on its headcounts alone. */
  lemma {:induction false} CrowdSeesCountsOnly(rules: Rules, ops: seq<Op>)
    ensures RunOps(rules, ops).crowd == RunCrowd(rules, CountsOf(ops)).state
    ensures OfTrack(RunOps(rules, ops).alerts, 0) == RunCrowd(rules, CountsOf(ops)).alerts
  {
    hide OpStep, CrowdStep, Headcount;
    if ops != [] {
      var n := |ops| - 1;
      CrowdSeesCountsOnly(rules, ops[..n]);
      match ops[n]
      case Frame(people, now) =>
        CrowdOfFrame(rules, RunOps(rules, ops[..n]), people, now);
        AppendTake(CountsOf(ops[..n]), Count(Headcount(people), now));
      case PoseCheck(id, boxH, now) =>
        PoseKeepsCrowd(rules, RunOps(rules, ops[..n]), id, boxH, now);
    }
  }

  lemma PoseKeepsCrowd(rules: Rules, r: Run, id: nat, boxH: real, now: Time)
    ensures var after := OpStep(rules, r, PoseCheck(id, boxH, now)); after.crowd == r.crowd && after.alerts == r.alerts
  {
  }

  // ---------------------------------------------------------------- chains and calm

  predicate IsOver(rules: Rules, c: Count) { c.people >= rules.crowdThreshold }

  ghost predicate InOrder(counts: seq<Count>) {
    forall i, j :: 0 <= i <= j < |counts| ==> counts[i].now <= counts[j].now
  }

  /** The last over-threshold frame. */
  function LastOver(rules: Rules, counts: seq<Count>): (r: Option<nat>)
    ensures r.Some? ==> r.value < |counts| && IsOver(rules, counts[r.value])
    ensures r.Some? ==> forall i :: r.value < i < |counts| ==> !IsOver(rules, counts[i])
    ensures r.None? ==> forall i :: 0 <= i < |counts| ==> !IsOver(rules, counts[i])
  {
    if counts == [] then None
    else if IsOver(rules, counts[|counts| - 1]) then Some(|counts| - 1)
    else LastOver(rules, counts[..|counts| - 1])
  }

  /** An under-threshold frame at least 30 s after the last over-threshold one, or before any. */
  predicate Calm(rules: Rules, counts: seq<Count>)
    requires counts != []
  {
    && !IsOver(rules, counts[|counts| - 1])
    && var l := LastOver(rules, counts);
       l.None? || Since(counts[|counts| - 1].now, counts[l.value].now) >= CROWD_REARM
  }

  /** Start of the chain of over-threshold frames, gaps at most 3 s, that ends at frame `k`. */
  function ChainStart(rules: Rules, counts: seq<Count>, k: nat): (s: nat)
    requires k < |counts|
    ensures s <= k
  {
    match LastOver(rules, counts[..k])
    case None => k
    case Some(l) =>
      if Since(counts[k].now, counts[l].now) <= CROWD_GAP then ChainStart(rules, counts, l) else k
  }

  /** Frames `links` are over the threshold, at most 3 s apart, and end at frame `k`. */
  ghost predicate ChainTo(rules: Rules, counts: seq<Count>, links: seq<nat>, k: nat)
  {
    && links != [] && links[|links| - 1] == k && k < |counts|
    && (forall i :: 0 <= i < |links| ==> links[i] < |counts| && IsOver(rules, counts[links[i]]))
    && (forall i, j :: 0 <= i < j < |links| && j == i + 1 ==>
          links[i] < links[j] && Since(counts[links[j]].now, counts[links[i]].now) <= CROWD_GAP)
  }

  ghost predicate LongChain(rules: Rules, counts: seq<Count>) {
    counts != [] &&
    exists links :: ChainTo(rules, counts, links, |counts| - 1)
                    && Since(counts[|counts| - 1].now, counts[links[0]].now) >= CROWD_HOLD
  }

  predicate FiresAt(rules: Rules, counts: seq<Count>)
    requires counts != []
  {
    var c := counts[|counts| - 1];
    CrowdStep(rules, RunCrowd(rules, counts[..|counts| - 1]).state, c.people, c.now).fired != []
  }

  /** Some alert has been raised and the scene has not been calm since. */
  predicate Muted(rules: Rules, counts: seq<Count>) {
    counts != [] && (FiresAt(rules, counts) || (!Calm(rules, counts) && Muted(rules, counts[..|counts| - 1])))
  }

  // ---------------------------------------------------------------- what the fields mean

  ghost predicate CrowdMeans(rules: Rules, c: CrowdState, counts: seq<Count>) {
    && c.fired == Muted(rules, counts)
    && match LastOver(rules, counts)
       case None => c.last == None && c.since == None
       case Some(l) =>
         && c.last == Some(counts[l].now)
         && (c.since == Some(counts[ChainStart(rules, counts, l)].now)
             || (c.since == None && Since(counts[|counts| - 1].now, counts[l].now) >= CROWD_REARM))
  }

  lemma {:induction false} ChainStartOfPrefix(rules: Rules, counts: seq<Count>, n: nat, k: nat)
    requires k < n <= |counts|
    ensures ChainStart(rules, counts[..n], k) == ChainStart(rules, counts, k)
    decreases k
  {
    TakeTake(counts, n, k);
    match LastOver(rules, counts[..k])
    case None =>
    case Some(l) => ChainStartOfPrefix(rules, counts, n, l);
  }

  lemma {:induction false} CrowdTable(rules: Rules, counts: seq<Count>)
    requires rules.crowdThreshold > 0 && InOrder(counts)
    ensures CrowdMeans(rules, RunCrowd(rules, counts).state, counts)
  {
    if counts != [] {
      var n := |counts| - 1;
      CrowdTable(rules, counts[..n]);
      match LastOver(rules, counts[..n])
      case None => CrowdStepMeans(rules, counts);
      case Some(l) =>
        ChainStartOfPrefix(rules, counts, n, l);
        CrowdStepMeans(rules, counts);
    }
  }

  lemma CrowdStepMeans(rules: Rules, counts: seq<Count>)
    requires rules.crowdThreshold > 0 && InOrder(counts) && counts != []
    requires CrowdMeans(rules, RunCrowd(rules, counts[..|counts| - 1]).state, counts[..|counts| - 1])
    requires var l := LastOver(rules, counts[..|counts| - 1]);
             l.Some? ==> ChainStart(rules, counts[..|counts| - 1], l.value) == ChainStart(rules, counts, l.value)
    ensures CrowdMeans(rules, RunCrowd(rules, counts).state, counts)
    ensures FiresAt(rules, counts) <==>
            && IsOver(rules, counts[|counts| - 1])
            && Since(counts[|counts| - 1].now, counts[ChainStart(rules, counts, |counts| - 1)].now) >= CROWD_HOLD
            && !Muted(rules, counts[..|counts| - 1])
  {
  }

  // ---------------------------------------------------------------- chains

  /** The links of the longest chain ending at frame `k`. */
  function LinksTo(rules: Rules, counts: seq<Count>, k: nat): (links: seq<nat>)
    requires k < |counts|
    ensures links != [] && links[|links| - 1] == k && links[0] == ChainStart(rules, counts, k)
  {
    match LastOver(rules, counts[..k])
    case None => [k]
    case Some(l) =>
      if Since(counts[k].now, counts[l].now) <= CROWD_GAP then LinksTo(rules, counts, l) + [k] else [k]
  }

  lemma {:induction false} LinksAreAChain(rules: Rules, counts: seq<Count>, k: nat)
    requires k < |counts| && IsOver(rules, counts[k])
    ensures ChainTo(rules, counts, LinksTo(rules, counts, k), k)
    decreases k
  {
    match LastOver(rules, counts[..k])
    case None =>
    case Some(l) =>
      if Since(counts[k].now, counts[l].now) <= CROWD_GAP { LinksAreAChain(rules, counts, l); }
  }

  /** A chain may always go through the last over-threshold frame on its way. */
  lemma LinkToLast(rules: Rules, counts: seq<Count>, j: nat, k: nat) returns (l: nat)
    requires InOrder(counts) && j < k < |counts| && IsOver(rules, counts[j])
    requires Since(counts[k].now, counts[j].now) <= CROWD_GAP
    ensures j <= l < k && IsOver(rules, counts[l]) && Since(counts[l].now, counts[j].now) <= CROWD_GAP
    ensures ChainStart(rules, counts, k) == ChainStart(rules, counts, l)
  {
    assert counts[..k][j] == counts[j];
    l := LastOver(rules, counts[..k]).value;
    assert counts[..k][l] == counts[l];
  }

  lemma ChainInit(rules: Rules, counts: seq<Count>, links: seq<nat>, k: nat)
    requires ChainTo(rules, counts, links, k) && |links| >= 2
    ensures ChainTo(rules, counts, links[..|links| - 1], links[|links| - 2])
    ensures links[|links| - 2] < k && Since(counts[k].now, counts[links[|links| - 2]].now) <= CROWD_GAP
    ensures IsOver(rules, counts[links[|links| - 2]])
  {
    hide IsOver, Since;
  }

  lemma ChainMore(rules: Rules, counts: seq<Count>, links: seq<nat>, k: nat, l: nat)
    requires ChainTo(rules, counts, links, k) && k < l < |counts| && IsOver(rules, counts[l])
    requires Since(counts[l].now, counts[k].now) <= CROWD_GAP
    ensures ChainTo(rules, counts, links + [l], l)
  {
    hide IsOver, Since;
  }

  /** No chain ending at frame `k` starts earlier. */
  lemma {:induction false} ChainStartIsEarliest(rules: Rules, counts: seq<Count>, links: seq<nat>, k: nat)
    requires InOrder(counts) && ChainTo(rules, counts, links, k)
    ensures ChainStart(rules, counts, k) <= links[0]
    decreases k
  {
    if |links| > 1 {
      var j, shorter := links[|links| - 2], links[..|links| - 1];
      ChainInit(rules, counts, links, k);
      var l := LinkToLast(rules, counts, j, k);
      hide ChainStart, ChainTo, IsOver, Since;
      if j == l {
        ChainStartIsEarliest(rules, counts, shorter, l);
      } else {
        ChainMore(rules, counts, shorter, j, l);
        ChainStartIsEarliest(rules, counts, shorter + [l], l);
      }
    }
  }

  lemma LongChainBySpan(rules: Rules, counts: seq<Count>)
    requires counts != [] && InOrder(counts)
    ensures LongChain(rules, counts) <==>
            && IsOver(rules, counts[|counts| - 1])
            && Since(counts[|counts| - 1].now, counts[ChainStart(rules, counts, |counts| - 1)].now) >= CROWD_HOLD
  {
    var k := |counts| - 1;
    if LongChain(rules, counts) {
      var links :| ChainTo(rules, counts, links, k) && Since(counts[k].now, counts[links[0]].now) >= CROWD_HOLD;
      ChainStartIsEarliest(rules, counts, links, k);
      assert counts[ChainStart(rules, counts, k)].now <= counts[links[0]].now;
    }
    if IsOver(rules, counts[k]) && Since(counts[k].now, counts[ChainStart(rules, counts, k)].now) >= CROWD_HOLD {
      LinksAreAChain(rules, counts, k);
    }
  }

  // ---------------------------------------------------------------- alerts

  /** A frame after an alert at frame `m - 1`, up to `n` frames, at which the scene is calm. */
  ghost predicate CalmBetween(rules: Rules, counts: seq<Count>, m: nat, n: nat)
    requires m <= n <= |counts|
  {
    exists r :: m < r <= n && Calm(rules, counts[..r])
  }

  lemma {:induction false} MutedSinceAlert(rules: Rules, counts: seq<Count>, n: nat)
    requires n <= |counts|
    ensures Muted(rules, counts[..n]) <==>
            exists m :: 0 < m <= n && FiresAt(rules, counts[..m]) && !CalmBetween(rules, counts, m, n)
  {
    hide FiresAt, Calm;
    if n > 0 {
      TakeNext(counts, n - 1);
      MutedSinceAlert(rules, counts, n - 1);
      if Muted(rules, counts[..n]) {
        if FiresAt(rules, counts[..n]) {
          assert !CalmBetween(rules, counts, n, n);
        } else {
          var m :| 0 < m <= n - 1 && FiresAt(rules, counts[..m]) && !CalmBetween(rules, counts, m, n - 1);
          assert !CalmBetween(rules, counts, m, n);
        }
      }
      if m :| 0 < m <= n && FiresAt(rules, counts[..m]) && !CalmBetween(rules, counts, m, n) {
        if m < n {
          assert !Calm(rules, counts[..n]);
          assert !CalmBetween(rules, counts, m, n - 1);
        }
      }
    }
  }

  /**
    Crowd, exactly: a frame raises the alert when it ends a chain of over-threshold frames that
    spans at least 5 s with no gap above 3 s, and every earlier alert was followed by calm.
   */
  lemma CrowdExactly(rules: Rules, counts: seq<Count>)
    requires rules.crowdThreshold > 0 && InOrder(counts) && counts != []
    ensures FiresAt(rules, counts) <==>
            && LongChain(rules, counts)
            && forall m :: 0 < m < |counts| && FiresAt(rules, counts[..m]) ==>
                  CalmBetween(rules, counts, m, |counts| - 1)
  {
    var n := |counts| - 1;
    CrowdTable(rules, counts[..n]);
    match LastOver(rules, counts[..n]) {
      case None =>
      case Some(l) => ChainStartOfPrefix(rules, counts, n, l);
    }
    CrowdStepMeans(rules, counts);
    LongChainBySpan(rules, counts);
    MutedSinceAlert(rules, counts, n);
  }

  /** Two alerts are separated by a frame that is calm: 30 s after the last over-threshold frame. */
  lemma AlertsAreApart(rules: Rules, counts: seq<Count>, m: nat, n: nat)
    requires rules.crowdThreshold > 0 && InOrder(counts) && 0 < m < n <= |counts|
    requires FiresAt(rules, counts[..m]) && FiresAt(rules, counts[..n])
    ensures exists r :: m < r < n && Calm(rules, counts[..r])
  {
    hide FiresAt, Calm, LongChain;
    CrowdExactly(rules, counts[..n]);
    TakeTake(counts, n, m);
    assert CalmBetween(rules, counts[..n], m, n - 1);
    var r :| m < r <= n - 1 && Calm(rules, counts[..n][..r]);
    TakeTake(counts, n, r);
  }

  /** People in the frame that are tracked. */
  ghost function Tracked(people: seq<PersonFrame>, n: nat): set<nat>
    requires n <= |people|
  {
    set i: nat | i < n && people[i].trackId != 0
  }

  /** The headcount that the rule sees is the number of tracked people, the untracked left out. */
  lemma {:induction false} HeadcountExactly(people: seq<PersonFrame>, n: nat)
    requires n <= |people|
    ensures Headcount(people[..n]) == |Tracked(people, n)|
  {
    if n > 0 {
      HeadcountExactly(people, n - 1);
      TakeNext(people, n - 1);
      var before := Tracked(people, n - 1);
      assert Tracked(people, n) == if people[n - 1].trackId != 0 then before + {n - 1} else before;
    } else {
      assert Tracked(people, 0) == {};
    }
  }
}
