/**
  Deciding who a face is (`face.rs`, `inference.rs`): the roster walk that finds the best match and
  the best of anybody else, the rule that one person appears once per frame, and the votes that
  confirm a tracked face.
 */
module Identity {
  import opened Options
  import opened Seqs

  // ---------------------------------------------------------------- best and runner-up

  /** One enrolled person, with the cosine of each comparable stored embedding; none if unreadable. */
  datatype Person = Person(id: string, name: string, scores: Option<seq<real>>)

  const FLOOR := -1.0

  function MaxScore(scores: seq<real>): (m: real)
    ensures m >= FLOOR && forall i :: 0 <= i < |scores| ==> scores[i] <= m
    ensures m == FLOOR || m in scores
  {
    if scores == [] then FLOOR
    else
      var m := MaxScore(scores[..|scores| - 1]);
      if scores[|scores| - 1] > m then scores[|scores| - 1] else m
  }

  /** A person's own best, above the floor, or the floor. */
  function ScoreOf(p: Person): (m: real)
    ensures m >= FLOOR
    ensures p.scores.Some? ==> forall i :: 0 <= i < |p.scores.value| ==> p.scores.value[i] <= m
    ensures m == FLOOR || (p.scores.Some? && m in p.scores.value)
  {
    if p.scores.Some? then MaxScore(p.scores.value) else FLOOR
  }

  /** What the walk remembers: the best person so far, and the runner-up's score. */
  datatype Walk = Walk(best: Option<Person>, score: real, second: real)

  function WalkOver(rows: seq<Person>): Walk {
    if rows == [] then Walk(None, FLOOR, FLOOR)
    else
      var w := WalkOver(rows[..|rows| - 1]);
      var p := rows[|rows| - 1];
      var s := ScoreOf(p);
      if s > w.score then Walk(Some(p), s, w.score)
      else if s > w.second then w.(second := s)
      else w
  }

  datatype Match = Match(id: string, name: string, score: real)

  /** `best_two_known_matches`: one walk over the roster. */
  method BestTwo(rows: seq<Person>) returns (top: Option<Match>, second: Option<real>)
    ensures var w := WalkOver(rows);
            && top == (if w.best.None? || w.best.value.id == "" then None
                       else Some(Match(w.best.value.id, w.best.value.name, w.score)))
            && second == if w.second > FLOOR then Some(w.second) else None
  {
    var best: Option<Person> := None;
    var score, runnerUp := FLOOR, FLOOR;
    for n := 0 to |rows|
      invariant Walk(best, score, runnerUp) == WalkOver(rows[..n])
    {
      TakeNext(rows, n);
      if rows[n].scores.None? {
        FloorChangesNothing(rows, n);
        continue;
      }
      var s := PersonMax(rows[n].scores.value);
      if s > score {
        runnerUp := score;
        best, score := Some(rows[n]), s;
      } else if s > runnerUp {
        runnerUp := s;
      }
    }
    TakeAll(rows);
    top := if best.None? || best.value.id == "" then None else Some(Match(best.value.id, best.value.name, score));
    second := if runnerUp > FLOOR then Some(runnerUp) else None;
  }

  method PersonMax(scores: seq<real>) returns (m: real)
    ensures m == MaxScore(scores)
  {
    m := FLOOR;
    for i := 0 to |scores|
      invariant m == MaxScore(scores[..i])
    {
      TakeNext(scores, i);
      if scores[i] > m { m := scores[i]; }
    }
    TakeAll(scores);
  }

  lemma {:induction false} WalkIsAboveFloor(rows: seq<Person>)
    ensures WalkOver(rows).score >= WalkOver(rows).second >= FLOOR
    ensures WalkOver(rows).best.None? <==> WalkOver(rows).score == FLOOR
  {
    if rows != [] { WalkIsAboveFloor(rows[..|rows| - 1]); }
  }

  lemma FloorChangesNothing(rows: seq<Person>, n: nat)
    requires n < |rows| && ScoreOf(rows[n]) == FLOOR
    ensures WalkOver(rows[..n + 1]) == WalkOver(rows[..n])
  {
    TakeNext(rows, n);
    WalkIsAboveFloor(rows[..n]);
  }

  /** `b` is the first row with the highest score above the floor. */
  ghost predicate IsBest(rows: seq<Person>, b: nat) {
    && b < |rows| && ScoreOf(rows[b]) > FLOOR
    && (forall i :: 0 <= i < |rows| ==> ScoreOf(rows[i]) <= ScoreOf(rows[b]))
    && (forall i :: 0 <= i < b ==> ScoreOf(rows[i]) < ScoreOf(rows[b]))
  }

  /** `s` is the highest score of everybody but row `b`, or the floor. */
  ghost predicate IsSecond(rows: seq<Person>, b: nat, s: real) {
    && s >= FLOOR
    && (forall i :: 0 <= i < |rows| && i != b ==> ScoreOf(rows[i]) <= s)
    && (s == FLOOR || exists i :: 0 <= i < |rows| && i != b && ScoreOf(rows[i]) == s)
  }

  /** What the walk has found when row `b` is the best so far; any `b` if nobody scores. */
  ghost predicate Finds(rows: seq<Person>, w: Walk, b: nat) {
    if w.best.None? then w.score == FLOOR && w.second == FLOOR &&
      forall i :: 0 <= i < |rows| ==> ScoreOf(rows[i]) == FLOOR
    else IsBest(rows, b) && w.best == Some(rows[b]) && w.score == ScoreOf(rows[b]) && IsSecond(rows, b, w.second)
  }

  lemma NewBest(rows: seq<Person>, p: Person, w: Walk, b: nat)
    requires Finds(rows, w, b) && ScoreOf(p) > w.score
    ensures Finds(rows + [p], Walk(Some(p), ScoreOf(p), w.score), |rows|)
  {
    hide MaxScore, ScoreOf;
    var all, n := rows + [p], |rows|;
    assert forall i :: 0 <= i < n ==> all[i] == rows[i];
    assert all[n] == p;
    if w.best.Some? {
      assert all[b] == rows[b];
    }
  }

  lemma SameBest(rows: seq<Person>, p: Person, w: Walk, b: nat)
    requires Finds(rows, w, b) && ScoreOf(p) <= w.score
    ensures Finds(rows + [p], if ScoreOf(p) > w.second then w.(second := ScoreOf(p)) else w, b)
  {
    hide MaxScore, ScoreOf;
    var all, n := rows + [p], |rows|;
    assert forall i :: 0 <= i < n ==> all[i] == rows[i];
    assert all[n] == p;
    if w.best.Some? {
      assert all[b] == rows[b];
      if w.second > FLOOR && ScoreOf(p) <= w.second {
        var i :| 0 <= i < n && i != b && ScoreOf(rows[i]) == w.second;
        assert all[i] == rows[i];
      }
    }
  }

  /** The walk returns the first best person, and the best of everybody else. */
  lemma {:induction false} WalkFindsBestTwo(rows: seq<Person>) returns (b: nat)
    ensures Finds(rows, WalkOver(rows), b)
  {
    b := 0;
    if rows != [] {
      var before, p := rows[..|rows| - 1], rows[|rows| - 1];
      b := WalkFindsBestTwo(before);
      InitLast(rows);
      hide Finds, ScoreOf;
      if ScoreOf(p) > WalkOver(before).score {
        NewBest(before, p, WalkOver(before), b);
        b := |rows| - 1;
      } else {
        SameBest(before, p, WalkOver(before), b);
      }
    }
  }

  /** Number of people scoring at least `x`. */
  function CountAtLeast(rows: seq<Person>, x: real): nat {
    if rows == [] then 0
    else CountAtLeast(rows[..|rows| - 1], x) + if ScoreOf(rows[|rows| - 1]) >= x then 1 else 0
  }

  /** The two scores are the two highest ranks of the roster. */
  lemma {:induction false} ScoresAreRanks(rows: seq<Person>, x: real)
    requires x > FLOOR
    ensures WalkOver(rows).score >= x <==> CountAtLeast(rows, x) >= 1
    ensures WalkOver(rows).second >= x <==> CountAtLeast(rows, x) >= 2
  {
    if rows != [] {
      WalkIsAboveFloor(rows[..|rows| - 1]);
      ScoresAreRanks(rows[..|rows| - 1], x);
    }
  }

  lemma {:induction false} CountIsOrderFree(a: seq<Person>, b: seq<Person>, x: real)
    requires multiset(a) == multiset(b)
    ensures CountAtLeast(a, x) == CountAtLeast(b, x)
    decreases |a|
  {
    if a != [] {
      var n := |a| - 1;
      var p := a[n];
      InitLast(a);
      assert p in multiset(b);
      var j :| 0 <= j < |b| && b[j] == p;
      CountWithout(b, j, x);
      WithoutMultiset(b, j);
      assert multiset(a[..n]) == multiset(a) - multiset{p};
      CountIsOrderFree(a[..n], b[..j] + b[j + 1..], x);
    } else {
      assert |multiset(b)| == 0;
    }
  }

  lemma {:induction false} CountAppend2(a: seq<Person>, b: seq<Person>, x: real)
    ensures CountAtLeast(a + b, x) == CountAtLeast(a, x) + CountAtLeast(b, x)
  {
    if b == [] {
      Units(a);
    } else {
      var v, p := b[..|b| - 1], b[|b| - 1];
      InitLast(b);
      Assoc(a, v, [p]);
      AppendTake(a + v, p);
      CountAppend2(a, v, x);
    }
  }

  lemma CountWithout(b: seq<Person>, j: nat, x: real)
    requires j < |b|
    ensures CountAtLeast(b, x) == CountAtLeast(b[..j] + b[j + 1..], x) + if ScoreOf(b[j]) >= x then 1 else 0
  {
    hide CountAtLeast;
    CountAppend2(b[..j], b[j + 1..], x);
    CountAppend2(b[..j] + [b[j]], b[j + 1..], x);
    CountAppend2(b[..j], [b[j]], x);
    CountOne(b[j], x);
    SplitAt(b, j);
  }

  lemma SplitAt<T>(b: seq<T>, j: nat)
    requires j < |b|
    ensures b[..j] + [b[j]] + b[j + 1..] == b
  {
  }

  lemma CountOne(p: Person, x: real)
    ensures CountAtLeast([p], x) == if ScoreOf(p) >= x then 1 else 0
  {
    assert CountAtLeast([p][..0], x) == 0;
  }

  lemma WithoutMultiset(b: seq<Person>, j: nat)
    requires j < |b|
    ensures multiset(b[..j] + b[j + 1..]) == multiset(b) - multiset{b[j]}
  {
    assert b[..j] + [b[j]] + b[j + 1..] == b;
  }

  /** The order of the roster does not influence either score. */
  lemma ScoresAreOrderFree(a: seq<Person>, b: seq<Person>)
    requires multiset(a) == multiset(b)
    ensures WalkOver(a).score == WalkOver(b).score && WalkOver(a).second == WalkOver(b).second
  {
    ScoresFollow(a, b);
    ScoresFollow(b, a);
  }

  lemma ScoresFollow(a: seq<Person>, b: seq<Person>)
    requires multiset(a) == multiset(b)
    ensures WalkOver(a).score <= WalkOver(b).score && WalkOver(a).second <= WalkOver(b).second
  {
    var w := WalkOver(a);
    WalkIsAboveFloor(a);
    WalkIsAboveFloor(b);
    hide WalkOver, CountAtLeast;
    if w.score > FLOOR {
      ScoresAreRanks(a, w.score);
      CountIsOrderFree(a, b, w.score);
      ScoresAreRanks(b, w.score);
    }
    if w.second > FLOOR {
      ScoresAreRanks(a, w.second);
      CountIsOrderFree(a, b, w.second);
      ScoresAreRanks(b, w.second);
    }
  }

  // ---------------------------------------------------------------- one identity per frame

  /** A confidently named face: its place in the frame, who, and how sure. */
  datatype Named = Named(idx: nat, pid: string, score: real)

  /** Face `k` has the highest score of its identity among the first `n`, and the earliest such. */
  ghost predicate Holds(named: seq<Named>, n: nat, k: nat)
    requires k < n <= |named|
  {
    && (forall i :: 0 <= i < n && named[i].pid == named[k].pid ==> named[i].score <= named[k].score)
    && (forall i :: 0 <= i < k && named[i].pid == named[k].pid ==> named[i].score < named[k].score)
  }

  ghost predicate Ascending(s: seq<nat>) {
    forall i, j :: 0 <= i < j < |s| ==> s[i] < s[j]
  }

  function Insert(s: seq<nat>, x: nat): (r: seq<nat>)
    requires Ascending(s) && x !in s
    ensures Ascending(r) && forall y :: y in r <==> y == x || y in s
  {
    if s == [] then [x]
    else if s[|s| - 1] < x then s + [x]
    else
      var r := Insert(s[..|s| - 1], x);
      assert r[|r| - 1] in r && s == s[..|s| - 1] + [s[|s| - 1]];
      r + [s[|s| - 1]]
  }

  datatype Held = Held(idx: nat, score: real)

  /** Who holds each identity after the first `n` faces; `at` names its place in the list. */
  ghost predicate HoldersAre(named: seq<Named>, n: nat, best: map<string, Held>, at: map<string, nat>) {
    && n <= |named| && best.Keys == at.Keys
    && (forall p :: p in at ==>
         at[p] < n && named[at[p]].pid == p && best[p] == Held(named[at[p]].idx, named[at[p]].score))
    && (forall i: nat :: i < n ==> named[i].pid in at && Under(named, i, at[named[i].pid]))
  }

  /** Face `i` does not beat face `h`, and is not level with it either if it comes first. */
  ghost predicate Under(named: seq<Named>, i: nat, h: nat)
    requires i < |named|
  {
    h < |named| && named[i].score <= named[h].score && (i < h ==> named[i].score < named[h].score)
  }

  method BestHolders(named: seq<Named>) returns (best: map<string, Held>, ghost at: map<string, nat>)
    ensures HoldersAre(named, |named|, best, at)
  {
    best, at := map[], map[];
    for n := 0 to |named|
      invariant HoldersAre(named, n, best, at)
    {
      var f := named[n];
      if !(f.pid in best && best[f.pid].score >= f.score) {
        ghost var was := at;
        best, at := best[f.pid := Held(f.idx, f.score)], at[f.pid := n];
        forall i: nat | i < n + 1 ensures named[i].pid in at && Under(named, i, at[named[i].pid]) {
          assert i < n ==> named[i].pid in was && Under(named, i, was[named[i].pid]);
        }
      }
    }
  }

  /**
    `duplicate_identity_indices`: the faces to demote, in index order, are exactly those which do
    not hold their identity.
   */
  method DuplicateIdentities(named: seq<Named>) returns (demoted: seq<nat>)
    requires forall i, j :: 0 <= i < j < |named| ==> named[i].idx != named[j].idx
    ensures Ascending(demoted)
    ensures forall i: nat | i < |named| :: named[i].idx in demoted <==> !Holds(named, |named|, i)
    ensures forall d | d in demoted :: exists i :: 0 <= i < |named| && named[i].idx == d
  {
    var best, at := BestHolders(named);
    demoted := [];
    for n := 0 to |named|
      invariant Ascending(demoted)
      invariant forall i :: 0 <= i < |named| ==> (named[i].idx in demoted <==> i < n && at[named[i].pid] != i)
      invariant forall d :: d in demoted ==> exists i :: 0 <= i < |named| && named[i].idx == d
    {
      var f := named[n];
      if best[f.pid].idx != f.idx { demoted := Insert(demoted, f.idx); }
    }
    forall i: nat | i < |named| ensures Holds(named, |named|, i) <==> at[named[i].pid] == i {
      HoldersHold(named, best, at, i);
    }
  }

  lemma HoldersHold(named: seq<Named>, best: map<string, Held>, at: map<string, nat>, i: nat)
    requires HoldersAre(named, |named|, best, at) && i < |named|
    ensures Holds(named, |named|, i) <==> at[named[i].pid] == i
  {
    var h := at[named[i].pid];
    assert named[h].pid == named[i].pid && Under(named, i, h);
    if h == i {
      forall k | 0 <= k < |named| && named[k].pid == named[i].pid
        ensures named[k].score <= named[i].score && (k < i ==> named[k].score < named[i].score)
      {
        assert Under(named, k, h);
      }
    }
  }

  lemma {:induction false} SomeHolder(named: seq<Named>, n: nat, pid: string) returns (h: nat)
    requires n <= |named| && exists i :: 0 <= i < n && named[i].pid == pid
    ensures h < n && named[h].pid == pid && Holds(named, n, h)
  {
    var last := n - 1;
    if exists i :: 0 <= i < last && named[i].pid == pid {
      h := SomeHolder(named, last, pid);
      if named[last].pid == pid && named[last].score > named[h].score { h := last; }
    } else {
      h := last;
    }
  }

  /** Every identity seen in a frame has exactly one holder, so exactly one face keeps the name. */
  lemma OneHolder(named: seq<Named>, i: nat) returns (h: nat)
    requires i < |named|
    ensures h < |named| && named[h].pid == named[i].pid && Holds(named, |named|, h)
    ensures forall k: nat | k < |named| && named[k].pid == named[i].pid && Holds(named, |named|, k) :: k == h
  {
    h := SomeHolder(named, |named|, named[i].pid);
  }

  // ---------------------------------------------------------------- votes of a tracked face

  datatype Vote = Vote(n: nat, sum: real, max: real)

  const NO_VOTE := Vote(0, 0.0, 0.0)

  function Added(v: Vote, score: real): Vote { Vote(v.n + 1, v.sum + score, if score > v.max then score else v.max) }

  function Average(v: Vote): real { if v.n == 0 then 0.0 else v.sum / v.n as real }

  /** Seen twice at a solid average, or once well above the threshold. */
  predicate Confirmed(v: Vote, threshold: real) {
    (v.n >= 2 && Average(v) >= threshold * 0.95) || v.max >= threshold + 0.07
  }

  datatype Tick = Tick(pid: string, score: real)

  class FaceTrack {
    var pid: Option<string>
    var vote: Vote

    constructor ()
      ensures pid == None && vote == NO_VOTE
    {
      pid, vote := None, NO_VOTE;
    }

    /** `confirm_face_track` for one tracklet: a flip of identity starts the count again. */
    method Confirm(who: string, score: real, threshold: real) returns (ok: bool)
      modifies this
      ensures pid == Some(who)
      ensures vote == Added(if old(pid) == Some(who) then old(vote) else NO_VOTE, score)
      ensures ok == Confirmed(vote, threshold)
    {
      if pid.None? { pid, vote := Some(who), NO_VOTE; }
      if pid != Some(who) { pid, vote := Some(who), NO_VOTE; }
      vote := Added(vote, score);
      ok := Confirmed(vote, threshold);
    }
  }

  /** The latest unbroken run of ticks for one person. */
  function Streak(ticks: seq<Tick>): seq<real> {
    if ticks == [] then []
    else
      var t := ticks[|ticks| - 1];
      if |ticks| >= 2 && ticks[|ticks| - 2].pid == t.pid then Streak(ticks[..|ticks| - 1]) + [t.score] else [t.score]
  }

  function SumOf(v: seq<real>): real { if v == [] then 0.0 else SumOf(v[..|v| - 1]) + v[|v| - 1] }

  function HighestOf(v: seq<real>): real {
    if v == [] then 0.0 else if v[|v| - 1] > HighestOf(v[..|v| - 1]) then v[|v| - 1] else HighestOf(v[..|v| - 1])
  }

  function Tally(v: seq<real>): Vote { Vote(|v|, SumOf(v), HighestOf(v)) }

  /** The vote after the first `n` ticks of a track. */
  function VoteAfter(ticks: seq<Tick>, n: nat): Vote
    requires n <= |ticks|
  {
    Tally(Streak(ticks[..n]))
  }

  /** Over a whole track, the vote is the tally of the latest unbroken run, and nothing before it. */
  method Follow(ticks: seq<Tick>, threshold: real) returns (track: FaceTrack, verdicts: seq<bool>)
    ensures fresh(track) && track.vote == VoteAfter(ticks, |ticks|)
    ensures |verdicts| == |ticks|
    ensures forall k: nat | k < |ticks| :: verdicts[k] == Confirmed(VoteAfter(ticks, k + 1), threshold)
  {
    track := new FaceTrack();
    verdicts := [];
    assert VoteAfter(ticks, 0) == NO_VOTE;
    hide VoteAfter, Added, Confirmed;
    for n := 0 to |ticks|
      invariant fresh(track)
      invariant track.pid == if n == 0 then None else Some(ticks[n - 1].pid)
      invariant track.vote == VoteAfter(ticks, n)
      invariant |verdicts| == n
      invariant forall k: nat | k < n :: verdicts[k] == Confirmed(VoteAfter(ticks, k + 1), threshold)
    {
      var ok := track.Confirm(ticks[n].pid, ticks[n].score, threshold);
      StreakMore(ticks, n);
      verdicts := verdicts + [ok];
    }
  }

  lemma TallyMore(v: seq<real>, score: real)
    ensures Tally(v + [score]) == Added(Tally(v), score)
  {
    AppendTake(v, score);
  }

  lemma StreakMore(ticks: seq<Tick>, n: nat)
    requires n < |ticks|
    ensures var t := ticks[n];
            VoteAfter(ticks, n + 1)
            == Added(if n > 0 && ticks[n - 1].pid == t.pid then VoteAfter(ticks, n) else NO_VOTE, t.score)
  {
    TakeNext(ticks, n);
    var before := if n > 0 && ticks[n - 1].pid == ticks[n].pid then Streak(ticks[..n]) else [];
    TallyMore(before, ticks[n].score);
    assert ticks[..n + 1][n] == ticks[n] && Streak(ticks[..n + 1]) == before + [ticks[n].score];
  }

  // ---------------------------------------------------------------- what it takes to be confirmed

  lemma {:induction false} HighestIsReached(v: seq<real>, x: real)
    ensures HighestOf(v) >= x <==> x <= 0.0 || exists i :: 0 <= i < |v| && v[i] >= x
  {
    if v != [] {
      var init, last := v[..|v| - 1], v[|v| - 1];
      HighestIsReached(init, x);
      if i :| 0 <= i < |init| && init[i] >= x { assert v[i] >= x; }
      if i :| 0 <= i < |v| && v[i] >= x { if i < |init| { assert init[i] >= x; } }
      if last >= x { assert v[|v| - 1] >= x; }
    }
  }

  lemma MeanReaches(sum: real, n: nat, x: real)
    requires n >= 1
    ensures sum / n as real >= x <==> sum >= x * n as real
  {
    var q := sum / n as real;
    assert q * n as real == sum;
    if q < x { assert q * n as real < x * n as real; }
    if q >= x { assert q * n as real >= x * n as real; }
  }

  /**
    A tracked face is confirmed at a tick if and only if the latest unbroken run of its person holds two
    scores or more whose mean is at least 95 % of the threshold, or one score that is 0.07 above it. (A
    threshold of -0.07 or less confirms anything.)
   */
  lemma ConfirmedExactly(ticks: seq<Tick>, n: nat, threshold: real)
    requires n <= |ticks|
    ensures var v := Streak(ticks[..n]);
            Confirmed(VoteAfter(ticks, n), threshold)
            <==> || (|v| >= 2 && SumOf(v) >= 0.95 * threshold * |v| as real)
                 || threshold + 0.07 <= 0.0
                 || exists i :: 0 <= i < |v| && v[i] >= threshold + 0.07
  {
    var v := Streak(ticks[..n]);
    HighestIsReached(v, threshold + 0.07);
    if |v| >= 2 { MeanReaches(SumOf(v), |v|, threshold * 0.95); }
    hide SumOf, HighestOf, Streak;
  }

  /** The latest unbroken run is all of one person, and reaches back to the last tick of anybody else. */
  lemma {:induction false} StreakIsLatest(ticks: seq<Tick>)
    requires ticks != []
    ensures var k := |ticks| - |Streak(ticks)|;
            && 0 <= k < |ticks|
            && (forall i :: k <= i < |ticks| ==>
                  ticks[i].pid == ticks[|ticks| - 1].pid && Streak(ticks)[i - k] == ticks[i].score)
            && (k > 0 ==> ticks[k - 1].pid != ticks[|ticks| - 1].pid)
  {
    if |ticks| >= 2 && ticks[|ticks| - 2].pid == ticks[|ticks| - 1].pid {
      var init := ticks[..|ticks| - 1];
      StreakIsLatest(init);
      forall i | 0 <= i < |init| ensures init[i] == ticks[i] { }
    }
  }
}
