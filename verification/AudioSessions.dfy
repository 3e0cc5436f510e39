/**
  What the online audio lifecycle computes: a batch split of a camera's hits at silences of 30 s
  or more (and at teardowns), one row and at most one alert per group.
 */
module AudioSessions {
  import opened Options
  import opened Seqs
  import opened AudioEvents

  datatype Heard = Heard(h: Hit, now: Time)

  /** One group of hits; `stopped` when the capture was torn down after the last of them. */
  datatype Session = Session(heard: seq<Heard>, stopped: bool)

  function LastOf(hs: seq<Heard>): Heard
    requires hs != []
  {
    hs[|hs| - 1]
  }

  /** Where hit `x` belongs, given the groups so far. */
  predicate Joins(ss: seq<Session>, x: Heard) {
    && ss != [] && ss[|ss| - 1].heard != [] && !ss[|ss| - 1].stopped
    && x.now - LastOf(ss[|ss| - 1].heard).now < MAX_NOT_HEARD
  }

  function WithHit(ss: seq<Session>, x: Heard): seq<Session> {
    if Joins(ss, x)
    then ss[|ss| - 1 := ss[|ss| - 1].(heard := ss[|ss| - 1].heard + [x])]
    else ss + [Session([x], false)]
  }

  function WithStop(ss: seq<Session>): seq<Session> {
    if ss == [] then ss else ss[|ss| - 1 := ss[|ss| - 1].(stopped := true)]
  }

  function Sessions(ops: seq<CamOp>): seq<Session> {
    if ops == [] then []
    else
      var ss := Sessions(ops[..|ops| - 1]);
      match ops[|ops| - 1]
      case Tick(_) => ss
      case Hear(h, now) => WithHit(ss, Heard(h, now))
      case Stop(_) => WithStop(ss)
  }

  // ---------------------------------------------------------------- the split

  function HitsOf(ops: seq<CamOp>): seq<Heard> {
    if ops == [] then []
    else
      var rest := HitsOf(ops[..|ops| - 1]);
      match ops[|ops| - 1] case Hear(h, now) => rest + [Heard(h, now)] case _ => rest
  }

  /** What the windows of one camera were reported to hold, in order. */
  function HeardBy(ops: seq<Op>, cam: nat): seq<Heard> {
    if ops == [] then []
    else
      var rest, op := HeardBy(ops[..|ops| - 1], cam), ops[|ops| - 1];
      if op.Listen? && op.cam == cam && op.hit.Some? then rest + [Heard(op.hit.value, op.now)] else rest
  }

  lemma HitsMore(ops: seq<CamOp>, op: CamOp)
    ensures HitsOf(ops + [op]) == HitsOf(ops) + match op case Hear(h, now) => [Heard(h, now)] case _ => []
  {
    AppendTake(ops, op);
  }

  /** Of a run over many cameras, each camera gets its own hits and no others. */
  lemma {:induction false} OwnHitsArrive(ops: seq<Op>, cam: nat)
    ensures HitsOf(OpsFor(ops, cam)) == HeardBy(ops, cam)
  {
    if ops != [] {
      var n := |ops| - 1;
      OwnHitsArrive(ops[..n], cam);
      var before, new_ := OpsFor(ops[..n], cam), OpFor(ops[n], cam);
      if new_ != [] { HitsMore(before, new_[0]); } else { Units(before); }
      hide HitsOf;
      assert new_ != [] ==> new_ == [new_[0]];
    }
  }

  function Flatten(ss: seq<Session>): seq<Heard> {
    if ss == [] then [] else Flatten(ss[..|ss| - 1]) + ss[|ss| - 1].heard
  }

  ghost predicate CloseTogether(hs: seq<Heard>) {
    forall i :: 0 < i < |hs| ==> hs[i].now - hs[i - 1].now < MAX_NOT_HEARD
  }

  /** Inside a group every gap is below 30 s; between groups the gap is 30 s or more, or a teardown. */
  ghost predicate GapSplit(ss: seq<Session>) {
    && (forall k :: 0 <= k < |ss| ==> ss[k].heard != [] && CloseTogether(ss[k].heard))
    && (forall k :: 0 < k < |ss| ==>
          ss[k - 1].stopped || ss[k].heard[0].now - LastOf(ss[k - 1].heard).now >= MAX_NOT_HEARD)
  }

  lemma {:induction false} SessionsAreGapSplit(ops: seq<CamOp>)
    ensures GapSplit(Sessions(ops)) && Flatten(Sessions(ops)) == HitsOf(ops)
  {
    if ops != [] {
      var before := ops[..|ops| - 1];
      SessionsAreGapSplit(before);
      var ss := Sessions(before);
      match ops[|ops| - 1]
      case Tick(_) =>
      case Hear(h, now) => HitKeepsSplit(ss, Heard(h, now));
      case Stop(_) => StopKeepsSplit(ss);
    }
  }

  lemma LastReplaced(ss: seq<Session>, t: Session)
    requires ss != []
    ensures Flatten(ss[|ss| - 1 := t]) == Flatten(ss[..|ss| - 1]) + t.heard
    ensures Flatten(ss) == Flatten(ss[..|ss| - 1]) + ss[|ss| - 1].heard
  {
    assert ss[|ss| - 1 := t][..|ss| - 1] == ss[..|ss| - 1];
  }

  lemma HitKeepsSplit(ss: seq<Session>, x: Heard)
    requires GapSplit(ss)
    ensures GapSplit(WithHit(ss, x)) && Flatten(WithHit(ss, x)) == Flatten(ss) + [x]
  {
    var n := |ss| - 1;
    if Joins(ss, x) {
      hide Flatten;
      var tt := WithHit(ss, x);
      LastReplaced(ss, tt[n]);
      Assoc(Flatten(ss[..n]), ss[n].heard, [x]);
      assert CloseTogether(tt[n].heard);
    } else {
      AppendTake(ss, Session([x], false));
      if ss != [] { assert (ss + [Session([x], false)])[n] == ss[n]; }
    }
  }

  lemma StopKeepsSplit(ss: seq<Session>)
    requires GapSplit(ss)
    ensures GapSplit(WithStop(ss)) && Flatten(WithStop(ss)) == Flatten(ss)
  {
    hide Flatten;
    if ss != [] { LastReplaced(ss, WithStop(ss)[|ss| - 1]); }
  }

  // ---------------------------------------------------------------- what a group amounts to

  /** The first hit with the highest score. */
  function Peak(hs: seq<Heard>): (p: nat)
    requires hs != []
    ensures p < |hs|
    ensures forall i :: 0 <= i < |hs| ==> hs[i].h.score <= hs[p].h.score
    ensures forall i :: 0 <= i < p ==> hs[i].h.score < hs[p].h.score
  {
    if |hs| == 1 then 0
    else
      var p := Peak(hs[..|hs| - 1]);
      if hs[|hs| - 1].h.score > hs[p].h.score then |hs| - 1 else p
  }

  predicate AnyHighPitch(ears: Ears, hs: seq<Heard>) {
    exists i :: 0 <= i < |hs| && ears.HighPitch(hs[i].h)
  }

  function Loudest(hs: seq<Heard>): real
    requires hs != []
  {
    if |hs| == 1 then hs[0].h.loud else Louder(Loudest(hs[..|hs| - 1]), hs[|hs| - 1].h.loud)
  }

  /** The loudest hit's loudness. */
  lemma {:induction false} LoudestExactly(hs: seq<Heard>)
    requires hs != []
    ensures forall i :: 0 <= i < |hs| ==> hs[i].h.loud <= Loudest(hs)
    ensures exists i :: 0 <= i < |hs| && hs[i].h.loud == Loudest(hs)
  {
    if |hs| == 1 {
      assert hs[0].h.loud == Loudest(hs);
    } else {
      var init := hs[..|hs| - 1];
      LoudestExactly(init);
      var i :| 0 <= i < |init| && init[i].h.loud == Loudest(init);
      var best := if Loudest(init) >= hs[|hs| - 1].h.loud then i else |hs| - 1;
      assert hs[i] == init[i] && hs[best].h.loud == Loudest(hs);
    }
  }

  function MetaOf(ears: Ears, hs: seq<Heard>): Meta
    requires hs != []
  {
    Meta(Take3(hs[Peak(hs)].h.top), AnyHighPitch(ears, hs))
  }

  function OpenOf(ears: Ears, hs: seq<Heard>, id: nat): OpenAudio
    requires hs != []
  {
    var p := hs[Peak(hs)].h;
    OpenAudio(id, hs[0].now, LastOf(hs).now, p.score, p.sound, AnyHighPitch(ears, hs), Loudest(hs), Take3(p.top), |hs|,
              |hs| >= 2 || ears.Critical(hs[0].h))
  }

  /** The first high-pitched hit; zero if there is none. */
  function FirstHigh(ears: Ears, hs: seq<Heard>): (r: nat)
    ensures AnyHighPitch(ears, hs) ==> r < |hs| && ears.HighPitch(hs[r].h) && !AnyHighPitch(ears, hs[..r])
    ensures !AnyHighPitch(ears, hs) ==> r == 0
  {
    if hs == [] then 0
    else
      var n := |hs| - 1;
      InitLast(hs);
      HighPitchMore(ears, hs[..n], hs[n]);
      if AnyHighPitch(ears, hs[..n]) then FirstInInit(ears, hs); FirstHigh(ears, hs[..n])
      else if ears.HighPitch(hs[n].h) then n
      else 0
  }

  lemma FirstInInit(ears: Ears, hs: seq<Heard>)
    requires hs != []
    ensures forall r: nat :: r < |hs| - 1 ==> hs[..|hs| - 1][..r] == hs[..r]
  {
  }

  /** The hit that last rewrote the card: the peak, or the first high-pitched one if that came later. */
  function LastWrite(ears: Ears, hs: seq<Heard>): (n: nat)
    requires hs != []
    ensures n < |hs|
  {
    if Peak(hs) < FirstHigh(ears, hs) then FirstHigh(ears, hs) else Peak(hs)
  }

  /** The card of a group; its loudness is that of the hits up to the last rewriting. */
  ghost predicate IsCard(ears: Ears, row: Row, hs: seq<Heard>, closed: bool)
    requires hs != []
  {
    var p := hs[Peak(hs)].h;
    var ended := Later(LastOf(hs).now, hs[0].now + MIN_DURATION);
    && row.started == hs[0].now && row.peak == p.score && row.sound == p.sound && row.meta == MetaOf(ears, hs)
    && row.ended == (if closed then Some(ended) else None)
    && row.duration == (if closed then Some(Later(ended - hs[0].now, MIN_DURATION)) else None)
    && row.loud == Loudest(hs[..LastWrite(ears, hs) + 1])
  }

  /** At most one alert: at once when the first hit is critical, at the second hit otherwise. */
  function AlertsFor(ears: Ears, hs: seq<Heard>): seq<Notice>
    requires hs != []
  {
    if ears.Critical(hs[0].h) then [Notice(Alarm, hs[0].h.sound, hs[0].h.score)]
    else if |hs| >= 2 then
      var u := OpenOf(ears, hs[..2], 0);
      [Notice(CategoryOf(ears, u), u.sound, u.peak)]
    else []
  }

  function AllAlerts(ears: Ears, ss: seq<Session>): seq<Notice>
    requires forall k :: 0 <= k < |ss| ==> ss[k].heard != []
  {
    if ss == [] then [] else AllAlerts(ears, ss[..|ss| - 1]) + AlertsFor(ears, ss[|ss| - 1].heard)
  }

  // ---------------------------------------------------------------- one more hit

  lemma SingleHit(ears: Ears, x: Heard, id: nat)
    ensures Opened(ears, id, x.h, x.now) == OpenOf(ears, [x], id)
  {
    assert AnyHighPitch(ears, [x]) <==> ears.HighPitch(x.h) by {
      if ears.HighPitch(x.h) { assert ears.HighPitch([x][0].h); }
    }
  }

  lemma PeakMore(hs: seq<Heard>, x: Heard)
    requires hs != []
    ensures Peak(hs + [x]) == if x.h.score > hs[Peak(hs)].h.score then |hs| else Peak(hs)
    ensures Loudest(hs + [x]) == Louder(Loudest(hs), x.h.loud)
  {
    AppendTake(hs, x);
  }

  lemma HighPitchMore(ears: Ears, hs: seq<Heard>, x: Heard)
    ensures AnyHighPitch(ears, hs + [x]) <==> AnyHighPitch(ears, hs) || ears.HighPitch(x.h)
  {
    var all := hs + [x];
    if i :| 0 <= i < |hs| && ears.HighPitch(hs[i].h) { assert ears.HighPitch(all[i].h); }
    if ears.HighPitch(x.h) { assert ears.HighPitch(all[|hs|].h); }
    if j :| 0 <= j < |all| && ears.HighPitch(all[j].h) {
      if j < |hs| { assert ears.HighPitch(hs[j].h); }
    }
  }

  lemma MoreOfGroup(ears: Ears, hs: seq<Heard>, x: Heard, id: nat)
    requires hs != []
    ensures Extended(ears, OpenOf(ears, hs, id), x.h, x.now) == OpenOf(ears, hs + [x], id)
  {
    hide Peak, AnyHighPitch, Loudest, Take3;
    PeakMore(hs, x);
    HighPitchMore(ears, hs, x);
    var p := Peak(hs);
    assert (hs + [x])[p] == hs[p] && (hs + [x])[0] == hs[0] && (hs + [x])[|hs|] == x;
  }

  /** A hit rewrites the card if it is a new peak, or the first high-pitched one. */
  lemma LastWriteMore(ears: Ears, hs: seq<Heard>, x: Heard)
    requires hs != []
    ensures LastWrite(ears, hs + [x])
            == if x.h.score > hs[Peak(hs)].h.score || (ears.HighPitch(x.h) && !AnyHighPitch(ears, hs)) then |hs|
               else LastWrite(ears, hs)
    ensures (hs + [x])[..LastWrite(ears, hs) + 1] == hs[..LastWrite(ears, hs) + 1]
  {
    PeakMore(hs, x);
    FirstHighMore(ears, hs, x);
    TakeOfAppend(hs, x, LastWrite(ears, hs) + 1);
    hide Peak, AnyHighPitch, FirstHigh;
  }

  lemma FirstHighMore(ears: Ears, hs: seq<Heard>, x: Heard)
    ensures FirstHigh(ears, hs + [x])
            == if ears.HighPitch(x.h) && !AnyHighPitch(ears, hs) then |hs| else FirstHigh(ears, hs)
    ensures hs != [] ==> FirstHigh(ears, hs) < |hs|
  {
    AppendTake(hs, x);
    hide AnyHighPitch;
  }

  lemma MoreOfCard(ears: Ears, hs: seq<Heard>, x: Heard, id: nat, row: Row)
    requires hs != [] && IsCard(ears, row, hs, false)
    ensures var o := OpenOf(ears, hs, id);
            IsCard(ears, Rewritten(ears, o, OpenOf(ears, hs + [x], id), x.h, row), hs + [x], false)
  {
    LastWriteMore(ears, hs, x);
    hide Peak, AnyHighPitch, Loudest, Take3, FirstHigh, LastWrite;
    PeakMore(hs, x);
    HighPitchMore(ears, hs, x);
    TakeAll(hs + [x]);
    var p := Peak(hs);
    assert (hs + [x])[p] == hs[p] && (hs + [x])[0] == hs[0] && (hs + [x])[|hs|] == x;
  }

  lemma MoreOfAlerts(ears: Ears, hs: seq<Heard>, x: Heard, id: nat)
    requires hs != []
    ensures var o, u := OpenOf(ears, hs, id), OpenOf(ears, hs + [x], id);
            AlertsFor(ears, hs + [x])
            == AlertsFor(ears, hs)
               + if !o.alerted && u.alerted then [Notice(CategoryOf(ears, u), u.sound, u.peak)] else []
  {
    hide Peak, AnyHighPitch, Loudest, Take3;
    var all := hs + [x];
    assert all[0] == hs[0];
    if |hs| == 1 {
      assert all[..2] == all;
    } else {
      assert all[..2] == hs[..2];
      Units(AlertsFor(ears, hs));
    }
    assert CategoryOf(ears, OpenOf(ears, all, id)) == CategoryOf(ears, OpenOf(ears, all, 0));
  }

  // ---------------------------------------------------------------- the online log is the batch

  ghost predicate Matches(ears: Ears, c: CamLog, ss: seq<Session>, clock: Time) {
    && |c.rows| == |ss|
    && (forall k :: 0 <= k < |ss| ==> ss[k].heard != [])
    && (forall k :: 0 <= k < |ss| ==> IsCard(ears, c.rows[k], ss[k].heard, k < |ss| - 1 || c.open.None?))
    && c.alerts == AllAlerts(ears, ss)
    && (ss != [] ==> LastOf(ss[|ss| - 1].heard).now <= clock)
    && match c.open
       case Some(o) => ss != [] && !ss[|ss| - 1].stopped && o == OpenOf(ears, ss[|ss| - 1].heard, |ss| - 1)
       case None => ss == [] || ss[|ss| - 1].stopped || clock - LastOf(ss[|ss| - 1].heard).now >= MAX_NOT_HEARD
  }

  lemma SilenceMeans(o: OpenAudio, now: Time)
    requires o.lastHeard <= now
    ensures Silent(o, now) <==> now - o.lastHeard >= MAX_NOT_HEARD
  {
  }

  lemma CloseMatches(ears: Ears, c: CamLog, ss: seq<Session>, clock: Time, now: Time)
    requires Matches(ears, c, ss, clock) && clock <= now && c.open.Some?
    ensures var d := CloseStep(c, now);
            && d.open.None? && d.alerts == c.alerts && |d.rows| == |ss|
            && forall k :: 0 <= k < |ss| ==> IsCard(ears, d.rows[k], ss[k].heard, true)
  {
    hide Peak, AnyHighPitch, Loudest;
  }

  lemma ReapMatches(ears: Ears, c: CamLog, ss: seq<Session>, clock: Time, now: Time)
    requires Matches(ears, c, ss, clock) && clock <= now
    ensures Matches(ears, ReapStep(c, now), ss, now)
  {
    hide IsCard, CloseStep, Silent;
    if c.open.Some? {
      SilenceMeans(c.open.value, now);
      CloseMatches(ears, c, ss, clock, now);
    }
  }

  lemma StopMatches(ears: Ears, c: CamLog, ss: seq<Session>, clock: Time, now: Time)
    requires Matches(ears, c, ss, clock) && clock <= now
    ensures Matches(ears, CloseStep(c, now), WithStop(ss), now)
  {
    hide IsCard, AlertsFor;
    if ss != [] { AlertsIgnoreStop(ears, ss); }
    if c.open.Some? { CloseMatches(ears, c, ss, clock, now); }
  }

  lemma AlertsIgnoreStop(ears: Ears, ss: seq<Session>)
    requires ss != [] && forall k :: 0 <= k < |ss| ==> ss[k].heard != []
    ensures AllAlerts(ears, WithStop(ss)) == AllAlerts(ears, ss)
  {
    assert WithStop(ss)[..|ss| - 1] == ss[..|ss| - 1];
  }

  lemma NewEventMatches(ears: Ears, c: CamLog, ss: seq<Session>, x: Heard)
    requires Matches(ears, c, ss, x.now) && c.open.None?
    ensures Matches(ears, HitStep(ears, c, x.h, x.now), WithHit(ss, x), x.now)
  {
    NewEvent(ears, c, x);
    hide HitStep, IsCard, AlertsFor, OpenOf;
    assert WithHit(ss, x) == ss + [Session([x], false)];
    GroupAdded(ears, c, ss, x, HitStep(ears, c, x.h, x.now));
  }

  /** A hit with no open event adds a row and an event for a group of its own. */
  ghost predicate AddsGroup(ears: Ears, c: CamLog, x: Heard, d: CamLog) {
    && d.open == Some(OpenOf(ears, [x], |c.rows|))
    && |d.rows| == |c.rows| + 1 && d.rows[..|c.rows|] == c.rows && IsCard(ears, d.rows[|c.rows|], [x], false)
    && d.alerts == c.alerts + AlertsFor(ears, [x])
  }

  lemma NewEvent(ears: Ears, c: CamLog, x: Heard)
    requires c.open.None?
    ensures AddsGroup(ears, c, x, HitStep(ears, c, x.h, x.now))
  {
    hide IsCard, OpenOf, Opened, AlertsFor;
    SingleHit(ears, x, |c.rows|);
    NewCard(ears, x);
    Units(c.alerts);
  }

  lemma GroupAdded(ears: Ears, c: CamLog, ss: seq<Session>, x: Heard, d: CamLog)
    requires Matches(ears, c, ss, x.now) && c.open.None? && AddsGroup(ears, c, x, d)
    ensures Matches(ears, d, ss + [Session([x], false)], x.now)
  {
    hide IsCard, AlertsFor, OpenOf;
    var tt := ss + [Session([x], false)];
    AppendTake(ss, Session([x], false));
    assert forall k :: 0 <= k < |ss| ==> tt[k] == ss[k] && d.rows[k] == d.rows[..|c.rows|][k];
  }

  lemma NewCard(ears: Ears, x: Heard)
    ensures IsCard(ears, Row(x.now, None, None, x.h.score, x.h.sound,
                                 Meta(Take3(x.h.top), ears.HighPitch(x.h)), x.h.loud),
                   [x], false)
    ensures AlertsFor(ears, [x]) == if ears.Critical(x.h) then [Notice(Alarm, x.h.sound, x.h.score)] else []
  {
    SingleHit(ears, x, 0);
  }

  lemma OpenEventMatches(ears: Ears, c: CamLog, ss: seq<Session>, x: Heard)
    requires Matches(ears, c, ss, x.now) && c.open.Some? && Joins(ss, x)
    ensures Matches(ears, HitStep(ears, c, x.h, x.now), WithHit(ss, x), x.now)
  {
    hide IsCard, AlertsFor, Extended, Rewritten, OpenOf;
    var n := |ss| - 1;
    var hs := ss[n].heard;
    var tt := WithHit(ss, x);
    OpenFields(ears, hs, n);
    MoreOfGroup(ears, hs, x, n);
    MoreOfCard(ears, hs, x, n, c.rows[n]);
    MoreOfAlerts(ears, hs, x, n);
    assert tt[..n] == ss[..n];
    Assoc(AllAlerts(ears, ss[..n]), AlertsFor(ears, hs), HitStep(ears, c, x.h, x.now).alerts[|c.alerts|..]);
    Units(c.alerts);
  }

  lemma OpenFields(ears: Ears, hs: seq<Heard>, id: nat)
    requires hs != []
    ensures OpenOf(ears, hs, id).id == id && OpenOf(ears, hs, id).lastHeard == LastOf(hs).now
  {
  }

  lemma HitMatches(ears: Ears, c: CamLog, ss: seq<Session>, clock: Time, x: Heard)
    requires Matches(ears, c, ss, clock) && clock <= x.now
    ensures Matches(ears, HitStep(ears, ReapStep(c, x.now), x.h, x.now), WithHit(ss, x), x.now)
  {
    ReapMatches(ears, c, ss, clock, x.now);
    var d := ReapStep(c, x.now);
    hide IsCard, HitStep, AllAlerts;
    match d.open
    case None => NewEventMatches(ears, d, ss, x);
    case Some(o) =>
      OpenFields(ears, ss[|ss| - 1].heard, |ss| - 1);
      SilenceMeans(o, x.now);
      OpenEventMatches(ears, d, ss, x);
  }

  ghost predicate Timely(ops: seq<CamOp>) {
    forall i, j :: 0 <= i <= j < |ops| ==> ops[i].now <= ops[j].now
  }

  /**
    The online lifecycle is the batch: over any run on a clock that does not run back, the camera
    has one row per group of hits, its card shows the group's peak, chips and flag whatever
    writes were skipped, the open event is the last group, and the alerts are the groups' alerts.
   */
  lemma {:induction false} OnlineIsBatch(ears: Ears, ops: seq<CamOp>)
    requires Timely(ops)
    ensures Matches(ears, RunCam(ears, ops), Sessions(ops), if ops == [] then 0 else ops[|ops| - 1].now)
  {
    hide IsCard, HitStep, CloseStep, ReapStep, AllAlerts, WithHit, WithStop;
    if ops == [] {
      NothingMatches(ears);
    } else {
      var n := |ops| - 1;
      OnlineIsBatch(ears, ops[..n]);
      var c, ss := RunCam(ears, ops[..n]), Sessions(ops[..n]);
      var clock := if n == 0 then ops[n].now else ops[n - 1].now;
      assert Matches(ears, c, ss, clock) by {
        if n == 0 { NothingMatches(ears); } else { assert ops[..n][n - 1] == ops[n - 1]; }
      }
      match ops[n]
      case Tick(now) => ReapMatches(ears, c, ss, clock, now);
      case Hear(h, now) => HitMatches(ears, c, ss, clock, Heard(h, now));
      case Stop(now) => StopMatches(ears, c, ss, clock, now);
    }
  }

  lemma NothingMatches(ears: Ears)
    ensures forall clock :: Matches(ears, EMPTY_LOG, [], clock)
  {
  }

  // ---------------------------------------------------------------- alerts, exactly

  /** A group alerts exactly once if it has two hits or its first hit is critical, else never. */
  lemma AlertsOncePerGroup(ears: Ears, hs: seq<Heard>)
    requires hs != []
    ensures |AlertsFor(ears, hs)| == if |hs| >= 2 || ears.Critical(hs[0].h) then 1 else 0
  {
  }

  /** Once a group has alerted, no later hit alerts again, however critical. */
  lemma {:induction false} LaterHitsAreSilent(ears: Ears, hs: seq<Heard>, x: Heard)
    requires |hs| >= 2
    ensures AlertsFor(ears, hs + [x]) == AlertsFor(ears, hs)
  {
    assert (hs + [x])[..2] == hs[..2] && (hs + [x])[0] == hs[0];
  }
}
