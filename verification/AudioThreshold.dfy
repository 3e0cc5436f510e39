/**
  What the score threshold does to high-pitched classes: below it, what the model heard is as good as
  unheard; at it or above, a listed class alarms at once; and a higher threshold alarms no earlier.
 */
module AudioThreshold {
  import opened Seqs
  import opened AudioEvents
  import opened AudioSessions
  import opened AudioImpulses

  // ---------------------------------------------------------------- classes below the threshold

  /** The same class, or two that score the same below the threshold. */
  predicate SameClass(threshold: real, a: Class, b: Class) {
    a.score == b.score && (a.score >= threshold ==> a.name == b.name)
  }

  ghost predicate SameTop(threshold: real, a: seq<Class>, b: seq<Class>) {
    |a| == |b| && forall i :: 0 <= i < |a| ==> SameClass(threshold, a[i], b[i])
  }

  /** The windows differ in the names of classes that score below the threshold, if at all. */
  ghost predicate SameHit(threshold: real, g: Hit, h: Hit) {
    g.sound == h.sound && g.score == h.score && g.loud == h.loud && SameTop(threshold, g.top, h.top)
  }

  ghost predicate SameOp(threshold: real, x: CamOp, y: CamOp) {
    match x
    case Tick(now) => y == x
    case Stop(now) => y == x
    case Hear(g, now) => y.Hear? && y.now == now && SameHit(threshold, g, y.h)
  }

  ghost predicate SameOps(threshold: real, xs: seq<CamOp>, ys: seq<CamOp>) {
    |xs| == |ys| && forall i :: 0 <= i < |xs| ==> SameOp(threshold, xs[i], ys[i])
  }

  /** Rows that differ in the chips' names at most. */
  ghost predicate SameRow(threshold: real, a: Row, b: Row) {
    && b == a.(meta := b.meta)
    && a.meta.highPitch == b.meta.highPitch
    && SameTop(threshold, a.meta.classes, b.meta.classes)
  }

  ghost predicate SameOpen(threshold: real, a: OpenAudio, b: OpenAudio) {
    b == a.(top := b.top) && SameTop(threshold, a.top, b.top)
  }

  ghost predicate SameLog(threshold: real, a: CamLog, b: CamLog) {
    && a.alerts == b.alerts
    && |a.rows| == |b.rows| && (forall i :: 0 <= i < |a.rows| ==> SameRow(threshold, a.rows[i], b.rows[i]))
    && match a.open
       case None => b.open.None?
       case Some(o) => b.open.Some? && SameOpen(threshold, o, b.open.value)
  }

  lemma SameHitSounds(ears: Ears, g: Hit, h: Hit)
    requires SameHit(ears.threshold, g, h)
    ensures ears.HighPitch(g) <==> ears.HighPitch(h)
    ensures ears.Critical(g) <==> ears.Critical(h)
    ensures SameTop(ears.threshold, Take3(g.top), Take3(h.top))
  {
    if i :| 0 <= i < |g.top| && g.top[i].score >= ears.threshold && ears.highPitch(g.top[i].name) {
      assert SameClass(ears.threshold, g.top[i], h.top[i]);
      assert ears.highPitch(h.top[i].name);
    }
    if i :| 0 <= i < |h.top| && h.top[i].score >= ears.threshold && ears.highPitch(h.top[i].name) {
      assert SameClass(ears.threshold, g.top[i], h.top[i]);
      assert ears.highPitch(g.top[i].name);
    }
  }

  lemma SameStep(ears: Ears, a: CamLog, b: CamLog, x: CamOp, y: CamOp)
    requires SameLog(ears.threshold, a, b) && SameOp(ears.threshold, x, y)
    ensures SameLog(ears.threshold, OpStep(ears, a, x), OpStep(ears, b, y))
  {
    hide SameTop, SameHit;
    SameReap(ears.threshold, a, b, x.now);
    match x
    case Tick(now) =>
    case Stop(now) => SameClose(ears.threshold, a, b, now);
    case Hear(g, now) =>
      hide SameLog, HitStep, ReapStep;
      SameHear(ears, ReapStep(a, now), ReapStep(b, now), g, y.h, now);
  }

  lemma SameClose(threshold: real, a: CamLog, b: CamLog, now: Time)
    requires SameLog(threshold, a, b)
    ensures SameLog(threshold, CloseStep(a, now), CloseStep(b, now))
  {
    hide SameTop;
  }

  lemma SameReap(threshold: real, a: CamLog, b: CamLog, now: Time)
    requires SameLog(threshold, a, b)
    ensures SameLog(threshold, ReapStep(a, now), ReapStep(b, now))
  {
    SameClose(threshold, a, b, now);
    hide CloseStep;
  }

  lemma SameHear(ears: Ears, a: CamLog, b: CamLog, g: Hit, h: Hit, now: Time)
    requires SameLog(ears.threshold, a, b) && SameHit(ears.threshold, g, h)
    ensures SameLog(ears.threshold, HitStep(ears, a, g, now), HitStep(ears, b, h, now))
  {
    SameHitSounds(ears, g, h);
    SameScores(ears.threshold, g, h);
    hide SameTop, SameHit, Take3;
  }

  lemma SameScores(threshold: real, g: Hit, h: Hit)
    requires SameHit(threshold, g, h)
    ensures g.sound == h.sound && g.score == h.score && g.loud == h.loud
  {
  }

  /**
    Renaming classes that score below the threshold, in any windows of a run, changes no notice, no
    high-pitch flag, and nothing else on the rows but the chips of those very classes.
   */
  lemma {:induction false} QuietClassesDoNotMatter(ears: Ears, xs: seq<CamOp>, ys: seq<CamOp>)
    requires SameOps(ears.threshold, xs, ys)
    ensures SameLog(ears.threshold, RunCam(ears, xs), RunCam(ears, ys))
  {
    hide SameOp, OpStep;
    if xs != [] {
      var n := |xs| - 1;
      QuietClassesDoNotMatter(ears, xs[..n], ys[..n]);
      hide SameLog;
      SameStep(ears, RunCam(ears, xs[..n]), RunCam(ears, ys[..n]), xs[n], ys[n]);
    }
  }

  // ---------------------------------------------------------------- classes at the threshold

  /** A listed class scores at the threshold or above. */
  ghost predicate Shrill(ears: Ears, h: Hit) {
    exists a :: a in h.top && ears.highPitch(a.name) && a.score >= ears.threshold
  }

  /**
    Whatever came before, a group opened by such a window alarms at once with its sound; one opened by
    a window with neither such a class nor an impulse is silent on its first hit.
   */
  lemma FirstHitExactly(ears: Ears, hs: seq<Heard>)
    requires |hs| == 1
    ensures AlertsFor(ears, hs)
            == if Shrill(ears, hs[0].h) || ears.impulse(hs[0].h.sound)
               then [Notice(Alarm, hs[0].h.sound, hs[0].h.score)] else []
  {
    var h := hs[0].h;
    if a :| a in h.top && ears.highPitch(a.name) && a.score >= ears.threshold {
      var i :| 0 <= i < |h.top| && h.top[i] == a;
    }
    if i :| 0 <= i < |h.top| && h.top[i].score >= ears.threshold && ears.highPitch(h.top[i].name) {
      assert h.top[i] in h.top;
    }
  }

  /** In a run: the group that the hit opens contributes exactly that. */
  lemma FirstHitInRun(ears: Ears, ops: seq<CamOp>, h: Hit, now: Time)
    requires Timely(ops + [Hear(h, now)]) && !Joins(Sessions(ops), Heard(h, now))
    ensures var before, after := RunCam(ears, ops).alerts, RunCam(ears, ops + [Hear(h, now)]).alerts;
            after == before + if Shrill(ears, h) || ears.impulse(h.sound) then [Notice(Alarm, h.sound, h.score)] else []
  {
    var all, x := ops + [Hear(h, now)], Heard(h, now);
    var ss, t := Sessions(ops), Session([x], false);
    AppendTake(ops, Hear(h, now));
    TimelyBefore(ops, Hear(h, now));
    OnlineIsBatch(ears, ops);
    OnlineIsBatch(ears, all);
    SessionsMore(ops, h, now);
    assert Sessions(all) == ss + [t];
    hide Sessions, RunCam, AlertsFor, Timely, IsCard, Joins, Shrill;
    AppendTake(ss, t);
    assert AllAlerts(ears, ss + [t]) == AllAlerts(ears, ss) + AlertsFor(ears, [x]);
    FirstHitExactly(ears, [x]);
  }

  lemma TimelyBefore(ops: seq<CamOp>, op: CamOp)
    requires Timely(ops + [op])
    ensures Timely(ops)
  {
    var all := ops + [op];
    assert forall i :: 0 <= i < |ops| ==> all[i] == ops[i];
  }

  /** A higher threshold never makes a first hit alarm that did not. */
  lemma HigherAlarmsLess(ears: Ears, higher: real, hs: seq<Heard>)
    requires |hs| == 1 && higher >= ears.threshold
    ensures Alarmed(ears.(threshold := higher), hs) ==> Alarmed(ears, hs)
  {
    FirstHitExactly(ears, hs);
    FirstHitExactly(ears.(threshold := higher), hs);
    hide AlertsFor;
    if Alarmed(ears.(threshold := higher), hs) {
      assert Notice(Alarm, hs[0].h.sound, hs[0].h.score) in AlertsFor(ears, hs);
    }
  }

  /** A window whose only listed class is below the threshold: nothing is sent on it. */
  lemma QuietScreamIsSilent(now: Time)
    ensures var ears := Ears(s => false, s => s == "Screaming", 0.5);
            var h := Hit("Speech", 0.6, [Class("Speech", 0.6), Class("Screaming", 0.02)], 0.0);
            AlertsFor(ears, [Heard(h, now)]) == []
            && AlertsFor(ears.(threshold := 0.02), [Heard(h, now)]) == [Notice(Alarm, "Speech", 0.6)]
  {
    var ears := Ears(s => false, s => s == "Screaming", 0.5);
    var h := Hit("Speech", 0.6, [Class("Speech", 0.6), Class("Screaming", 0.02)], 0.0);
    FirstHitExactly(ears, [Heard(h, now)]);
    FirstHitExactly(ears.(threshold := 0.02), [Heard(h, now)]);
    hide AlertsFor;
    assert "Speech"[1] != "Screaming"[1];
    assert h.top[1] == Class("Screaming", 0.02);
  }
}
