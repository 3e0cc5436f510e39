/**
  Impulse sounds, such as a gunshot, are meant to notify as critical. What a group notifies as is
  settled by its first two hits, so the promise holds exactly when one of these settles it that way.
 */
module AudioImpulses {
  import opened Seqs
  import opened AudioEvents
  import opened AudioSessions

  ghost predicate HasImpulse(ears: Ears, hs: seq<Heard>) {
    exists k :: 0 <= k < |hs| && ears.impulse(hs[k].h.sound)
  }

  /** The group notifies as critical. */
  ghost predicate Alarmed(ears: Ears, hs: seq<Heard>)
    requires hs != []
  {
    exists n :: n in AlertsFor(ears, hs) && n.category == Alarm
  }

  /**
    The first hit is critical; or the second is high-pitched, or is an impulse that scores above the
    first.
   */
  predicate EarlyAlarm(ears: Ears, hs: seq<Heard>)
    requires hs != []
  {
    || ears.Critical(hs[0].h)
    || (|hs| >= 2 && (ears.HighPitch(hs[1].h) || (hs[1].h.score > hs[0].h.score && ears.impulse(hs[1].h.sound))))
  }

  lemma TwoHits(ears: Ears, a: Heard, b: Heard)
    ensures AnyHighPitch(ears, [a, b]) <==> ears.HighPitch(a.h) || ears.HighPitch(b.h)
    ensures Peak([a, b]) == if b.h.score > a.h.score then 1 else 0
  {
    assert [a] + [b] == [a, b];
    PeakMore([a], b);
    HighPitchMore(ears, [a], b);
    HighPitchMore(ears, [], a);
    assert [] + [a] == [a];
  }

  /** A group notifies as critical if and only if one of its first two hits settles it. */
  lemma AlarmExactly(ears: Ears, hs: seq<Heard>)
    requires hs != []
    ensures Alarmed(ears, hs) <==> EarlyAlarm(ears, hs)
  {
    if |hs| >= 2 {
      assert hs[..2] == [hs[0], hs[1]];
      TwoHits(ears, hs[0], hs[1]);
      hide Peak, AnyHighPitch, Loudest;
      assert AlertsFor(ears, hs)[0] in AlertsFor(ears, hs);
    } else if ears.Critical(hs[0].h) {
      assert AlertsFor(ears, hs)[0] in AlertsFor(ears, hs);
    }
  }

  /**
    An impulse heard first always alarms. Heard second, it does exactly if the first hit is critical,
    its own window is high-pitched, or it scores above the first hit. Heard later it has no say: the
    group notifies as its first two hits alone would.
   */
  lemma ImpulseExactly(ears: Ears, hs: seq<Heard>, k: nat)
    requires k < |hs| && ears.impulse(hs[k].h.sound)
    ensures k == 0 ==> Alarmed(ears, hs)
    ensures k == 1 ==>
              (Alarmed(ears, hs) <==>
               ears.Critical(hs[0].h) || ears.HighPitch(hs[1].h) || hs[1].h.score > hs[0].h.score)
    ensures k >= 2 ==> (Alarmed(ears, hs) <==> Alarmed(ears, hs[..2]))
  {
    AlarmExactly(ears, hs);
    if k >= 2 { AlarmExactly(ears, hs[..2]); }
    hide Alarmed;
  }

  ghost predicate PromiseKept(ears: Ears, hs: seq<Heard>)
    requires hs != []
  {
    HasImpulse(ears, hs) ==> Alarmed(ears, hs)
  }

  /** Two hits into a group, the promise is safe whatever follows if and only if they have settled it. */
  lemma PromiseExactly(ears: Ears, hs: seq<Heard>, shot: Heard)
    requires |hs| >= 2 && ears.impulse(shot.h.sound)
    ensures (forall more: seq<Heard> :: PromiseKept(ears, hs + more)) <==> EarlyAlarm(ears, hs)
  {
    forall more: seq<Heard> ensures Alarmed(ears, hs + more) <==> EarlyAlarm(ears, hs) {
      AlarmExactly(ears, hs + more);
    }
    hide Alarmed, EarlyAlarm;
    assert (hs + [shot])[|hs|] == shot;
    assert HasImpulse(ears, hs + [shot]);
    if !EarlyAlarm(ears, hs) {
      assert !PromiseKept(ears, hs + [shot]);
    }
  }

  // ---------------------------------------------------------------- in whole runs

  lemma {:induction false} AlertsInParts(ears: Ears, ss: seq<Session>, tt: seq<Session>)
    requires forall k :: 0 <= k < |ss| ==> ss[k].heard != []
    requires forall k :: 0 <= k < |tt| ==> tt[k].heard != []
    ensures forall k :: 0 <= k < |ss + tt| ==> (ss + tt)[k].heard != []
    ensures AllAlerts(ears, ss + tt) == AllAlerts(ears, ss) + AllAlerts(ears, tt)
    decreases |tt|
  {
    hide AlertsFor;
    if tt == [] {
      Units(ss);
      Units(AllAlerts(ears, ss));
    } else {
      var init, last := tt[..|tt| - 1], tt[|tt| - 1];
      InitLast(tt);
      AlertsInParts(ears, ss, init);
      Assoc(ss, init, [last]);
      AppendTake(ss + init, last);
      Assoc(AllAlerts(ears, ss), AllAlerts(ears, init), AlertsFor(ears, last.heard));
    }
  }

  lemma AlertsUpTo(ears: Ears, ss: seq<Session>, j: nat)
    requires j < |ss| && forall k :: 0 <= k < |ss| ==> ss[k].heard != []
    ensures AllAlerts(ears, ss[..j + 1]) == AllAlerts(ears, ss[..j]) + AlertsFor(ears, ss[j].heard)
  {
    hide AlertsFor;
    TakeNext(ss, j);
    AppendTake(ss[..j], ss[j]);
  }

  lemma AlertsAround(ears: Ears, ss: seq<Session>, j: nat)
    requires j < |ss| && forall k :: 0 <= k < |ss| ==> ss[k].heard != []
    ensures AllAlerts(ears, ss) ==
            AllAlerts(ears, ss[..j]) + AlertsFor(ears, ss[j].heard) + AllAlerts(ears, ss[j + 1..])
  {
    hide AlertsFor, AllAlerts;
    AlertsInParts(ears, ss[..j + 1], ss[j + 1..]);
    AlertsUpTo(ears, ss, j);
    assert ss[..j + 1] + ss[j + 1..] == ss;
  }

  /**
    In a run, group `j` contributes its own notices, after those of the groups before it, and they
    hold an alarm if and only if its first two hits settle it.
   */
  lemma GroupInRun(ears: Ears, ops: seq<CamOp>, j: nat)
    requires Timely(ops) && j < |Sessions(ops)|
    ensures var ss := Sessions(ops);
            && (forall k :: 0 <= k < |ss| ==> ss[k].heard != [])
            && RunCam(ears, ops).alerts ==
               AllAlerts(ears, ss[..j]) + AlertsFor(ears, ss[j].heard) + AllAlerts(ears, ss[j + 1..])
            && (Alarmed(ears, ss[j].heard) <==> EarlyAlarm(ears, ss[j].heard))
  {
    var ss := Sessions(ops);
    OnlineIsBatch(ears, ops);
    AlarmExactly(ears, ss[j].heard);
    hide Sessions, RunCam, AlertsFor, AllAlerts, Alarmed, EarlyAlarm, IsCard;
    AlertsAround(ears, ss, j);
  }

  lemma SessionsMore(ops: seq<CamOp>, h: Hit, now: Time)
    ensures Sessions(ops + [Hear(h, now)]) == WithHit(Sessions(ops), Heard(h, now))
  {
    AppendTake(ops, Hear(h, now));
  }

  lemma SameSession(hs: seq<Heard>, x: Heard)
    requires hs != [] && x.now - LastOf(hs).now < MAX_NOT_HEARD
    ensures WithHit([Session(hs, false)], x) == [Session(hs + [x], false)]
    ensures WithHit([], x) == [Session([x], false)]
  {
  }

  /** Hits less than 30 s apart are one group. */
  lemma OneSession(a: Heard, b: Heard, d: Heard)
    requires 0 <= b.now - a.now < MAX_NOT_HEARD && 0 <= d.now - b.now < MAX_NOT_HEARD
    ensures Sessions([Hear(a.h, a.now), Hear(b.h, b.now)]) == [Session([a, b], false)]
    ensures Sessions([Hear(a.h, a.now), Hear(b.h, b.now), Hear(d.h, d.now)]) == [Session([a, b, d], false)]
  {
    var x, y, z := Hear(a.h, a.now), Hear(b.h, b.now), Hear(d.h, d.now);
    assert Sessions([]) == [];
    hide Sessions;
    SessionsMore([], a.h, a.now);
    SessionsMore([x], b.h, b.now);
    SessionsMore([x, y], d.h, d.now);
    SameSession([a], b);
    SameSession([a, b], d);
    hide WithHit;
    assert [] + [x] == [x] && [x] + [y] == [x, y] && [x, y] + [z] == [x, y, z];
    assert [a] + [b] == [a, b] && [a, b] + [d] == [a, b, d];
  }

  lemma AlertsOfOneSession(ears: Ears, ops: seq<CamOp>, hs: seq<Heard>)
    requires Timely(ops) && hs != [] && Sessions(ops) == [Session(hs, false)]
    ensures RunCam(ears, ops).alerts == AlertsFor(ears, hs)
  {
    OnlineIsBatch(ears, ops);
    OneGroup(ears, hs);
    hide Sessions, RunCam, AlertsFor, AllAlerts, IsCard;
  }

  lemma OneGroup(ears: Ears, hs: seq<Heard>)
    requires hs != []
    ensures AllAlerts(ears, [Session(hs, false)]) == AlertsFor(ears, hs)
  {
    assert [Session(hs, false)][..0] == [];
    Units(AlertsFor(ears, hs));
    hide AlertsFor;
  }

  /** A gunshot as the only impulse sound, and nothing high-pitched. */
  const GUNS := Ears(s => s == "gunshot", s => false, 0.5)

  lemma TwoPlain(a: Heard, b: Heard, hs: seq<Heard>)
    requires |hs| >= 2 && hs[0] == a && hs[1] == b && a.h.top == b.h.top == [] && a.h.sound != "gunshot"
    requires b.h.score <= a.h.score || b.h.sound != "gunshot"
    ensures AlertsFor(GUNS, hs) ==
            [if b.h.score > a.h.score then Notice(Plain, b.h.sound, b.h.score) else Notice(Plain, a.h.sound, a.h.score)]
  {
    assert hs[..2] == [a, b];
    TwoHits(GUNS, a, b);
    hide Peak, AnyHighPitch, Loudest;
  }

  /** A run whose gunshot, heard second, scores below the bark before it. */
  lemma QuieterGunshotRun()
    ensures var bark, shot := Hit("bark", 0.9, [], 0.0), Hit("gunshot", 0.8, [], 0.0);
            RunCam(GUNS, [Hear(bark, 0), Hear(shot, 1000)]).alerts == [Notice(Plain, "bark", 0.9)]
  {
    var a, b := Heard(Hit("bark", 0.9, [], 0.0), 0), Heard(Hit("gunshot", 0.8, [], 0.0), 1000);
    hide Sessions, RunCam, AlertsFor;
    OneSession(a, b, b);
    AlertsOfOneSession(GUNS, [Hear(a.h, 0), Hear(b.h, 1000)], [a, b]);
    assert "bark" != "gunshot";
    TwoPlain(a, b, [a, b]);
  }

  /** A run whose gunshot scores above everything, but is heard third. */
  lemma ThirdGunshotRun()
    ensures var low, bark, shot := Hit("bark", 0.6, [], 0.0), Hit("bark", 0.7, [], 0.0), Hit("gunshot", 0.99, [], 0.0);
            RunCam(GUNS, [Hear(low, 0), Hear(bark, 1000), Hear(shot, 2000)]).alerts == [Notice(Plain, "bark", 0.7)]
  {
    var a, b := Heard(Hit("bark", 0.6, [], 0.0), 0), Heard(Hit("bark", 0.7, [], 0.0), 1000);
    var d := Heard(Hit("gunshot", 0.99, [], 0.0), 2000);
    hide Sessions, RunCam, AlertsFor;
    OneSession(a, b, d);
    AlertsOfOneSession(GUNS, [Hear(a.h, 0), Hear(b.h, 1000), Hear(d.h, 2000)], [a, b, d]);
    assert "bark" != "gunshot";
    TwoPlain(a, b, [a, b, d]);
  }
}
