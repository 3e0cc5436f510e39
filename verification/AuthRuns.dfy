/**
  What the login gate keeps over every run of its commands under a clock that never goes back:
  spaced code sends, bounded guesses per challenge, openings that were earned, and lockouts that
  space failed logins.
 */
module AuthRuns {
  import opened Options
  import opened Seqs
  import opened Auth

  ghost predicate Clock(steps: seq<Step>, now: real) {
    && (forall i :: 0 <= i < |steps| ==> steps[i].now <= now)
    && (forall i, j :: 0 <= i < j < |steps| ==> steps[i].now <= steps[j].now)
  }

  predicate Draws(op: Op) { op.Login? || op.RequestRecovery? }

  /** Challenge ids are drawn fresh. */
  ghost predicate FreshIds(steps: seq<Step>) {
    forall i, j :: 0 <= i < j < |steps| && Draws(steps[i].op) && Draws(steps[j].op) ==> steps[i].op.id != steps[j].op.id
  }

  predicate Offers(op: Op) { op.VerifyOtp? || op.RecoveryReset? }

  function KindOf(op: Op): OtpKind { if op.Login? then TwoFactor else Recovery }

  /** What one command does to the sends and challenges of the gate. */
  lemma StepParts(c: Crypto, s: Settings, g: Gate, op: Op, now: real)
    ensures var n := Do(c, s, g, op, now);
            if n.reply.CodeSent? then
              && Draws(op) && n.reply.challenge == op.id && MaySend(Recent(g.sends, now), now)
              && n.gate.sends == Recent(g.sends, now) + [now]
              && n.gate.challenges == Live(g.challenges, now)[
                   op.id := Challenge(c.digest(op.code), KindOf(op), now + Ttl(KindOf(op)), 0)]
            else
              && (n.gate.sends == g.sends || n.gate.sends == Recent(g.sends, now))
              && n.gate.challenges == if Offers(op) then Checked(g, op.challenge, c.digest(op.code), now).challenges
                                      else g.challenges
  {
    hide Recent, MaySend, Lockout;
  }

  // ---------------------------------------------------------------- the send throttle

  /** An accepted send: the step that made it, its challenge, and when. */
  datatype Sent = Sent(step: nat, id: string, kind: OtpKind, digest: string, at: real)

  function SendLog(c: Crypto, s: Settings, steps: seq<Step>): (log: seq<Sent>) {
    if steps == [] then []
    else
      var n := |steps| - 1;
      var reply := After(c, s, steps).reply;
      var op := steps[n].op;
      SendLog(c, s, steps[..n]) +
      if reply.CodeSent? && Draws(op) then [Sent(n, op.id, KindOf(op), c.digest(op.code), steps[n].now)] else []
  }

  /** How the sends and challenges move in one command, and the log of sends with them. */
  ghost predicate Moved(c: Crypto, op: Op, n: nat, t: real, g: Gate, log: seq<Sent>, g': Gate, log': seq<Sent>) {
    || (&& Draws(op) && MaySend(Recent(g.sends, t), t)
        && log' == log + [Sent(n, op.id, KindOf(op), c.digest(op.code), t)]
        && g'.sends == Recent(g.sends, t) + [t]
        && g'.challenges == Live(g.challenges, t)[
             op.id := Challenge(c.digest(op.code), KindOf(op), t + Ttl(KindOf(op)), 0)])
    || (&& log' == log && (g'.sends == g.sends || g'.sends == Recent(g.sends, t))
        && g'.challenges == if Offers(op) then Checked(g, op.challenge, c.digest(op.code), t).challenges
                            else g.challenges)
  }

  lemma RunMoves(c: Crypto, s: Settings, steps: seq<Step>, n: nat)
    requires |steps| == n + 1
    ensures Moved(c, steps[n].op, n, steps[n].now, After(c, s, steps[..n]).gate, SendLog(c, s, steps[..n]),
                  After(c, s, steps).gate, SendLog(c, s, steps))
  {
    var w := After(c, s, steps[..n]);
    StepParts(c, w.settings, w.gate, steps[n].op, steps[n].now);
    Units(SendLog(c, s, steps[..n]));
    hide Do, Recent, MaySend, Live, Checked;
  }

  function Times(log: seq<Sent>): (t: seq<real>)
    ensures |t| == |log| && forall i :: 0 <= i < |t| ==> t[i] == log[i].at
  {
    seq(|log|, i requires 0 <= i < |log| => log[i].at)
  }

  lemma RecentMore(times: seq<real>, t: real, now: real)
    ensures Recent(times + [t], now) == Recent(times, now) + if now - t < SEND_WINDOW then [t] else []
  {
    AppendTake(times, t);
    Units(Recent(times, now));
  }

  lemma {:induction false} RecentTwice(times: seq<real>, early: real, late: real)
    requires early <= late
    ensures Recent(Recent(times, early), late) == Recent(times, late)
  {
    if times != [] {
      var init, t := times[..|times| - 1], times[|times| - 1];
      RecentTwice(init, early, late);
      RecentMore(Recent(init, early), t, late);
    }
  }

  /** The pruned list answers like the full record of sends, from `now` on. */
  ghost predicate Pruned(sends: seq<real>, log: seq<Sent>, now: real) {
    forall t :: t >= now ==> Recent(sends, t) == Recent(Times(log), t)
  }

  /** A minute between any two sends, and ten minutes between any send and the third after it. */
  ghost predicate Spaced(log: seq<Sent>) {
    && (forall i, j :: 0 <= i < j < |log| ==> log[i].at + SEND_COOLDOWN <= log[j].at)
    && (forall i, j :: 0 <= i && i + SEND_MAX_PER_WIN <= j < |log| ==> log[i].at + SEND_WINDOW <= log[j].at)
  }

  lemma RecentCatchesLast(times: seq<real>, now: real)
    requires times != [] && now - times[|times| - 1] < SEND_WINDOW
    ensures Recent(times, now) != [] && Recent(times, now)[|Recent(times, now)| - 1] == times[|times| - 1]
  {
  }

  lemma RecentCatchesThree(times: seq<real>, now: real)
    requires |times| >= 3 && forall i :: |times| - 3 <= i < |times| ==> now - times[i] < SEND_WINDOW
    ensures |Recent(times, now)| >= 3
  {
    var two := times[..|times| - 1];
    var one := two[..|two| - 1];
    assert |Recent(one, now)| >= 1;
    assert |Recent(two, now)| >= 2;
  }

  lemma SendKeepsSpace(log: seq<Sent>, e: Sent)
    requires Spaced(log) && MaySend(Recent(Times(log), e.at), e.at)
    ensures Spaced(log + [e])
  {
    var n := |log|;
    var times := Times(log);
    hide Times;
    if n > 0 && e.at - times[n - 1] < SEND_WINDOW { RecentCatchesLast(times, e.at); }
    if n >= 3 && e.at - times[n - 3] < SEND_WINDOW { RecentCatchesThree(times, e.at); }
    assert n > 0 ==> log[n - 1].at + SEND_COOLDOWN <= e.at;
    assert n >= 3 ==> log[n - 3].at + SEND_WINDOW <= e.at;
  }

  lemma {:induction false} SendsInvariant(c: Crypto, s: Settings, steps: seq<Step>, now: real)
    requires Clock(steps, now)
    ensures Pruned(After(c, s, steps).gate.sends, SendLog(c, s, steps), now) && Spaced(SendLog(c, s, steps))
  {
    if steps != [] {
      var n := |steps| - 1;
      SendsInvariant(c, s, steps[..n], steps[n].now);
      RunMoves(c, s, steps, n);
      hide After, SendLog, Pruned, Spaced, Moved;
      SendsStep(c, steps[n].op, n, steps[n].now, After(c, s, steps[..n]).gate, SendLog(c, s, steps[..n]),
                After(c, s, steps).gate, SendLog(c, s, steps), now);
    }
  }

  lemma SendsStep(c: Crypto, op: Op, n: nat, t: real, g: Gate, log: seq<Sent>, g': Gate, log': seq<Sent>, now: real)
    requires Pruned(g.sends, log, t) && Spaced(log) && t <= now && Moved(c, op, n, t, g, log, g', log')
    ensures Pruned(g'.sends, log', now) && Spaced(log')
  {
    hide MaySend, Live, Checked;
    forall late | late >= now ensures Recent(g'.sends, late) == Recent(Times(log'), late) {
      assert Recent(g.sends, late) == Recent(Times(log), late);
      RecentTwice(g.sends, t, late);
      if log' != log {
        RecentMore(Recent(g.sends, t), t, late);
        RecentMore(Times(log), t, late);
        assert Times(log') == Times(log) + [t];
      }
    }
    if log' != log {
      assert Recent(g.sends, t) == Recent(Times(log), t);
      SendKeepsSpace(log, log'[|log|]);
    }
  }

  /** Over any run, sends are a minute apart, and no half-open ten minutes hold four of them. */
  lemma SendsAreSpaced(c: Crypto, s: Settings, steps: seq<Step>, now: real, i: nat, j: nat)
    requires Clock(steps, now)
    requires i < j < |SendLog(c, s, steps)|
    ensures var log := SendLog(c, s, steps);
            && log[j].at - log[i].at >= 60.0
            && (j >= i + 3 ==> log[j].at - log[i].at >= 600.0)
  {
    SendsInvariant(c, s, steps, now);
  }

  /** The first `n` accepted sends that are less than ten minutes old. */
  function Within(log: seq<Sent>, n: nat, now: real): set<nat>
    requires n <= |log|
  {
    set i: nat | i < n && now - log[i].at < SEND_WINDOW
  }

  lemma {:induction false} RecentCounts(log: seq<Sent>, n: nat, now: real)
    requires n <= |log|
    ensures |Recent(Times(log)[..n], now)| == |Within(log, n, now)|
  {
    if n > 0 {
      RecentCounts(log, n - 1, now);
      TakeNext(Times(log), n - 1);
      var before := Within(log, n - 1, now);
      assert Within(log, n, now) == if now - log[n - 1].at < SEND_WINDOW then before + {n - 1} else before;
    } else {
      assert Within(log, 0, now) == {};
    }
  }

  /**
    A request is let through exactly when the whole record of the run has no send in the last
    minute and at most two in the last ten.
   */
  lemma ThrottleExactly(c: Crypto, s: Settings, steps: seq<Step>, now: real)
    requires Clock(steps, now)
    ensures var log := SendLog(c, s, steps);
            MaySend(Recent(After(c, s, steps).gate.sends, now), now)
            <==> (log == [] || now - log[|log| - 1].at >= 60.0) && |Within(log, |log|, now)| <= 2
  {
    SendsInvariant(c, s, steps, now);
    var log := SendLog(c, s, steps);
    var times := Times(log);
    RecentCounts(log, |log|, now);
    TakeAll(times);
    if times != [] {
      if now - times[|times| - 1] < SEND_WINDOW {
        RecentCatchesLast(times, now);
      } else {
        AllOld(log, |log|, now);
      }
    }
  }

  lemma {:induction false} AllOld(log: seq<Sent>, n: nat, now: real)
    requires Spaced(log) && n <= |log| && log != [] && now - log[|log| - 1].at >= SEND_WINDOW
    ensures Recent(Times(log)[..n], now) == []
  {
    if n > 0 {
      AllOld(log, n - 1, now);
      TakeNext(Times(log), n - 1);
    }
  }

  /** A request that the throttle lets through is sent and logged. */
  lemma RequestGoesOut(c: Crypto, s: Settings, steps: seq<Step>, e: Step)
    requires After(c, s, steps).settings == s && s.passwordHash != "" && s.telegram && e.op.RequestRecovery?
    requires MaySend(Recent(After(c, s, steps).gate.sends, e.now), e.now)
    ensures After(c, s, steps + [e]).settings == s
    ensures After(c, s, steps + [e]).gate.sends == Recent(After(c, s, steps).gate.sends, e.now) + [e.now]
    ensures Times(SendLog(c, s, steps + [e])) == Times(SendLog(c, s, steps)) + [e.now]
  {
    AppendTake(steps, e);
    hide Recent, MaySend, Live;
  }

  lemma FourRecents()
    ensures Recent([], 0.0) == [] && Recent([0.0], 60.0) == [0.0] && Recent([0.0, 60.0], 120.0) == [0.0, 60.0]
    ensures Recent([0.0, 60.0, 120.0], 600.0) == [60.0, 120.0]
  {
    assert [] + [0.0] == [0.0] && [0.0] + [60.0] == [0.0, 60.0] && [0.0, 60.0] + [120.0] == [0.0, 60.0, 120.0];
    RecentMore([], 0.0, 60.0);
    RecentMore([], 0.0, 120.0);
    RecentMore([0.0], 60.0, 120.0);
    RecentMore([], 0.0, 600.0);
    RecentMore([0.0], 60.0, 600.0);
    RecentMore([0.0, 60.0], 120.0, 600.0);
  }

  function Ask(id: string, now: real): Step { Step(RequestRecovery(id, "code"), now) }

  /** The bound is on half-open spans: a run whose four sends fit exactly ten minutes, both ends counted. */
  lemma FourSendsFitTenMinutes(c: Crypto, s: Settings)
    requires s.passwordHash != "" && s.telegram
    ensures var steps := [Ask("a", 0.0), Ask("b", 60.0), Ask("c", 120.0), Ask("d", 600.0)];
            Clock(steps, 600.0) && FreshIds(steps) && Times(SendLog(c, s, steps)) == [0.0, 60.0, 120.0, 600.0]
  {
    assert After(c, s, []).settings == s && After(c, s, []).gate.sends == [] && SendLog(c, s, []) == [];
    FourRecents();
    hide After, SendLog, Recent;
    var one := [] + [Ask("a", 0.0)];
    RequestGoesOut(c, s, [], Ask("a", 0.0));
    RequestGoesOut(c, s, one, Ask("b", 60.0));
    var two := one + [Ask("b", 60.0)];
    RequestGoesOut(c, s, two, Ask("c", 120.0));
    var three := two + [Ask("c", 120.0)];
    RequestGoesOut(c, s, three, Ask("d", 600.0));
    assert three + [Ask("d", 600.0)] == [Ask("a", 0.0), Ask("b", 60.0), Ask("c", 120.0), Ask("d", 600.0)];
  }

  // ---------------------------------------------------------------- challenges

  /** Send `j` made the stored challenge `ch` under `id`. */
  ghost predicate Begot(log: seq<Sent>, j: nat, id: string, ch: Challenge) {
    j < |log| && log[j].id == id && log[j].kind == ch.kind && log[j].digest == ch.codeHash
    && ch.expires == log[j].at + Ttl(ch.kind)
  }

  ghost predicate AllBegotten(challenges: map<string, Challenge>, log: seq<Sent>) {
    forall id :: id in challenges ==> exists j: nat :: Begot(log, j, id, challenges[id])
  }

  function RecentIds(log: seq<Sent>, now: real): set<string> {
    if log == [] then {}
    else
      var e := log[|log| - 1];
      RecentIds(log[..|log| - 1], now) + if now - e.at < SEND_WINDOW then {e.id} else {}
  }

  lemma {:induction false} RecentIdsAreFew(log: seq<Sent>, now: real)
    ensures |RecentIds(log, now)| <= |Recent(Times(log), now)|
  {
    if log != [] {
      var init := log[..|log| - 1];
      RecentIdsAreFew(init, now);
      assert Times(log)[..|log| - 1] == Times(init);
    }
  }

  lemma {:induction false} RecentIdsHold(log: seq<Sent>, j: nat, now: real)
    requires j < |log| && now - log[j].at < SEND_WINDOW
    ensures log[j].id in RecentIds(log, now)
  {
    if j < |log| - 1 { RecentIdsHold(log[..|log| - 1], j, now); }
  }

  lemma SubsetIsSmaller(a: set<string>, b: set<string>)
    requires a <= b
    ensures |a| <= |b|
  {
    assert b == a + (b - a);
  }

  /** A code is only made with at most two live challenges beside it. */
  lemma InsertFits(challenges: map<string, Challenge>, log: seq<Sent>, id: string, ch: Challenge, now: real)
    requires AllBegotten(challenges, log) && |Recent(Times(log), now)| < SEND_MAX_PER_WIN
    ensures |Live(challenges, now)[id := ch]| <= SEND_MAX_PER_WIN
  {
    var live := Live(challenges, now);
    forall k | k in live ensures k in RecentIds(log, now) {
      var j: nat :| Begot(log, j, k, challenges[k]);
      RecentIdsHold(log, j, now);
    }
    SubsetIsSmaller(live.Keys, RecentIds(log, now));
    RecentIdsAreFew(log, now);
    assert live[id := ch].Keys == live.Keys + {id};
  }

  lemma {:induction false} ChallengesInvariant(c: Crypto, s: Settings, steps: seq<Step>, now: real)
    requires Clock(steps, now)
    ensures AllBegotten(After(c, s, steps).gate.challenges, SendLog(c, s, steps))
    ensures |After(c, s, steps).gate.challenges| <= 3
  {
    if steps != [] {
      var n := |steps| - 1;
      ChallengesInvariant(c, s, steps[..n], steps[n].now);
      SendsInvariant(c, s, steps[..n], steps[n].now);
      RunMoves(c, s, steps, n);
      hide After, SendLog, AllBegotten, Pruned, Spaced, Moved;
      ChallengesStep(c, steps[n].op, n, steps[n].now, After(c, s, steps[..n]).gate, SendLog(c, s, steps[..n]),
                     After(c, s, steps).gate, SendLog(c, s, steps));
    }
  }

  lemma ChallengesStep(c: Crypto, op: Op, n: nat, t: real, g: Gate, log: seq<Sent>, g': Gate, log': seq<Sent>)
    requires AllBegotten(g.challenges, log) && |g.challenges| <= 3 && Pruned(g.sends, log, t)
    requires Moved(c, op, n, t, g, log, g', log')
    ensures AllBegotten(g'.challenges, log') && |g'.challenges| <= 3
  {
    hide Recent;
    if log' != log {
      assert Recent(g.sends, t) == Recent(Times(log), t);
      InsertFits(g.challenges, log, op.id, g'.challenges[op.id], t);
      assert Begot(log', |log|, op.id, g'.challenges[op.id]);
    } else if Offers(op) {
      CheckedIsNoLarger(g, op.challenge, c.digest(op.code), t);
      hide Checked;
    }
    forall id | id in g'.challenges && (log' != log ==> id != op.id)
      ensures exists j: nat :: Begot(log', j, id, g'.challenges[id])
    {
      var j: nat :| Begot(log, j, id, g.challenges[id]);
      assert Begot(log', j, id, g'.challenges[id]);
    }
  }

  lemma CheckedIsNoLarger(g: Gate, id: string, digest: string, t: real)
    ensures |Checked(g, id, digest, t).challenges| <= |g.challenges|
    ensures forall k :: k in Checked(g, id, digest, t).challenges ==>
              k in g.challenges && Checked(g, id, digest, t).challenges[k].(tries := 0) == g.challenges[k].(tries := 0)
  {
    var after := Checked(g, id, digest, t).challenges;
    assert after.Keys <= g.challenges.Keys;
    SubsetIsSmaller(after.Keys, g.challenges.Keys);
  }

  /** No run ever stores more than three challenges, expired ones included. */
  lemma FewChallenges(c: Crypto, s: Settings, steps: seq<Step>, now: real)
    requires Clock(steps, now)
    ensures |After(c, s, steps).gate.challenges| <= 3
  {
    ChallengesInvariant(c, s, steps, now);
  }

  // ---------------------------------------------------------------- guesses

  /** A code that was compared with the one sent: by which step, for which challenge, and whether it fitted. */
  datatype Guess = Guess(step: nat, id: string, at: real, hit: bool)

  function NewGuess(c: Crypto, g: Gate, op: Op, n: nat, t: real): seq<Guess> {
    if Offers(op) && Compares(g, op.challenge, t) then
      [Guess(n, op.challenge, t, g.challenges[op.challenge].codeHash == c.digest(op.code))]
    else []
  }

  function GuessLog(c: Crypto, s: Settings, steps: seq<Step>): seq<Guess> {
    if steps == [] then []
    else
      var n := |steps| - 1;
      var g, op, t := After(c, s, steps[..n]).gate, steps[n].op, steps[n].now;
      GuessLog(c, s, steps[..n]) + NewGuess(c, g, op, n, t)
  }

  function Guesses(log: seq<Guess>, id: string): nat {
    if log == [] then 0 else Guesses(log[..|log| - 1], id) + if log[|log| - 1].id == id then 1 else 0
  }

  function Hits(log: seq<Guess>, id: string): nat {
    if log == [] then 0
    else Hits(log[..|log| - 1], id) + if log[|log| - 1].id == id && log[|log| - 1].hit then 1 else 0
  }

  ghost predicate Known(log: seq<Sent>, id: string) { exists j :: 0 <= j < |log| && log[j].id == id }

  /** Guess `e` was made while send `j`, which made its challenge, was still valid. */
  ghost predicate InTime(log: seq<Sent>, j: nat, e: Guess) {
    j < |log| && log[j].id == e.id && log[j].step < e.step && e.at < log[j].at + Ttl(log[j].kind)
  }

  ghost predicate GuessesBounded(challenges: map<string, Challenge>, sends: seq<Sent>, log: seq<Guess>) {
    && (forall id :: id in challenges ==> Guesses(log, id) == challenges[id].tries <= 5 && Hits(log, id) == 0)
    && (forall id :: Guesses(log, id) <= 5 && Hits(log, id) <= 1)
    && (forall id :: Guesses(log, id) > 0 || Hits(log, id) > 0 ==> Known(sends, id))
  }

  lemma GuessMore(log: seq<Guess>, e: Guess, id: string)
    ensures Guesses(log + [e], id) == Guesses(log, id) + if e.id == id then 1 else 0
    ensures Hits(log + [e], id) == Hits(log, id) + if e.id == id && e.hit then 1 else 0
  {
    AppendTake(log, e);
  }

  lemma {:induction false} SendLogFrom(c: Crypto, s: Settings, steps: seq<Step>, i: nat)
    requires i < |SendLog(c, s, steps)|
    ensures var e := SendLog(c, s, steps)[i];
            && e.step < |steps| && Draws(steps[e.step].op) && steps[e.step].op.id == e.id && steps[e.step].now == e.at
            && KindOf(steps[e.step].op) == e.kind && c.digest(steps[e.step].op.code) == e.digest
            && Before(c, s, steps, e.step + 1).reply == CodeSent(e.id)
  {
    var n := |steps| - 1;
    var before := SendLog(c, s, steps[..n]);
    if i < |before| {
      SendLogFrom(c, s, steps[..n], i);
      TakeTake(steps, n, before[i].step + 1);
    } else {
      StepParts(c, After(c, s, steps[..n]).settings, After(c, s, steps[..n]).gate, steps[n].op, steps[n].now);
      TakeAll(steps);
    }
  }

  /** A fresh id has not been sent before. */
  lemma FreshIsUnknown(c: Crypto, s: Settings, steps: seq<Step>)
    requires steps != [] && FreshIds(steps) && Draws(steps[|steps| - 1].op)
    ensures !Known(SendLog(c, s, steps[..|steps| - 1]), steps[|steps| - 1].op.id)
  {
    var n := |steps| - 1;
    var log := SendLog(c, s, steps[..n]);
    forall j | 0 <= j < |log| ensures log[j].id != steps[n].op.id {
      SendLogFrom(c, s, steps[..n], j);
    }
  }

  lemma {:induction false} GuessesInvariant(c: Crypto, s: Settings, steps: seq<Step>, now: real)
    requires Clock(steps, now) && FreshIds(steps)
    ensures GuessesBounded(After(c, s, steps).gate.challenges, SendLog(c, s, steps), GuessLog(c, s, steps))
  {
    if steps != [] {
      var n := |steps| - 1;
      var op, t, g := steps[n].op, steps[n].now, After(c, s, steps[..n]).gate;
      GuessesInvariant(c, s, steps[..n], t);
      ChallengesInvariant(c, s, steps[..n], t);
      RunMoves(c, s, steps, n);
      if Draws(op) { FreshIsUnknown(c, s, steps); }
      var sends, log := SendLog(c, s, steps[..n]), GuessLog(c, s, steps[..n]);
      Units(log);
      assert GuessLog(c, s, steps) == log + NewGuess(c, g, op, n, t);
      hide After, SendLog, GuessLog, AllBegotten, Moved, GuessesBounded, Known, NewGuess;
      GuessesStep(c, op, n, t, g, sends, After(c, s, steps).gate, SendLog(c, s, steps), log);
    }
  }

  lemma GuessesStep(c: Crypto, op: Op, n: nat, t: real, g: Gate,
                    sends: seq<Sent>, g': Gate, sends': seq<Sent>, log: seq<Guess>)
    requires GuessesBounded(g.challenges, sends, log) && AllBegotten(g.challenges, sends)
    requires Moved(c, op, n, t, g, sends, g', sends') && (Draws(op) ==> !Known(sends, op.id))
    ensures GuessesBounded(g'.challenges, sends', log + NewGuess(c, g, op, n, t))
  {
    hide GuessesBounded, Known, AllBegotten, MaySend, Recent, Live, Checked, Compares;
    Units(log);
    if Offers(op) {
      OfferKeeps(g, sends, log, op.challenge, c.digest(op.code), n, t);
    } else if sends' != sends {
      NewChallengeKeeps(g, sends, log, op.id, g'.challenges[op.id], sends'[|sends|], t);
    }
  }

  lemma NewChallengeKeeps(g: Gate, sends: seq<Sent>, log: seq<Guess>, id: string, ch: Challenge, e: Sent, t: real)
    requires GuessesBounded(g.challenges, sends, log) && !Known(sends, id) && ch.tries == 0 && e.id == id
    ensures GuessesBounded(Live(g.challenges, t)[id := ch], sends + [e], log)
  {
    hide Guesses, Hits;
    forall k | Known(sends, k) ensures Known(sends + [e], k) {
      var j :| 0 <= j < |sends| && sends[j].id == k;
      assert (sends + [e])[j].id == k;
    }
  }

  lemma OfferKeeps(g: Gate, sends: seq<Sent>, log: seq<Guess>, id: string, digest: string, n: nat, t: real)
    requires GuessesBounded(g.challenges, sends, log) && AllBegotten(g.challenges, sends)
    ensures GuessesBounded(
              Checked(g, id, digest, t).challenges, sends,
              if Compares(g, id, t) then log + [Guess(n, id, t, g.challenges[id].codeHash == digest)] else log)
  {
    if Compares(g, id, t) {
      var e := Guess(n, id, t, g.challenges[id].codeHash == digest);
      var j: nat :| Begot(sends, j, id, g.challenges[id]);
      assert Known(sends, id);
      forall k
        ensures Guesses(log + [e], k) == Guesses(log, k) + (if id == k then 1 else 0)
        ensures Hits(log + [e], k) == Hits(log, k) + (if id == k && e.hit then 1 else 0)
      {
        GuessMore(log, e, k);
      }
      hide Guesses, Hits, Known;
    }
  }

  /** Each challenge has at most five codes compared with it, and at most one fits. */
  lemma GuessesAreFew(c: Crypto, s: Settings, steps: seq<Step>, now: real, id: string)
    requires Clock(steps, now) && FreshIds(steps)
    ensures Guesses(GuessLog(c, s, steps), id) <= 5 && Hits(GuessLog(c, s, steps), id) <= 1
  {
    GuessesInvariant(c, s, steps, now);
  }

  /** Every comparison answers an earlier send whose code has not expired. */
  lemma {:induction false} GuessesAreInTime(c: Crypto, s: Settings, steps: seq<Step>, now: real, i: nat)
    requires Clock(steps, now) && i < |GuessLog(c, s, steps)|
    ensures exists j: nat :: InTime(SendLog(c, s, steps), j, GuessLog(c, s, steps)[i])
  {
    var n := |steps| - 1;
    var t := steps[n].now;
    var sends, log, g := SendLog(c, s, steps[..n]), GuessLog(c, s, steps[..n]), After(c, s, steps[..n]).gate;
    var e := GuessLog(c, s, steps)[i];
    var j: nat;
    if i < |log| {
      GuessesAreInTime(c, s, steps[..n], t, i);
      j :| InTime(sends, j, e);
    } else {
      ChallengesInvariant(c, s, steps[..n], t);
      j :| Begot(sends, j, e.id, g.challenges[e.id]);
      SendLogFrom(c, s, steps[..n], j);
      assert InTime(sends, j, e);
    }
    assert InTime(SendLog(c, s, steps), j, e);
  }

  // ---------------------------------------------------------------- openings

  /** Step `j` gave the correct password with the second factor on, and was sent code `code` under `id`. */
  ghost predicate PasswordGiven(c: Crypto, s: Settings, steps: seq<Step>, j: nat, id: string, code: string) {
    && j < |steps| && steps[j].op.Login? && steps[j].op.id == id && c.digest(steps[j].op.code) == c.digest(code)
    && Before(c, s, steps, j + 1).reply == CodeSent(id)
    && var was := Before(c, s, steps, j).settings;
       was.twofa && was.passwordHash != "" && c.verify(steps[j].op.password, was.passwordHash)
  }

  /** Step `j` asked for a recovery code, and was sent `code` under `id`. */
  ghost predicate RecoveryAsked(c: Crypto, s: Settings, steps: seq<Step>, j: nat, id: string, code: string) {
    && j < |steps| && steps[j].op.RequestRecovery? && steps[j].op.id == id
    && c.digest(steps[j].op.code) == c.digest(code)
    && Before(c, s, steps, j + 1).reply == CodeSent(id)
  }

  /** The send behind a stored challenge, with the step that made it. */
  lemma ChallengeOrigin(c: Crypto, s: Settings, steps: seq<Step>, now: real, id: string) returns (e: Sent)
    requires Clock(steps, now) && id in After(c, s, steps).gate.challenges
    ensures var ch := After(c, s, steps).gate.challenges[id];
            && e.step < |steps| && Draws(steps[e.step].op) && steps[e.step].op.id == id
            && KindOf(steps[e.step].op) == ch.kind && c.digest(steps[e.step].op.code) == ch.codeHash
            && ch.expires == steps[e.step].now + Ttl(ch.kind)
            && Before(c, s, steps, e.step + 1).reply == CodeSent(id)
  {
    ChallengesInvariant(c, s, steps, now);
    hide After, SendLog;
    var j: nat :| Begot(SendLog(c, s, steps), j, id, After(c, s, steps).gate.challenges[id]);
    SendLogFrom(c, s, steps, j);
    e := SendLog(c, s, steps)[j];
  }

  lemma CodeNeedsPassword(c: Crypto, s: Settings, g: Gate, op: Op, now: real)
    requires op.Login? && Do(c, s, g, op, now).reply.CodeSent?
    ensures s.twofa && s.passwordHash != "" && c.verify(op.password, s.passwordHash)
  {
  }

  /** A code that opens the gate is the stored one, of the right kind, and in time. */
  lemma UnlockFits(c: Crypto, s: Settings, g: Gate, op: Op, now: real)
    requires Offers(op) && Do(c, s, g, op, now).reply.Unlocked?
    ensures op.challenge in g.challenges
    ensures var ch := g.challenges[op.challenge];
            ch.expires > now && ch.codeHash == c.digest(op.code)
            && ch.kind == if op.VerifyOtp? then TwoFactor else Recovery
  {
    hide Checked;
  }

  /**
    Every opening by a one-time code follows, within its five minutes, a login that gave the then
    correct password and was sent that code; likewise a recovery follows its own request.
   */
  lemma CodesAreEarned(c: Crypto, s: Settings, steps: seq<Step>, now: real, k: nat) returns (j: nat)
    requires Clock(steps, now) && k < |steps| && Offers(steps[k].op) && Before(c, s, steps, k + 1).reply.Unlocked?
    ensures j < k
    ensures steps[k].op.VerifyOtp? ==>
              PasswordGiven(c, s, steps, j, steps[k].op.challenge, steps[k].op.code)
              && steps[k].now < steps[j].now + 300.0
    ensures steps[k].op.RecoveryReset? ==>
              RecoveryAsked(c, s, steps, j, steps[k].op.challenge, steps[k].op.code)
              && steps[k].now < steps[j].now + 600.0
  {
    var before := steps[..k];
    var op := steps[k].op;
    TakeNext(steps, k);
    UnlockFits(c, After(c, s, before).settings, After(c, s, before).gate, op, steps[k].now);
    hide Do;
    var e := ChallengeOrigin(c, s, before, steps[k].now, op.challenge);
    j := e.step;
    TakeTake(steps, k, j + 1);
    TakeTake(steps, k, j);
    TakeNext(steps, j);
    if steps[j].op.Login? {
      CodeNeedsPassword(c, Before(c, s, steps, j).settings, Before(c, s, steps, j).gate, steps[j].op, steps[j].now);
    }
  }

  /** The ways a closed gate can open. */
  lemma OpeningsAreEarned(c: Crypto, s: Settings, steps: seq<Step>, now: real, k: nat)
    requires Clock(steps, now) && k < |steps|
    requires !Before(c, s, steps, k).gate.unlocked && Before(c, s, steps, k + 1).gate.unlocked
    ensures var was, op := Before(c, s, steps, k), steps[k].op;
            || (op.Login? && !was.settings.twofa && c.verify(op.password, was.settings.passwordHash)
                && !Locked(was.gate, steps[k].now))
            || (op.VerifyOtp? && exists j: nat :: j < k && PasswordGiven(c, s, steps, j, op.challenge, op.code))
            || (op.RecoveryReset? && exists j: nat :: j < k && RecoveryAsked(c, s, steps, j, op.challenge, op.code))
            || (op.Resume? && op.known)
            || (op.SetPassword? && (was.settings.passwordHash == "" || c.verify(op.current, was.settings.passwordHash)))
  {
    TakeNext(steps, k);
    hide Recent, Lockout, Live;
    if Offers(steps[k].op) {
      var j := CodesAreEarned(c, s, steps, now, k);
    }
  }

  // ---------------------------------------------------------------- lockout

  /** The lockout doubles from 30 s and stays at 15 minutes; the shift it is computed by stays small. */
  lemma LockoutSchedule(fails: nat)
    ensures Lockout(fails) <= Lockout(fails + 1) <= 900.0
    ensures fails >= 10 ==> Lockout(fails) == 900.0
    ensures Lockout(5) == 30.0 && Lockout(6) == 60.0 && Lockout(7) == 120.0
            && Lockout(8) == 240.0 && Lockout(9) == 480.0
    ensures Power(Least(Least(fails, 20), 5)) <= 32
  {
    PowersOfTwo();
  }

  lemma PowersOfTwo()
    ensures Power(0) == 1 && Power(1) == 2 && Power(2) == 4 && Power(3) == 8 && Power(4) == 16 && Power(5) == 32
  {
    assert Power(2) == 4;
    assert Power(4) == 16;
  }

  function StreakNext(streak: seq<real>, op: Op, reply: Reply, now: real): seq<real> {
    match op
    case Login(_, _, _) =>
      if reply.Refused? && (reply.why.WrongPassword? || reply.why.LockedFor?) then streak + [now]
      else if reply.Refused? && (reply.why.LockedOut? || reply.why.NoPassword?) then streak
      else []
    case RecoveryReset(_, _, _) => if reply.Unlocked? then [] else streak
    case SetPassword(_, _) => if reply.Done? then [] else streak
    case _ => streak
  }

  /** Times of the wrong passwords given to logins since the last correct one, recovery or new password. */
  function Streak(c: Crypto, s: Settings, steps: seq<Step>): seq<real> {
    if steps == [] then []
    else
      var n := |steps| - 1;
      StreakNext(Streak(c, s, steps[..n]), steps[n].op, After(c, s, steps).reply, steps[n].now)
  }

  ghost predicate StreakHeld(g: Gate, streak: seq<real>) {
    && g.fails == Least(|streak|, MAX_U32)
    && g.lockedUntil == (if |streak| >= 5 then Some(streak[|streak| - 1] + Lockout(|streak|)) else None)
  }

  /** Failure number `i + 1` comes no sooner than the lockout after failure number `i`. */
  ghost predicate Backoff(streak: seq<real>) {
    && (forall i, j :: 0 <= i < j < |streak| ==> streak[i] <= streak[j])
    && (forall i: nat :: 5 <= i < |streak| ==> streak[i] >= streak[i - 1] + Lockout(i))
  }

  lemma ManyFails(n: nat)
    ensures Lockout(Least(n, MAX_U32)) == Lockout(n)
  {
  }

  /** What one command does to the failure count, and so to the streak. */
  lemma FailParts(c: Crypto, s: Settings, g: Gate, streak: seq<real>, op: Op, now: real)
    ensures var n := Do(c, s, g, op, now);
            var after := StreakNext(streak, op, n.reply, now);
            || (after == streak && n.gate.fails == g.fails && n.gate.lockedUntil == g.lockedUntil)
            || (after == [] && n.gate.fails == 0 && n.gate.lockedUntil == None)
            || (after == streak + [now] && !Locked(g, now) && n.gate == Failed(g, now))
  {
    hide Lockout, Recent, MaySend, Live;
  }

  lemma FailedKeeps(g: Gate, streak: seq<real>, now: real)
    requires StreakHeld(g, streak) && Backoff(streak) && (streak == [] || streak[|streak| - 1] <= now)
             && !Locked(g, now)
    ensures StreakHeld(Failed(g, now), streak + [now]) && Backoff(streak + [now])
  {
    ManyFails(|streak| + 1);
    hide Lockout;
    assert |streak| >= 5 ==> now >= streak[|streak| - 1] + Lockout(|streak|);
  }

  lemma StreakStep(c: Crypto, s: Settings, g: Gate, streak: seq<real>, op: Op, now: real)
    requires StreakHeld(g, streak) && Backoff(streak) && (streak == [] || streak[|streak| - 1] <= now)
    ensures var n := Do(c, s, g, op, now);
            var after := StreakNext(streak, op, n.reply, now);
            StreakHeld(n.gate, after) && Backoff(after) && (after == [] || after[|after| - 1] <= now)
  {
    FailParts(c, s, g, streak, op, now);
    hide Do, StreakNext, Failed, Lockout;
    if !Locked(g, now) { FailedKeeps(g, streak, now); }
  }

  lemma {:induction false} StreakInvariant(c: Crypto, s: Settings, steps: seq<Step>, now: real)
    requires Clock(steps, now)
    ensures var streak := Streak(c, s, steps);
            && StreakHeld(After(c, s, steps).gate, streak) && Backoff(streak)
            && (streak == [] || streak[|streak| - 1] <= now)
  {
    if steps != [] {
      var n := |steps| - 1;
      var w := After(c, s, steps[..n]);
      StreakInvariant(c, s, steps[..n], steps[n].now);
      StreakStep(c, w.settings, w.gate, Streak(c, s, steps[..n]), steps[n].op, steps[n].now);
    }
  }

  /** A login is turned away unheard exactly within the lockout of the current streak of failures. */
  lemma {:induction false} LockoutExactly(c: Crypto, s: Settings, steps: seq<Step>, op: Op, now: real)
    requires Clock(steps, now) && op.Login?
    ensures var w, streak := After(c, s, steps), Streak(c, s, steps);
            var reply := Do(c, w.settings, w.gate, op, now).reply;
            reply.Refused? && reply.why.LockedOut? <==> |streak| >= 5 && now < streak[|streak| - 1] + Lockout(|streak|)
  {
    StreakInvariant(c, s, steps, now);
    hide Lockout, Recent, MaySend, Live;
  }

  /** Ten failures in a row take at least 930 s, and every further one another 900 s. */
  lemma {:induction false} FailuresTakeTime(c: Crypto, s: Settings, steps: seq<Step>, now: real, m: nat)
    requires Clock(steps, now) && 10 <= m <= |Streak(c, s, steps)|
    ensures var streak := Streak(c, s, steps);
            streak[m - 1] - streak[0] >= 930.0 + 900.0 * (m - 10) as real
    decreases m
  {
    StreakInvariant(c, s, steps, now);
    LockoutSchedule(m - 1);
    var streak := Streak(c, s, steps);
    hide Lockout, Streak;
    assert streak[m - 1] >= streak[m - 2] + Lockout(m - 1);
    if m > 10 {
      FailuresTakeTime(c, s, steps, now, m - 1);
    } else {
      assert streak[8] >= streak[7] + Lockout(8);
      assert streak[7] >= streak[6] + Lockout(7);
      assert streak[6] >= streak[5] + Lockout(6);
      assert streak[5] >= streak[4] + Lockout(5);
    }
  }
}
