/**
  How many wrong passwords the login gate looks at in a given time. Failed logins are bounded by an
  explicit function of the time; the checks of `set_login_password` are not counted, so the bound
  covers every password check exactly when no such check fails.
 */
module AuthChecks {
  import opened Seqs
  import opened Auth
  import opened AuthRuns

  /** The run goes on from state `w`. */
  function RunFrom(c: Crypto, w: Next, steps: seq<Step>): Next {
    if steps == [] then w
    else
      var before, e := RunFrom(c, w, steps[..|steps| - 1]), steps[|steps| - 1];
      Do(c, before.settings, before.gate, e.op, e.now)
  }

  predicate WrongLogin(op: Op, reply: Reply) {
    op.Login? && reply.Refused? && (reply.why.WrongPassword? || reply.why.LockedFor?)
  }

  /** The current password given for a change of password was checked, and is wrong. */
  predicate WrongChange(op: Op, reply: Reply) {
    op.SetPassword? && reply == Refused(WrongPassword)
  }

  /** The step resets the count of failures: a correct login, a recovery, or a new password. */
  predicate Clears(op: Op, reply: Reply) {
    || (op.Login? && !WrongLogin(op, reply)
        && !(reply.Refused? && (reply.why.LockedOut? || reply.why.NoPassword?)))
    || (op.RecoveryReset? && reply.Unlocked?)
    || (op.SetPassword? && reply.Done?)
  }

  /** No step of the stretch resets the count. */
  predicate NoReset(c: Crypto, w: Next, steps: seq<Step>) {
    steps == [] || (NoReset(c, w, steps[..|steps| - 1])
                    && !Clears(steps[|steps| - 1].op, RunFrom(c, w, steps).reply))
  }

  /** No step of the stretch asks for a change of password with a wrong current one. */
  predicate NoWrongChange(c: Crypto, w: Next, steps: seq<Step>) {
    steps == [] || (NoWrongChange(c, w, steps[..|steps| - 1])
                    && !WrongChange(steps[|steps| - 1].op, RunFrom(c, w, steps).reply))
  }

  /** Times of the wrong passwords given to logins. */
  function WrongLogins(c: Crypto, w: Next, steps: seq<Step>): seq<real> {
    if steps == [] then []
    else
      var e := steps[|steps| - 1];
      WrongLogins(c, w, steps[..|steps| - 1]) + if WrongLogin(e.op, RunFrom(c, w, steps).reply) then [e.now] else []
  }

  function Weight(op: Op, reply: Reply): nat { if WrongLogin(op, reply) || WrongChange(op, reply) then 1 else 0 }

  /** Number of wrong passwords looked at, by logins and by changes of password. */
  function WrongChecks(c: Crypto, w: Next, steps: seq<Step>): nat {
    if steps == [] then 0
    else WrongChecks(c, w, steps[..|steps| - 1]) + Weight(steps[|steps| - 1].op, RunFrom(c, w, steps).reply)
  }

  // ---------------------------------------------------------------- stretches of a run

  lemma {:induction false} RunGoesOn(c: Crypto, s: Settings, before: seq<Step>, steps: seq<Step>)
    ensures After(c, s, before + steps) == RunFrom(c, After(c, s, before), steps)
    decreases |steps|
  {
    hide Do;
    if steps == [] {
      Units(before);
    } else {
      AppendInit(before, steps);
      RunGoesOn(c, s, before, steps[..|steps| - 1]);
    }
  }

  lemma AppendInit<T>(a: seq<T>, b: seq<T>)
    requires b != []
    ensures (a + b)[..|a + b| - 1] == a + b[..|b| - 1] && (a + b)[|a + b| - 1] == b[|b| - 1]
  {
  }

  /** A stretch in two parts: the second starts where the first ends. */
  lemma {:induction false} InTwoParts(c: Crypto, w: Next, u: seq<Step>, v: seq<Step>)
    ensures RunFrom(c, w, u + v) == RunFrom(c, RunFrom(c, w, u), v)
    ensures WrongChecks(c, w, u + v) == WrongChecks(c, w, u) + WrongChecks(c, RunFrom(c, w, u), v)
    ensures NoReset(c, w, u + v) <==> NoReset(c, w, u) && NoReset(c, RunFrom(c, w, u), v)
    ensures NoWrongChange(c, w, u + v) <==> NoWrongChange(c, w, u) && NoWrongChange(c, RunFrom(c, w, u), v)
    decreases |v|
  {
    hide Do, Weight, Clears, WrongChange;
    if v == [] {
      Units(u);
    } else {
      AppendInit(u, v);
      InTwoParts(c, w, u, v[..|v| - 1]);
    }
  }

  lemma OneMore(c: Crypto, w: Next, u: seq<Step>, e: Step)
    ensures var here := RunFrom(c, w, u);
            && RunFrom(c, w, u + [e]) == Do(c, here.settings, here.gate, e.op, e.now)
            && WrongChecks(c, w, u + [e]) == WrongChecks(c, w, u) + Weight(e.op, RunFrom(c, w, u + [e]).reply)
  {
    hide Do, Weight;
    AppendTake(u, e);
  }

  lemma NoSteps(c: Crypto, w: Next)
    ensures RunFrom(c, w, []) == w && WrongChecks(c, w, []) == 0
  {
  }

  lemma OneStep(c: Crypto, w: Next, e: Step)
    ensures var after := Do(c, w.settings, w.gate, e.op, e.now);
            && RunFrom(c, w, [e]) == after && WrongChecks(c, w, [e]) == Weight(e.op, after.reply)
            && NoReset(c, w, [e]) == !Clears(e.op, after.reply)
            && NoWrongChange(c, w, [e]) == !WrongChange(e.op, after.reply)
            && WrongLogins(c, w, [e]) == if WrongLogin(e.op, after.reply) then [e.now] else []
  {
    hide Do, Weight, Clears, WrongChange, WrongLogin;
    assert [e][..0] == [];
  }

  // ---------------------------------------------------------------- failed logins

  lemma StreakMoves(c: Crypto, s: Settings, steps: seq<Step>)
    requires steps != []
    ensures var e, reply := steps[|steps| - 1], After(c, s, steps).reply;
            Streak(c, s, steps) ==
            if Clears(e.op, reply) then []
            else if WrongLogin(e.op, reply) then Streak(c, s, steps[..|steps| - 1]) + [e.now]
            else Streak(c, s, steps[..|steps| - 1])
  {
    hide After;
  }

  /** Without a reset in between, the streak of failures grows by the failed logins. */
  lemma {:induction false} StreakGrows(c: Crypto, s: Settings, before: seq<Step>, steps: seq<Step>)
    requires NoReset(c, After(c, s, before), steps)
    ensures Streak(c, s, before + steps) == Streak(c, s, before) + WrongLogins(c, After(c, s, before), steps)
    decreases |steps|
  {
    hide Streak, Clears, WrongLogin, Do;
    Units(Streak(c, s, before));
    if steps == [] {
      Units(before);
    } else {
      var init, w := steps[..|steps| - 1], After(c, s, before);
      hide After;
      AppendInit(before, steps);
      StreakGrows(c, s, before, init);
      StreakMoves(c, s, before + steps);
      RunGoesOn(c, s, before, steps);
      Units(WrongLogins(c, w, init));
      Assoc(Streak(c, s, before), WrongLogins(c, w, init), [steps[|steps| - 1].now]);
    }
  }

  /** Least time from the first to the last of `n` failures in a row. */
  function SpanOf(n: nat): real {
    if n <= 1 then 0.0 else SpanOf(n - 1) + Lockout(n - 1)
  }

  lemma {:induction false} LockoutGrows(m: nat, n: nat)
    requires m <= n
    ensures Lockout(m) <= Lockout(n)
  {
    hide Lockout;
    if m < n {
      LockoutGrows(m, n - 1);
      LockoutSchedule(n - 1);
    }
  }

  /** Any failures of a streak take as long as the same number of failures from the start. */
  lemma {:induction false} SpanFits(streak: seq<real>, i: nat, j: nat)
    requires Backoff(streak) && i <= j < |streak|
    ensures streak[j] - streak[i] >= SpanOf(j - i + 1)
  {
    if i < j {
      SpanFits(streak, i, j - 1);
      LockoutGrows(j - i, j);
      assert j < 5 ==> Lockout(j) == 0.0;
      hide Lockout;
      assert streak[j] >= streak[j - 1] + Lockout(j);
    }
  }

  /** Most failed logins in `span` seconds. */
  function MaxChecks(span: real): nat
    requires span >= 0.0
  {
    if span < 30.0 then 5
    else if span < 90.0 then 6
    else if span < 210.0 then 7
    else if span < 450.0 then 8
    else if span < 930.0 then 9
    else 10 + ((span - 930.0) / 900.0).Floor
  }

  lemma {:induction false} LongSpan(n: nat)
    requires n >= 10
    ensures SpanOf(n) == 930.0 + 900.0 * (n - 10) as real
  {
    LockoutSchedule(n - 1);
    if n > 10 {
      hide Lockout;
      LongSpan(n - 1);
    } else {
      ShortSpans();
    }
  }

  lemma ShortSpans()
    ensures SpanOf(1) == SpanOf(2) == SpanOf(3) == SpanOf(4) == SpanOf(5) == 0.0
    ensures SpanOf(6) == 30.0 && SpanOf(7) == 90.0 && SpanOf(8) == 210.0 && SpanOf(9) == 450.0 && SpanOf(10) == 930.0
  {
    LockoutSchedule(5);
    assert Lockout(1) == Lockout(2) == Lockout(3) == Lockout(4) == 0.0;
    hide Lockout;
    assert SpanOf(3) == 0.0;
    assert SpanOf(5) == 0.0;
    assert SpanOf(7) == 90.0;
    assert SpanOf(9) == 450.0;
  }

  lemma FloorIsLargest(x: real, n: int)
    ensures n as real <= x <==> n <= x.Floor
  {
  }

  /** The bound is the largest number of failures that the lockouts leave room for. */
  lemma MaxChecksIsLargest(span: real, n: nat)
    requires span >= 0.0
    ensures SpanOf(n) <= span <==> n <= MaxChecks(span)
  {
    ShortSpans();
    if n >= 10 {
      LongSpan(n);
      var k, x := n - 10, (span - 930.0) / 900.0;
      hide SpanOf;
      assert 930.0 + 900.0 * k as real <= span <==> k as real <= x;
      FloorIsLargest(x, k);
    } else {
      assert n == 0 || n == 1 || n == 2 || n == 3 || n == 4 || n == 5 || n == 6 || n == 7 || n == 8 || n == 9;
      assert SpanOf(0) == 0.0;
      hide SpanOf;
      if span >= 930.0 { FloorIsLargest((span - 930.0) / 900.0, 0); }
    }
  }

  /** Times of a stretch, in order and within it. */
  lemma {:induction false} WrongLoginsAreWithin(c: Crypto, w: Next, steps: seq<Step>, i: nat)
    requires steps != [] && Clock(steps, steps[|steps| - 1].now) && i < |WrongLogins(c, w, steps)|
    ensures steps[0].now <= WrongLogins(c, w, steps)[i] <= steps[|steps| - 1].now
    decreases |steps|
  {
    hide RunFrom;
    var init := steps[..|steps| - 1];
    if i < |WrongLogins(c, w, init)| {
      WrongLoginsAreWithin(c, w, init, i);
    }
  }

  lemma FewAtTheEnd(streak: seq<real>, before: seq<real>, wrong: seq<real>, span: real)
    requires streak == before + wrong && wrong != [] && Backoff(streak)
    requires 0.0 <= span && wrong[|wrong| - 1] - wrong[0] <= span
    ensures |wrong| <= MaxChecks(span)
  {
    SpanFits(streak, |before|, |streak| - 1);
    MaxChecksIsLargest(span, |wrong|);
    hide Backoff, SpanOf, MaxChecks;
  }

  /** In any stretch of a run that resets nothing, failed logins are bounded by the time it takes. */
  lemma WrongLoginsAreFew(c: Crypto, s: Settings, before: seq<Step>, steps: seq<Step>, span: real)
    requires steps != [] && Clock(before + steps, steps[|steps| - 1].now) && NoReset(c, After(c, s, before), steps)
    requires 0.0 <= steps[|steps| - 1].now - steps[0].now <= span
    ensures |WrongLogins(c, After(c, s, before), steps)| <= MaxChecks(span)
  {
    var w := After(c, s, before);
    var wrong := WrongLogins(c, w, steps);
    assert Clock(steps, steps[|steps| - 1].now) by {
      assert forall i :: 0 <= i < |steps| ==> (before + steps)[|before| + i] == steps[i];
    }
    if wrong != [] {
      hide After, Streak, Backoff, StreakHeld, WrongLogins, NoReset, MaxChecks, Clock;
      StreakGrows(c, s, before, steps);
      StreakInvariant(c, s, before + steps, steps[|steps| - 1].now);
      WrongLoginsAreWithin(c, w, steps, 0);
      WrongLoginsAreWithin(c, w, steps, |wrong| - 1);
      FewAtTheEnd(Streak(c, s, before + steps), Streak(c, s, before), wrong, span);
    }
  }

  /** A wrong login as soon as each lockout ends. */
  function Patient(password: string, n: nat): (steps: seq<Step>)
    ensures |steps| == n
  {
    if n == 0 then [] else Patient(password, n - 1) + [Step(Login(password, "", ""), SpanOf(n))]
  }

  lemma {:induction false} PatientClock(password: string, n: nat)
    ensures Clock(Patient(password, n), SpanOf(n))
  {
    if n > 0 {
      PatientClock(password, n - 1);
      LockoutGrows(0, n - 1);
      hide Lockout;
    }
  }

  /** The bound is met: whoever waits out each lockout fails once more, every time. */
  lemma {:induction false} BoundIsMet(c: Crypto, s: Settings, password: string, n: nat)
    requires s.passwordHash != "" && !c.verify(password, s.passwordHash)
    ensures var steps, w := Patient(password, n), Next(s, CLOSED, Done);
            && Clock(steps, SpanOf(n)) && NoReset(c, w, steps) && |WrongLogins(c, w, steps)| == n
            && After(c, s, steps).settings == s
    decreases n
  {
    PatientClock(password, n);
    EmptyRun(c, s);
    hide After, Do, Streak, Backoff, WrongLogins, NoReset, RunFrom, Lockout, SpanOf, Clock, Clears, WrongLogin;
    if n > 0 {
      var before, e := Patient(password, n - 1), Step(Login(password, "", ""), SpanOf(n));
      PatientClock(password, n - 1);
      BoundIsMet(c, s, password, n - 1);
      PatientFails(c, s, before, e, n - 1);
      FailCounts(c, s, before, e);
    }
  }

  lemma EmptyRun(c: Crypto, s: Settings)
    ensures var w := Next(s, CLOSED, Done);
            After(c, s, []) == w && NoReset(c, w, []) && WrongLogins(c, w, []) == []
  {
  }

  lemma FailCounts(c: Crypto, s: Settings, before: seq<Step>, e: Step)
    requires var w := After(c, s, before); WrongLogin(e.op, Do(c, w.settings, w.gate, e.op, e.now).reply)
    requires NoReset(c, Next(s, CLOSED, Done), before)
    ensures var start := Next(s, CLOSED, Done);
            && NoReset(c, start, before + [e])
            && |WrongLogins(c, start, before + [e])| == |WrongLogins(c, start, before)| + 1
  {
    hide Do;
    RunGoesOn(c, s, [], before);
    Units(before);
    AppendTake(before, e);
  }

  lemma PatientFails(c: Crypto, s: Settings, before: seq<Step>, e: Step, n: nat)
    requires e.op.Login? && before == Patient(e.op.password, n) && e.now == SpanOf(n + 1) && Clock(before, SpanOf(n))
    requires After(c, s, before).settings == s && s.passwordHash != "" && !c.verify(e.op.password, s.passwordHash)
    requires NoReset(c, Next(s, CLOSED, Done), before) && |WrongLogins(c, Next(s, CLOSED, Done), before)| == n
    ensures var w := After(c, s, before); WrongLogin(e.op, Do(c, w.settings, w.gate, e.op, e.now).reply)
    ensures After(c, s, before + [e]).settings == s
  {
    PatientIsOpen(c, s, before, n);
    OpenGateListens(c, s, After(c, s, before).gate, e.op, e.now);
    AppendTake(before, e);
    hide Do, Patient, SpanOf, Streak, NoReset, WrongLogins, RunFrom, Clock, Locked;
  }

  /** When the lockout of the last failure ends, the gate listens again. */
  lemma PatientIsOpen(c: Crypto, s: Settings, before: seq<Step>, n: nat)
    requires Clock(before, SpanOf(n)) && |before| == n
    requires NoReset(c, Next(s, CLOSED, Done), before) && |WrongLogins(c, Next(s, CLOSED, Done), before)| == n
    ensures !Locked(After(c, s, before).gate, SpanOf(n + 1))
  {
    StreakInvariant(c, s, before, SpanOf(n));
    assert After(c, s, []) == Next(s, CLOSED, Done) && Streak(c, s, []) == [];
    StreakGrows(c, s, [], before);
    Units(before);
    Units(WrongLogins(c, Next(s, CLOSED, Done), before));
    hide After, Streak, Backoff, WrongLogins, NoReset, RunFrom, Lockout, Clock;
  }

  lemma OpenGateListens(c: Crypto, s: Settings, g: Gate, op: Op, now: real)
    requires op.Login? && !Locked(g, now) && s.passwordHash != "" && !c.verify(op.password, s.passwordHash)
    ensures WrongLogin(op, Do(c, s, g, op, now).reply) && Do(c, s, g, op, now).settings == s
  {
    hide Lockout;
  }

  // ---------------------------------------------------------------- checks that nothing counts

  /** The same step `n` times. */
  function Copies(e: Step, n: nat): (steps: seq<Step>)
    ensures |steps| == n && forall k :: 0 <= k < n ==> steps[k] == e
  {
    if n == 0 then [] else Copies(e, n - 1) + [e]
  }

  /** Asking again to change the password changes nothing, unless the first time did. */
  lemma ChangeTwice(c: Crypto, w: Next, e: Step)
    requires e.op.SetPassword? && !Do(c, w.settings, w.gate, e.op, e.now).reply.Done?
    ensures var after := Do(c, w.settings, w.gate, e.op, e.now);
            && after.settings == w.settings && after.gate == w.gate
            && Do(c, after.settings, after.gate, e.op, e.now) == after
  {
  }

  /** Any number of them are answered alike, and each is a check if the first one is. */
  lemma {:induction false} ChangesRepeat(c: Crypto, w: Next, e: Step, n: nat)
    requires e.op.SetPassword? && !Do(c, w.settings, w.gate, e.op, e.now).reply.Done?
    ensures var after := Do(c, w.settings, w.gate, e.op, e.now);
            && RunFrom(c, w, Copies(e, n)) == (if n == 0 then w else after)
            && WrongChecks(c, w, Copies(e, n)) == n * Weight(e.op, after.reply)
    decreases n
  {
    ChangeTwice(c, w, e);
    hide Do, Weight, RunFrom, WrongChecks;
    if n > 0 {
      ChangesRepeat(c, w, e, n - 1);
      OneMore(c, w, Copies(e, n - 1), e);
      Distribute(n - 1, Weight(e.op, Do(c, w.settings, w.gate, e.op, e.now).reply));
    } else {
      NoSteps(c, w);
    }
  }

  /**
    A run on which the bound fails for password checks as a whole: any number of changes of password
    with a wrong current one, all at one instant, each of them checked, none counted.
   */
  lemma UncountedChecks(c: Crypto, s: Settings, e: Step, n: nat)
    requires e.op.SetPassword? && s.telegram && s.passwordHash != "" && !c.verify(e.op.current, s.passwordHash)
    ensures var steps := Copies(e, n);
            && Clock(steps, e.now) && WrongChecks(c, Next(s, CLOSED, Done), steps) == n
            && After(c, s, steps).settings == s && After(c, s, steps).gate == CLOSED && Streak(c, s, steps) == []
  {
    var w := Next(s, CLOSED, Done);
    hide Do, After, RunFrom, WrongChecks, Streak, Copies;
    ChangeIsWrong(c, s, CLOSED, e);
    ChangesRepeat(c, w, e, n);
    AfterCopies(c, s, e, n);
    StreakStays(c, s, e, n);
  }

  lemma ChangeIsWrong(c: Crypto, s: Settings, g: Gate, e: Step)
    requires e.op.SetPassword? && s.telegram && s.passwordHash != "" && !c.verify(e.op.current, s.passwordHash)
    ensures Do(c, s, g, e.op, e.now) == Next(s, g, Refused(WrongPassword))
  {
  }

  lemma AfterCopies(c: Crypto, s: Settings, e: Step, n: nat)
    ensures After(c, s, Copies(e, n)) == RunFrom(c, Next(s, CLOSED, Done), Copies(e, n))
  {
    RunGoesOn(c, s, [], Copies(e, n));
    Units(Copies(e, n));
    hide Do, RunFrom, Copies;
  }

  lemma {:induction false} StreakStays(c: Crypto, s: Settings, e: Step, n: nat)
    requires e.op.SetPassword? && !Do(c, s, CLOSED, e.op, e.now).reply.Done?
    ensures Streak(c, s, Copies(e, n)) == []
    decreases n
  {
    if n > 0 {
      StreakStays(c, s, e, n - 1);
      hide Do, After, Streak, RunFrom, WrongChecks, Weight;
      ChangesRepeat(c, Next(s, CLOSED, Done), e, n);
      AfterCopies(c, s, e, n);
      AppendTake(Copies(e, n - 1), e);
      StreakMoves(c, s, Copies(e, n));
    }
  }

  // ---------------------------------------------------------------- when the bound covers everything

  /** Doing one change of password of a stretch `n` more times adds as many checks as it was wrong. */
  lemma RepeatedChecks(c: Crypto, w: Next, u: seq<Step>, e: Step, v: seq<Step>, n: nat)
    requires e.op.SetPassword? && NoReset(c, w, u + [e] + v)
    ensures var reply := RunFrom(c, w, u + [e]).reply;
            WrongChecks(c, w, u + Copies(e, n + 1) + v) == WrongChecks(c, w, u + [e] + v) + n * Weight(e.op, reply)
  {
    var here := RunFrom(c, w, u);
    OneStep(c, here, e);
    InTwoParts(c, w, u + [e], v);
    InTwoParts(c, w, u, [e]);
    InTwoParts(c, w, u + Copies(e, n + 1), v);
    InTwoParts(c, w, u, Copies(e, n + 1));
    ChangesRepeat(c, here, e, n + 1);
    hide RunFrom, WrongChecks, Do, Weight, NoReset, Copies;
    Distribute(n, Weight(e.op, RunFrom(c, w, u + [e]).reply));
  }

  lemma Distribute(n: nat, x: nat)
    ensures (n + 1) * x == n * x + x
  {
  }

  /**
    However often a change of password of the stretch is asked for, the checks stay within the bound
    on failed logins.
   */
  ghost predicate BoundCovers(c: Crypto, w: Next, steps: seq<Step>, span: real)
    requires span >= 0.0
  {
    && WrongChecks(c, w, steps) <= MaxChecks(span)
    && forall u, e, v, n: nat :: Occurs(steps, u, e, v) ==> FitsRepeated(c, w, u, e, v, n, span)
  }

  predicate FitsRepeated(c: Crypto, w: Next, u: seq<Step>, e: Step, v: seq<Step>, n: nat, span: real)
    requires span >= 0.0
  {
    WrongChecks(c, w, u + Copies(e, n + 1) + v) <= MaxChecks(span)
  }

  predicate Occurs(steps: seq<Step>, u: seq<Step>, e: Step, v: seq<Step>) {
    steps == u + [e] + v && e.op.SetPassword?
  }

  lemma {:induction false} OnlyLogins(c: Crypto, w: Next, steps: seq<Step>)
    requires NoWrongChange(c, w, steps)
    ensures WrongChecks(c, w, steps) == |WrongLogins(c, w, steps)|
    decreases |steps|
  {
    hide RunFrom;
    if steps != [] { OnlyLogins(c, w, steps[..|steps| - 1]); }
  }

  lemma {:induction false} SomeWrongChange(c: Crypto, w: Next, steps: seq<Step>)
    returns (u: seq<Step>, e: Step, v: seq<Step>)
    requires !NoWrongChange(c, w, steps)
    ensures Occurs(steps, u, e, v) && WrongChange(e.op, RunFrom(c, w, u + [e]).reply)
    decreases |steps|
  {
    hide RunFrom;
    var init, last := steps[..|steps| - 1], steps[|steps| - 1];
    InitLast(steps);
    if WrongChange(last.op, RunFrom(c, w, steps).reply) {
      u, e, v := init, last, [];
      Units(steps);
    } else {
      u, e, v := SomeWrongChange(c, w, init);
      v := v + [last];
      Assoc(u + [e], v[..|v| - 1], [last]);
      AppendTake(v[..|v| - 1], last);
    }
  }

  lemma NotWrongHere(c: Crypto, w: Next, u: seq<Step>, e: Step, v: seq<Step>)
    requires NoWrongChange(c, w, u + [e] + v)
    ensures !WrongChange(e.op, RunFrom(c, w, u + [e]).reply)
  {
    InTwoParts(c, w, u + [e], v);
    AppendTake(u, e);
    hide RunFrom, WrongChange;
  }

  /**
    The bound covers all password checks of a stretch if and only if no change of password in it is
    asked for with a wrong current password.
   */
  lemma BoundCoversExactly(c: Crypto, s: Settings, before: seq<Step>, steps: seq<Step>, span: real)
    requires steps != [] && Clock(before + steps, steps[|steps| - 1].now) && NoReset(c, After(c, s, before), steps)
    requires 0.0 <= steps[|steps| - 1].now - steps[0].now <= span
    ensures BoundCovers(c, After(c, s, before), steps, span) <==> NoWrongChange(c, After(c, s, before), steps)
  {
    var w := After(c, s, before);
    hide After, RunFrom, NoReset, NoWrongChange, WrongChecks, MaxChecks, Clock, Copies;
    if NoWrongChange(c, w, steps) {
      OnlyLogins(c, w, steps);
      WrongLoginsAreFew(c, s, before, steps, span);
      forall u, e, v, n: nat | Occurs(steps, u, e, v) ensures FitsRepeated(c, w, u, e, v, n, span) {
        RepeatedChecks(c, w, u, e, v, n);
        NotWrongHere(c, w, u, e, v);
      }
    } else {
      var u, e, v := SomeWrongChange(c, w, steps);
      var n := MaxChecks(span) + 1;
      RepeatedChecks(c, w, u, e, v, n);
      assert !FitsRepeated(c, w, u, e, v, n, span);
    }
  }
}
