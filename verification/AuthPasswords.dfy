/**
  Which password opens the gate, and which code: over any run, in terms of what the commands were
  answered. The password in force is that of the last reset, change or configuration that was
  accepted; a code is accepted exactly while its own send is valid and it has not been used up.
 */
module AuthPasswords {
  import opened Options
  import opened Seqs
  import opened Auth
  import opened AuthRuns
  import opened AuthChecks

  // ---------------------------------------------------------------- the password in force

  /** The settings after a command, in terms of its answer. */
  function Kept(before: Settings, op: Op, reply: Reply): Settings {
    match op
    case RecoveryReset(_, _, newHash) =>
      if reply.Unlocked? && newHash.Some? then before.(passwordHash := newHash.value) else before
    case SetPassword(_, newHash) =>
      if reply.Done? && newHash.Some? then before.(passwordHash := newHash.value) else before
    case Configure(wanted) => wanted
    case _ => before
  }

  /** Last accepted reset, accepted change or configuration of the run. */
  function InForce(c: Crypto, s: Settings, steps: seq<Step>): Settings {
    if steps == [] then s
    else Kept(InForce(c, s, steps[..|steps| - 1]), steps[|steps| - 1].op, After(c, s, steps).reply)
  }

  lemma StepKeeps(c: Crypto, s: Settings, g: Gate, op: Op, now: real)
    ensures var n := Do(c, s, g, op, now); n.settings == Kept(s, op, n.reply)
  {
    hide Recent, MaySend, Lockout, Live, Checked, CheckReply;
  }

  /** The gate works with the settings in force. */
  lemma {:induction false} SettingsAreInForce(c: Crypto, s: Settings, steps: seq<Step>)
    ensures After(c, s, steps).settings == InForce(c, s, steps)
    decreases |steps|
  {
    hide Do, Kept;
    if steps != [] {
      var n := |steps| - 1;
      var w := After(c, s, steps[..n]);
      SettingsAreInForce(c, s, steps[..n]);
      StepKeeps(c, w.settings, w.gate, steps[n].op, steps[n].now);
    }
  }

  /** A login at `now` falls in the lockout of the failures since the last reset. */
  predicate LockedOutAt(streak: seq<real>, now: real) {
    |streak| >= 5 && now < streak[|streak| - 1] + Lockout(|streak|)
  }

  /** How a command would be answered after the run. */
  function ReplyTo(c: Crypto, s: Settings, steps: seq<Step>, op: Op, now: real): Reply {
    var w := After(c, s, steps);
    Do(c, w.settings, w.gate, op, now).reply
  }

  /** What answers a login, given whether it is locked out and what is in force. */
  ghost predicate LoginAnswer(c: Crypto, held: Settings, locked: bool, op: Op, reply: Reply)
    requires op.Login?
  {
    && (reply.Refused? && reply.why.LockedOut? <==> locked)
    && (reply == Refused(NoPassword) <==> !locked && held.passwordHash == "")
    && (WrongLogin(op, reply) <==> !locked && held.passwordHash != "" && !c.verify(op.password, held.passwordHash))
    && (reply == Unlocked
        <==> !locked && held.passwordHash != "" && c.verify(op.password, held.passwordHash) && !held.twofa)
    && (reply.CodeSent? || reply == Refused(Throttled)
        <==> !locked && held.passwordHash != "" && c.verify(op.password, held.passwordHash) && held.twofa)
  }

  lemma LoginStep(c: Crypto, s: Settings, g: Gate, op: Op, now: real)
    requires op.Login?
    ensures LoginAnswer(c, s, Locked(g, now), op, Do(c, s, g, op, now).reply)
  {
    hide Recent, MaySend, Lockout, Live;
  }

  lemma LockedIs(c: Crypto, s: Settings, steps: seq<Step>, now: real)
    requires Clock(steps, now)
    ensures Locked(After(c, s, steps).gate, now) <==> LockedOutAt(Streak(c, s, steps), now)
  {
    StreakInvariant(c, s, steps, now);
    hide Lockout, After, Streak;
  }

  /**
    A login, exactly: unless the current failures lock it out, it is refused as wrong if and only if its
    password does not verify against the hash in force, and let on otherwise.
   */
  lemma LoginExactly(c: Crypto, s: Settings, steps: seq<Step>, op: Op, now: real)
    requires Clock(steps, now) && op.Login?
    ensures LoginAnswer(c, InForce(c, s, steps), LockedOutAt(Streak(c, s, steps), now), op,
                        ReplyTo(c, s, steps, op, now))
  {
    var w := After(c, s, steps);
    SettingsAreInForce(c, s, steps);
    LockedIs(c, s, steps, now);
    LoginStep(c, w.settings, w.gate, op, now);
    hide Do, After, InForce, Streak, Lockout;
  }

  lemma RefusalStep(c: Crypto, s: Settings, g: Gate, streak: seq<real>, op: Op, now: real)
    requires op.Login? && StreakHeld(g, streak)
    ensures var reply := Do(c, s, g, op, now).reply;
            && (reply.Refused? && reply.why.LockedOut? ==>
                  streak != [] && reply.why.left == streak[|streak| - 1] + Lockout(|streak|) - now)
            && (WrongLogin(op, reply) ==>
                  reply.why == if |streak| < 4 then WrongPassword else LockedFor(Lockout(|streak| + 1)))
  {
    ManyFails(|streak| + 1);
    hide Lockout, Recent, MaySend, Live;
  }

  /**
    What a refused login is told: the time left of the lockout, or that the password is wrong, or, from the
    fifth failure in a row on, the lockout that begins.
   */
  lemma RefusalsExactly(c: Crypto, s: Settings, steps: seq<Step>, op: Op, now: real)
    requires Clock(steps, now) && op.Login?
    ensures var streak, reply := Streak(c, s, steps), ReplyTo(c, s, steps, op, now);
            && (reply.Refused? && reply.why.LockedOut? ==>
                  streak != [] && reply.why.left == streak[|streak| - 1] + Lockout(|streak|) - now)
            && (WrongLogin(op, reply) ==>
                  reply.why == if |streak| < 4 then WrongPassword else LockedFor(Lockout(|streak| + 1)))
  {
    var w := After(c, s, steps);
    StreakInvariant(c, s, steps, now);
    RefusalStep(c, w.settings, w.gate, Streak(c, s, steps), op, now);
    hide Do, After, Streak, Lockout, StreakHeld, Backoff;
  }

  /** A change of password, exactly. */
  lemma ChangeExactly(c: Crypto, s: Settings, steps: seq<Step>, op: Op, now: real)
    requires op.SetPassword?
    ensures var held, reply := InForce(c, s, steps), ReplyTo(c, s, steps, op, now);
            var right := held.passwordHash == "" || c.verify(op.current, held.passwordHash);
            && (reply == Done <==> held.telegram && right && op.newHash.Some?)
            && (reply == Refused(WrongPassword) <==> held.telegram && !right)
  {
    SettingsAreInForce(c, s, steps);
    hide After, InForce;
  }

  /** The record of sends lets another one through. */
  ghost predicate RoomToSend(log: seq<Sent>, now: real) {
    (log == [] || now - log[|log| - 1].at >= 60.0) && |Within(log, |log|, now)| <= 2
  }

  /** A request for a recovery code, and the code of a login, exactly. */
  lemma SendsExactly(c: Crypto, s: Settings, steps: seq<Step>, op: Op, now: real)
    requires Clock(steps, now) && Draws(op)
    ensures var held, room := InForce(c, s, steps), RoomToSend(SendLog(c, s, steps), now);
            var due := if op.RequestRecovery? then held.passwordHash != "" && held.telegram
                       else && !LockedOutAt(Streak(c, s, steps), now) && held.twofa && held.passwordHash != ""
                            && c.verify(op.password, held.passwordHash);
            && (ReplyTo(c, s, steps, op, now) == CodeSent(op.id) <==> due && room)
            && (ReplyTo(c, s, steps, op, now) == Refused(Throttled) <==> due && !room)
  {
    SettingsAreInForce(c, s, steps);
    LockedIs(c, s, steps, now);
    ThrottleExactly(c, s, steps, now);
    hide After, InForce, Streak, SendLog, Within, Recent, MaySend, Lockout, Live, LockedOutAt;
  }

  /** From an accepted reset on, it is the new password that counts, at once. */
  lemma ResetTakesEffect(c: Crypto, s: Settings, steps: seq<Step>, e: Step, op: Op, now: real)
    requires Clock(steps + [e], now) && e.op.RecoveryReset? && After(c, s, steps + [e]).reply.Unlocked?
    requires op.Login? && e.op.newHash.Some? && e.op.newHash.value != ""
    ensures WrongLogin(op, ReplyTo(c, s, steps + [e], op, now)) <==> !c.verify(op.password, e.op.newHash.value)
    ensures ReplyTo(c, s, steps + [e], op, now) == Unlocked
            <==> c.verify(op.password, e.op.newHash.value) && !InForce(c, s, steps).twofa
  {
    AppendTake(steps, e);
    LoginExactly(c, s, steps + [e], op, now);
    hide Do, Lockout, ReplyTo, After;
    assert Streak(c, s, steps + [e]) == [];
  }

  // ---------------------------------------------------------------- whether the gate is open

  /** Open since the last answer that opened it, if nothing has locked it since. */
  function IsOpen(c: Crypto, s: Settings, steps: seq<Step>): bool {
    if steps == [] then false
    else
      var op, reply := steps[|steps| - 1].op, After(c, s, steps).reply;
      if op.Lock? then false
      else reply.Unlocked? || (op.SetPassword? && reply.Done?) || IsOpen(c, s, steps[..|steps| - 1])
  }

  lemma StepOpens(c: Crypto, s: Settings, g: Gate, op: Op, now: real)
    ensures var n := Do(c, s, g, op, now);
            n.gate.unlocked
            <==> !op.Lock? && (n.reply.Unlocked? || (op.SetPassword? && n.reply.Done?) || g.unlocked)
  {
    hide Recent, MaySend, Lockout, Live, CheckReply;
  }

  /** The gate is open exactly when the answers so far say so. */
  lemma {:induction false} OpenExactly(c: Crypto, s: Settings, steps: seq<Step>)
    ensures After(c, s, steps).gate.unlocked <==> IsOpen(c, s, steps)
    decreases |steps|
  {
    hide Do;
    if steps != [] {
      var n := |steps| - 1;
      var w := After(c, s, steps[..n]);
      OpenExactly(c, s, steps[..n]);
      StepOpens(c, w.settings, w.gate, steps[n].op, steps[n].now);
    }
  }

  // ---------------------------------------------------------------- codes

  /** Send `j` is valid at `now`, fewer than five wrong codes were compared with its own, and none fitted. */
  ghost predicate Usable(sends: seq<Sent>, log: seq<Guess>, j: nat, now: real) {
    && j < |sends| && now < sends[j].at + Ttl(sends[j].kind)
    && Guesses(log, sends[j].id) < 5 && Hits(log, sends[j].id) == 0
  }

  function ChallengeOf(e: Sent, tries: nat): Challenge { Challenge(e.digest, e.kind, e.at + Ttl(e.kind), tries) }

  /** Every usable send still has its challenge. */
  ghost predicate UsableAreStored(challenges: map<string, Challenge>, sends: seq<Sent>, log: seq<Guess>, now: real) {
    forall j: nat :: Usable(sends, log, j, now) ==> IsStored(challenges, sends[j], Guesses(log, sends[j].id))
  }

  predicate IsStored(challenges: map<string, Challenge>, e: Sent, tries: nat) {
    e.id in challenges && challenges[e.id] == ChallengeOf(e, tries)
  }

  lemma UnknownIsUnguessed(sends: seq<Sent>, log: seq<Guess>, challenges: map<string, Challenge>, id: string)
    requires GuessesBounded(challenges, sends, log) && !Known(sends, id)
    ensures Guesses(log, id) == 0 && Hits(log, id) == 0
  {
  }

  /** A send adds its challenge, and drops only those no longer valid. */
  lemma SendKeepsUsable(c: Crypto, g: Gate, sends: seq<Sent>, log: seq<Guess>, e: Sent, now: real)
    requires UsableAreStored(g.challenges, sends, log, e.at) && GuessesBounded(g.challenges, sends, log)
    requires !Known(sends, e.id) && e.at <= now
    ensures UsableAreStored(Live(g.challenges, e.at)[e.id := ChallengeOf(e, 0)], sends + [e], log, now)
  {
    UnknownIsUnguessed(sends, log, g.challenges, e.id);
    hide GuessesBounded, Guesses, Hits, Ttl;
    var all, after := sends + [e], Live(g.challenges, e.at)[e.id := ChallengeOf(e, 0)];
    forall j: nat | Usable(all, log, j, now) ensures IsStored(after, all[j], Guesses(log, all[j].id)) {
      if j < |sends| {
        assert all[j] == sends[j];
        assert sends[j].id != e.id;
        assert Usable(sends, log, j, e.at);
      }
    }
  }

  lemma TimePasses(challenges: map<string, Challenge>, sends: seq<Sent>, log: seq<Guess>, t: real, now: real)
    requires UsableAreStored(challenges, sends, log, t) && t <= now
    ensures UsableAreStored(challenges, sends, log, now)
  {
    hide Guesses, Hits, Ttl;
    forall j: nat | Usable(sends, log, j, now) ensures IsStored(challenges, sends[j], Guesses(log, sends[j].id)) {
      assert Usable(sends, log, j, t);
    }
  }

  /** An offer counts against its own challenge alone. */
  lemma OfferKeepsUsable(g: Gate, sends: seq<Sent>, log: seq<Guess>, id: string, digest: string, n: nat, t: real)
    requires UsableAreStored(g.challenges, sends, log, t)
    ensures UsableAreStored(
              Checked(g, id, digest, t).challenges, sends,
              if Compares(g, id, t) then log + [Guess(n, id, t, g.challenges[id].codeHash == digest)] else log, t)
  {
    var after := Checked(g, id, digest, t).challenges;
    var all := if Compares(g, id, t) then log + [Guess(n, id, t, g.challenges[id].codeHash == digest)] else log;
    hide Ttl;
    forall j: nat | Usable(sends, all, j, t) ensures IsStored(after, sends[j], Guesses(all, sends[j].id)) {
      if Compares(g, id, t) { GuessMore(log, all[|log|], sends[j].id); }
      hide Guesses, Hits;
      assert Usable(sends, log, j, t);
      assert IsStored(g.challenges, sends[j], Guesses(log, sends[j].id));
    }
  }

  lemma UsableStep(c: Crypto, op: Op, n: nat, t: real, g: Gate, sends: seq<Sent>, g': Gate, sends': seq<Sent>,
                   log: seq<Guess>, now: real)
    requires UsableAreStored(g.challenges, sends, log, t) && GuessesBounded(g.challenges, sends, log) && t <= now
    requires Moved(c, op, n, t, g, sends, g', sends') && (Draws(op) ==> !Known(sends, op.id))
    ensures UsableAreStored(g'.challenges, sends', log + NewGuess(c, g, op, n, t), now)
  {
    hide UsableAreStored, GuessesBounded, Known, MaySend, Recent, Live, Checked, Compares;
    Units(log);
    if Offers(op) {
      OfferKeepsUsable(g, sends, log, op.challenge, c.digest(op.code), n, t);
      TimePasses(g'.challenges, sends, log + NewGuess(c, g, op, n, t), t, now);
    } else if sends' != sends {
      SendKeepsUsable(c, g, sends, log, sends'[|sends|], now);
    } else {
      TimePasses(g.challenges, sends, log, t, now);
    }
  }

  lemma {:induction false} UsableInvariant(c: Crypto, s: Settings, steps: seq<Step>, now: real)
    requires Clock(steps, now) && FreshIds(steps)
    ensures UsableAreStored(After(c, s, steps).gate.challenges, SendLog(c, s, steps), GuessLog(c, s, steps), now)
  {
    if steps != [] {
      var n := |steps| - 1;
      var op, t, g := steps[n].op, steps[n].now, After(c, s, steps[..n]).gate;
      UsableInvariant(c, s, steps[..n], t);
      GuessesInvariant(c, s, steps[..n], t);
      RunMoves(c, s, steps, n);
      if Draws(op) { FreshIsUnknown(c, s, steps); }
      var sends, log := SendLog(c, s, steps[..n]), GuessLog(c, s, steps[..n]);
      assert GuessLog(c, s, steps) == log + NewGuess(c, g, op, n, t);
      hide After, SendLog, GuessLog, Moved, GuessesBounded, Known, NewGuess, UsableAreStored;
      UsableStep(c, op, n, t, g, sends, After(c, s, steps).gate, SendLog(c, s, steps), log, now);
    }
  }

  /** The code offered is that of a usable send under this id. */
  ghost predicate Fits(c: Crypto, sends: seq<Sent>, log: seq<Guess>, j: nat, op: Op, now: real)
    requires Offers(op)
  {
    Usable(sends, log, j, now) && sends[j].id == op.challenge && sends[j].digest == c.digest(op.code)
  }

  ghost predicate SomeFits(c: Crypto, sends: seq<Sent>, log: seq<Guess>, op: Op, now: real, kind: OtpKind)
    requires Offers(op)
  {
    exists j: nat :: Fits(c, sends, log, j, op, now) && sends[j].kind == kind
  }

  lemma AcceptedIsStored(c: Crypto, g: Gate, op: Op, now: real, kind: OtpKind)
    requires Offers(op)
    ensures CheckReply(g, op.challenge, c.digest(op.code), now) == Ok(kind)
            <==> && Compares(g, op.challenge, now) && g.challenges[op.challenge].codeHash == c.digest(op.code)
                 && g.challenges[op.challenge].kind == kind
  {
  }

  /** A code is right for the gate if and only if it is that of a usable send. */
  lemma RightCodeExactly(c: Crypto, s: Settings, steps: seq<Step>, op: Op, now: real, kind: OtpKind)
    requires Clock(steps, now) && FreshIds(steps) && Offers(op)
    ensures CheckReply(After(c, s, steps).gate, op.challenge, c.digest(op.code), now) == Ok(kind)
            <==> SomeFits(c, SendLog(c, s, steps), GuessLog(c, s, steps), op, now, kind)
  {
    var g, sends, log := After(c, s, steps).gate, SendLog(c, s, steps), GuessLog(c, s, steps);
    UsableInvariant(c, s, steps, now);
    GuessesInvariant(c, s, steps, now);
    ChallengesInvariant(c, s, steps, now);
    AcceptedIsStored(c, g, op, now, kind);
    hide After, SendLog, GuessLog, CheckReply, Guesses, Hits;
    if Compares(g, op.challenge, now) && g.challenges[op.challenge].codeHash == c.digest(op.code)
       && g.challenges[op.challenge].kind == kind {
      var j: nat :| Begot(sends, j, op.challenge, g.challenges[op.challenge]);
      assert Fits(c, sends, log, j, op, now) && sends[j].kind == kind;
    }
    if j: nat :| Fits(c, sends, log, j, op, now) && sends[j].kind == kind {
      assert IsStored(g.challenges, sends[j], Guesses(log, sends[j].id));
    }
  }

  /**
    A login code opens the gate, and a recovery code with a usable new password resets it, if and only if
    the code is that of a send of the right kind that is still valid, has not fitted before, and has seen
    fewer than five wrong codes.
   */
  lemma CodesExactly(c: Crypto, s: Settings, steps: seq<Step>, op: Op, now: real)
    requires Clock(steps, now) && FreshIds(steps) && Offers(op)
    ensures ReplyTo(c, s, steps, op, now) == Unlocked
            <==> && SomeFits(c, SendLog(c, s, steps), GuessLog(c, s, steps), op, now,
                             if op.VerifyOtp? then TwoFactor else Recovery)
                 && (op.RecoveryReset? ==> op.newHash.Some?)
  {
    RightCodeExactly(c, s, steps, op, now, TwoFactor);
    RightCodeExactly(c, s, steps, op, now, Recovery);
    hide After, SendLog, GuessLog, CheckReply, Checked, SomeFits;
  }

  /** The code offered is not that of the usable send under this id. */
  ghost predicate SomeDiffers(c: Crypto, sends: seq<Sent>, log: seq<Guess>, op: Op, now: real)
    requires Offers(op)
  {
    exists j: nat ::
      Usable(sends, log, j, now) && sends[j].id == op.challenge && sends[j].digest != c.digest(op.code)
  }

  lemma ComparedIsUsable(c: Crypto, s: Settings, steps: seq<Step>, op: Op, now: real) returns (j: nat)
    requires Clock(steps, now) && FreshIds(steps) && Offers(op)
    requires Compares(After(c, s, steps).gate, op.challenge, now)
    ensures var sends := SendLog(c, s, steps);
            && Usable(sends, GuessLog(c, s, steps), j, now) && sends[j].id == op.challenge
            && sends[j].digest == After(c, s, steps).gate.challenges[op.challenge].codeHash
  {
    var g, sends, log := After(c, s, steps).gate, SendLog(c, s, steps), GuessLog(c, s, steps);
    GuessesInvariant(c, s, steps, now);
    ChallengesInvariant(c, s, steps, now);
    hide After, SendLog, GuessLog, Guesses, Hits;
    j :| Begot(sends, j, op.challenge, g.challenges[op.challenge]);
  }

  lemma WrongCodeIsStored(c: Crypto, g: Gate, op: Op, now: real)
    requires Offers(op)
    ensures CheckReply(g, op.challenge, c.digest(op.code), now) == Err(WrongCode)
            <==> Compares(g, op.challenge, now) && g.challenges[op.challenge].codeHash != c.digest(op.code)
  {
  }

  lemma WrongCodeExactly(c: Crypto, s: Settings, steps: seq<Step>, op: Op, now: real)
    requires Clock(steps, now) && FreshIds(steps) && Offers(op)
    ensures CheckReply(After(c, s, steps).gate, op.challenge, c.digest(op.code), now) == Err(WrongCode)
            <==> SomeDiffers(c, SendLog(c, s, steps), GuessLog(c, s, steps), op, now)
  {
    var g, sends, log := After(c, s, steps).gate, SendLog(c, s, steps), GuessLog(c, s, steps);
    UsableInvariant(c, s, steps, now);
    WrongCodeIsStored(c, g, op, now);
    if Compares(g, op.challenge, now) {
      var i := ComparedIsUsable(c, s, steps, op, now);
    }
    hide After, SendLog, GuessLog, CheckReply, Guesses, Hits;
    if j: nat :| Usable(sends, log, j, now) && sends[j].id == op.challenge && sends[j].digest != c.digest(op.code) {
      assert IsStored(g.challenges, sends[j], Guesses(log, sends[j].id));
    }
  }

  lemma CodeReply(c: Crypto, s: Settings, g: Gate, op: Op, now: real)
    requires Offers(op)
    ensures var r, reply := CheckReply(g, op.challenge, c.digest(op.code), now), Do(c, s, g, op, now).reply;
            && (reply == Refused(WrongCode) <==> r == Err(WrongCode))
            && (reply == Refused(WrongKind) <==> r == Ok(if op.VerifyOtp? then Recovery else TwoFactor))
            && (reply == Refused(Unusable) <==> op.RecoveryReset? && op.newHash.None? && r == Ok(Recovery))
  {
    hide Checked;
    var r := CheckReply(g, op.challenge, c.digest(op.code), now);
    assert r.Err? ==> r.error != WrongKind && r.error != Unusable;
    assert r.Ok? ==> r.value == TwoFactor || r.value == Recovery;
  }

  /** What a refused code is told: wrong, of the wrong kind, or that the new password will not do. */
  lemma RefusedCodesExactly(c: Crypto, s: Settings, steps: seq<Step>, op: Op, now: real)
    requires Clock(steps, now) && FreshIds(steps) && Offers(op)
    ensures var sends, log, reply := SendLog(c, s, steps), GuessLog(c, s, steps), ReplyTo(c, s, steps, op, now);
            && (reply == Refused(WrongCode) <==> SomeDiffers(c, sends, log, op, now))
            && (reply == Refused(WrongKind)
                <==> SomeFits(c, sends, log, op, now, if op.VerifyOtp? then Recovery else TwoFactor))
            && (reply == Refused(Unusable)
                <==> op.RecoveryReset? && op.newHash.None? && SomeFits(c, sends, log, op, now, Recovery))
  {
    var w := After(c, s, steps);
    RightCodeExactly(c, s, steps, op, now, TwoFactor);
    RightCodeExactly(c, s, steps, op, now, Recovery);
    WrongCodeExactly(c, s, steps, op, now);
    CodeReply(c, w.settings, w.gate, op, now);
    hide Do, After, SendLog, GuessLog, CheckReply, SomeFits, SomeDiffers, Clock, FreshIds;
  }
}
