/**
  The login gate (`auth.rs`) and the commands that drive it (`auth_cmds.rs`): send throttle,
  one-time-code challenges, lockout after failed logins. Every step carries its one clock reading;
  challenge ids, codes, password verdicts and digests come from outside.
 */
module Auth {
  import opened Options
  import opened Seqs

  const OTP_MAX_TRIES := 5
  const SEND_COOLDOWN := 60.0
  const SEND_MAX_PER_WIN := 3
  const SEND_WINDOW := 600.0
  const LOCKOUT_AFTER := 5
  const LOCKOUT_BASE := 30.0
  const LOCKOUT_MAX := 900.0
  const MAX_U32 := 0xFFFF_FFFF

  datatype OtpKind = TwoFactor | Recovery

  function Ttl(kind: OtpKind): (t: real)
    ensures 0.0 < t <= SEND_WINDOW
  {
    match kind
    case TwoFactor => 300.0
    case Recovery => 600.0
  }

  datatype Challenge = Challenge(codeHash: string, kind: OtpKind, expires: real, tries: nat)

  datatype Gate = Gate(
    unlocked: bool,
    challenges: map<string, Challenge>,
    fails: nat,
    lockedUntil: Option<real>,
    sends: seq<real>
  )

  const CLOSED := Gate(false, map[], 0, None, [])

  datatype Refusal =
    | LockedOut(left: real) | LockedFor(span: real) | NoPassword | WrongPassword
    | Throttled | UnknownCode | TooManyTries | WrongCode | WrongKind | NoTelegram | Unusable

  // ---------------------------------------------------------------- lockout

  function Power(n: nat): (p: nat)
    ensures p >= 1
  {
    if n == 0 then 1 else 2 * Power(n - 1)
  }

  function Least(a: nat, b: nat): nat { if a < b then a else b }

  /** How long the gate stays shut after the given number of failures in a row. */
  function Lockout(fails: nat): real {
    if fails < LOCKOUT_AFTER then 0.0
    else
      var span := LOCKOUT_BASE * Power(Least(Least(fails - LOCKOUT_AFTER, 20), 5)) as real;
      if span > LOCKOUT_MAX then LOCKOUT_MAX else span
  }

  function Locked(g: Gate, now: real): bool {
    g.lockedUntil.Some? && now < g.lockedUntil.value
  }

  function Failed(g: Gate, now: real): Gate {
    var fails := if g.fails < MAX_U32 then g.fails + 1 else g.fails;
    g.(fails := fails, lockedUntil := if fails >= LOCKOUT_AFTER then Some(now + Lockout(fails)) else g.lockedUntil)
  }

  function Cleared(g: Gate): Gate { g.(fails := 0, lockedUntil := None) }

  // ---------------------------------------------------------------- sends and challenges

  function Recent(sends: seq<real>, now: real): seq<real> {
    if sends == [] then []
    else
      var before := Recent(sends[..|sends| - 1], now);
      if now - sends[|sends| - 1] < SEND_WINDOW then before + [sends[|sends| - 1]] else before
  }

  predicate MaySend(recent: seq<real>, now: real) {
    (recent == [] || now - recent[|recent| - 1] >= SEND_COOLDOWN) && |recent| < SEND_MAX_PER_WIN
  }

  function Admitted(g: Gate, now: real): Gate {
    var recent := Recent(g.sends, now);
    g.(sends := if MaySend(recent, now) then recent + [now] else recent)
  }

  function Live(challenges: map<string, Challenge>, now: real): map<string, Challenge> {
    map id | id in challenges && challenges[id].expires > now :: challenges[id]
  }

  /** The gate after a request for a code: only a send within the throttle makes a challenge. */
  function Challenged(g: Gate, kind: OtpKind, id: string, codeHash: string, now: real): Gate {
    if MaySend(Recent(g.sends, now), now) then
      Admitted(g, now).(
        challenges := Live(g.challenges, now)[id := Challenge(codeHash, kind, now + Ttl(kind), 0)])
    else
      Admitted(g, now)
  }

  /** The code offered for `id` is compared at all. */
  predicate Compares(g: Gate, id: string, now: real) {
    id in g.challenges && g.challenges[id].expires > now && g.challenges[id].tries < OTP_MAX_TRIES
  }

  function Checked(g: Gate, id: string, digest: string, now: real): Gate {
    if id !in g.challenges then g
    else if Compares(g, id, now) && g.challenges[id].codeHash != digest then
      g.(challenges := g.challenges[id := g.challenges[id].(tries := g.challenges[id].tries + 1)])
    else g.(challenges := g.challenges - {id})
  }

  function CheckReply(g: Gate, id: string, digest: string, now: real): Result<OtpKind, Refusal> {
    if id !in g.challenges || g.challenges[id].expires <= now then Err(UnknownCode)
    else if g.challenges[id].tries >= OTP_MAX_TRIES then Err(TooManyTries)
    else if g.challenges[id].codeHash == digest then Ok(g.challenges[id].kind)
    else Err(WrongCode)
  }

  method Retained(sends: seq<real>, now: real) returns (kept: seq<real>)
    ensures kept == Recent(sends, now)
  {
    kept := [];
    for n := 0 to |sends|
      invariant kept == Recent(sends[..n], now)
    {
      TakeNext(sends, n);
      if now - sends[n] < SEND_WINDOW { kept := kept + [sends[n]]; }
    }
    TakeAll(sends);
  }

  class AuthState {
    var unlocked: bool
    var challenges: map<string, Challenge>
    var loginFails: nat
    var lockedUntil: Option<real>
    var sendTimes: seq<real>

    function Value(): Gate
      reads this
    {
      Gate(unlocked, challenges, loginFails, lockedUntil, sendTimes)
    }

    constructor ()
      ensures Value() == CLOSED
    {
      unlocked, challenges, loginFails, lockedUntil, sendTimes := false, map[], 0, None, [];
    }

    method LockoutRemaining(now: real) returns (left: Option<real>)
      ensures left == if Locked(Value(), now) then Some(lockedUntil.value - now) else None
    {
      left := None;
      if lockedUntil.Some? && now <= lockedUntil.value {
        var span := lockedUntil.value - now;
        if span != 0.0 { left := Some(span); }
      }
    }

    method RecordFail(now: real) returns (span: Option<real>)
      modifies this
      ensures Value() == Failed(old(Value()), now)
      ensures span == if loginFails >= LOCKOUT_AFTER then Some(Lockout(loginFails)) else None
    {
      span := None;
      if loginFails < MAX_U32 { loginFails := loginFails + 1; }
      if loginFails >= LOCKOUT_AFTER {
        var extra := Least(loginFails - LOCKOUT_AFTER, 20);
        var length := LOCKOUT_BASE * Power(Least(extra, 5)) as real;
        if length > LOCKOUT_MAX { length := LOCKOUT_MAX; }
        lockedUntil := Some(now + length);
        span := Some(length);
      }
    }

    method ResetFails()
      modifies this
      ensures Value() == Cleared(old(Value()))
    {
      loginFails, lockedUntil := 0, None;
    }

    method CheckSendThrottle(now: real) returns (ok: bool)
      modifies this`sendTimes
      ensures Value() == Admitted(old(Value()), now)
      ensures ok == MaySend(Recent(old(sendTimes), now), now)
    {
      sendTimes := Retained(sendTimes, now);
      if |sendTimes| > 0 && now - sendTimes[|sendTimes| - 1] < SEND_COOLDOWN { return false; }
      if |sendTimes| >= SEND_MAX_PER_WIN { return false; }
      sendTimes := sendTimes + [now];
      ok := true;
    }

    method NewChallenge(kind: OtpKind, id: string, codeHash: string, now: real) returns (ok: bool)
      modifies this
      ensures Value() == Challenged(old(Value()), kind, id, codeHash, now)
      ensures ok == MaySend(Recent(old(sendTimes), now), now)
    {
      ok := CheckSendThrottle(now);
      if !ok { return; }
      challenges := map k | k in challenges && challenges[k].expires > now :: challenges[k];
      challenges := challenges[id := Challenge(codeHash, kind, now + Ttl(kind), 0)];
    }

    method VerifyChallenge(id: string, digest: string, now: real) returns (r: Result<OtpKind, Refusal>)
      modifies this
      ensures Value() == Checked(old(Value()), id, digest, now)
      ensures r == CheckReply(old(Value()), id, digest, now)
    {
      if id !in challenges { return Err(UnknownCode); }
      var ch := challenges[id];
      if ch.expires <= now {
        challenges := challenges - {id};
        return Err(UnknownCode);
      }
      ch := ch.(tries := ch.tries + 1);
      if ch.tries > OTP_MAX_TRIES {
        challenges := challenges - {id};
        return Err(TooManyTries);
      }
      if ch.codeHash == digest {
        challenges := challenges - {id};
        r := Ok(ch.kind);
      } else {
        challenges := challenges[id := ch];
        r := Err(WrongCode);
      }
    }
  }

  // ---------------------------------------------------------------- commands

  /** The part of the settings the gate looks at; an empty hash means no password is set. */
  datatype Settings = Settings(passwordHash: string, twofa: bool, telegram: bool)

  /**
    Password verification and code digests, neither of which the gate looks into. The digest
    ignores blanks around a code; drawn codes have none.
   */
  datatype Crypto = Crypto(verify: (string, string) -> bool, digest: string -> string)

  datatype Reply = Unlocked | CodeSent(challenge: string) | Done | Refused(why: Refusal)

  /**
    One command. A new password arrives already hashed, or as `None` when it is too weak; ids and
    codes are the ones drawn if the command gets as far as drawing them.
   */
  datatype Op =
    | Login(password: string, id: string, code: string)
    | VerifyOtp(challenge: string, code: string)
    | Resume(known: bool)
    | Lock
    | RequestRecovery(id: string, code: string)
    | RecoveryReset(challenge: string, code: string, newHash: Option<string>)
    | SetPassword(current: string, newHash: Option<string>)
    | Configure(settings: Settings)

  datatype Next = Next(settings: Settings, gate: Gate, reply: Reply)

  function Opened(g: Gate): Gate { g.(unlocked := true) }

  /** The gate once a correct password has been given. */
  function SecondFactor(c: Crypto, s: Settings, g: Gate, id: string, code: string, now: real): Next {
    if !s.twofa then Next(s, Opened(g), Unlocked)
    else
      Next(s, Challenged(g, TwoFactor, id, c.digest(code), now),
           if MaySend(Recent(g.sends, now), now) then CodeSent(id) else Refused(Throttled))
  }

  function DoLogin(c: Crypto, s: Settings, g: Gate, password: string, id: string, code: string, now: real): Next {
    if Locked(g, now) then Next(s, g, Refused(LockedOut(g.lockedUntil.value - now)))
    else if s.passwordHash == "" then Next(s, g, Refused(NoPassword))
    else if !c.verify(password, s.passwordHash) then
      var after := Failed(g, now);
      Next(s, after, Refused(if after.fails >= LOCKOUT_AFTER then LockedFor(Lockout(after.fails)) else WrongPassword))
    else SecondFactor(c, s, Cleared(g), id, code, now)
  }

  function DoVerify(c: Crypto, s: Settings, g: Gate, id: string, code: string, now: real): Next {
    var r := CheckReply(g, id, c.digest(code), now);
    var after := Checked(g, id, c.digest(code), now);
    if r == Ok(TwoFactor) then Next(s, Opened(after), Unlocked)
    else Next(s, after, Refused(if r.Err? then r.error else WrongKind))
  }

  function DoRequest(c: Crypto, s: Settings, g: Gate, id: string, code: string, now: real): Next {
    if s.passwordHash == "" then Next(s, g, Refused(NoPassword))
    else if !s.telegram then Next(s, g, Refused(NoTelegram))
    else
      Next(s, Challenged(g, Recovery, id, c.digest(code), now),
           if MaySend(Recent(g.sends, now), now) then CodeSent(id) else Refused(Throttled))
  }

  function DoReset(c: Crypto, s: Settings, g: Gate, id: string, code: string,
                   newHash: Option<string>, now: real): Next
  {
    var r := CheckReply(g, id, c.digest(code), now);
    var after := Checked(g, id, c.digest(code), now);
    if r == Ok(Recovery) then
      if newHash.Some? then Next(s.(passwordHash := newHash.value), Cleared(Opened(after)), Unlocked)
      else Next(s, after, Refused(Unusable))
    else Next(s, after, Refused(if r.Err? then r.error else WrongKind))
  }

  function DoSetPassword(c: Crypto, s: Settings, g: Gate, current: string, newHash: Option<string>): Next {
    if !s.telegram then Next(s, g, Refused(NoTelegram))
    else if s.passwordHash != "" && !c.verify(current, s.passwordHash) then Next(s, g, Refused(WrongPassword))
    else if newHash.None? then Next(s, g, Refused(Unusable))
    else Next(s.(passwordHash := newHash.value), Cleared(Opened(g)), Done)
  }

  function Do(c: Crypto, s: Settings, g: Gate, op: Op, now: real): Next {
    match op
    case Login(password, id, code) => DoLogin(c, s, g, password, id, code, now)
    case VerifyOtp(challenge, code) => DoVerify(c, s, g, challenge, code, now)
    case Resume(known) => Next(s, if known then Opened(g) else g, if known then Unlocked else Refused(Unusable))
    case Lock => Next(s, g.(unlocked := false), Done)
    case RequestRecovery(id, code) => DoRequest(c, s, g, id, code, now)
    case RecoveryReset(challenge, code, newHash) => DoReset(c, s, g, challenge, code, newHash, now)
    case SetPassword(current, newHash) => DoSetPassword(c, s, g, current, newHash)
    case Configure(settings) => Next(settings, g, Done)
  }

  method RunLogin(auth: AuthState, c: Crypto, s: Settings, password: string, id: string, code: string, now: real)
    returns (reply: Reply)
    modifies auth
    ensures Next(s, auth.Value(), reply) == DoLogin(c, s, old(auth.Value()), password, id, code, now)
  {
    var left := auth.LockoutRemaining(now);
    if left.Some? { return Refused(LockedOut(left.value)); }
    if s.passwordHash == "" { return Refused(NoPassword); }
    if !c.verify(password, s.passwordHash) {
      var span := auth.RecordFail(now);
      if span.Some? { return Refused(LockedFor(span.value)); }
      return Refused(WrongPassword);
    }
    auth.ResetFails();
    if s.twofa {
      var ok := auth.NewChallenge(TwoFactor, id, c.digest(code), now);
      if !ok { return Refused(Throttled); }
      return CodeSent(id);
    }
    auth.unlocked := true;
    reply := Unlocked;
  }

  method RunVerify(auth: AuthState, c: Crypto, s: Settings, id: string, code: string, now: real) returns (reply: Reply)
    modifies auth
    ensures Next(s, auth.Value(), reply) == DoVerify(c, s, old(auth.Value()), id, code, now)
  {
    var r := auth.VerifyChallenge(id, c.digest(code), now);
    if r.Err? { return Refused(r.error); }
    if r.value.Recovery? { return Refused(WrongKind); }
    auth.unlocked := true;
    reply := Unlocked;
  }

  method RunRequest(auth: AuthState, c: Crypto, s: Settings, id: string, code: string, now: real) returns (reply: Reply)
    modifies auth
    ensures Next(s, auth.Value(), reply) == DoRequest(c, s, old(auth.Value()), id, code, now)
  {
    if s.passwordHash == "" { return Refused(NoPassword); }
    if !s.telegram { return Refused(NoTelegram); }
    var ok := auth.NewChallenge(Recovery, id, c.digest(code), now);
    reply := if ok then CodeSent(id) else Refused(Throttled);
  }

  method RunReset(auth: AuthState, c: Crypto, s: Settings, id: string, code: string, newHash: Option<string>, now: real)
    returns (settings: Settings, reply: Reply)
    modifies auth
    ensures Next(settings, auth.Value(), reply) == DoReset(c, s, old(auth.Value()), id, code, newHash, now)
  {
    settings := s;
    var r := auth.VerifyChallenge(id, c.digest(code), now);
    if r.Err? { return s, Refused(r.error); }
    if r.value.TwoFactor? { return s, Refused(WrongKind); }
    if newHash.None? { return s, Refused(Unusable); }
    settings := s.(passwordHash := newHash.value);
    auth.unlocked := true;
    auth.ResetFails();
    reply := Unlocked;
  }

  method RunSetPassword(auth: AuthState, c: Crypto, s: Settings, current: string, newHash: Option<string>)
    returns (settings: Settings, reply: Reply)
    modifies auth
    ensures Next(settings, auth.Value(), reply) == DoSetPassword(c, s, old(auth.Value()), current, newHash)
  {
    settings := s;
    if !s.telegram { return s, Refused(NoTelegram); }
    if s.passwordHash != "" && !c.verify(current, s.passwordHash) { return s, Refused(WrongPassword); }
    if newHash.None? { return s, Refused(Unusable); }
    settings := s.(passwordHash := newHash.value);
    auth.unlocked := true;
    auth.ResetFails();
    reply := Done;
  }

  method RunOp(auth: AuthState, c: Crypto, s: Settings, op: Op, now: real) returns (settings: Settings, reply: Reply)
    modifies auth
    ensures Next(settings, auth.Value(), reply) == Do(c, s, old(auth.Value()), op, now)
  {
    hide DoLogin, DoVerify, DoRequest, DoReset, DoSetPassword;
    settings := s;
    match op
    case Login(password, id, code) => reply := RunLogin(auth, c, s, password, id, code, now);
    case VerifyOtp(challenge, code) => reply := RunVerify(auth, c, s, challenge, code, now);
    case Resume(known) =>
      if known { auth.unlocked := true; }
      reply := if known then Unlocked else Refused(Unusable);
    case Lock =>
      auth.unlocked := false;
      reply := Done;
    case RequestRecovery(id, code) => reply := RunRequest(auth, c, s, id, code, now);
    case RecoveryReset(challenge, code, newHash) =>
      settings, reply := RunReset(auth, c, s, challenge, code, newHash, now);
    case SetPassword(current, newHash) => settings, reply := RunSetPassword(auth, c, s, current, newHash);
    case Configure(wanted) =>
      settings := wanted;
      reply := Done;
  }

  // ---------------------------------------------------------------- runs

  datatype Step = Step(op: Op, now: real)

  /** Settings and gate after a whole run from a closed gate. */
  function After(c: Crypto, s: Settings, steps: seq<Step>): Next {
    if steps == [] then Next(s, CLOSED, Done)
    else
      var w := After(c, s, steps[..|steps| - 1]);
      Do(c, w.settings, w.gate, steps[|steps| - 1].op, steps[|steps| - 1].now)
  }

  /** The state in which step `k` starts. */
  function Before(c: Crypto, s: Settings, steps: seq<Step>, k: nat): Next
    requires k <= |steps|
  {
    After(c, s, steps[..k])
  }

  /** A whole run on the mutable gate gives the replies and the state of the specification. */
  method Replay(c: Crypto, s: Settings, steps: seq<Step>)
    returns (auth: AuthState, settings: Settings, replies: seq<Reply>)
    ensures fresh(auth) && auth.Value() == After(c, s, steps).gate && settings == After(c, s, steps).settings
    ensures |replies| == |steps| && forall k: nat | k < |steps| :: replies[k] == Before(c, s, steps, k + 1).reply
  {
    auth := new AuthState();
    settings, replies := s, [];
    assert steps[..0] == [];
    hide Do;
    for n := 0 to |steps|
      invariant fresh(auth) && auth.Value() == After(c, s, steps[..n]).gate
        && settings == After(c, s, steps[..n]).settings
      invariant |replies| == n && forall k: nat | k < n :: replies[k] == Before(c, s, steps, k + 1).reply
    {
      TakeNext(steps, n);
      var reply;
      settings, reply := RunOp(auth, c, settings, steps[n].op, steps[n].now);
      replies := replies + [reply];
    }
    TakeAll(steps);
  }
}
