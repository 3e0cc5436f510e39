/**
  The sustained audio-event lifecycle of `audio_cmds.rs`. A hit opens an event or extends the open
  one; an event closes after 30 s of silence, or when its capture stops. Rows are rewritten only
  when something the card shows has changed, and each event notifies at most once.

  Times are milliseconds of one clock, read once per step. Event ids are the row's position in
  the camera's part of the table.
 */
module AudioEvents {
  import opened Options
  import opened Seqs

  type Time = int

  const MAX_NOT_HEARD := 30000
  const MIN_DURATION := 1000
  const CONFIRM_WINDOWS := 2
  const CHIPS := 3

  datatype Class = Class(name: string, score: real)

  /** One confident window: what fired, and what the model heard. */
  datatype Hit = Hit(sound: string, score: real, top: seq<Class>, loud: real)

  /** The class lists and the threshold in force. */
  datatype Ears = Ears(impulse: string -> bool, highPitch: string -> bool, threshold: real)
  {
    predicate HighPitch(h: Hit) {
      exists i :: 0 <= i < |h.top| && h.top[i].score >= threshold && highPitch(h.top[i].name)
    }

    predicate Critical(h: Hit) { HighPitch(h) || impulse(h.sound) }
  }

  /** The class chips and the high-pitch flag, stored as one blob. */
  datatype Meta = Meta(classes: seq<Class>, highPitch: bool)

  datatype OpenAudio = OpenAudio(id: nat, started: Time, lastHeard: Time, peak: real, sound: string, highPitch: bool,
                                 loud: real, top: seq<Class>, hits: nat, alerted: bool)

  datatype Row = Row(started: Time, ended: Option<Time>, duration: Option<Time>, peak: real, sound: string,
                     meta: Meta, loud: real)

  datatype Category = Alarm | Plain

  datatype Notice = Notice(category: Category, sound: string, score: real)

  /** One camera: its open event, its rows, and the notifications sent for it. */
  datatype CamLog = CamLog(open: Option<OpenAudio>, rows: seq<Row>, alerts: seq<Notice>)

  const EMPTY_LOG := CamLog(None, [], [])

  /** The chips are the model's first three classes, or all if it gave fewer. */
  function Take3(top: seq<Class>): (chips: seq<Class>)
    ensures chips <= top && |chips| == if |top| < 3 then |top| else 3
  {
    if |top| <= CHIPS then top else top[..CHIPS]
  }

  function Louder(a: real, b: real): (r: real)
    ensures r >= a && r >= b && (r == a || r == b)
  {
    if a >= b then a else b
  }

  function Since(now: Time, then_: Time): Time { if now >= then_ then now - then_ else 0 }

  function Later(a: Time, b: Time): (r: Time)
    ensures r >= a && r >= b && (r == a || r == b)
  {
    if a >= b then a else b
  }

  predicate Silent(o: OpenAudio, now: Time) { Since(now, o.lastHeard) / 1000 >= MAX_NOT_HEARD / 1000 }

  // ---------------------------------------------------------------- one camera, one step

  function Opened(ears: Ears, id: nat, h: Hit, now: Time): OpenAudio {
    OpenAudio(id, now, now, h.score, h.sound, ears.HighPitch(h), h.loud, Take3(h.top), 1, ears.Critical(h))
  }

  function Extended(ears: Ears, o: OpenAudio, h: Hit, now: Time): OpenAudio {
    var newPeak := h.score > o.peak;
    OpenAudio(o.id, o.started, now,
              if newPeak then h.score else o.peak,
              if newPeak then h.sound else o.sound,
              o.highPitch || ears.HighPitch(h),
              Louder(o.loud, h.loud),
              if newPeak then Take3(h.top) else o.top,
              o.hits + 1,
              o.alerted || ears.Critical(h) || o.hits + 1 >= CONFIRM_WINDOWS)
  }

  function Rewritten(ears: Ears, o: OpenAudio, u: OpenAudio, h: Hit, row: Row): Row {
    if h.score > o.peak then row.(peak := h.score, sound := h.sound, meta := Meta(u.top, u.highPitch), loud := u.loud)
    else if ears.HighPitch(h) && !o.highPitch then row.(meta := Meta(u.top, u.highPitch), loud := u.loud)
    else row
  }

  function CategoryOf(ears: Ears, u: OpenAudio): Category {
    if u.highPitch || ears.impulse(u.sound) then Alarm else Plain
  }

  function HitStep(ears: Ears, c: CamLog, h: Hit, now: Time): CamLog {
    match c.open
    case None =>
      CamLog(Some(Opened(ears, |c.rows|, h, now)),
             c.rows + [Row(now, None, None, h.score, h.sound, Meta(Take3(h.top), ears.HighPitch(h)), h.loud)],
             if ears.Critical(h) then c.alerts + [Notice(Alarm, h.sound, h.score)] else c.alerts)
    case Some(o) =>
      var u := Extended(ears, o, h, now);
      CamLog(Some(u),
             if o.id < |c.rows| then c.rows[o.id := Rewritten(ears, o, u, h, c.rows[o.id])] else c.rows,
             if !o.alerted && u.alerted then c.alerts + [Notice(CategoryOf(ears, u), u.sound, u.peak)] else c.alerts)
  }

  function Finalized(o: OpenAudio, row: Row, now: Time): Row {
    var ended := Later(now - Since(now, o.lastHeard), o.started + MIN_DURATION);
    row.(ended := Some(ended), duration := Some(Later(ended - o.started, MIN_DURATION)))
  }

  function CloseStep(c: CamLog, now: Time): CamLog {
    match c.open
    case None => c
    case Some(o) =>
      CamLog(None, if o.id < |c.rows| then c.rows[o.id := Finalized(o, c.rows[o.id], now)] else c.rows, c.alerts)
  }

  function ReapStep(c: CamLog, now: Time): CamLog {
    if c.open.Some? && Silent(c.open.value, now) then CloseStep(c, now) else c
  }

  // ---------------------------------------------------------------- the code

  class AudioLog {
    var open: map<nat, OpenAudio>
    var rows: map<nat, seq<Row>>
    var alerts: map<nat, seq<Notice>>

    constructor ()
      ensures forall cam :: View(cam) == EMPTY_LOG
    {
      open, rows, alerts := map[], map[], map[];
    }

    function RowsOf(cam: nat): seq<Row>
      reads this
    {
      if cam in rows then rows[cam] else []
    }

    function AlertsOf(cam: nat): seq<Notice>
      reads this
    {
      if cam in alerts then alerts[cam] else []
    }

    function View(cam: nat): CamLog
      reads this
    {
      CamLog(if cam in open then Some(open[cam]) else None, RowsOf(cam), AlertsOf(cam))
    }

    method Dispatch(cam: nat, notice: Notice)
      modifies this`alerts
      ensures alerts == old(alerts)[cam := old(AlertsOf(cam)) + [notice]]
    {
      alerts := alerts[cam := AlertsOf(cam) + [notice]];
    }

    /** `UPDATE .. WHERE id = ?` on the camera's rows. */
    method Update(cam: nat, id: nat, row: Row)
      requires id < |RowsOf(cam)|
      modifies this`rows
      ensures rows == old(rows)[cam := old(RowsOf(cam))[id := row]]
    {
      rows := rows[cam := RowsOf(cam)[id := row]];
    }

    /** `note_audio_hit` */
    method NoteHit(ears: Ears, cam: nat, h: Hit, now: Time)
      modifies this
      ensures View(cam) == HitStep(ears, old(View(cam)), h, now)
      ensures forall c :: c != cam ==> View(c) == old(View(c))
    {
      if cam in open {
        ExtendOpen(ears, cam, h, now);
      } else {
        StartEvent(ears, cam, h, now);
      }
    }

    method StartEvent(ears: Ears, cam: nat, h: Hit, now: Time)
      requires cam !in open
      modifies this
      ensures View(cam) == HitStep(ears, old(View(cam)), h, now)
      ensures forall c :: c != cam ==> View(c) == old(View(c))
    {
      var highPitch := ears.HighPitch(h);
      var critical := highPitch || ears.impulse(h.sound);
      var id := |RowsOf(cam)|;
      rows := rows[cam := RowsOf(cam)
                          + [Row(now, None, None, h.score, h.sound, Meta(Take3(h.top), highPitch), h.loud)]];
      open := open[cam := OpenAudio(id, now, now, h.score, h.sound, highPitch, h.loud, Take3(h.top), 1, critical)];
      if critical { Dispatch(cam, Notice(Alarm, h.sound, h.score)); }
    }

    /** The in-memory half of an extension: the event, and the alert this window confirms. */
    static method Absorb(ears: Ears, o: OpenAudio, h: Hit, now: Time) returns (u: OpenAudio, alert: Option<Notice>)
      ensures u == Extended(ears, o, h, now)
      ensures alert == if !o.alerted && u.alerted then Some(Notice(CategoryOf(ears, u), u.sound, u.peak)) else None
    {
      var highPitch := ears.HighPitch(h);
      var critical := highPitch || ears.impulse(h.sound);
      u := o.(lastHeard := now, hits := o.hits + 1, highPitch := o.highPitch || highPitch,
            loud := Louder(o.loud, h.loud));
      if h.score > o.peak { u := u.(peak := h.score, sound := h.sound, top := Take3(h.top)); }
      alert := None;
      if !u.alerted && (critical || u.hits >= CONFIRM_WINDOWS) {
        u := u.(alerted := true);
        alert := Some(Notice(CategoryOf(ears, u), u.sound, u.peak));
      }
    }

    method ExtendOpen(ears: Ears, cam: nat, h: Hit, now: Time)
      requires cam in open
      modifies this
      ensures View(cam) == HitStep(ears, old(View(cam)), h, now)
      ensures forall c :: c != cam ==> View(c) == old(View(c))
    {
      hide Extended, Rewritten, CategoryOf;
      var o := open[cam];
      var u, alert := Absorb(ears, o, h, now);
      open := open[cam := u];
      Rewrite(ears, cam, o, u, h);
      if alert.Some? { Dispatch(cam, alert.value); }
    }

    /** The row is written on a new peak or when the event becomes high-pitched, else left alone. */
    method Rewrite(ears: Ears, cam: nat, o: OpenAudio, u: OpenAudio, h: Hit)
      modifies this`rows
      ensures RowsOf(cam) == if o.id < |old(RowsOf(cam))|
                             then old(RowsOf(cam))[o.id := Rewritten(ears, o, u, h, old(RowsOf(cam))[o.id])]
                             else old(RowsOf(cam))
      ensures rows == old(rows) || rows == old(rows)[cam := RowsOf(cam)]
    {
      if o.id >= |RowsOf(cam)| { return; }
      var row := RowsOf(cam)[o.id];
      UpdateSame(RowsOf(cam), o.id);
      if h.score > o.peak {
        Update(cam, o.id, row.(peak := h.score, sound := h.sound, meta := Meta(u.top, u.highPitch), loud := u.loud));
      } else if ears.HighPitch(h) && !o.highPitch {
        Update(cam, o.id, row.(meta := Meta(u.top, u.highPitch), loud := u.loud));
      }
    }

    /** `finalize_audio_event` after the event was taken out of the map. */
    method Finalize(cam: nat, now: Time)
      requires cam in open
      modifies this
      ensures View(cam) == CloseStep(old(View(cam)), now)
      ensures forall c :: c != cam ==> View(c) == old(View(c))
      ensures open == old(open) - {cam}
    {
      var o := open[cam];
      open := open - {cam};
      if o.id < |RowsOf(cam)| {
        Update(cam, o.id, Finalized(o, RowsOf(cam)[o.id], now));
      }
    }

    /** `reap_audio_events` */
    method Reap(now: Time)
      modifies this
      ensures forall c :: View(c) == ReapStep(old(View(c)), now)
    {
      var stale := set k | k in open && Silent(open[k], now);
      ghost var all := stale;
      while stale != {}
        invariant stale <= all && stale <= open.Keys
        invariant forall c :: c !in all || c in stale ==> View(c) == old(View(c))
        invariant forall c :: c in all && c !in stale ==> View(c) == CloseStep(old(View(c)), now)
        decreases |stale|
      {
        var k :| k in stale;
        stale := stale - {k};
        Finalize(k, now);
      }
    }

    /** `close_audio_for_cam` */
    method CloseForCam(cam: nat, now: Time)
      modifies this
      ensures View(cam) == CloseStep(old(View(cam)), now)
      ensures forall c :: c != cam ==> View(c) == old(View(c))
    {
      if cam in open { Finalize(cam, now); }
    }

    /** One detection window of a camera: reap everywhere, then take the hit, if any. */
    method Window(ears: Ears, cam: nat, now: Time, hit: Option<Hit>)
      modifies this
      ensures forall c :: View(c) ==
                var reaped := ReapStep(old(View(c)), now);
                if c == cam && hit.Some? then HitStep(ears, reaped, hit.value, now) else reaped
    {
      Reap(now);
      if hit.Some? { NoteHit(ears, cam, hit.value, now); }
    }
  }

  // ---------------------------------------------------------------- one camera, whole runs

  /** What reaches one camera: any camera's window reaps it, its own windows may hear something. */
  datatype CamOp = Tick(now: Time) | Hear(h: Hit, now: Time) | Stop(now: Time)

  function OpStep(ears: Ears, c: CamLog, op: CamOp): CamLog {
    match op
    case Tick(now) => ReapStep(c, now)
    case Hear(h, now) => HitStep(ears, ReapStep(c, now), h, now)
    case Stop(now) => CloseStep(c, now)
  }

  function RunCam(ears: Ears, ops: seq<CamOp>): CamLog {
    if ops == [] then EMPTY_LOG else OpStep(ears, RunCam(ears, ops[..|ops| - 1]), ops[|ops| - 1])
  }

  datatype Op = Listen(cam: nat, now: Time, hit: Option<Hit>) | Teardown(cam: nat, now: Time)

  function OpFor(op: Op, cam: nat): seq<CamOp> {
    match op
    case Listen(c, now, hit) => if c == cam && hit.Some? then [Hear(hit.value, now)] else [Tick(now)]
    case Teardown(c, now) => if c == cam then [Stop(now)] else []
  }

  function OpsFor(ops: seq<Op>, cam: nat): seq<CamOp> {
    if ops == [] then [] else OpsFor(ops[..|ops| - 1], cam) + OpFor(ops[|ops| - 1], cam)
  }

  lemma RunOneMore(ears: Ears, ops: seq<CamOp>, op: CamOp)
    ensures RunCam(ears, ops + [op]) == OpStep(ears, RunCam(ears, ops), op)
  {
    hide OpStep;
    AppendTake(ops, op);
  }

  /** The process-wide log over many cameras: each camera's part is a run of its own. */
  method Replay(ears: Ears, ops: seq<Op>) returns (log: AudioLog)
    ensures fresh(log) && forall cam :: log.View(cam) == RunCam(ears, OpsFor(ops, cam))
  {
    log := new AudioLog();
    for k := 0 to |ops|
      invariant fresh(log)
      invariant forall cam :: log.View(cam) == RunCam(ears, OpsFor(ops[..k], cam))
    {
      TakeNext(ops, k);
      forall cam, op ensures RunCam(ears, OpsFor(ops[..k], cam) + [op])
                             == OpStep(ears, RunCam(ears, OpsFor(ops[..k], cam)), op) {
        RunOneMore(ears, OpsFor(ops[..k], cam), op);
      }
      forall cam ensures OpsFor(ops[..k + 1], cam) == OpsFor(ops[..k], cam) + OpFor(ops[k], cam) {}
      hide RunCam, OpsFor, HitStep, CloseStep, ReapStep;
      match ops[k]
      case Listen(cam, now, hit) => log.Window(ears, cam, now, hit);
      case Teardown(cam, now) =>
        log.CloseForCam(cam, now);
        forall c ensures OpsFor(ops[..k], c) + [] == OpsFor(ops[..k], c) { Units(OpsFor(ops[..k], c)); }
    }
    TakeAll(ops);
  }
}
