/**
  What the depth worker sends out, told from the log of its steps: what arrived, which inference
  started on which frame, and which one finished last with an image.
 */
module DepthEmissions {
  import opened Options
  import opened Seqs
  import opened DepthWorker

  type Depth = Raw -> Option<Image>

  // ---------------------------------------------------------------- the log

  /** Raw frames sent before the reader went away. */
  function Arrived(steps: seq<Step>): seq<Raw> {
    if steps == [] then []
    else
      var before := steps[..|steps| - 1];
      match steps[|steps| - 1]
      case Arrive(raw) => if Close in before then Arrived(before) else Arrived(before) + [raw]
      case _ => Arrived(before)
  }

  /** Step `k` starts an inference. */
  predicate StartsAt(depth: Depth, steps: seq<Step>, k: nat)
    requires k < |steps|
  {
    steps[k].Take? && After(depth, steps[..k]).at == Taking && Arrived(steps[..k]) != []
  }

  /** What becomes of the inference started last: it runs, it has put down its result, or it has ended. */
  datatype Phase = Idle | Running | Finished

  function PhaseOf(depth: Depth, steps: seq<Step>): Phase {
    if steps == [] then Idle
    else
      var n := |steps| - 1;
      var before := PhaseOf(depth, steps[..n]);
      match steps[n]
      case Take => if StartsAt(depth, steps, n) then Running else before
      case Store(j) => if before == Running && j == 0 then Finished else before
      case Release(j) => if before == Finished && j == 0 then Idle else before
      case Panic(j) => if j == 0 then Idle else before
      case _ => before
  }

  /** The frame that the inference started last is on: the newest there was at its start. */
  function Latest(depth: Depth, steps: seq<Step>): nat {
    if steps == [] then 0
    else
      var n := |steps| - 1;
      if StartsAt(depth, steps, n) then |Arrived(steps[..n])| - 1 else Latest(depth, steps[..n])
  }

  /** The depth frame that step `k` puts down, if it ends an inference that succeeded. */
  function Made(depth: Depth, steps: seq<Step>, k: nat): Option<Frame>
    requires k < |steps|
  {
    var raws, origin := Arrived(steps[..k]), Latest(depth, steps[..k]);
    if
      && steps[k] == Store(0)
      && PhaseOf(depth, steps[..k]) == Running
      && origin < |raws|
      && depth(raws[origin]).Some?
    then
      Some(Frame(origin, depth(raws[origin]).value))
    else None
  }

  function LastMade(depth: Depth, steps: seq<Step>): Option<Frame> {
    if steps == [] then None
    else
      var n := |steps| - 1;
      if Made(depth, steps, n).Some? then Made(depth, steps, n) else LastMade(depth, steps[..n])
  }

  /** Step `k` is an emission that is due. */
  predicate EmitsAt(depth: Depth, steps: seq<Step>, k: nat)
    requires k < |steps|
  {
    steps[k].Emit? && After(depth, steps[..k]).at == Emitting
  }

  /** Every due emission sends the last frame made before it, if there is one. */
  function Sent(depth: Depth, steps: seq<Step>): seq<Frame> {
    if steps == [] then []
    else
      var n := |steps| - 1;
      var made := LastMade(depth, steps[..n]);
      Sent(depth, steps[..n]) + if EmitsAt(depth, steps, n) && made.Some? then [made.value] else []
  }

  /** Ticks of the interval that found the loop waiting. */
  function Ticks(depth: Depth, steps: seq<Step>): nat {
    if steps == [] then 0
    else
      var n := |steps| - 1;
      Ticks(depth, steps[..n]) + if steps[n].Tick? && After(depth, steps[..n]).at == Waiting then 1 else 0
  }

  /** The last frame sent at a fifth tick. */
  function Shown(depth: Depth, steps: seq<Step>): Option<Frame> {
    if steps == [] then None
    else
      var n := |steps| - 1;
      if EmitsAt(depth, steps, n) && LastMade(depth, steps[..n]).Some? && Ticks(depth, steps[..n]) % 5 == 0
      then LastMade(depth, steps[..n])
      else Shown(depth, steps[..n])
  }

  // ---------------------------------------------------------------- the worker keeps to the log

  ghost predicate JobsAre(w: Worker, phase: Phase, latest: nat) {
    w.jobs == match phase
              case Idle => []
              case Running => [Job(latest, false)]
              case Finished => [Job(latest, true)]
  }

  ghost predicate ArrivalsLogged(steps: seq<Step>, w: Worker) {
    w.received == Arrived(steps) && (w.closed <==> Close in steps)
  }

  ghost predicate SendingLogged(depth: Depth, steps: seq<Step>, w: Worker) {
    w.emitted == Sent(depth, steps) && w.ticks == Ticks(depth, steps) && w.snapshot == Shown(depth, steps)
  }

  ghost predicate Logged(depth: Depth, steps: seq<Step>, w: Worker) {
    && ArrivalsLogged(steps, w) && JobsAre(w, PhaseOf(depth, steps), Latest(depth, steps))
    && w.slot == LastMade(depth, steps) && SendingLogged(depth, steps, w)
  }

  lemma ArrivalStep(depth: Depth, steps: seq<Step>, w: Worker)
    requires steps != [] && ArrivalsLogged(steps[..|steps| - 1], w)
    ensures ArrivalsLogged(steps, Do(depth, w, steps[|steps| - 1]))
  {
    InitLast(steps);
    hide Emitted, Inferred;
  }

  lemma WithoutOnly(job: Job)
    ensures Without([job], 0) == []
  {
  }

  lemma JobStep(depth: Depth, steps: seq<Step>, w: Worker)
    requires steps != [] && w == After(depth, steps[..|steps| - 1]) && (w.at == Taking ==> w.jobs == [])
    requires ArrivalsLogged(steps[..|steps| - 1], w)
    requires var before := steps[..|steps| - 1]; JobsAre(w, PhaseOf(depth, before), Latest(depth, before))
    ensures JobsAre(Do(depth, w, steps[|steps| - 1]), PhaseOf(depth, steps), Latest(depth, steps))
  {
    hide After, Arrived, Without;
    if w.jobs != [] { WithoutOnly(w.jobs[0]); }
    if w.at == Taking && w.received != [] { Units([Job(|w.received| - 1, false)]); }
  }

  lemma StoreMakes(depth: Depth, w: Worker, latest: nat)
    requires JobsAre(w, Running, latest)
    ensures Do(depth, w, Store(0)).slot
            == if latest < |w.received| && depth(w.received[latest]).Some?
               then Some(Frame(latest, depth(w.received[latest]).value)) else w.slot
  {
  }

  lemma OthersMakeNothing(depth: Depth, w: Worker, phase: Phase, latest: nat, s: Step)
    requires JobsAre(w, phase, latest) && (phase != Running || s != Store(0))
    ensures Do(depth, w, s).slot == w.slot
  {
    hide Inferred;
  }

  lemma FrameStep(depth: Depth, steps: seq<Step>, w: Worker)
    requires steps != [] && ArrivalsLogged(steps[..|steps| - 1], w) && w.slot == LastMade(depth, steps[..|steps| - 1])
    requires var before := steps[..|steps| - 1]; JobsAre(w, PhaseOf(depth, before), Latest(depth, before))
    ensures Do(depth, w, steps[|steps| - 1]).slot == LastMade(depth, steps)
  {
    hide After, Arrived, Do, PhaseOf, Latest, JobsAre;
    var before, s := steps[..|steps| - 1], steps[|steps| - 1];
    if PhaseOf(depth, before) == Running && s == Store(0) {
      StoreMakes(depth, w, Latest(depth, before));
    } else {
      OthersMakeNothing(depth, w, PhaseOf(depth, before), Latest(depth, before), s);
    }
  }

  lemma SendingStep(depth: Depth, steps: seq<Step>, w: Worker)
    requires steps != [] && w == After(depth, steps[..|steps| - 1]) && w.slot == LastMade(depth, steps[..|steps| - 1])
    requires SendingLogged(depth, steps[..|steps| - 1], w)
    ensures SendingLogged(depth, steps, Do(depth, w, steps[|steps| - 1]))
  {
    hide After, LastMade, Emitted, Without;
    var before, s := steps[..|steps| - 1], steps[|steps| - 1];
    Units(Sent(depth, before));
    if s.Emit? && w.at == Emitting { EmittedIs(w); } else { OthersSendNothing(depth, w, s); }
  }

  lemma EmittedIs(w: Worker)
    ensures var out := Emitted(w);
            && out.emitted == w.emitted + (if w.slot.Some? then [w.slot.value] else [])
            && out.snapshot == (if w.slot.Some? && w.ticks % 5 == 0 then w.slot else w.snapshot) && out.ticks == w.ticks
  {
  }

  lemma OthersSendNothing(depth: Depth, w: Worker, s: Step)
    requires !(s.Emit? && w.at == Emitting)
    ensures var out := Do(depth, w, s);
            && out.emitted == w.emitted && out.snapshot == w.snapshot
            && out.ticks == w.ticks + if s.Tick? && w.at == Waiting then 1 else 0
  {
    hide Emitted;
  }

  /** What the worker holds and has sent is what the log says, after any run. */
  lemma {:induction false} LogIsKept(depth: Depth, steps: seq<Step>)
    ensures Logged(depth, steps, After(depth, steps))
  {
    if steps != [] {
      var n := |steps| - 1;
      LogIsKept(depth, steps[..n]);
      BusyIsHeldOnce(depth, steps[..n]);
      hide Do, PhaseOf, Latest, LastMade, JobsAre, ArrivalsLogged, SendingLogged, Deaths;
      var w := After(depth, steps[..n]);
      AfterLast(depth, steps);
      IdleAtTaking(w, Deaths(depth, steps[..n]));
      ArrivalStep(depth, steps, w);
      JobStep(depth, steps, w);
      FrameStep(depth, steps, w);
      SendingStep(depth, steps, w);
    } else {
      NothingLogged(depth);
    }
  }

  lemma IdleAtTaking(w: Worker, deaths: nat)
    requires OneHolder(w, deaths)
    ensures w.at == Taking ==> w.jobs == []
  {
  }

  lemma NothingLogged(depth: Depth)
    ensures Logged(depth, [], START) && After(depth, []) == START
  {
  }

  // ---------------------------------------------------------------- what is sent

  /** Step `k` made the frame `f`, and no step since has made another. */
  ghost predicate MadeLast(depth: Depth, steps: seq<Step>, k: nat, f: Frame) {
    && k < |steps| && Made(depth, steps, k) == Some(f)
    && forall m: nat :: k < m < |steps| ==> Made(depth, steps, m).None?
  }

  lemma MadeBefore(depth: Depth, steps: seq<Step>, n: nat, k: nat)
    requires k < n <= |steps|
    ensures Made(depth, steps[..n], k) == Made(depth, steps, k)
  {
    TakeTake(steps, n, k);
  }

  ghost predicate IsLast(depth: Depth, steps: seq<Step>, made: Option<Frame>) {
    if made.Some? then exists k: nat :: MadeLast(depth, steps, k, made.value)
    else forall k: nat :: k < |steps| ==> Made(depth, steps, k).None?
  }

  lemma {:induction false} LastMadeIsLast(depth: Depth, steps: seq<Step>)
    ensures IsLast(depth, steps, LastMade(depth, steps))
  {
    if steps != [] {
      LastMadeIsLast(depth, steps[..|steps| - 1]);
      IsLastMore(depth, steps, LastMade(depth, steps[..|steps| - 1]));
      hide Made, IsLast;
    }
  }

  lemma IsLastMore(depth: Depth, steps: seq<Step>, before: Option<Frame>)
    requires steps != [] && IsLast(depth, steps[..|steps| - 1], before)
    ensures var made := Made(depth, steps, |steps| - 1); IsLast(depth, steps, if made.Some? then made else before)
  {
    hide Made;
    var n := |steps| - 1;
    var rest, made := steps[..n], Made(depth, steps, n);
    forall k: nat | k < n ensures Made(depth, rest, k) == Made(depth, steps, k) { MadeBefore(depth, steps, n, k); }
    if made.Some? {
      assert MadeLast(depth, steps, n, made.value);
    } else if before.Some? {
      var k: nat :| MadeLast(depth, rest, k, before.value);
      forall m: nat | k < m < |steps| ensures Made(depth, steps, m).None? {
        if m < n { assert Made(depth, rest, m).None?; }
      }
      assert MadeLast(depth, steps, k, before.value);
    } else {
      forall k: nat | k < |steps| ensures Made(depth, steps, k).None? {
        if k < n { assert Made(depth, rest, k).None?; }
      }
    }
  }

  lemma SentMore(depth: Depth, steps: seq<Step>, s: Step)
    ensures var made := LastMade(depth, steps);
            Sent(depth, steps + [s])
            == Sent(depth, steps)
               + if s.Emit? && After(depth, steps).at == Emitting && made.Some? then [made.value] else []
  {
    AppendTake(steps, s);
    hide After, LastMade;
  }

  /** What step `s` would send after the run. */
  function SentBy(depth: Depth, steps: seq<Step>, s: Step): seq<Frame>
    requires After(depth, steps).emitted <= After(depth, steps + [s]).emitted
  {
    After(depth, steps + [s]).emitted[|After(depth, steps).emitted|..]
  }

  lemma SentByIs(depth: Depth, steps: seq<Step>, s: Step)
    ensures After(depth, steps).emitted <= After(depth, steps + [s]).emitted
    ensures var made := LastMade(depth, steps);
            SentBy(depth, steps, s)
            == if s.Emit? && After(depth, steps).at == Emitting && made.Some? then [made.value] else []
  {
    LogIsKept(depth, steps);
    LogIsKept(depth, steps + [s]);
    hide After, LastMade, Sent, JobsAre, ArrivalsLogged, Ticks, Shown;
    SentMore(depth, steps, s);
  }

  lemma OnlyMadeLast(depth: Depth, steps: seq<Step>, j: nat, f: Frame, k: nat, g: Frame)
    requires MadeLast(depth, steps, j, f) && MadeLast(depth, steps, k, g)
    ensures j == k && f == g
  {
    hide Made;
  }

  /**
    A step sends something only if it is a due emission. That sends the depth image of the frame whose
    inference was the latest to succeed, and nothing if and only if none has.
   */
  lemma EmissionExactly(depth: Depth, steps: seq<Step>, s: Step)
    ensures After(depth, steps).emitted <= After(depth, steps + [s]).emitted
    ensures !(s.Emit? && After(depth, steps).at == Emitting) ==> SentBy(depth, steps, s) == []
    ensures s.Emit? && After(depth, steps).at == Emitting ==>
              && (forall k: nat, f | MadeLast(depth, steps, k, f) :: SentBy(depth, steps, s) == [f])
              && (SentBy(depth, steps, s) == [] <==> forall k: nat :: k < |steps| ==> Made(depth, steps, k).None?)
  {
    SentByIs(depth, steps, s);
    LastMadeIsLast(depth, steps);
    hide After, Made, LastMade, SentBy;
    forall k: nat, f | MadeLast(depth, steps, k, f) ensures LastMade(depth, steps) == Some(f) {
      if LastMade(depth, steps).Some? {
        var j: nat :| MadeLast(depth, steps, j, LastMade(depth, steps).value);
        OnlyMadeLast(depth, steps, j, LastMade(depth, steps).value, k, f);
      }
    }
  }

  // ---------------------------------------------------------------- a frame gets out

  /**
    While the loop waits, the reader is there and no inference holds the flag, a frame that arrived since
    the last start is sent in the next round, if the model makes an image of it.
   */
  lemma NewFrameGetsOut(depth: Depth, steps: seq<Step>)
    requires var w := After(depth, steps);
             && w.at == Waiting && !w.closed && !w.busy && w.seen < |w.received|
             && depth(w.received[|w.received| - 1]).Some?
    ensures var w, all := After(depth, steps), steps + [Tick] + [Look] + [Claim] + [Take] + [Store(0)] + [Emit];
            After(depth, all).emitted
            == w.emitted + [Frame(|w.received| - 1, depth(w.received[|w.received| - 1]).value)]
  {
    BusyIsHeldOnce(depth, steps);
    var w, s1 := After(depth, steps), steps + [Tick];
    hide After, Deaths;
    OneMore(depth, steps, Tick);
    OneMore(depth, s1, Look);
    var s2 := s1 + [Look];
    assert After(depth, s2) == w.(ticks := w.ticks + 1, at := Claiming);
    OneMore(depth, s2, Claim);
    OneMore(depth, s2 + [Claim], Take);
    var s4 := s2 + [Claim] + [Take];
    var origin := |w.received| - 1;
    assert After(depth, s4) == w.(ticks := w.ticks + 1, at := Emitting, busy := true, seen := |w.received|,
                                  jobs := [Job(origin, false)]);
    OneMore(depth, s4, Store(0));
    OneMore(depth, s4 + [Store(0)], Emit);
  }

  /** Whatever the loop is at, the actions of one round bring it back to waiting, with a frame to send or without. */
  lemma RoundEnds(depth: Depth, steps: seq<Step>)
    requires After(depth, steps).at != Retired
    ensures After(depth, steps + [Look] + [Claim] + [Take] + [Emit]).at == Waiting
  {
    OneMore(depth, steps, Look);
    OneMore(depth, steps + [Look], Claim);
    OneMore(depth, steps + [Look] + [Claim], Take);
    OneMore(depth, steps + [Look] + [Claim] + [Take], Emit);
    hide After, Do;
    var look := Do(depth, After(depth, steps), Look);
    LoopMoves(depth, After(depth, steps), Look);
    LoopMoves(depth, look, Claim);
    LoopMoves(depth, Do(depth, look, Claim), Take);
    LoopMoves(depth, Do(depth, Do(depth, look, Claim), Take), Emit);
  }

  /** No action of the loop but a tick makes it wait any longer, and it is past each stage after its action. */
  lemma LoopMoves(depth: Depth, w: Worker, s: Step)
    requires w.at != Retired
    ensures var at := Do(depth, w, s).at;
            && (s.Look? ==> at in if w.at == Ticked then {Claiming, Emitting} else {w.at})
            && (s.Claim? ==> at in if w.at == Claiming then {Taking, Emitting} else {w.at})
            && (s.Take? ==> at == if w.at == Taking then Emitting else w.at)
            && (s.Emit? ==> at == if w.at == Emitting then Waiting else w.at)
  {
  }

  // ---------------------------------------------------------------- the reader goes away

  /** Once the loop has found the reader gone, it starts nothing and sends nothing any more. */
  lemma {:induction false} NothingAfterRetiring(depth: Depth, steps: seq<Step>, more: seq<Step>)
    requires After(depth, steps).at == Retired
    ensures var w := After(depth, steps + more);
            && w.at == Retired && w.emitted == After(depth, steps).emitted && |w.jobs| <= |After(depth, steps).jobs|
    decreases |more|
  {
    if more == [] {
      Units(steps);
    } else {
      var init, last := more[..|more| - 1], more[|more| - 1];
      NothingAfterRetiring(depth, steps, init);
      InitLast(more);
      Assoc(steps, init, [last]);
      OneMore(depth, steps + init, last);
      hide After, Do;
      RetiredStays(depth, After(depth, steps + init), last);
    }
  }

  lemma RetiredStays(depth: Depth, w: Worker, s: Step)
    requires w.at == Retired
    ensures var out := Do(depth, w, s); out.at == Retired && out.emitted == w.emitted && |out.jobs| <= |w.jobs|
  {
    hide Emitted, Started;
  }

  /** It finds that at the next tick: after the reader has gone, a waiting loop retires. */
  lemma RetiresAtTick(depth: Depth, steps: seq<Step>)
    requires After(depth, steps).at == Waiting
    ensures After(depth, steps + [Tick]).at == Retired <==> Close in steps
  {
    OneMore(depth, steps, Tick);
    LogIsKept(depth, steps);
    hide After;
  }
}
