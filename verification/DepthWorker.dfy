/**
  The depth anonymization worker (`depth.rs`): one loop that starts inferences on the newest raw
  frame and emits the latest depth frame at every tick, an inference thread, and the reader that
  feeds it. Every atomic action of the three is a step, and a run is any interleaving of steps.
 */
module DepthWorker {
  import opened Options
  import opened Seqs

  type Raw = seq<nat>
  type Image = seq<nat>

  /** A depth frame, with the arrival number of the raw frame it was made from. */
  datatype Frame = Frame(origin: nat, image: Image)

  /** Where the loop stands between its atomic actions. */
  datatype At = Waiting | Ticked | Claiming | Taking | Emitting | Retired

  /** An inference: on which raw frame, and whether its result has been stored. */
  datatype Job = Job(origin: nat, stored: bool)

  datatype Worker = Worker(
    received: seq<Raw>,      // every raw frame sent, the last being the one on offer
    seen: nat,               // how many the loop had been offered when it last took one
    closed: bool,
    at: At,
    busy: bool,
    jobs: seq<Job>,          // inferences running now
    slot: Option<Frame>,
    ticks: nat,
    emitted: seq<Frame>,
    snapshot: Option<Frame>
  )

  const START := Worker([], 0, false, Waiting, false, [], None, 0, [], None)

  datatype Step =
    | Arrive(raw: Raw)       // the reader sends a frame
    | Close                  // the reader goes away
    | Tick                   // the interval fires, and the loop looks whether the reader is still there
    | Look                   // it looks for a new frame
    | Claim                  // it tries to take the busy flag
    | Take                   // it takes the newest frame and starts an inference
    | Emit                   // it sends out the latest depth frame, if there is one
    | Store(j: nat)          // inference `j` puts down its result
    | Release(j: nat)        // and gives back the busy flag
    | Panic(j: nat)          // or dies before that

  function Started(w: Worker): Worker {
    if w.received == [] then w.(at := Emitting, busy := false)
    else w.(at := Emitting, seen := |w.received|, jobs := w.jobs + [Job(|w.received| - 1, false)])
  }

  function Emitted(w: Worker): Worker {
    if w.slot.None? then w.(at := Waiting)
    else
      w.(at := Waiting, emitted := w.emitted + [w.slot.value],
         snapshot := if w.ticks % 5 == 0 then w.slot else w.snapshot)
  }

  function Inferred(depth: Raw -> Option<Image>, w: Worker, j: nat): Worker
    requires j < |w.jobs|
  {
    var origin := w.jobs[j].origin;
    var w' := w.(jobs := w.jobs[j := Job(origin, true)]);
    if origin < |w.received| && depth(w.received[origin]).Some? then
      w'.(slot := Some(Frame(origin, depth(w.received[origin]).value)))
    else w'
  }

  function Without(jobs: seq<Job>, j: nat): seq<Job>
    requires j < |jobs|
  {
    jobs[..j] + jobs[j + 1..]
  }

  /** One atomic action; one that is not due does nothing. */
  function Do(depth: Raw -> Option<Image>, w: Worker, s: Step): Worker {
    match s
    case Arrive(raw) => if w.closed then w else w.(received := w.received + [raw])
    case Close => w.(closed := true)
    case Tick => if w.at != Waiting then w else w.(ticks := w.ticks + 1, at := if w.closed then Retired else Ticked)
    case Look =>
      if w.at != Ticked then w else w.(at := if !w.closed && w.seen < |w.received| then Claiming else Emitting)
    case Claim => if w.at != Claiming then w else if w.busy then w.(at := Emitting) else w.(at := Taking, busy := true)
    case Take => if w.at != Taking then w else Started(w)
    case Emit => if w.at != Emitting then w else Emitted(w)
    case Store(j) => if j >= |w.jobs| || w.jobs[j].stored then w else Inferred(depth, w, j)
    case Release(j) => if j >= |w.jobs| || !w.jobs[j].stored then w else w.(jobs := Without(w.jobs, j), busy := false)
    case Panic(j) => if j >= |w.jobs| then w else w.(jobs := Without(w.jobs, j))
  }

  /** The state after a run of steps, from a fresh worker. */
  function After(depth: Raw -> Option<Image>, steps: seq<Step>): Worker {
    if steps == [] then START
    else Do(depth, After(depth, steps[..|steps| - 1]), steps[|steps| - 1])
  }

  /** The shared state of the worker, changed by one atomic action at a time. */
  class Shared {
    var received: seq<Raw>
    var seen: nat
    var closed: bool
    var at: At
    var busy: bool
    var jobs: seq<Job>
    var latestDepth: Option<Frame>
    var ticks: nat
    var emitted: seq<Frame>
    var snapshot: Option<Frame>

    function Value(): Worker
      reads this
    {
      Worker(received, seen, closed, at, busy, jobs, latestDepth, ticks, emitted, snapshot)
    }

    constructor ()
      ensures Value() == START
    {
      received, seen, closed, at, busy, jobs := [], 0, false, Waiting, false, [];
      latestDepth, ticks, emitted, snapshot := None, 0, [], None;
    }

    /** One action of the loop, which is at the point for it. */
    method Loop(depth: Raw -> Option<Image>, s: Step)
      requires s.Tick? || s.Look? || s.Claim? || s.Take? || s.Emit?
      modifies this
      ensures Value() == Do(depth, old(Value()), s)
    {
      match s
      case Tick =>
        if at == Waiting {
          ticks := ticks + 1;
          at := if closed then Retired else Ticked;
        }
      case Look =>
        if at == Ticked { at := if !closed && seen < |received| then Claiming else Emitting; }
      case Claim =>
        if at == Claiming {
          var was := busy;
          busy := true;
          at := if was then Emitting else Taking;
        }
      case Take =>
        if at == Taking {
          at := Emitting;
          if received == [] {
            busy := false;
          } else {
            seen := |received|;
            jobs := jobs + [Job(|received| - 1, false)];
          }
        }
      case Emit =>
        if at == Emitting {
          at := Waiting;
          if latestDepth.Some? {
            emitted := emitted + [latestDepth.value];
            if ticks % 5 == 0 { snapshot := latestDepth; }
          }
        }
    }

    /** One action of an inference thread. */
    method Infer(depth: Raw -> Option<Image>, s: Step)
      requires s.Store? || s.Release? || s.Panic?
      modifies this
      ensures Value() == Do(depth, old(Value()), s)
    {
      if s.j >= |jobs| { return; }
      var job := jobs[s.j];
      match s
      case Store(j) =>
        if !job.stored {
          var made := if job.origin < |received| then depth(received[job.origin]) else None;
          if made.Some? { latestDepth := Some(Frame(job.origin, made.value)); }
          jobs := jobs[j := Job(job.origin, true)];
        }
      case Release(j) =>
        if job.stored {
          jobs := Without(jobs, j);
          busy := false;
        }
      case Panic(j) =>
        jobs := Without(jobs, j);
    }

    method Read(depth: Raw -> Option<Image>, s: Step)
      requires s.Arrive? || s.Close?
      modifies this
      ensures Value() == Do(depth, old(Value()), s)
    {
      match s
      case Arrive(raw) =>
        if !closed { received := received + [raw]; }
      case Close =>
        closed := true;
    }
  }

  /** Any interleaving of the three, on the shared state. */
  method Interleave(depth: Raw -> Option<Image>, steps: seq<Step>) returns (shared: Shared)
    ensures fresh(shared) && shared.Value() == After(depth, steps)
  {
    shared := new Shared();
    hide Do;
    for n := 0 to |steps|
      invariant fresh(shared) && shared.Value() == After(depth, steps[..n])
    {
      TakeNext(steps, n);
      if steps[n].Arrive? || steps[n].Close? {
        shared.Read(depth, steps[n]);
      } else if steps[n].Store? || steps[n].Release? || steps[n].Panic? {
        shared.Infer(depth, steps[n]);
      } else {
        shared.Loop(depth, steps[n]);
      }
    }
    TakeAll(steps);
  }

  // ---------------------------------------------------------------- what every run keeps

  /** Inferences that died so far. */
  function Deaths(depth: Raw -> Option<Image>, steps: seq<Step>): nat {
    if steps == [] then 0
    else
      var w, s := After(depth, steps[..|steps| - 1]), steps[|steps| - 1];
      Deaths(depth, steps[..|steps| - 1]) + if s.Panic? && s.j < |w.jobs| then 1 else 0
  }

  /** The busy flag is held once over: by the loop about to start, by an inference, or by one that died. */
  ghost predicate OneHolder(w: Worker, deaths: nat) {
    (if w.at == Taking then 1 else 0) + |w.jobs| + deaths == if w.busy then 1 else 0
  }

  lemma HolderStep(depth: Raw -> Option<Image>, w: Worker, s: Step, deaths: nat)
    requires OneHolder(w, deaths)
    ensures OneHolder(Do(depth, w, s), deaths + if s.Panic? && s.j < |w.jobs| then 1 else 0)
  {
  }

  lemma {:induction false} BusyIsHeldOnce(depth: Raw -> Option<Image>, steps: seq<Step>)
    ensures OneHolder(After(depth, steps), Deaths(depth, steps))
  {
    if steps != [] {
      BusyIsHeldOnce(depth, steps[..|steps| - 1]);
      hide Emitted, Inferred;
      HolderStep(depth, After(depth, steps[..|steps| - 1]), steps[|steps| - 1], Deaths(depth, steps[..|steps| - 1]));
      hide Do;
    }
  }

  /** Never two inferences at once; busy says that one is due or running if and only if none has died. */
  lemma SingleFlight(depth: Raw -> Option<Image>, steps: seq<Step>)
    ensures |After(depth, steps).jobs| <= 1
    ensures Deaths(depth, steps) == 0
            <==> (After(depth, steps).busy <==> After(depth, steps).at == Taking || |After(depth, steps).jobs| == 1)
  {
    BusyIsHeldOnce(depth, steps);
  }

  /** A frame made by inference from the raw frame that arrived at `f.origin`. */
  ghost predicate MadeFrom(depth: Raw -> Option<Image>, received: seq<Raw>, f: Frame) {
    f.origin < |received| && depth(received[f.origin]) == Some(f.image)
  }

  /** The raw frames behind what was emitted, what waits in the slot and what is being inferred, in arrival order. */
  ghost predicate InOrder(depth: Raw -> Option<Image>, w: Worker) {
    && w.seen <= |w.received|
    && (forall k :: 0 <= k < |w.emitted| ==> MadeFrom(depth, w.received, w.emitted[k]) && w.emitted[k].origin < w.seen)
    && (forall k, m :: 0 <= k < m < |w.emitted| ==> w.emitted[k].origin <= w.emitted[m].origin)
    && (w.slot.Some? ==> MadeFrom(depth, w.received, w.slot.value) && w.slot.value.origin < w.seen)
    && (w.slot.Some? ==> forall k :: 0 <= k < |w.emitted| ==> w.emitted[k].origin <= w.slot.value.origin)
    && (w.slot.None? ==> w.emitted == [])
    && (forall j :: 0 <= j < |w.jobs| ==> w.jobs[j].origin + 1 == w.seen)
    && (w.at == Claiming || w.at == Taking ==> w.seen < |w.received|)
    && (w.snapshot.Some? ==> w.snapshot.value in w.emitted)
  }

  lemma ArriveKeepsOrder(depth: Raw -> Option<Image>, w: Worker, raw: Raw)
    requires InOrder(depth, w)
    ensures InOrder(depth, w.(received := w.received + [raw]))
  {
    var received := w.received + [raw];
    forall f | MadeFrom(depth, w.received, f) ensures MadeFrom(depth, received, f) {
      assert received[f.origin] == w.received[f.origin];
    }
  }

  lemma EmitKeepsOrder(depth: Raw -> Option<Image>, w: Worker)
    requires InOrder(depth, w)
    ensures InOrder(depth, Emitted(w))
  {
    hide MadeFrom;
    var emitted := Emitted(w).emitted;
    assert forall k :: 0 <= k < |w.emitted| ==> emitted[k] == w.emitted[k];
    if w.slot.Some? { assert emitted[|w.emitted|] == w.slot.value; }
  }

  lemma StoreKeepsOrder(depth: Raw -> Option<Image>, w: Worker, j: nat)
    requires InOrder(depth, w) && j < |w.jobs|
    ensures InOrder(depth, Inferred(depth, w, j))
  {
  }

  lemma StepKeepsOrder(depth: Raw -> Option<Image>, w: Worker, s: Step)
    requires InOrder(depth, w) && |w.jobs| <= 1 && (w.at == Taking ==> w.jobs == [])
    ensures InOrder(depth, Do(depth, w, s))
  {
    match s
    case Arrive(raw) => ArriveKeepsOrder(depth, w, raw);
    case Emit => EmitKeepsOrder(depth, w);
    case Store(j) => if j < |w.jobs| { StoreKeepsOrder(depth, w, j); }
    case _ => hide MadeFrom, Emitted, Inferred;
  }

  lemma {:induction false} OrderIsKept(depth: Raw -> Option<Image>, steps: seq<Step>)
    ensures InOrder(depth, After(depth, steps))
  {
    if steps != [] {
      OrderIsKept(depth, steps[..|steps| - 1]);
      BusyIsHeldOnce(depth, steps[..|steps| - 1]);
      StepKeepsOrder(depth, After(depth, steps[..|steps| - 1]), steps[|steps| - 1]);
    }
  }

  /**
    Everything that leaves the worker is the depth image of a raw frame received, and the raw
    frames behind successive emissions never go back in arrival order.
   */
  lemma EmissionsFollowArrivals(depth: Raw -> Option<Image>, steps: seq<Step>, k: nat, m: nat)
    requires k <= m < |After(depth, steps).emitted|
    ensures var w := After(depth, steps);
            && MadeFrom(depth, w.received, w.emitted[k])
            && w.emitted[k].origin <= w.emitted[m].origin
            && (w.snapshot.Some? ==> w.snapshot.value in w.emitted)
  {
    OrderIsKept(depth, steps);
    OrderMeans(depth, After(depth, steps), k, m);
    hide After, InOrder, MadeFrom;
  }

  lemma OrderMeans(depth: Raw -> Option<Image>, w: Worker, k: nat, m: nat)
    requires InOrder(depth, w) && k <= m < |w.emitted|
    ensures MadeFrom(depth, w.received, w.emitted[k]) && w.emitted[k].origin <= w.emitted[m].origin
    ensures w.snapshot.Some? ==> w.snapshot.value in w.emitted
  {
    hide MadeFrom;
  }

  /** No raw frame is inferred twice: each start is on a frame that arrived after the last one taken. */
  lemma StartsMoveOn(depth: Raw -> Option<Image>, steps: seq<Step>)
    requires After(depth, steps).at == Taking
    ensures var w := After(depth, steps);
            var w' := Do(depth, w, Take);
            |w'.jobs| == 1 && w.seen <= w'.jobs[0].origin == |w.received| - 1
  {
    OrderIsKept(depth, steps);
    BusyIsHeldOnce(depth, steps);
  }

  /** Once an inference has died the flag is never free again, so nothing is started and nothing stored. */
  lemma NothingAfterDeath(depth: Raw -> Option<Image>, w: Worker, s: Step)
    requires w.busy && w.jobs == [] && w.at != Taking
    ensures var w' := Do(depth, w, s);
            w'.busy && w'.jobs == [] && w'.at != Taking && w'.slot == w.slot
  {
    hide Inferred;
  }

  /** One inference that dies keeps the flag for good: from then on the same frame is emitted. */
  lemma {:induction false} DeathIsForGood(depth: Raw -> Option<Image>, steps: seq<Step>, n: nat)
    requires n <= |steps| && Deaths(depth, steps[..n]) > 0
    ensures var w := After(depth, steps);
            w.busy && w.jobs == [] && w.at != Taking && w.slot == After(depth, steps[..n]).slot
    decreases |steps|
  {
    hide After, Deaths, Do;
    if n < |steps| {
      var before := steps[..|steps| - 1];
      TakeTake(steps, |steps| - 1, n);
      DeathIsForGood(depth, before, n);
      NothingAfterDeath(depth, After(depth, before), steps[|steps| - 1]);
      AfterLast(depth, steps);
    } else {
      TakeAll(steps);
      DeadIsBusy(depth, steps);
    }
  }

  lemma AfterLast(depth: Raw -> Option<Image>, steps: seq<Step>)
    requires steps != []
    ensures After(depth, steps) == Do(depth, After(depth, steps[..|steps| - 1]), steps[|steps| - 1])
  {
    hide Do;
  }

  lemma DeadIsBusy(depth: Raw -> Option<Image>, steps: seq<Step>)
    requires Deaths(depth, steps) > 0
    ensures After(depth, steps).busy && After(depth, steps).jobs == [] && After(depth, steps).at != Taking
  {
    BusyIsHeldOnce(depth, steps);
    hide After, Deaths;
  }

  /** The first inference starts. */
  function FirstStarts(raw: Raw): seq<Step> { [Arrive(raw)] + [Tick] + [Look] + [Claim] + [Take] }

  /** And dies. */
  function FirstDies(raw: Raw): seq<Step> { FirstStarts(raw) + [Panic(0)] }

  lemma OneMore(depth: Raw -> Option<Image>, steps: seq<Step>, s: Step)
    ensures After(depth, steps + [s]) == Do(depth, After(depth, steps), s)
    ensures Deaths(depth, steps + [s])
            == Deaths(depth, steps) + if s.Panic? && s.j < |After(depth, steps).jobs| then 1 else 0
  {
    AppendTake(steps, s);
    hide Do;
  }

  lemma FirstStart(depth: Raw -> Option<Image>, raw: Raw)
    ensures Deaths(depth, FirstStarts(raw)) == 0
    ensures After(depth, FirstStarts(raw))
            == Worker([raw], 1, false, Emitting, true, [Job(0, false)], None, 1, [], None)
  {
    DeathsAtStart(depth);
    assert After(depth, []) == START;
    hide After, Deaths;
    OneMore(depth, [], Arrive(raw));
    Units([Arrive(raw)]);
    var s1 := [Arrive(raw)];
    assert After(depth, s1) == START.(received := [raw]);
    OneMore(depth, s1, Tick);
    var s2 := s1 + [Tick];
    OneMore(depth, s2, Look);
    assert After(depth, s2 + [Look]) == START.(received := [raw], ticks := 1, at := Claiming);
    OneMore(depth, s2 + [Look], Claim);
    OneMore(depth, s2 + [Look] + [Claim], Take);
  }

  lemma FirstDeath(depth: Raw -> Option<Image>, raw: Raw)
    ensures Deaths(depth, FirstDies(raw)) == 1 && After(depth, FirstDies(raw)).slot.None?
  {
    FirstStart(depth, raw);
    hide After, Deaths, FirstStarts;
    OneMore(depth, FirstStarts(raw), Panic(0));
  }

  lemma DeathsAtStart(depth: Raw -> Option<Image>)
    ensures Deaths(depth, []) == 0
  {
  }

  /** If the first inference dies, nothing is ever emitted, whatever follows. */
  lemma SilentAfterFirstDeath(depth: Raw -> Option<Image>, raw: Raw, more: seq<Step>)
    ensures var w := After(depth, FirstDies(raw) + more); w.busy && w.emitted == []
  {
    var steps, n := FirstDies(raw) + more, |FirstDies(raw)|;
    assert steps[..n] == FirstDies(raw);
    FirstDeath(depth, raw);
    DeathIsForGood(depth, steps, n);
    OrderIsKept(depth, steps);
    hide After, Deaths, FirstDies;
  }
}
