/**
  The reader's detection gate (`dshow.rs`): of all frames read, one at most is being looked at, and
  looks start at most every 140 ms; the other frames are dropped, not queued.
 */
module DetectionGate {
  import opened Seqs

  const GAP := 140

  /** A frame is read at a time in milliseconds, or the running detection ends. */
  datatype Step = Frame(now: int) | Finish

  /** The gate, the detections it has started, and how many of them have ended. */
  datatype Gate = Gate(busy: bool, last: int, starts: seq<int>, ended: nat)

  predicate Opens(g: Gate, now: int) { now - g.last >= GAP && !g.busy }

  function Do(g: Gate, s: Step): Gate {
    match s
    case Frame(now) => if Opens(g, now) then Gate(true, now, g.starts + [now], g.ended) else g
    case Finish => if g.ended < |g.starts| then g.(busy := false, ended := g.ended + 1) else g
  }

  function After(origin: int, steps: seq<Step>): Gate {
    if steps == [] then Gate(false, origin - 1000, [], 0)
    else Do(After(origin, steps[..|steps| - 1]), steps[|steps| - 1])
  }

  class Reader {
    var busy: bool
    var lastDet: int
    var starts: seq<int>
    var ended: nat

    function Value(): Gate
      reads this
    {
      Gate(busy, lastDet, starts, ended)
    }

    constructor (origin: int)
      ensures Value() == After(origin, [])
    {
      busy, lastDet, starts, ended := false, origin - 1000, [], 0;
    }

    method OnFrame(now: int) returns (started: bool)
      modifies this
      ensures Value() == Do(old(Value()), Frame(now)) && started == Opens(old(Value()), now)
    {
      started := false;
      if now - lastDet >= GAP {
        started := !busy;
        if started {
          busy, lastDet := true, now;
          starts := starts + [now];
        }
      }
    }

    method OnFinish()
      modifies this
      ensures Value() == Do(old(Value()), Finish)
    {
      if ended < |starts| {
        busy := false;
        ended := ended + 1;
      }
    }
  }

  /** The time of the latest start, or a second before the reader began. */
  ghost predicate GateHeld(g: Gate, origin: int) {
    && g.last == (if g.starts == [] then origin - 1000 else g.starts[|g.starts| - 1])
    && g.ended + (if g.busy then 1 else 0) == |g.starts|
    && (forall i, j :: 0 <= i < j < |g.starts| ==> g.starts[j] - g.starts[i] >= GAP)
  }

  lemma {:induction false} GateIsKept(origin: int, steps: seq<Step>)
    ensures GateHeld(After(origin, steps), origin)
  {
    if steps != [] { GateIsKept(origin, steps[..|steps| - 1]); }
  }

  /** Never two detections at once, and never two starts within 140 ms. */
  lemma DetectionsAreSpaced(origin: int, steps: seq<Step>, i: nat, j: nat)
    requires i < j < |After(origin, steps).starts|
    ensures After(origin, steps).starts[j] - After(origin, steps).starts[i] >= 140
    ensures |After(origin, steps).starts| - After(origin, steps).ended <= 1
  {
    GateIsKept(origin, steps);
  }

  /** A frame is looked at exactly if every earlier look has ended and the last began 140 ms ago or more. */
  lemma FrameStartsExactly(origin: int, steps: seq<Step>, now: int)
    ensures var g := After(origin, steps);
            After(origin, steps + [Frame(now)]).starts == g.starts + [now]
            <==> g.ended == |g.starts|
                 && now - (if g.starts == [] then origin - 1000 else g.starts[|g.starts| - 1]) >= 140
  {
    GateIsKept(origin, steps);
    AppendTake(steps, Frame(now));
  }
}
