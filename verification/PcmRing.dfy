/**
  The rolling audio buffer of `audio_cmds.rs`: one-second windows of PCM for one camera, pruned
  to four minutes on every push. For a clip request inside the retained span, the pruned ring
  answers as the whole unpruned history would.
 */
module PcmRing {
  import opened Numbers
  import opened Options
  import opened Seqs

  const RING_SECS := 240.0
  const MIN_BYTES := 16000

  /** A window is stamped with the time it ended. */
  datatype Win = Win(ts: real, bytes: seq<Byte>)

  /** Windows that a request for `[start, end]` collects, walking from the oldest. */
  function Chosen(dq: seq<Win>, start: real, end: real): seq<Win> {
    if dq == [] then []
    else if dq[0].ts < start - 1.0 then Chosen(dq[1..], start, end)
    else if dq[0].ts > end + 1.0 then []
    else [dq[0]] + Chosen(dq[1..], start, end)
  }

  function Pcm(wins: seq<Win>): seq<Byte> {
    if wins == [] then [] else Pcm(wins[..|wins| - 1]) + wins[|wins| - 1].bytes
  }

  datatype Clip = Clip(pcm: seq<Byte>, first: real)

  function Reply(wins: seq<Win>): Option<Clip> {
    if |Pcm(wins)| < MIN_BYTES || wins == [] then None else Some(Clip(Pcm(wins), wins[0].ts - 1.0))
  }

  function DropOlder(dq: seq<Win>, cutoff: real): seq<Win> {
    if dq != [] && dq[0].ts < cutoff then DropOlder(dq[1..], cutoff) else dq
  }

  lemma ChosenNext(dq: seq<Win>, i: nat, start: real, end: real)
    requires i < |dq|
    ensures var rest := Chosen(dq[i + 1..], start, end);
            Chosen(dq[i..], start, end) ==
            if dq[i].ts < start - 1.0 then rest else if dq[i].ts > end + 1.0 then [] else [dq[i]] + rest
  {
    assert dq[i..][1..] == dq[i + 1..];
  }

  lemma PcmMore(wins: seq<Win>, w: Win)
    ensures Pcm(wins + [w]) == Pcm(wins) + w.bytes
  {
    AppendTake(wins, w);
  }

  class Ring {
    var dq: seq<Win>

    constructor ()
      ensures dq == []
    {
      dq := [];
    }

    /** `push_ring` */
    method Push(ts: real, bytes: seq<Byte>)
      modifies this
      ensures dq == DropOlder(old(dq) + [Win(ts, bytes)], ts - RING_SECS)
    {
      dq := dq + [Win(ts, bytes)];
      ghost var all := dq;
      var cutoff := ts - RING_SECS;
      while dq != [] && dq[0].ts < cutoff
        invariant DropOlder(dq, cutoff) == DropOlder(all, cutoff)
        decreases |dq|
      {
        dq := dq[1..];
      }
    }

    /** `extract_ring` */
    method Extract(start: real, end: real) returns (clip: Option<Clip>)
      ensures clip == Reply(Chosen(dq, start, end))
    {
      var out: seq<Byte> := [];
      var first: Option<real> := None;
      ghost var got: seq<Win> := [];
      var i := 0;
      assert dq[0..] == dq && Chosen(dq[|dq|..], start, end) == [] && Pcm(got) == [];
      hide Chosen, Pcm;
      while i < |dq|
        invariant i <= |dq|
        invariant Chosen(dq, start, end) == got + Chosen(dq[i..], start, end)
        invariant out == Pcm(got) && first == (if got == [] then None else Some(got[0].ts - 1.0))
      {
        var w := dq[i];
        ChosenNext(dq, i, start, end);
        i := i + 1;
        if w.ts < start - 1.0 { continue; }
        if w.ts > end + 1.0 {
          i := |dq|;
          break;
        }
        if first.None? { first := Some(w.ts - 1.0); }
        PcmMore(got, w);
        Assoc(got, [w], Chosen(dq[i..], start, end));
        got := got + [w];
        out := out + w.bytes;
      }
      Units(got);
      assert Chosen(dq, start, end) == got;
      if |out| < MIN_BYTES || first.None? { return None; }
      return Some(Clip(out, first.value));
    }
  }

  // ---------------------------------------------------------------- runs of pushes

  ghost predicate InOrder(wins: seq<Win>) {
    forall i, j :: 0 <= i <= j < |wins| ==> wins[i].ts <= wins[j].ts
  }

  /** The ring after all of `history` was pushed. */
  function RingOf(history: seq<Win>): seq<Win> {
    if history == [] then []
    else
      var w := history[|history| - 1];
      DropOlder(RingOf(history[..|history| - 1]) + [w], w.ts - RING_SECS)
  }

  /** A ring filled window by window: `RingOf` is what it holds. */
  method Record(history: seq<Win>) returns (ring: Ring)
    ensures fresh(ring) && ring.dq == RingOf(history)
  {
    ring := new Ring();
    for n := 0 to |history|
      invariant fresh(ring) && ring.dq == RingOf(history[..n])
    {
      hide DropOlder;
      ring.Push(history[n].ts, history[n].bytes);
      TakeNext(history, n);
    }
    TakeAll(history);
  }

  /** How many of the oldest windows a cutoff drops. */
  function Older(wins: seq<Win>, cutoff: real): (n: nat)
    ensures n <= |wins|
    ensures forall i :: 0 <= i < n ==> wins[i].ts < cutoff
    ensures n < |wins| ==> wins[n].ts >= cutoff
  {
    if wins != [] && wins[0].ts < cutoff then 1 + Older(wins[1..], cutoff) else 0
  }

  lemma {:induction false} DropOlderDropsPrefix(wins: seq<Win>, cutoff: real)
    ensures DropOlder(wins, cutoff) == wins[Older(wins, cutoff)..]
  {
    if wins != [] && wins[0].ts < cutoff {
      DropOlderDropsPrefix(wins[1..], cutoff);
      assert wins[1..][Older(wins[1..], cutoff)..] == wins[1 + Older(wins[1..], cutoff)..];
    }
  }

  /** On a clock that does not run back, pruning keeps exactly the windows of the last 240 s. */
  lemma {:induction false} RingIsRecentHistory(history: seq<Win>)
    requires InOrder(history) && history != []
    ensures var cutoff := history[|history| - 1].ts - RING_SECS;
            RingOf(history) == history[Older(history, cutoff)..]
  {
    var n := |history| - 1;
    var before := history[..n];
    if n == 0 {
      RingGrows(history, 0);
    } else {
      RingIsRecentHistory(before);
      StillOld(history);
      RingGrows(history, Older(before, before[n - 1].ts - RING_SECS));
    }
  }

  lemma StillOld(history: seq<Win>)
    requires InOrder(history) && |history| >= 2
    ensures var n := |history| - 1;
            var before := history[..n];
            var k := Older(before, before[n - 1].ts - RING_SECS);
            InOrder(before) && forall i :: 0 <= i < k ==> history[i].ts < history[n].ts - RING_SECS
  {
    var n := |history| - 1;
    assert history[n - 1].ts <= history[n].ts;
  }

  lemma RingGrows(history: seq<Win>, k: nat)
    requires InOrder(history) && k < |history|
    requires RingOf(history[..|history| - 1]) == history[..|history| - 1][k..]
    requires forall i :: 0 <= i < k ==> history[i].ts < history[|history| - 1].ts - RING_SECS
    ensures var cutoff := history[|history| - 1].ts - RING_SECS;
            RingOf(history) == history[Older(history, cutoff)..]
  {
    hide DropOlder, Older, RingOf;
    RingUnfolds(history);
    SuffixMore(history, k);
    PushKeepsRecent(history, k, history[|history| - 1].ts - RING_SECS);
  }

  lemma RingUnfolds(history: seq<Win>)
    requires history != []
    ensures var n := |history| - 1;
            RingOf(history) == DropOlder(RingOf(history[..n]) + [history[n]], history[n].ts - RING_SECS)
    ensures |history| == 1 ==> RingOf(history[..0]) == history[..0][0..]
  {
  }

  lemma SuffixMore(history: seq<Win>, k: nat)
    requires history != [] && k < |history|
    ensures history[..|history| - 1][k..] + [history[|history| - 1]] == history[k..]
  {
  }

  lemma PushKeepsRecent(history: seq<Win>, k: nat, cutoff: real)
    requires InOrder(history) && k <= |history|
    requires forall i :: 0 <= i < k ==> history[i].ts < cutoff
    ensures DropOlder(history[k..], cutoff) == history[Older(history, cutoff)..]
  {
    hide DropOlder, Older;
    DropOlderDropsPrefix(history[k..], cutoff);
    OlderAfterDrop(history, k, cutoff);
  }

  lemma OlderAfterDrop(history: seq<Win>, k: nat, cutoff: real)
    requires InOrder(history) && k <= |history|
    requires forall i :: 0 <= i < k ==> history[i].ts < cutoff
    ensures history[k..][Older(history[k..], cutoff)..] == history[Older(history, cutoff)..]
  {
    var m := Older(history[k..], cutoff);
    assert forall i :: 0 <= i < m ==> history[k..][i] == history[k + i];
    assert forall i :: k <= i < k + m ==> history[i] == history[k..][i - k];
    assert Older(history, cutoff) == k + m;
  }

  /** The ring never holds a window more than 240 s older than its newest. */
  lemma RingSpan(history: seq<Win>)
    requires InOrder(history) && history != []
    ensures RingOf(history) != [] && RingOf(history)[|RingOf(history)| - 1] == history[|history| - 1]
    ensures forall w :: w in RingOf(history) ==> w.ts >= history[|history| - 1].ts - RING_SECS
  {
    var newest := history[|history| - 1].ts;
    RingIsRecentHistory(history);
    var k := Older(history, newest - RING_SECS);
    assert k < |history|;
  }

  lemma {:induction false} ChosenAppend(a: seq<Win>, b: seq<Win>, start: real, end: real)
    requires InOrder(a + b)
    ensures Chosen(a + b, start, end) == Chosen(a, start, end) + Chosen(b, start, end)
  {
    if a == [] {
      Units(b);
    } else {
      FrontOf(a, b);
      if a[0].ts >= start - 1.0 && a[0].ts > end + 1.0 {
        forall i | 0 <= i < |b| ensures b[i].ts >= a[0].ts { assert (a + b)[|a| + i] == b[i]; }
        NothingAfter(b, start, end, a[0].ts);
      } else {
        ChosenAppend(a[1..], b, start, end);
      }
    }
  }

  lemma FrontOf(a: seq<Win>, b: seq<Win>)
    requires a != []
    ensures (a + b)[1..] == a[1..] + b && (a + b)[0] == a[0]
    ensures InOrder(a + b) ==> InOrder(a[1..] + b)
  {
    if InOrder(a + b) {
      assert forall i :: 0 <= i < |a[1..] + b| ==> (a[1..] + b)[i] == (a + b)[i + 1];
    }
  }

  lemma {:induction false} NothingAfter(wins: seq<Win>, start: real, end: real, t: real)
    requires t > end + 1.0 && forall i :: 0 <= i < |wins| ==> wins[i].ts >= t
    ensures Chosen(wins, start, end) == []
  {
    if wins != [] { NothingAfter(wins[1..], start, end, t); }
  }

  lemma {:induction false} NothingBefore(wins: seq<Win>, start: real, end: real)
    requires forall i :: 0 <= i < |wins| ==> wins[i].ts < start - 1.0
    ensures Chosen(wins, start, end) == []
  {
    if wins != [] { NothingBefore(wins[1..], start, end); }
  }

  /** The dropped part of the history. */
  function Dropped(history: seq<Win>): seq<Win>
    requires history != []
  {
    history[..Older(history, history[|history| - 1].ts - RING_SECS)]
  }

  lemma SplitByRing(history: seq<Win>, start: real, end: real)
    requires InOrder(history) && history != []
    ensures Chosen(history, start, end) == Chosen(Dropped(history), start, end) + Chosen(RingOf(history), start, end)
  {
    RingIsRecentHistory(history);
    assert Dropped(history) + RingOf(history) == history;
    ChosenAppend(Dropped(history), RingOf(history), start, end);
  }

  /** A request that starts at least 1 s inside the retained span gets the unpruned answer. */
  lemma PrunedRingAnswersLikeHistory(history: seq<Win>, start: real, end: real)
    requires InOrder(history) && history != []
    requires start - 1.0 >= history[|history| - 1].ts - RING_SECS
    ensures Chosen(RingOf(history), start, end) == Chosen(history, start, end)
    ensures Reply(Chosen(RingOf(history), start, end)) == Reply(Chosen(history, start, end))
  {
    SplitByRing(history, start, end);
    NothingBefore(Dropped(history), start, end);
    Units(Chosen(RingOf(history), start, end));
  }

  /** The sharp condition for a start: whatever the end, nothing that was dropped is wanted. */
  lemma PrunedAnswersExactly(history: seq<Win>, start: real)
    requires InOrder(history) && history != []
    ensures (forall end :: Chosen(RingOf(history), start, end) == Chosen(history, start, end))
            <==> forall i :: 0 <= i < |Dropped(history)| ==> Dropped(history)[i].ts < start - 1.0
  {
    var d := Dropped(history);
    if forall i :: 0 <= i < |d| ==> d[i].ts < start - 1.0 {
      forall end ensures Chosen(RingOf(history), start, end) == Chosen(history, start, end) {
        SplitByRing(history, start, end);
        NothingBefore(d, start, end);
        Units(Chosen(RingOf(history), start, end));
      }
    }
    if i :| 0 <= i < |d| && d[i].ts >= start - 1.0 {
      var end := d[i].ts;
      SplitByRing(history, start, end);
      WantedIsChosen(d, start, end, i);
      assert |Chosen(history, start, end)| > |Chosen(RingOf(history), start, end)|;
    }
  }

  lemma {:induction false} WantedIsChosen(wins: seq<Win>, start: real, end: real, i: nat)
    requires InOrder(wins) && i < |wins| && start - 1.0 <= wins[i].ts <= end + 1.0
    ensures Chosen(wins, start, end) != []
  {
    if i > 0 {
      assert wins[0].ts <= wins[i].ts;
      assert wins[1..][i - 1] == wins[i];
      WantedIsChosen(wins[1..], start, end, i - 1);
    }
  }

  // ---------------------------------------------------------------- what a clip is made of

  /** The window ends at most a second outside the request. */
  predicate Reaches(w: Win, start: real, end: real) { start - 1.0 <= w.ts <= end + 1.0 }

  /** Windows `i` up to `j`, and no others, reach into the request. */
  ghost predicate Wanted(dq: seq<Win>, start: real, end: real, i: nat, j: nat) {
    i <= j <= |dq| && forall k :: 0 <= k < |dq| ==> (Reaches(dq[k], start, end) <==> i <= k < j)
  }

  /** Exactly the windows that reach into the request are collected, in order. */
  lemma {:induction false} ChosenExactly(dq: seq<Win>, start: real, end: real)
    requires InOrder(dq)
    ensures exists i: nat, j: nat :: Wanted(dq, start, end, i, j) && Chosen(dq, start, end) == dq[i..j]
  {
    if dq == [] || (dq[0].ts >= start - 1.0 && dq[0].ts > end + 1.0) {
      assert Wanted(dq, start, end, 0, 0) && Chosen(dq, start, end) == dq[0..0];
    } else {
      var rest := dq[1..];
      forall i, j | 0 <= i <= j < |rest| ensures rest[i].ts <= rest[j].ts { assert dq[i + 1].ts <= dq[j + 1].ts; }
      ChosenExactly(rest, start, end);
      var i: nat, j: nat :| Wanted(rest, start, end, i, j) && Chosen(rest, start, end) == rest[i..j];
      WantedMore(dq, start, end, i, j);
    }
  }

  lemma WantedMore(dq: seq<Win>, start: real, end: real, i: nat, j: nat)
    requires InOrder(dq) && dq != [] && (dq[0].ts < start - 1.0 || dq[0].ts <= end + 1.0)
    requires Wanted(dq[1..], start, end, i, j) && Chosen(dq[1..], start, end) == dq[1..][i..j]
    ensures exists m: nat, n: nat :: Wanted(dq, start, end, m, n) && Chosen(dq, start, end) == dq[m..n]
  {
    var rest := dq[1..];
    forall k | 1 <= k < |dq| ensures dq[k] == rest[k - 1] { }
    assert rest[i..j] == dq[i + 1..j + 1];
    if dq[0].ts < start - 1.0 {
      assert Wanted(dq, start, end, i + 1, j + 1);
    } else if i == j {
      assert [dq[0]] + rest[i..j] == dq[0..1];
      assert Wanted(dq, start, end, 0, 1);
    } else {
      assert Reaches(rest[i], start, end) && dq[0].ts <= rest[0].ts <= rest[i].ts;
      assert Reaches(rest[0], start, end);
      assert i == 0 && [dq[0]] + dq[1..j + 1] == dq[0..j + 1];
      assert Wanted(dq, start, end, 0, j + 1);
    }
  }

  /** The sound of windows is played one after the other, from the first byte to the last. */
  lemma {:induction false} PcmInOrder(a: seq<Win>, b: seq<Win>)
    ensures Pcm(a + b) == Pcm(a) + Pcm(b) && forall w: Win :: Pcm([w]) == w.bytes
    decreases |b|
  {
    forall w: Win ensures Pcm([w]) == w.bytes { assert [w][..0] == []; }
    if b == [] {
      Units(a);
      Units(Pcm(a));
    } else {
      var init, last := b[..|b| - 1], b[|b| - 1];
      PcmInOrder(a, init);
      InitLast(b);
      Assoc(a, init, [last]);
      PcmMore(a + init, last);
      Assoc(Pcm(a), Pcm(init), last.bytes);
    }
  }

  /** A clip is given out if it has half a second of sound, and begins where its first window does. */
  lemma ReplyExactly(wins: seq<Win>)
    ensures Reply(wins).Some? <==> |Pcm(wins)| >= 16000
    ensures Reply(wins).Some? ==> wins != [] && Reply(wins).value == Clip(Pcm(wins), wins[0].ts - 1.0)
  {
  }
}
