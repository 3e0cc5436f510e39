/**
  When two cameras' detectors can listen on one microphone at a time. The list of claims holds one
  claim per microphone, but a camera that claims again before its old detector has given the
  microphone back leaves that detector running without a claim that stands.
 */
module MicOverlaps {
  import opened Options
  import opened Seqs
  import opened MicClaims

  /** The detector that step `k` let start on `c` has not given the microphone back. */
  ghost predicate Unreleased(ops: seq<Op>, k: nat, c: Claim) {
    k < |ops| && Granted(ops, k) == Some(c) && forall j: nat :: k < j < |ops| ==> ops[j] != Release(c.mic, c.token)
  }

  /** Step `m` lets a camera start on a microphone on which another camera's detector, of step `k`, still runs. */
  ghost predicate Overlap(ops: seq<Op>, k: nat, m: nat) {
    k < m < |ops| && exists c, d :: Unreleased(ops[..m], k, c) && Granted(ops, m) == Some(d) && Rivals(c, d)
  }

  predicate Rivals(c: Claim, d: Claim) { c.mic == d.mic && c.cam != d.cam }

  /** Every detector that still runs has the claim that stands. */
  ghost predicate AllStand(ops: seq<Op>) {
    forall k: nat, c: Claim :: Unreleased(ops, k, c) ==> Stands(ops, k, c)
  }

  /** Step `n` is no claim by a camera whose own detector still runs on that microphone. */
  ghost predicate Tidy(ops: seq<Op>, n: nat)
    requires n < |ops|
  {
    forall k: nat, c: Claim :: Unreleased(ops[..n], k, c) ==> ops[n] != Take(c.mic, c.cam)
  }

  ghost predicate TidyFrom(ops: seq<Op>, n: nat) {
    forall m: nat :: n <= m < |ops| ==> Tidy(ops, m)
  }

  // ---------------------------------------------------------------- prefixes

  lemma UnreleasedBefore(ops: seq<Op>, k: nat, n: nat, c: Claim)
    requires k < n <= |ops| && Unreleased(ops, k, c)
    ensures Unreleased(ops[..n], k, c)
  {
    GrantedBefore(ops, k, n);
    hide Granted;
  }

  lemma UnreleasedMore(ops: seq<Op>, op: Op, k: nat, c: Claim)
    ensures Unreleased(ops + [op], k, c)
            <==> if k == |ops| then Granted(ops + [op], k) == Some(c)
                 else Unreleased(ops, k, c) && op != Release(c.mic, c.token)
  {
    var more := ops + [op];
    AppendTake(ops, op);
    if k < |ops| { GrantedBefore(more, k, |ops|); }
    hide Granted;
    if k < |ops| && Unreleased(more, k, c) {
      forall j: nat | k < j < |ops| ensures ops[j] != Release(c.mic, c.token) { assert more[j] == ops[j]; }
      assert more[|ops|] == op;
    }
  }

  lemma StandsMore(ops: seq<Op>, op: Op, k: nat, c: Claim)
    requires k < |ops| && Stands(ops, k, c) && !Ends(ops + [op], |ops|, c)
    ensures Stands(ops + [op], k, c)
  {
    AppendTake(ops, op);
    StandsOn(ops + [op], k, c);
  }

  lemma TidyBefore(ops: seq<Op>, n: nat)
    requires ops != [] && TidyFrom(ops, n)
    ensures TidyFrom(ops[..|ops| - 1], n)
  {
    var before := ops[..|ops| - 1];
    forall m: nat | n <= m < |before| ensures Tidy(before, m) {
      TakeTake(ops, |ops| - 1, m);
      assert Tidy(ops, m);
    }
  }

  // ---------------------------------------------------------------- releasing before claiming again

  lemma TidyStep(ops: seq<Op>, op: Op)
    requires AllStand(ops) && Tidy(ops + [op], |ops|)
    ensures AllStand(ops + [op])
  {
    var n, more := |ops|, ops + [op];
    AppendTake(ops, op);
    forall k: nat, c: Claim | Unreleased(more, k, c) ensures Stands(more, k, c) {
      UnreleasedMore(ops, op, k, c);
      if k == n {
        StandsOn(more, k, c);
      } else {
        assert Stands(ops, k, c);
        if Ends(more, n, c) {
          GrantKeepsMic(more, n);
          ClaimExactly(ops, c.mic, more[n].cam);
          assert false;
        }
        StandsMore(ops, op, k, c);
      }
    }
  }

  lemma {:induction false} TidyKeepsStanding(ops: seq<Op>, n: nat)
    requires n <= |ops| && AllStand(ops[..n]) && TidyFrom(ops, n)
    ensures AllStand(ops)
    decreases |ops| - n
  {
    if n == |ops| {
      TakeAll(ops);
    } else {
      var last := |ops| - 1;
      TidyBefore(ops, n);
      TakeTake(ops, last, n);
      TidyKeepsStanding(ops[..last], n);
      InitLast(ops);
      hide AllStand, Unreleased;
      TidyStep(ops[..last], ops[last]);
    }
  }

  lemma StandingIsAlone(ops: seq<Op>, k: nat, m: nat)
    requires m < |ops| && AllStand(ops[..m])
    ensures !Overlap(ops, k, m)
  {
    if k < m {
      forall c, d | Unreleased(ops[..m], k, c) && Granted(ops, m) == Some(d) ensures !Rivals(c, d) {
        GrantKeepsMic(ops, m);
        ClaimExactly(ops[..m], d.mic, d.cam);
        hide Stands, Unreleased;
        assert Stands(ops[..m], k, c);
      }
    }
  }

  /** While every running detector has the claim that stands, a tidy continuation never overlaps. */
  lemma TidyNeverOverlaps(ops: seq<Op>, n: nat, k: nat, m: nat)
    requires n <= m < |ops| && AllStand(ops[..n]) && TidyFrom(ops, n)
    ensures !Overlap(ops, k, m)
  {
    var before := ops[..m];
    TakeTake(ops, m, n);
    forall j: nat | n <= j < m ensures Tidy(before, j) {
      TakeTake(ops, m, j);
      assert Tidy(ops, j);
    }
    TidyKeepsStanding(before, n);
    StandingIsAlone(ops, k, m);
  }

  /** If each camera gives a microphone back before it claims it again, no two cameras ever listen on one. */
  lemma TidyRunsNeverOverlap(ops: seq<Op>)
    requires TidyFrom(ops, 0)
    ensures forall k: nat, m: nat :: !Overlap(ops, k, m)
  {
    assert ops[..0] == [];
    forall k: nat, m: nat ensures !Overlap(ops, k, m) {
      if m < |ops| { TidyNeverOverlaps(ops, 0, k, m); }
    }
  }

  // ---------------------------------------------------------------- the exact conditions

  /** A camera that has never claimed anything. */
  function NewCam(ops: seq<Op>): (cam: nat)
    ensures forall j :: 0 <= j < |ops| && ops[j].Take? ==> ops[j].cam < cam
  {
    if ops == [] then 0
    else
      var before := NewCam(ops[..|ops| - 1]);
      var last := ops[|ops| - 1];
      InitLast(ops);
      if last.Take? && last.cam >= before then last.cam + 1 else before
  }

  lemma GrantedCamIsOld(ops: seq<Op>, k: nat, c: Claim)
    requires Unreleased(ops, k, c)
    ensures c.cam < NewCam(ops) && c.token < After(ops).next
  {
    assert ops[k].Take? && c.cam == ops[k].cam;
    TokensGrow(ops);
  }

  lemma TokensDiffer(ops: seq<Op>, k: nat, m: nat)
    requires k < m < |ops| && Granted(ops, k).Some? && Granted(ops, m).Some?
    ensures Granted(ops, k).value.token < Granted(ops, m).value.token
  {
    TokensGrow(ops[..m]);
    GrantedBefore(ops, k, m);
  }

  /** The token that stands on the microphone, or one that nobody has. */
  lemma FreeingToken(ops: seq<Op>, mic: string) returns (t: nat)
    ensures forall k: nat, c: Claim :: Stands(ops, k, c) && c.mic == mic ==> c.token == t
    ensures (exists k: nat, c: Claim :: Stands(ops, k, c) && c.mic == mic && c.token == t) || t == After(ops).next
  {
    if k: nat, c: Claim :| Stands(ops, k, c) && c.mic == mic {
      t := c.token;
      forall m: nat, d: Claim | Stands(ops, m, d) && d.mic == mic ensures d.token == t {
        OneStands(ops, k, m, c, d);
      }
    } else {
      t := After(ops).next;
    }
  }

  lemma FreeAfter(ops: seq<Op>, mic: string, t: nat, cam: nat)
    requires forall k: nat, c: Claim :: Stands(ops, k, c) && c.mic == mic ==> c.token == t
    ensures Token(After(ops + [Release(mic, t)]), mic, cam).Some?
  {
    var more := ops + [Release(mic, t)];
    AppendTake(ops, Release(mic, t));
    forall k: nat, c: Claim | Stands(more, k, c) ensures c.mic != mic {
      StandsOn(more, k, c);
    }
    hide Stands;
    ClaimExactly(more, mic, cam);
  }

  /** The microphone is given back by whoever has the claim that stands, and a new camera claims it. */
  function Newcomer(ops: seq<Op>, mic: string, t: nat): seq<Op> { [Release(mic, t)] + [Take(mic, NewCam(ops))] }

  lemma NewcomerIsTidy(ops: seq<Op>, mic: string, t: nat)
    ensures TidyFrom(ops + Newcomer(ops, mic, t), |ops|)
  {
    var n, all := |ops|, ops + Newcomer(ops, mic, t);
    var freed := ops + [Release(mic, t)];
    assert all[n] == Release(mic, t) && all[n + 1] == Take(mic, NewCam(ops)) && all[..n + 1] == freed;
    forall k: nat, c: Claim | Unreleased(freed, k, c) ensures all[n + 1] != Take(c.mic, c.cam) {
      UnreleasedMore(ops, Release(mic, t), k, c);
      assert k < n;
      GrantedCamIsOld(ops, k, c);
    }
  }

  lemma NewcomerOverlaps(ops: seq<Op>, k: nat, c: Claim, t: nat)
    requires Unreleased(ops, k, c) && c.token != t
    requires forall m: nat, d: Claim :: Stands(ops, m, d) && d.mic == c.mic ==> d.token == t
    ensures Overlap(ops + Newcomer(ops, c.mic, t), k, |ops| + 1)
  {
    var n, cam, all := |ops|, NewCam(ops), ops + Newcomer(ops, c.mic, t);
    var freed := ops + [Release(c.mic, t)];
    assert all[n + 1] == Take(c.mic, cam) && all[..n + 1] == freed;
    FreeAfter(ops, c.mic, t, cam);
    UnreleasedMore(ops, Release(c.mic, t), k, c);
    GrantedCamIsOld(ops, k, c);
    hide After, Stands;
    var d := Claim(c.mic, cam, After(freed).next);
    assert Granted(all, n + 1) == Some(d);
    assert Unreleased(all[..n + 1], k, c) && Rivals(c, d);
  }

  /** Some continuation, all of it tidy, lets two cameras listen on one microphone. */
  ghost predicate TidyMayOverlap(ops: seq<Op>) {
    exists more, k, m :: TidyOverlap(ops, more, k, m)
  }

  ghost predicate TidyOverlap(ops: seq<Op>, more: seq<Op>, k: nat, m: nat) {
    TidyFrom(ops + more, |ops|) && |ops| <= m && Overlap(ops + more, k, m)
  }

  lemma ReplacedIsFollowed(ops: seq<Op>, k: nat, c: Claim)
    requires Unreleased(ops, k, c) && !Stands(ops, k, c)
    ensures exists more, m: nat :: |ops| <= m && TidyOverlap(ops, more, k, m)
  {
    var t := FreeingToken(ops, c.mic);
    GrantedCamIsOld(ops, k, c);
    if c.token == t {
      var j: nat, d: Claim :| Stands(ops, j, d) && d.mic == c.mic && d.token == t;
      if k < j { TokensDiffer(ops, k, j); }
      if j < k { TokensDiffer(ops, j, k); }
      assert false;
    }
    NewcomerIsTidy(ops, c.mic, t);
    NewcomerOverlaps(ops, k, c, t);
    hide Overlap, TidyFrom, Newcomer, Unreleased, Stands;
    assert TidyOverlap(ops, Newcomer(ops, c.mic, t), k, |ops| + 1);
  }

  /**
    Even if every camera gives back before it claims again from now on, two cameras can end up on one
    microphone if and only if some grant so far is neither given back nor standing.
   */
  lemma TidyOverlapExactly(ops: seq<Op>)
    ensures TidyMayOverlap(ops) <==> exists k: nat, c: Claim :: Unreleased(ops, k, c) && !Stands(ops, k, c)
  {
    if AllStand(ops) {
      forall more, k: nat, m: nat ensures !TidyOverlap(ops, more, k, m) {
        if TidyFrom(ops + more, |ops|) && |ops| <= m < |ops + more| {
          assert (ops + more)[..|ops|] == ops;
          TidyNeverOverlaps(ops + more, |ops|, k, m);
        }
      }
    } else {
      var k: nat, c: Claim :| Unreleased(ops, k, c) && !Stands(ops, k, c);
      ReplacedIsFollowed(ops, k, c);
    }
  }

  /** Some continuation lets another camera start while a detector of the run so far still listens. */
  ghost predicate MayOverlap(ops: seq<Op>) {
    exists more, k, m :: AnyOverlap(ops, more, k, m)
  }

  ghost predicate AnyOverlap(ops: seq<Op>, more: seq<Op>, k: nat, m: nat) {
    k < |ops| <= m && Overlap(ops + more, k, m)
  }

  /** Without that discipline any running detector can be overlapped: its own camera may claim again. */
  lemma OverlapExactly(ops: seq<Op>)
    ensures MayOverlap(ops) <==> exists k: nat, c: Claim :: Unreleased(ops, k, c)
  {
    if more, k, m :| AnyOverlap(ops, more, k, m) { OverlappedRuns(ops, more, k, m); }
    if k: nat, c: Claim :| Unreleased(ops, k, c) {
      if Stands(ops, k, c) {
        RestartReplaces(ops, k, c);
        var again := ops + [Take(c.mic, c.cam)];
        ReplacedIsFollowed(again, k, c);
        hide Unreleased, Stands, Overlap, TidyFrom;
        var more, m: nat :| |again| <= m && TidyOverlap(again, more, k, m);
        Assoc(ops, [Take(c.mic, c.cam)], more);
        assert AnyOverlap(ops, [Take(c.mic, c.cam)] + more, k, m);
      } else {
        ReplacedIsFollowed(ops, k, c);
        hide Stands, Overlap, TidyFrom;
        var more, m: nat :| |ops| <= m && TidyOverlap(ops, more, k, m);
        assert AnyOverlap(ops, more, k, m);
      }
    }
  }

  lemma OverlappedRuns(ops: seq<Op>, more: seq<Op>, k: nat, m: nat)
    requires AnyOverlap(ops, more, k, m)
    ensures exists c :: Unreleased(ops, k, c)
  {
    var all := ops + more;
    var c, d :| Unreleased(all[..m], k, c) && Granted(all, m) == Some(d) && Rivals(c, d);
    hide Granted;
    UnreleasedBefore(all[..m], k, |ops|, c);
    TakeTake(all, m, |ops|);
    assert all[..|ops|] == ops;
  }

  /** A restart of its camera replaces the claim; the old detector has not given back. */
  lemma RestartReplaces(ops: seq<Op>, k: nat, c: Claim)
    requires Unreleased(ops, k, c) && Stands(ops, k, c)
    ensures var again := ops + [Take(c.mic, c.cam)]; Unreleased(again, k, c) && !Stands(again, k, c)
  {
    var n, op := |ops|, Take(c.mic, c.cam);
    var again := ops + [op];
    UnreleasedMore(ops, op, k, c);
    forall m: nat, d: Claim | Stands(ops, m, d) && d.mic == c.mic ensures d.cam == c.cam { OneStands(ops, k, m, c, d); }
    ClaimExactly(ops, c.mic, c.cam);
    AppendTake(ops, op);
    hide After;
    assert Ends(again, n, c);
  }
}
