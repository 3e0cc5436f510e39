/**
  One detector per microphone (`audio_cmds.rs`): the list of claims, with a token so that a stopped
  detector gives back its own claim and never the one a restart of its camera has taken since.
 */
module MicClaims {
  import opened Options
  import opened Seqs

  datatype Claim = Claim(mic: string, cam: nat, token: nat)

  datatype Book = Book(claims: seq<Claim>, next: nat)

  const EMPTY := Book([], 1)

  datatype Op = Take(mic: string, cam: nat) | Release(mic: string, token: nat)

  function Drop(claims: seq<Claim>, out: Claim -> bool): (left: seq<Claim>)
    ensures forall c :: c in left <==> c in claims && !out(c)
    ensures |left| <= |claims|
  {
    if claims == [] then []
    else
      var c := claims[|claims| - 1];
      InitLast(claims);
      Drop(claims[..|claims| - 1], out) + if out(c) then [] else [c]
  }

  predicate Taken(b: Book, mic: string, cam: nat) {
    exists i :: 0 <= i < |b.claims| && b.claims[i].mic == mic && b.claims[i].cam != cam
  }

  function OfMic(mic: string): Claim -> bool { (c: Claim) => c.mic == mic }

  function OfToken(mic: string, token: nat): Claim -> bool { (c: Claim) => c.mic == mic && c.token == token }

  /** The token a claim gets, if no other camera has the microphone. */
  function Token(b: Book, mic: string, cam: nat): Option<nat> {
    if Taken(b, mic, cam) then None else Some(b.next)
  }

  function Do(b: Book, op: Op): Book {
    match op
    case Take(mic, cam) =>
      if Taken(b, mic, cam) then b else Book(Drop(b.claims, OfMic(mic)) + [Claim(mic, cam, b.next)], b.next + 1)
    case Release(mic, token) => b.(claims := Drop(b.claims, OfToken(mic, token)))
  }

  function After(ops: seq<Op>): Book {
    if ops == [] then EMPTY else Do(After(ops[..|ops| - 1]), ops[|ops| - 1])
  }

  class Microphones {
    var claims: seq<Claim>
    var next: nat

    function Value(): Book
      reads this
    {
      Book(claims, next)
    }

    constructor ()
      ensures Value() == EMPTY
    {
      claims, next := [], 1;
    }

    method Retain(out: Claim -> bool)
      modifies this`claims
      ensures claims == Drop(old(claims), out)
    {
      var all, left := claims, [];
      for n := 0 to |all|
        invariant left == Drop(all[..n], out)
      {
        TakeNext(all, n);
        if !out(all[n]) { left := left + [all[n]]; }
      }
      TakeAll(all);
      claims := left;
    }

    /** `claim_mic` */
    method ClaimMic(mic: string, cam: nat) returns (token: Option<nat>)
      modifies this
      ensures Value() == Do(old(Value()), Take(mic, cam)) && token == Token(old(Value()), mic, cam)
    {
      if Taken(Value(), mic, cam) { return None; }
      Retain(OfMic(mic));
      claims := claims + [Claim(mic, cam, next)];
      token := Some(next);
      next := next + 1;
    }

    /** `release_mic` */
    method ReleaseMic(mic: string, token: nat)
      modifies this
      ensures Value() == Do(old(Value()), Release(mic, token))
    {
      Retain(OfToken(mic, token));
    }
  }

  // ---------------------------------------------------------------- whole runs

  /** What step `k` was granted. */
  function Granted(ops: seq<Op>, k: nat): Option<Claim>
    requires k < |ops|
  {
    match ops[k]
    case Take(mic, cam) =>
      var token := Token(After(ops[..k]), mic, cam);
      if token.Some? then Some(Claim(mic, cam, token.value)) else None
    case Release(_, _) => None
  }

  /** Step `j` ends the claim `c`: a newer grant of the microphone, or the release of this very claim. */
  predicate Ends(ops: seq<Op>, j: nat, c: Claim)
    requires j < |ops|
  {
    (Granted(ops, j).Some? && Granted(ops, j).value.mic == c.mic) || ops[j] == Release(c.mic, c.token)
  }

  /** Step `k` was granted `c`, and nothing has ended that claim since. */
  ghost predicate Stands(ops: seq<Op>, k: nat, c: Claim) {
    k < |ops| && Granted(ops, k) == Some(c) && forall j: nat :: k < j < |ops| ==> !Ends(ops, j, c)
  }

  lemma GrantedBefore(ops: seq<Op>, k: nat, n: nat)
    requires k < n <= |ops|
    ensures Granted(ops[..n], k) == Granted(ops, k)
  {
    TakeTake(ops, n, k);
  }

  lemma EndsBefore(ops: seq<Op>, n: nat, c: Claim)
    requires n <= |ops|
    ensures forall j: nat :: j < n ==> Ends(ops[..n], j, c) == Ends(ops, j, c)
  {
    forall j: nat | j < n ensures Ends(ops[..n], j, c) == Ends(ops, j, c) {
      GrantedBefore(ops, j, n);
    }
  }

  lemma StandsOn(ops: seq<Op>, k: nat, c: Claim)
    requires ops != []
    ensures Stands(ops, k, c) <==>
            if k == |ops| - 1 then Granted(ops, k) == Some(c)
            else Stands(ops[..|ops| - 1], k, c) && !Ends(ops, |ops| - 1, c)
  {
    var n := |ops| - 1;
    if k < n {
      GrantedBefore(ops, k, n);
      EndsBefore(ops, n, c);
    }
    hide Granted, Ends;
  }

  /** One step of the list, in terms of what it ends and what it grants. */
  lemma ListStep(ops: seq<Op>, c: Claim)
    requires ops != []
    ensures var n := |ops| - 1;
            c in After(ops).claims <==> (c in After(ops[..n]).claims && !Ends(ops, n, c)) || Granted(ops, n) == Some(c)
  {
    hide Drop, Taken;
  }

  ghost predicate Standing(ops: seq<Op>, c: Claim) { exists k: nat :: Stands(ops, k, c) }

  lemma StandingStep(ops: seq<Op>, c: Claim)
    requires ops != []
    ensures var n := |ops| - 1;
            Standing(ops, c) <==> (Standing(ops[..n], c) && !Ends(ops, n, c)) || Granted(ops, n) == Some(c)
  {
    var n := |ops| - 1;
    var before := ops[..n];
    StandsOn(ops, n, c);
    hide Granted, Ends;
    if k: nat :| Stands(ops, k, c) { StandsOn(ops, k, c); }
    if k: nat :| Stands(before, k, c) { StandsOn(ops, k, c); }
  }

  /** The list holds exactly the claims that stand. */
  lemma {:induction false} HeldExactly(ops: seq<Op>, c: Claim)
    ensures c in After(ops).claims <==> exists k: nat :: Stands(ops, k, c)
  {
    if ops != [] {
      HeldExactly(ops[..|ops| - 1], c);
      ListStep(ops, c);
      StandingStep(ops, c);
      hide After, Stands, Granted, Ends;
      assert Standing(ops, c) == exists k: nat :: Stands(ops, k, c);
    }
  }

  /** A microphone goes to a camera exactly unless a claim of another camera stands. */
  lemma ClaimExactly(ops: seq<Op>, mic: string, cam: nat)
    ensures Token(After(ops), mic, cam).Some? <==>
            forall k: nat, c: Claim | Stands(ops, k, c) :: c.mic == mic ==> c.cam == cam
  {
    var claims := After(ops).claims;
    hide Stands, After;
    if Taken(After(ops), mic, cam) {
      var i :| 0 <= i < |claims| && claims[i].mic == mic && claims[i].cam != cam;
      HeldExactly(ops, claims[i]);
    } else {
      forall k: nat, c: Claim | Stands(ops, k, c) && c.mic == mic ensures c.cam == cam {
        HeldExactly(ops, c);
      }
    }
  }

  /** No two claims of one microphone stand. */
  lemma OneStands(ops: seq<Op>, k: nat, m: nat, c: Claim, d: Claim)
    requires Stands(ops, k, c) && Stands(ops, m, d) && c.mic == d.mic
    ensures k == m && c == d
  {
    GrantKeepsMic(ops, k);
    GrantKeepsMic(ops, m);
    hide Granted;
    assert k < m ==> Ends(ops, m, c);
    assert m < k ==> Ends(ops, k, d);
  }

  lemma GrantKeepsMic(ops: seq<Op>, k: nat)
    requires k < |ops| && Granted(ops, k).Some?
    ensures ops[k].Take? && Granted(ops, k).value.mic == ops[k].mic
  {
  }

  lemma {:induction false} TokensGrow(ops: seq<Op>)
    ensures forall c :: c in After(ops).claims ==> c.token < After(ops).next
    ensures forall k: nat :: k < |ops| && Granted(ops, k).Some? ==> Granted(ops, k).value.token < After(ops).next
  {
    if ops != [] {
      var n := |ops| - 1;
      TokensGrow(ops[..n]);
      forall k: nat | k < n ensures Granted(ops[..n], k) == Granted(ops, k) {
        GrantedBefore(ops, k, n);
      }
    }
  }

  /** Giving back a claim that a newer one has replaced changes nothing. */
  lemma {:induction false} StaleReleaseIsHarmless(ops: seq<Op>, k: nat, c: Claim, d: Claim)
    requires k < |ops| && Granted(ops, k) == Some(c)
    requires exists j: nat :: k < j && Stands(ops, j, d) && d.mic == c.mic
    ensures d in After(ops + [Release(c.mic, c.token)]).claims
  {
    var j: nat :| k < j && Stands(ops, j, d) && d.mic == c.mic;
    HeldExactly(ops, d);
    TokensGrow(ops[..j]);
    GrantedBefore(ops, k, j);
    AppendTake(ops, Release(c.mic, c.token));
    assert d.token == After(ops[..j]).next;
  }

  /**
    What replacing a claim means: once a restarted detector gives its claim back, another camera
    gets the microphone even if the detector it replaced has not stopped.
   */
  lemma ReplacedDetectorMayOverlap(mic: string)
    ensures var ops := [Take(mic, 1), Take(mic, 1), Release(mic, 2), Take(mic, 2)];
            Granted(ops, 0) == Some(Claim(mic, 1, 1)) && Granted(ops, 3) == Some(Claim(mic, 2, 3))
  {
    var ops := [Take(mic, 1), Take(mic, 1), Release(mic, 2), Take(mic, 2)];
    assert ops[..0] == [] && ops[..1] == [] + [ops[0]]
      && ops[..2] == ops[..1] + [ops[1]] && ops[..3] == ops[..2] + [ops[2]];
    OneMore([], ops[0]);
    OneMore(ops[..1], ops[1]);
    OneMore(ops[..2], ops[2]);
    DropOne(Claim(mic, 1, 1), OfMic(mic));
    DropOne(Claim(mic, 1, 2), OfToken(mic, 2));
    assert After([]) == EMPTY && Drop([], OfMic(mic)) == [];
    hide After, Drop;
    assert After(ops[..1]) == Book([Claim(mic, 1, 1)], 2);
    assert After(ops[..2]) == Book([Claim(mic, 1, 2)], 3);
    assert After(ops[..3]) == Book([], 3);
  }

  lemma OneMore(ops: seq<Op>, op: Op)
    ensures After(ops + [op]) == Do(After(ops), op)
  {
    AppendTake(ops, op);
  }

  lemma DropOne(c: Claim, out: Claim -> bool)
    ensures Drop([c], out) == if out(c) then [] else [c]
  {
    assert [c][..0] == [];
  }
}
