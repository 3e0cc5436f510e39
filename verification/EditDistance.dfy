/**
  The edit distance of `alpr.rs`: a dynamic programme over two rows that are filled in place
  and swapped, against its meaning, the cheapest script of single-character edits.
 */
module EditDistance {
  import opened Seqs

  datatype Edit = Keep | Subst(c: char) | Insert(c: char) | Delete

  /** Number of edits of a script; keeping a character is free. */
  function Cost(script: seq<Edit>): nat {
    if script == [] then 0
    else Cost(script[..|script| - 1]) + if script[|script| - 1].Keep? then 0 else 1
  }

  /** Working through `a` from left to right, the script writes `b`. */
  predicate Turns(script: seq<Edit>, a: string, b: string) {
    if script == [] then a == [] && b == []
    else
      var before := script[..|script| - 1];
      match script[|script| - 1]
      case Keep => a != [] && b != [] && a[|a| - 1] == b[|b| - 1] && Turns(before, a[..|a| - 1], b[..|b| - 1])
      case Subst(c) => a != [] && b != [] && b[|b| - 1] == c && Turns(before, a[..|a| - 1], b[..|b| - 1])
      case Insert(c) => b != [] && b[|b| - 1] == c && Turns(before, a, b[..|b| - 1])
      case Delete => a != [] && Turns(before, a[..|a| - 1], b)
  }

  /** `d` is what the cheapest script from `a` to `b` costs. */
  ghost predicate IsCheapest(a: string, b: string, d: nat) {
    && (exists s :: Turns(s, a, b) && Cost(s) == d)
    && forall s :: Turns(s, a, b) ==> Cost(s) >= d
  }

  function Least(x: nat, y: nat, z: nat): nat {
    var m := if x <= y then x else y;
    if m <= z then m else z
  }

  function Differ(x: char, y: char): nat { if x == y then 0 else 1 }

  function Init(s: string): (r: string)
    requires s != []
    ensures |r| == |s| - 1
  {
    s[..|s| - 1]
  }

  /** The recurrence the rows follow. */
  function Dist(a: string, b: string): nat
    decreases |a| + |b|
  {
    if a == [] then |b|
    else if b == [] then |a|
    else
      Least(Dist(Init(a), b) + 1, Dist(a, Init(b)) + 1, Dist(Init(a), Init(b)) + Differ(a[|a| - 1], b[|b| - 1]))
  }

  /** A row of the table: the distances from one prefix of `a` to the first `n` prefixes of `b`. */
  ghost predicate RowOf(row: array<nat>, a: string, b: string, n: nat)
    reads row
  {
    row.Length == |b| + 1 && n <= row.Length && forall k :: 0 <= k < n ==> row[k] == Dist(a, b[..k])
  }

  /** `levenshtein`: two rows, filled left to right and swapped. */
  method Levenshtein(a: string, b: string) returns (d: nat)
    ensures d == Dist(a, b)
    ensures IsCheapest(a, b, d)
  {
    hide Dist, IsCheapest;
    var prev := new nat[|b| + 1](i => i);
    var cur := new nat[|b| + 1](i => 0);
    forall k | 0 <= k <= |b| ensures Dist(a[..0], b[..k]) == k { DistFromNothing(a[..0], b[..k]); }
    for i := 0 to |a|
      invariant prev != cur && cur.Length == |b| + 1
      invariant fresh(prev) && fresh(cur)
      invariant RowOf(prev, a[..i], b, |b| + 1)
    {
      cur[0] := i + 1;
      DistFromNothing(b[..0], a[..i + 1]);
      for j := 0 to |b|
        invariant RowOf(prev, a[..i], b, |b| + 1)
        invariant RowOf(cur, a[..i + 1], b, j + 1)
      {
        var cost := if a[i] == b[j] then 0 else 1;
        RowStep(a, b, i, j);
        cur[j + 1] := Least(prev[j + 1] + 1, cur[j] + 1, prev[j] + cost);
      }
      prev, cur := cur, prev;
    }
    TakeAll(a);
    TakeAll(b);
    d := prev[|b|];
    DistIsCheapest(a, b);
  }

  lemma DistFromNothing(a: string, b: string)
    requires a == []
    ensures Dist(a, b) == |b| && Dist(b, a) == |b|
  {
  }

  lemma DistUnfolds(p: string, q: string)
    requires p != [] && q != []
    ensures Dist(p, q)
            == Least(Dist(Init(p), q) + 1, Dist(p, Init(q)) + 1,
                     Dist(Init(p), Init(q)) + Differ(p[|p| - 1], q[|q| - 1]))
  {
    hide Init, Least, Differ;
  }

  lemma DistLast(a: string, x: char, b: string, y: char)
    ensures Dist(a + [x], b + [y]) == Least(Dist(a, b + [y]) + 1, Dist(a + [x], b) + 1, Dist(a, b) + Differ(x, y))
  {
    hide Dist;
    AppendTake(a, x);
    AppendTake(b, y);
    DistUnfolds(a + [x], b + [y]);
  }

  lemma RowStep(a: string, b: string, i: nat, j: nat)
    requires i < |a| && j < |b|
    ensures Dist(a[..i + 1], b[..j + 1])
            == Least(Dist(a[..i], b[..j + 1]) + 1, Dist(a[..i + 1], b[..j]) + 1,
                     Dist(a[..i], b[..j]) + Differ(a[i], b[j]))
  {
    hide Dist;
    TakeNext(a, i);
    TakeNext(b, j);
    DistLast(a[..i], a[i], b[..j], b[j]);
  }

  // ---------------------------------------------------------------- cheapest scripts

  lemma ScriptMore(s: seq<Edit>, e: Edit)
    ensures (s + [e])[..|s|] == s
    ensures Cost(s + [e]) == Cost(s) + if e.Keep? then 0 else 1
  {
  }

  lemma {:induction false} BestScript(a: string, b: string) returns (s: seq<Edit>)
    ensures Turns(s, a, b) && Cost(s) == Dist(a, b)
    decreases |a| + |b|
  {
    if a == [] && b == [] {
      s := [];
    } else if a == [] {
      s := BestScript(a, b[..|b| - 1]);
      ScriptMore(s, Insert(b[|b| - 1]));
      s := s + [Insert(b[|b| - 1])];
    } else if b == [] {
      s := BestScript(a[..|a| - 1], b);
      ScriptMore(s, Delete);
      s := s + [Delete];
    } else {
      s := BestStep(a, b);
    }
  }

  lemma {:induction false} BestStep(a: string, b: string) returns (s: seq<Edit>)
    requires a != [] && b != []
    ensures Turns(s, a, b) && Cost(s) == Dist(a, b)
    decreases |a| + |b|, 0
  {
    var (i, j) := (|a| - 1, |b| - 1);
    var d := Dist(a, b);
    if d == Dist(a[..i], b) + 1 {
      s := BestScript(a[..i], b);
      ScriptMore(s, Delete);
      s := s + [Delete];
    } else if d == Dist(a, b[..j]) + 1 {
      s := BestScript(a, b[..j]);
      ScriptMore(s, Insert(b[j]));
      s := s + [Insert(b[j])];
    } else {
      s := BestScript(a[..i], b[..j]);
      var e := if a[i] == b[j] then Keep else Subst(b[j]);
      ScriptMore(s, e);
      s := s + [e];
    }
  }

  lemma DistSteps(a: string, b: string)
    ensures a != [] ==> Dist(a, b) <= Dist(a[..|a| - 1], b) + 1
    ensures b != [] ==> Dist(a, b) <= Dist(a, b[..|b| - 1]) + 1
    ensures a != [] && b != [] ==> Dist(a, b) <= Dist(a[..|a| - 1], b[..|b| - 1]) + Differ(a[|a| - 1], b[|b| - 1])
  {
  }

  lemma {:induction false} NoScriptIsCheaper(s: seq<Edit>, a: string, b: string)
    requires Turns(s, a, b)
    ensures Cost(s) >= Dist(a, b)
  {
    if s != [] {
      var before := s[..|s| - 1];
      DistSteps(a, b);
      match s[|s| - 1]
      case Keep => NoScriptIsCheaper(before, a[..|a| - 1], b[..|b| - 1]);
      case Subst(_) => NoScriptIsCheaper(before, a[..|a| - 1], b[..|b| - 1]);
      case Insert(_) => NoScriptIsCheaper(before, a, b[..|b| - 1]);
      case Delete => NoScriptIsCheaper(before, a[..|a| - 1], b);
    }
  }

  /** The recurrence computes the cheapest script's cost. */
  lemma DistIsCheapest(a: string, b: string)
    ensures IsCheapest(a, b, Dist(a, b))
  {
    var s := BestScript(a, b);
    forall t | Turns(t, a, b) ensures Cost(t) >= Dist(a, b) { NoScriptIsCheaper(t, a, b); }
  }

  // ---------------------------------------------------------------- a metric

  lemma {:induction false} FreeScriptKeeps(s: seq<Edit>, a: string, b: string)
    requires Turns(s, a, b) && Cost(s) == 0
    ensures a == b
  {
    if s != [] {
      FreeScriptKeeps(s[..|s| - 1], a[..|a| - 1], b[..|b| - 1]);
      InitLast(a);
      InitLast(b);
    }
  }

  lemma {:induction false} SameIsFree(a: string)
    ensures Dist(a, a) == 0
  {
    if a != [] { SameIsFree(a[..|a| - 1]); }
  }

  lemma {:induction false} ZeroIffEqual(a: string, b: string)
    ensures Dist(a, b) == 0 <==> a == b
  {
    if Dist(a, b) == 0 {
      var s := BestScript(a, b);
      FreeScriptKeeps(s, a, b);
    }
    SameIsFree(a);
  }

  lemma {:induction false} Symmetric(a: string, b: string)
    ensures Dist(a, b) == Dist(b, a)
    decreases |a| + |b|
  {
    if a != [] && b != [] {
      Symmetric(a[..|a| - 1], b);
      Symmetric(a, b[..|b| - 1]);
      Symmetric(a[..|a| - 1], b[..|b| - 1]);
    }
  }

  /** Scripts compose: what the second does to a character the first wrote becomes one edit at most. */
  lemma {:induction false} Compose(s: seq<Edit>, t: seq<Edit>, a: string, b: string, c: string) returns (r: seq<Edit>)
    requires Turns(s, a, b) && Turns(t, b, c)
    ensures Turns(r, a, c) && Cost(r) <= Cost(s) + Cost(t)
    decreases |s| + |t|
  {
    if s != [] && s[|s| - 1].Delete? {
      r := Compose(s[..|s| - 1], t, a[..|a| - 1], b, c);
      ScriptMore(r, Delete);
      r := r + [Delete];
    } else if t != [] && t[|t| - 1].Insert? {
      var e := t[|t| - 1];
      r := Compose(s, t[..|t| - 1], a, b, c[..|c| - 1]);
      ScriptMore(r, e);
      r := r + [e];
    } else if s == [] {
      r := [];
    } else {
      r := ComposeLast(s, t, a, b, c);
    }
  }

  lemma {:induction false} ComposeLast(s: seq<Edit>, t: seq<Edit>, a: string, b: string, c: string)
    returns (r: seq<Edit>)
    requires Turns(s, a, b) && Turns(t, b, c)
    requires s != [] && !s[|s| - 1].Delete? && t != [] && !t[|t| - 1].Insert?
    ensures Turns(r, a, c) && Cost(r) <= Cost(s) + Cost(t)
    decreases |s| + |t|, 0
  {
    var s0, t0, b0 := s[..|s| - 1], t[..|t| - 1], b[..|b| - 1];
    var x, y := s[|s| - 1], t[|t| - 1];
    if x.Insert? && y.Delete? {
      r := Compose(s0, t0, a, b0, c);
    } else if x.Insert? {
      r := Compose(s0, t0, a, b0, c[..|c| - 1]);
      var e := Insert(c[|c| - 1]);
      ScriptMore(r, e);
      r := r + [e];
    } else if y.Delete? {
      r := Compose(s0, t0, a[..|a| - 1], b0, c);
      ScriptMore(r, Delete);
      r := r + [Delete];
    } else {
      r := Compose(s0, t0, a[..|a| - 1], b0, c[..|c| - 1]);
      var e := if x.Keep? && y.Keep? then Keep else Subst(c[|c| - 1]);
      ScriptMore(r, e);
      r := r + [e];
    }
  }

  lemma {:induction false} Triangle(a: string, b: string, c: string)
    ensures Dist(a, c) <= Dist(a, b) + Dist(b, c)
  {
    var s := BestScript(a, b);
    var t := BestScript(b, c);
    var r := Compose(s, t, a, b, c);
    NoScriptIsCheaper(r, a, c);
  }

  // ---------------------------------------------------------------- one misread

  ghost predicate Replaced(a: string, b: string, i: int) {
    |a| == |b| && 0 <= i < |a| && a[i] != b[i] && a[..i] == b[..i] && a[i + 1..] == b[i + 1..]
  }

  /** `b` is `a` with one character added at `i`. */
  ghost predicate Added(a: string, b: string, i: int) {
    |b| == |a| + 1 && 0 <= i < |b| && a[..i] == b[..i] && a[i..] == b[i + 1..]
  }

  /** One character replaced, added or left out. */
  ghost predicate OneMisread(a: string, b: string) {
    exists i :: Replaced(a, b, i) || Added(a, b, i) || Added(b, a, i)
  }

  lemma MisreadMore(a: string, b: string, x: char)
    ensures OneMisread(a, b) ==> OneMisread(a + [x], b + [x])
  {
    if OneMisread(a, b) {
      var i :| Replaced(a, b, i) || Added(a, b, i) || Added(b, a, i);
      MisreadMoreAt(a, b, x, i);
      assert Replaced(a + [x], b + [x], i) || Added(a + [x], b + [x], i) || Added(b + [x], a + [x], i);
    }
  }

  lemma MisreadMoreAt(a: string, b: string, x: char, i: int)
    ensures Replaced(a, b, i) ==> Replaced(a + [x], b + [x], i)
    ensures Added(a, b, i) ==> Added(a + [x], b + [x], i)
    ensures Added(b, a, i) ==> Added(b + [x], a + [x], i)
  {
    SliceMore(a, x, i);
    SliceMore(a, x, i + 1);
    SliceMore(b, x, i);
    SliceMore(b, x, i + 1);
  }

  lemma SliceMore(a: string, x: char, i: int)
    ensures 0 <= i <= |a| ==> (a + [x])[..i] == a[..i] && (a + [x])[i..] == a[i..] + [x]
  {
  }

  lemma MisreadAtEnd(a: string, x: char, y: char)
    ensures x != y ==> Replaced(a + [x], a + [y], |a|)
    ensures Added(a, a + [x], |a|)
  {
    SliceMore(a, x, |a|);
    SliceMore(a, y, |a|);
  }

  /** A script with one edit reads one character wrong, or replaces a character by itself. */
  lemma {:induction false} OneEditIsOneMisread(s: seq<Edit>, a: string, b: string)
    requires Turns(s, a, b) && Cost(s) == 1 && a != b
    ensures OneMisread(a, b)
  {
    var s0 := s[..|s| - 1];
    if a != [] { InitLast(a); }
    if b != [] { InitLast(b); }
    match s[|s| - 1]
    case Keep =>
      OneEditIsOneMisread(s0, a[..|a| - 1], b[..|b| - 1]);
      MisreadMore(a[..|a| - 1], b[..|b| - 1], a[|a| - 1]);
    case Subst(_) =>
      FreeScriptKeeps(s0, a[..|a| - 1], b[..|b| - 1]);
      MisreadAtEnd(a[..|a| - 1], a[|a| - 1], b[|b| - 1]);
    case Insert(c) =>
      FreeScriptKeeps(s0, a, b[..|b| - 1]);
      MisreadAtEnd(a, c, c);
    case Delete =>
      FreeScriptKeeps(s0, a[..|a| - 1], b);
      MisreadAtEnd(b, a[|a| - 1], a[|a| - 1]);
  }

  lemma {:induction false} CommonEndIsFree(a: string, b: string, u: string)
    ensures Dist(a + u, b + u) <= Dist(a, b)
    decreases |u|
  {
    if u == [] {
      Units(a);
      Units(b);
    } else {
      var v, x := u[..|u| - 1], u[|u| - 1];
      CommonEndIsFree(a, b, v);
      InitLast(u);
      Assoc(a, v, [x]);
      Assoc(b, v, [x]);
      DistSteps(a + v + [x], b + v + [x]);
      AppendTake(a + v, x);
      AppendTake(b + v, x);
    }
  }

  lemma {:induction false} CommonStartIsFree(u: string, a: string)
    ensures Dist(u, u + a) <= |a|
    decreases |a|
  {
    if a == [] {
      Units(u);
      SameIsFree(u);
    } else {
      var v, x := a[..|a| - 1], a[|a| - 1];
      CommonStartIsFree(u, v);
      InitLast(a);
      Assoc(u, v, [x]);
      AppendTake(u + v, x);
      DistSteps(u, u + v + [x]);
    }
  }

  lemma AddedCostsOne(a: string, b: string, i: int)
    requires Added(a, b, i)
    ensures Dist(a, b) <= 1
  {
    hide Dist;
    CommonStartIsFree(a[..i], [b[i]]);
    CommonEndIsFree(a[..i], a[..i] + [b[i]], a[i..]);
    assert a[..i] + a[i..] == a;
    assert a[..i] + [b[i]] + a[i..] == b;
  }

  lemma ReplacedCostsOne(a: string, b: string, i: int)
    requires Replaced(a, b, i)
    ensures Dist(a, b) <= 1
  {
    hide Dist;
    var u := a[..i];
    SameIsFree(u);
    DistLast(u, a[i], u, b[i]);
    CommonEndIsFree(u + [a[i]], u + [b[i]], a[i + 1..]);
    assert u + [a[i]] + a[i + 1..] == a;
    assert u + [b[i]] + a[i + 1..] == b;
  }

  /** Distance one is exactly a single misread character. */
  lemma OneIffMisread(a: string, b: string)
    ensures Dist(a, b) == 1 <==> OneMisread(a, b)
  {
    ZeroIffEqual(a, b);
    if Dist(a, b) == 1 {
      var s := BestScript(a, b);
      OneEditIsOneMisread(s, a, b);
    }
    if OneMisread(a, b) {
      var i :| Replaced(a, b, i) || Added(a, b, i) || Added(b, a, i);
      Symmetric(a, b);
      if Replaced(a, b, i) { ReplacedCostsOne(a, b, i); }
      else if Added(a, b, i) { AddedCostsOne(a, b, i); }
      else { AddedCostsOne(b, a, i); }
    }
  }
}
