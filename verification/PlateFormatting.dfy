/**
  What `alpr.rs` promises about how a plate is written: dashes, spaces and case do not matter, in
  the plate that was read and in the plates of the setting.
 */
module PlateFormatting {
  import opened Options
  import opened Seqs
  import opened PlateMatcher

  // ---------------------------------------------------------------- one edit of the writing

  /** `q` is `p` with a character more that is neither letter nor digit. */
  ghost predicate Inserted(p: string, q: string) {
    exists i :: 0 <= i < |q| && !IsAlnum(q[i]) && p == q[..i] + q[i + 1..]
  }

  predicate SameLetter(c: char, d: char) { IsAlnum(c) && IsAlnum(d) && Upper(c) == Upper(d) }

  /** One letter in its other case. */
  ghost predicate Recased(p: string, q: string) {
    |p| == |q| && exists i :: 0 <= i < |p| && SameLetter(p[i], q[i]) && q == p[i := q[i]]
  }

  ghost predicate Edit(p: string, q: string) { Inserted(p, q) || Inserted(q, p) || Recased(p, q) }

  /** Each string is an edit of the one before. */
  ghost predicate Chain(steps: seq<string>) {
    steps != [] && forall k :: 0 <= k < |steps| - 1 ==> Edit(steps[k], steps[k + 1])
  }

  ghost predicate Links(steps: seq<string>, p: string, q: string) {
    Chain(steps) && steps[0] == p && steps[|steps| - 1] == q
  }

  /** The two differ in how they are written only: a number of edits makes one into the other. */
  ghost predicate Alike(p: string, q: string) { exists steps :: Links(steps, p, q) }

  // ---------------------------------------------------------------- edits keep the normal form

  lemma {:induction false} NormOfParts(a: string, b: string)
    ensures Norm(a + b) == Norm(a) + Norm(b)
    decreases |b|
  {
    if b == [] {
      Units(a);
    } else {
      var n := |b| - 1;
      NormOfParts(a, b[..n]);
      assert (a + b)[..|a + b| - 1] == a + b[..n];
    }
  }

  lemma NormOfChar(c: char)
    ensures Norm([c]) == if IsAlnum(c) then [Upper(c)] else []
  {
    assert [c][..0] == [];
  }

  lemma NormAround(a: string, c: char, b: string)
    ensures Norm(a + [c] + b) == Norm(a) + (if IsAlnum(c) then [Upper(c)] else []) + Norm(b)
  {
    NormOfParts(a + [c], b);
    NormOfParts(a, [c]);
    NormOfChar(c);
  }

  lemma InsertingKeepsNorm(p: string, q: string)
    requires Inserted(p, q)
    ensures Norm(p) == Norm(q)
  {
    hide Norm;
    var i :| 0 <= i < |q| && !IsAlnum(q[i]) && p == q[..i] + q[i + 1..];
    NormAround(q[..i], q[i], q[i + 1..]);
    NormOfParts(q[..i], q[i + 1..]);
    UpdateSame(q, i);
    UpdateAround(q, i, q[i]);
    Units(Norm(q[..i]));
  }

  lemma RecasingKeepsNorm(p: string, q: string)
    requires Recased(p, q)
    ensures Norm(p) == Norm(q)
  {
    hide Norm;
    var i :| 0 <= i < |p| && SameLetter(p[i], q[i]) && q == p[i := q[i]];
    NormAround(p[..i], p[i], p[i + 1..]);
    NormAround(p[..i], q[i], p[i + 1..]);
    UpdateSame(p, i);
    UpdateAround(p, i, p[i]);
    UpdateAround(p, i, q[i]);
  }

  lemma {:induction false} ChainKeepsNorm(steps: seq<string>)
    requires Chain(steps)
    ensures Norm(steps[0]) == Norm(steps[|steps| - 1])
  {
    hide Norm, Inserted, Recased;
    if |steps| > 1 {
      var n := |steps| - 1;
      ChainKeepsNorm(steps[..n]);
      assert Edit(steps[n - 1], steps[n]);
      if Recased(steps[n - 1], steps[n]) {
        RecasingKeepsNorm(steps[n - 1], steps[n]);
      } else if Inserted(steps[n - 1], steps[n]) {
        InsertingKeepsNorm(steps[n - 1], steps[n]);
      } else {
        InsertingKeepsNorm(steps[n], steps[n - 1]);
      }
    }
  }

  // ---------------------------------------------------------------- edits reach the normal form

  lemma OneEditIsAlike(p: string, q: string)
    requires Edit(p, q) || p == q
    ensures Alike(p, q)
  {
    hide Edit;
    if p == q { assert Links([p], p, q); } else { assert Links([p, q], p, q); }
  }

  lemma AlikeThrough(p: string, q: string, r: string)
    requires Alike(p, q) && Alike(q, r)
    ensures Alike(p, r)
  {
    hide Edit;
    var u :| Links(u, p, q);
    var v :| Links(v, q, r);
    var w := u + v[1..];
    forall k | 0 <= k < |w| - 1 ensures Edit(w[k], w[k + 1]) {
      if k < |u| - 1 { assert Edit(u[k], u[k + 1]); } else { assert Edit(v[k - |u| + 1], v[k - |u| + 2]); }
    }
    assert Links(w, p, r);
  }

  lemma EditBefore(p: string, q: string, c: char)
    requires Edit(p, q)
    ensures Edit(p + [c], q + [c])
  {
    if Recased(p, q) {
      var i :| 0 <= i < |p| && SameLetter(p[i], q[i]) && q == p[i := q[i]];
      assert q + [c] == (p + [c])[i := (q + [c])[i]];
    } else if Inserted(p, q) {
      InsertedBefore(p, q, c);
    } else {
      InsertedBefore(q, p, c);
    }
  }

  lemma InsertedBefore(p: string, q: string, c: char)
    requires Inserted(p, q)
    ensures Inserted(p + [c], q + [c])
  {
    var i :| 0 <= i < |q| && !IsAlnum(q[i]) && p == q[..i] + q[i + 1..];
    var r := q + [c];
    assert r[..i] == q[..i] && r[i + 1..] == q[i + 1..] + [c];
    Assoc(q[..i], q[i + 1..], [c]);
    assert !IsAlnum(r[i]);
  }

  lemma AlikeBefore(p: string, q: string, c: char)
    requires Alike(p, q)
    ensures Alike(p + [c], q + [c])
  {
    hide Edit;
    var u :| Links(u, p, q);
    var w := seq(|u|, k requires 0 <= k < |u| => u[k] + [c]);
    forall k | 0 <= k < |w| - 1 ensures Edit(w[k], w[k + 1]) { EditBefore(u[k], u[k + 1], c); }
    assert Links(w, p + [c], q + [c]);
  }

  lemma LastChar(s: string, c: char)
    ensures !IsAlnum(c) ==> Edit(s + [c], s) && Edit(s, s + [c])
    ensures IsAlnum(c) ==> Edit(s + [c], s + [Upper(c)]) && Edit(s + [Upper(c)], s + [c])
  {
    var t, n := s + [c], |s|;
    if IsAlnum(c) {
      var v := s + [Upper(c)];
      UpperIsNormal(c);
      assert v == t[n := v[n]] && t == v[n := t[n]] && SameLetter(t[n], v[n]) && SameLetter(v[n], t[n]);
    } else {
      assert t[..n] + t[n + 1..] == s && t[n] == c;
    }
  }

  /** Leaving out and capitalising, one character at a time. */
  lemma {:induction false} AlikeToNorm(s: string)
    ensures Alike(s, Norm(s)) && Alike(Norm(s), s)
  {
    hide Edit, Alike;
    if s == [] {
      OneEditIsAlike([], []);
    } else {
      var n := |s| - 1;
      var c, rest := s[n], Norm(s[..n]);
      AlikeToNorm(s[..n]);
      InitLast(s);
      AlikeBefore(s[..n], rest, c);
      AlikeBefore(rest, s[..n], c);
      LastChar(rest, c);
      OneEditIsAlike(rest + [c], Norm(s));
      OneEditIsAlike(Norm(s), rest + [c]);
      AlikeThrough(s, rest + [c], Norm(s));
      AlikeThrough(Norm(s), rest + [c], s);
    }
  }

  /** The normal form keeps all that formatting leaves alone, and nothing that it changes. */
  lemma SameNormExactly(p: string, q: string)
    ensures Norm(p) == Norm(q) <==> Alike(p, q)
  {
    if steps :| Links(steps, p, q) { ChainKeepsNorm(steps); }
    if Norm(p) == Norm(q) {
      AlikeToNorm(p);
      AlikeToNorm(q);
      hide Alike;
      AlikeThrough(p, Norm(p), q);
    }
  }

  // ---------------------------------------------------------------- both sides of the lookup

  lemma {:induction false} SplitAtFirst(p: string, name: string, from: nat)
    requires '=' !in p && from <= |p|
    ensures SplitOnce(p + "=" + name, from) == Some((p, name))
    decreases |p| - from
  {
    var line := p + "=" + name;
    if from < |p| {
      assert line[from] == p[from] && p[from] in p;
      SplitAtFirst(p, name, from + 1);
    } else {
      assert line[from] == '=' && line[..from] == p && line[from + 1..] == name;
    }
  }

  /** The same line, or the same name behind a plate that is written differently. */
  ghost predicate LineAlike(line: string, other: string) {
    line == other || exists p, q, name :: PlateOnLine(line, p, name) && PlateOnLine(other, q, name) && Alike(p, q)
  }

  ghost predicate PlateOnLine(line: string, p: string, name: string) { '=' !in p && line == p + "=" + name }

  lemma LineEntry(line: string, other: string)
    requires LineAlike(line, other)
    ensures EntryOf(line) == EntryOf(other)
  {
    hide Alike, SplitOnce, Norm, Trim;
    if line != other {
      var p, q, name :| PlateOnLine(line, p, name) && PlateOnLine(other, q, name) && Alike(p, q);
      SplitAtFirst(p, name, 0);
      SplitAtFirst(q, name, 0);
      SameNormExactly(p, q);
    }
  }

  lemma {:induction false} LinesKnown(lines: seq<string>, others: seq<string>)
    requires |lines| == |others| && forall k :: 0 <= k < |lines| ==> LineAlike(lines[k], others[k])
    ensures Known(lines) == Known(others)
  {
    hide LineAlike, EntryOf;
    if lines != [] {
      var n := |lines| - 1;
      LinesKnown(lines[..n], others[..n]);
      LineEntry(lines[n], others[n]);
    }
  }

  /** Dashes, spaces and case do not matter, in the plate read and in the plates of the setting. */
  lemma FormattingDoesNotMatter(p: string, q: string, lines: seq<string>, others: seq<string>)
    requires Alike(p, q)
    requires |lines| == |others| && forall k :: 0 <= k < |lines| ==> LineAlike(lines[k], others[k])
    ensures MatchKnownPlate(p, lines) == MatchKnownPlate(q, others)
  {
    hide Alike, LineAlike, Norm, Known;
    SameNormExactly(p, q);
    LinesKnown(lines, others);
  }
}
