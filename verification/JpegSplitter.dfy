/**
  The incremental MJPEG splitter of `dshow.rs`: a pipe delivers a JPEG stream in
  arbitrary chunks, and `next_jpeg` cuts complete images (SOI `FF D8` .. EOI `FF D9`,
  section B.1.1.3 of ITU-T T.81) out of an in-place buffer with a resumable scan index.

  `Frames` and `Tail` are the reference: they look at a whole byte stream at once. The class
  `Splitter` is the code. `JpegRuns` relates the two for every way of chunking.
 */
module JpegSplitter {
  import opened Numbers
  import opened Options
  import opened Seqs

  const PREFIX: Byte := 0xFF
  const SOI: Byte := 0xD8
  const EOI: Byte := 0xD9
  const MIN_FRAME := 100
  const MAX_PENDING := 8 * 1024 * 1024
  const READ_SIZE := 64 * 1024

  predicate MarkerAt(s: seq<Byte>, marker: Byte, i: int) {
    0 <= i && i + 1 < |s| && s[i] == PREFIX && s[i + 1] == marker
  }

  /** The first two-byte window at or after `from` that holds `marker`. */
  function Find(s: seq<Byte>, marker: Byte, from: nat): (r: Option<nat>)
    ensures r.Some? ==> from <= r.value && MarkerAt(s, marker, r.value)
    decreases |s| - from
  {
    if from + 1 >= |s| then None
    else if MarkerAt(s, marker, from) then Some(from)
    else Find(s, marker, from + 1)
  }

  // ---------------------------------------------------------------- reference

  /** The next SOI-to-EOI span of a stream, or what is kept while its end is missing. */
  datatype Cut = Unfinished(tail: seq<Byte>) | Span(frame: seq<Byte>, rest: seq<Byte>)

  function NextCut(s: seq<Byte>): (c: Cut)
    ensures c.Span? ==> |c.rest| < |s|
    ensures c.Unfinished? ==> |c.tail| <= |s|
  {
    match Find(s, SOI, 0)
    case None => Unfinished(if s == [] then [] else s[|s| - 1..])
    case Some(i) =>
      match Find(s, EOI, i + 2)
      case None => Unfinished(s[i..])
      case Some(j) => Span(s[i..j + 2], s[j + 2..])
  }

  function Keep(frame: seq<Byte>): seq<seq<Byte>> {
    if |frame| >= MIN_FRAME then [frame] else []
  }

  /** Whole-stream reading: next SOI, first EOI after it, fragments dropped, repeat. */
  function Frames(s: seq<Byte>): seq<seq<Byte>>
    decreases |s|
  {
    match NextCut(s)
    case Unfinished(_) => []
    case Span(frame, rest) => Keep(frame) + Frames(rest)
  }

  /** What is left of the stream after its last complete span. */
  function Tail(s: seq<Byte>): seq<Byte>
    decreases |s|
  {
    match NextCut(s)
    case Unfinished(tail) => tail
    case Span(_, rest) => Tail(rest)
  }

  /** One complete image: SOI first, EOI last, and no earlier EOI. */
  ghost predicate WellFormed(f: seq<Byte>) {
    && |f| >= MIN_FRAME
    && MarkerAt(f, SOI, 0)
    && MarkerAt(f, EOI, |f| - 2)
    && forall k :: 2 <= k < |f| - 2 ==> !MarkerAt(f, EOI, k)
  }

  function Concat(parts: seq<seq<Byte>>): seq<Byte> {
    if parts == [] then [] else Concat(parts[..|parts| - 1]) + parts[|parts| - 1]
  }

  // ------------------------------------------------- how windows move under slicing

  /** The bytes at `k` and behind it. */
  predicate HasPair(f: seq<Byte>, k: nat, pair: seq<Byte>) { k + 2 <= |f| && f[k..k + 2] == pair }

  lemma PairAt(s: seq<Byte>, marker: Byte, k: nat)
    ensures MarkerAt(s, marker, k) <==> HasPair(s, k, [0xFF, marker])
  {
    if k + 2 <= |s| { assert s[k..k + 2] == [s[k], s[k + 1]]; }
  }

  /** In bytes: FF D8 in front, FF D9 at the end, and FF D9 nowhere between. */
  lemma ImageInBytes(f: seq<Byte>)
    ensures WellFormed(f)
            <==> && |f| >= 100 && HasPair(f, 0, [0xFF, 0xD8]) && HasPair(f, |f| - 2, [0xFF, 0xD9])
                 && forall k :: 2 <= k < |f| - 2 ==> !HasPair(f, k, [0xFF, 0xD9])
  {
    hide HasPair;
    PairAt(f, 0xD8, 0);
    forall k: nat ensures MarkerAt(f, EOI, k) <==> HasPair(f, k, [0xFF, 0xD9]) { PairAt(f, 0xD9, k); }
    hide MarkerAt;
  }

  lemma WindowInSuffix(g: seq<Byte>, u: seq<Byte>, marker: Byte, k: nat)
    ensures MarkerAt(g + u, marker, |g| + k) <==> MarkerAt(u, marker, k)
  {
    if k + 1 < |u| {
      assert (g + u)[|g| + k] == u[k] && (g + u)[|g| + k + 1] == u[k + 1];
    }
  }

  lemma WindowInPrefix(s: seq<Byte>, t: seq<Byte>, marker: Byte, k: nat)
    requires k + 1 < |s|
    ensures MarkerAt(s + t, marker, k) <==> MarkerAt(s, marker, k)
  {
    assert (s + t)[k] == s[k] && (s + t)[k + 1] == s[k + 1];
  }

  /** The search returns the first window that holds the marker, and only misses if none does. */
  lemma {:induction false} FindIsFirst(s: seq<Byte>, marker: Byte, from: nat, k: nat)
    requires from <= k
    requires match Find(s, marker, from) case Some(i) => k < i case None => true
    ensures !MarkerAt(s, marker, k)
    decreases |s| - from
  {
    if from + 1 < |s| && from < k { FindIsFirst(s, marker, from + 1, k); }
  }

  /** Searching `g + u` past `g` is searching `u`. */
  lemma {:induction false} FindInSuffix(g: seq<Byte>, u: seq<Byte>, marker: Byte, at: nat)
    ensures Find(g + u, marker, |g| + at) ==
            match Find(u, marker, at) case None => None case Some(i) => Some(|g| + i)
    decreases |u| - at
  {
    WindowInSuffix(g, u, marker, at);
    if at + 1 < |u| && !MarkerAt(u, marker, at) {
      FindInSuffix(g, u, marker, at + 1);
    }
  }

  /** Windows that hold no marker can be skipped. */
  lemma {:induction false} FindSkips(s: seq<Byte>, marker: Byte, from: nat, upto: nat)
    requires from <= upto
    requires forall k :: from <= k < upto ==> !MarkerAt(s, marker, k)
    ensures Find(s, marker, from) == Find(s, marker, upto)
    decreases upto - from
  {
    if from < upto {
      assert !MarkerAt(s, marker, from);
      FindSkips(s, marker, from + 1, upto);
    }
  }

  /** A search that succeeds within `s` is not affected by what follows `s`. */
  lemma {:induction false} FindInPrefix(s: seq<Byte>, t: seq<Byte>, marker: Byte, from: nat)
    requires Find(s, marker, from).Some?
    ensures Find(s + t, marker, from) == Find(s, marker, from)
    decreases |s| - from
  {
    WindowInPrefix(s, t, marker, from);
    if !MarkerAt(s, marker, from) {
      FindInPrefix(s, t, marker, from + 1);
    }
  }

  // ------------------------------------------------- how one cut reacts to more bytes

  lemma SlicesOfSuffix(g: seq<Byte>, u: seq<Byte>, a: nat, b: nat)
    requires a <= b <= |u|
    ensures (g + u)[|g| + a..|g| + b] == u[a..b]
    ensures (g + u)[|g| + b..] == u[b..]
  {
  }

  lemma CutAtSpan(s: seq<Byte>, i: nat, j: nat)
    requires Find(s, SOI, 0) == Some(i) && Find(s, EOI, i + 2) == Some(j)
    ensures NextCut(s) == Span(s[i..j + 2], s[j + 2..])
  {
  }

  lemma CutAtTail(s: seq<Byte>, i: nat)
    requires Find(s, SOI, 0) == Some(i) && Find(s, EOI, i + 2).None?
    ensures NextCut(s) == Unfinished(s[i..])
  {
  }

  /** A stretch without SOI in front of a non-empty stream changes nothing. */
  lemma CutDropsGarbage(g: seq<Byte>, u: seq<Byte>)
    requires u != []
    requires forall k :: 0 <= k < |g| ==> !MarkerAt(g + u, SOI, k)
    ensures NextCut(g + u) == NextCut(u)
  {
    FindSkips(g + u, SOI, 0, |g|);
    FindInSuffix(g, u, SOI, 0);
    match Find(u, SOI, 0)
    case None => SlicesOfSuffix(g, u, |u| - 1, |u| - 1);
    case Some(i) => CutMovesAlong(g, u, i);
  }

  lemma CutMovesAlong(g: seq<Byte>, u: seq<Byte>, i: nat)
    requires Find(u, SOI, 0) == Some(i) && Find(g + u, SOI, 0) == Some(|g| + i)
    ensures NextCut(g + u) == NextCut(u)
  {
    hide NextCut, Find;
    FindInSuffix(g, u, EOI, i + 2);
    assert |g| + (i + 2) == |g| + i + 2;
    match Find(u, EOI, i + 2)
    case None =>
      CutAtTail(u, i);
      CutAtTail(g + u, |g| + i);
      SlicesOfSuffix(g, u, i, i);
    case Some(j) =>
      CutAtSpan(u, i, j);
      CutAtSpan(g + u, |g| + i, |g| + j);
      SlicesOfSuffix(g, u, i, j + 2);
  }

  /** Bytes in front of the first SOI stay garbage whatever follows. */
  lemma CutDropsGarbageBefore(s: seq<Byte>, i: nat, t: seq<Byte>)
    requires i < |s|
    requires match Find(s, SOI, 0) case Some(at) => i <= at case None => i == |s| - 1
    ensures NextCut(s + t) == NextCut(s[i..] + t)
  {
    var g, u := s[..i], s[i..] + t;
    SplitAt(s, i, t);
    forall k | 0 <= k < |g| ensures !MarkerAt(g + u, SOI, k) {
      FindIsFirst(s, SOI, 0, k);
      WindowInPrefix(s, t, SOI, k);
    }
    CutDropsGarbage(g, u);
  }

  lemma SplitAt(s: seq<Byte>, i: nat, t: seq<Byte>)
    requires i <= |s|
    ensures s[..i] + (s[i..] + t) == s + t
    ensures s[i..] + [] == s[i..] && s + [] == s
  {
  }

  /** An unfinished stream is represented by its tail: later bytes cannot tell the difference. */
  lemma CutResumes(s: seq<Byte>, t: seq<Byte>)
    requires NextCut(s).Unfinished?
    ensures NextCut(s + t) == NextCut(NextCut(s).tail + t)
  {
    if s == [] {
      assert s + t == t == NextCut(s).tail + t;
    } else {
      match Find(s, SOI, 0)
      case None => CutDropsGarbageBefore(s, |s| - 1, t);
      case Some(i) => CutDropsGarbageBefore(s, i, t);
    }
  }

  /** A complete span is cut the same whatever follows it. */
  lemma CutIsFinal(s: seq<Byte>, t: seq<Byte>)
    requires NextCut(s).Span?
    ensures NextCut(s + t) == Span(NextCut(s).frame, NextCut(s).rest + t)
  {
    var i := Find(s, SOI, 0).value;
    var j := Find(s, EOI, i + 2).value;
    FindInPrefix(s, t, SOI, 0);
    FindInPrefix(s, t, EOI, i + 2);
    assert (s + t)[j + 2..] == s[j + 2..] + t;
    assert (s + t)[i..j + 2] == s[i..j + 2];
  }

  /** The shape of a cut: a span is SOI to first EOI; a tail is one byte at most, or starts at SOI. */
  lemma CutShape(s: seq<Byte>)
    ensures match NextCut(s)
            case Span(f, _) => |f| >= MIN_FRAME ==> WellFormed(f)
            case Unfinished(t) => NextCut(t) == Unfinished(t) && (|t| >= 2 ==> MarkerAt(t, SOI, 0))
  {
    match Find(s, SOI, 0)
    case None =>
    case Some(i) =>
      match Find(s, EOI, i + 2)
      case None =>
        SplitAt(s, i, []);
        CutDropsGarbageBefore(s, i, []);
        WindowInSuffix(s[..i], s[i..], SOI, 0);
        assert s[..i] + s[i..] == s;
      case Some(j) => SpanShape(s, i, j);
  }

  lemma SpanShape(s: seq<Byte>, i: nat, j: nat)
    requires Find(s, SOI, 0) == Some(i) && Find(s, EOI, i + 2) == Some(j)
    ensures var f := s[i..j + 2]; |f| >= MIN_FRAME ==> WellFormed(f)
  {
    var f := s[i..j + 2];
    if |f| >= MIN_FRAME {
      assert f[0] == s[i] && f[1] == s[i + 1] && f[|f| - 2] == s[j] && f[|f| - 1] == s[j + 1];
      forall k | 2 <= k < |f| - 2 ensures !MarkerAt(f, EOI, k) {
        FindIsFirst(s, EOI, i + 2, i + k);
        assert f[k] == s[i + k] && f[k + 1] == s[i + k + 1];
      }
    }
  }

  /** An image followed by anything is cut off first. */
  lemma CutOfImage(f: seq<Byte>)
    requires WellFormed(f)
    ensures NextCut(f) == Span(f, [])
  {
    assert Find(f, SOI, 0) == Some(0);
    FindSkips(f, EOI, 2, |f| - 2);
    assert Find(f, EOI, 2) == Some(|f| - 2);
    assert f[0..|f| - 2 + 2] == f && f[|f| - 2 + 2..] == [];
  }

  // ------------------------------------------------- whole streams

  /** Reading can stop anywhere: the tail carries all that later bytes need. */
  lemma {:induction false} Resume(s: seq<Byte>, t: seq<Byte>)
    ensures Frames(s + t) == Frames(s) + Frames(Tail(s) + t)
    ensures Tail(s + t) == Tail(Tail(s) + t)
    decreases |s|
  {
    match NextCut(s)
    case Unfinished(tail) => CutResumes(s, t);
    case Span(frame, rest) =>
      CutIsFinal(s, t);
      Resume(rest, t);
  }

  /** Everything the reference returns is one complete image. */
  lemma {:induction false} FramesAreImages(s: seq<Byte>)
    ensures forall f :: f in Frames(s) ==> WellFormed(f)
    decreases |s|
  {
    CutShape(s);
    match NextCut(s)
    case Unfinished(_) =>
    case Span(frame, rest) => FramesAreImages(rest);
  }

  /** The tail contains no complete span, and starts at SOI once it has two bytes. */
  lemma {:induction false} TailIsUnfinished(s: seq<Byte>)
    ensures NextCut(Tail(s)) == Unfinished(Tail(s))
    ensures |Tail(s)| >= 2 ==> MarkerAt(Tail(s), SOI, 0)
    decreases |s|
  {
    CutShape(s);
    match NextCut(s)
    case Unfinished(_) =>
    case Span(frame, rest) => TailIsUnfinished(rest);
  }

  lemma EmptyTail()
    ensures Concat([]) == [] && Tail([]) == [] && Frames([]) == []
  {
  }

  lemma ReadingOfImage(f: seq<Byte>)
    requires WellFormed(f)
    ensures Frames(f) == [f] && Tail(f) == []
  {
    EmptyTail();
    CutOfImage(f);
    assert Keep(f) + [] == [f];
  }

  lemma AppendImage(s: seq<Byte>, f: seq<Byte>)
    requires Tail(s) == [] && WellFormed(f)
    ensures Frames(s + f) == Frames(s) + [f] && Tail(s + f) == []
  {
    Resume(s, f);
    assert [] + f == f;
    ReadingOfImage(f);
  }

  lemma OneMoreImage(images: seq<seq<Byte>>, n: nat)
    requires n + 1 == |images| && WellFormed(images[n])
    requires Frames(Concat(images[..n])) == images[..n] && Tail(Concat(images[..n])) == []
    ensures Frames(Concat(images)) == images && Tail(Concat(images)) == []
  {
    AppendImage(Concat(images[..n]), images[n]);
    InitLast(images);
  }

  /** Round trip: images written back to back are cut apart again, nothing left over. */
  lemma {:induction false} ImagesComeBack(images: seq<seq<Byte>>)
    requires forall k :: 0 <= k < |images| ==> WellFormed(images[k])
    ensures Frames(Concat(images)) == images && Tail(Concat(images)) == []
  {
    if images == [] {
      EmptyTail();
    } else {
      hide Frames, Tail, WellFormed, MarkerAt, Concat;
      var n := |images| - 1;
      ImagesComeBack(images[..n]);
      OneMoreImage(images, n);
    }
  }

  // ---------------------------------------------------------------- the code

  /** Leftovers above 8 MiB are thrown away instead of kept. */
  function Capped(tail: seq<Byte>): seq<Byte> {
    if |tail| > MAX_PENDING then [] else tail
  }

  lemma SkipGarbage(p: seq<Byte>, i: nat)
    requires Find(p, SOI, 0) == Some(i)
    ensures Frames(p[i..]) == Frames(p) && Tail(p[i..]) == Tail(p)
    ensures Find(p[i..], SOI, 0) == Some(0)
  {
    SplitAt(p, i, []);
    CutDropsGarbageBefore(p, i, []);
    WindowInSuffix(p[..i], p[i..], SOI, 0);
  }

  lemma TakeSpan(p: seq<Byte>, j: nat)
    requires Find(p, SOI, 0) == Some(0) && Find(p, EOI, 2) == Some(j)
    ensures Frames(p) == Keep(p[..j + 2]) + Frames(p[j + 2..])
    ensures Tail(p) == Tail(p[j + 2..])
  {
    CutAtSpan(p, 0, j);
  }

  /** Resuming one byte before the scanned end finds what a search from the SOI would find. */
  lemma SearchResumes(p: seq<Byte>, scan: nat)
    requires MarkerAt(p, SOI, 0) && scan <= |p|
    requires forall k :: 2 <= k && k + 1 < scan ==> !MarkerAt(p, EOI, k)
    ensures Find(p, EOI, (if scan > 2 then scan else 2) - 1) == Find(p, EOI, 2)
  {
    if scan > 2 {
      FindSkips(p, EOI, 2, scan - 1);
    } else {
      assert !MarkerAt(p, EOI, 1);
    }
  }

  lemma MissMeansUnfinished(p: seq<Byte>)
    requires Find(p, SOI, 0) == Some(0) && Find(p, EOI, 2).None?
    ensures Frames(p) == [] && Tail(p) == p
  {
    assert p[0..] == p;
  }

  lemma Regroup(done: seq<seq<Byte>>, f: seq<Byte>, rest: seq<seq<Byte>>)
    ensures done + ([f] + rest) == done + [f] + rest
    ensures done + [] == done && [] + [f] + rest == [f] + rest
  {
  }

  class Splitter {
    var pending: seq<Byte>
    var scan: nat

    /** What the resume index promises: no EOI ends before it, half-markers excluded. */
    ghost predicate Valid()
      reads this
    {
      && scan <= |pending|
      && (scan > 0 ==> MarkerAt(pending, SOI, 0))
      && forall k :: 2 <= k && k + 1 < scan ==> !MarkerAt(pending, EOI, k)
    }

    constructor ()
      ensures Valid() && pending == []
    {
      pending := [];
      scan := 0;
    }

    /** Drop leading garbage; false when no SOI has arrived yet. */
    method AlignToSoi() returns (aligned: bool)
      requires Valid()
      modifies this
      ensures Valid()
      ensures |pending| <= |old(pending)|
      ensures aligned ==>
                && Find(pending, SOI, 0) == Some(0)
                && Frames(pending) == Frames(old(pending)) && Tail(pending) == Tail(old(pending))
      ensures !aligned ==> Frames(old(pending)) == [] && pending == Capped(Tail(old(pending)))
    {
      match Find(pending, SOI, 0)
      case Some(i) =>
        if i > 0 {
          SkipGarbage(pending, i);
          pending := pending[i..];
          scan := 0;
        }
        return true;
      case None =>
        var keep := if |pending| >= 1 then |pending| - 1 else 0;
        pending := pending[keep..];
        scan := 0;
        return false;
    }

    /** Cut the span that starts the buffer, resuming the search for its EOI. */
    method CutSpan() returns (span: Option<seq<Byte>>)
      requires Valid() && Find(pending, SOI, 0) == Some(0)
      modifies this
      ensures Valid()
      ensures match span
              case Some(f) =>
                && |pending| < |old(pending)|
                && Frames(old(pending)) == Keep(f) + Frames(pending)
                && Tail(old(pending)) == Tail(pending)
              case None =>
                && Frames(old(pending)) == []
                && pending == Capped(old(pending)) == Capped(Tail(old(pending)))
    {
      var from := if scan > 2 then scan else 2;
      SearchResumes(pending, scan);
      match Find(pending, EOI, from - 1)
      case None =>
        MissMeansUnfinished(pending);
        if |pending| > MAX_PENDING { pending := []; }
        scan := |pending|;
        ScannedToTheEnd();
        return None;
      case Some(j) =>
        TakeSpan(pending, j);
        span := Some(pending[..j + 2]);
        pending := pending[j + 2..];
        scan := 0;
    }

    /** `next_jpeg`: cut the next image out of the buffer, or report that bytes are missing. */
    method NextJpeg() returns (frame: Option<seq<Byte>>)
      requires Valid()
      modifies this
      ensures Valid()
      ensures |pending| <= |old(pending)|
      ensures match frame
              case Some(f) =>
                && |pending| < |old(pending)|
                && Frames(old(pending)) == [f] + Frames(pending)
                && Tail(old(pending)) == Tail(pending)
              case None =>
                && Frames(old(pending)) == []
                && pending == Capped(Tail(old(pending)))
    {
      while true
        invariant Valid()
        invariant |pending| <= |old(pending)|
        invariant Frames(pending) == Frames(old(pending)) && Tail(pending) == Tail(old(pending))
        decreases |pending|
      {
        var aligned := AlignToSoi();
        if !aligned { return None; }
        frame := CutSpan();
        if frame.None? || |frame.value| >= MIN_FRAME { return; }
      }
    }

    /** After a search that missed, the resume index may point behind the last byte. */
    lemma ScannedToTheEnd()
      requires pending != [] ==> MarkerAt(pending, SOI, 0) && Find(pending, EOI, 2).None?
      requires scan == |pending|
      ensures Valid()
    {
      forall k | 2 <= k && k + 1 < scan ensures !MarkerAt(pending, EOI, k) {
        FindIsFirst(pending, EOI, 2, k);
      }
    }

    /** One turn of the reader: append what the pipe returned, drain every complete image. */
    method Ingest(chunk: seq<Byte>) returns (frames: seq<seq<Byte>>)
      requires Valid()
      modifies this
      ensures Valid()
      ensures frames == Frames(old(pending) + chunk)
      ensures pending == Capped(Tail(old(pending) + chunk))
    {
      forall k, m | 0 <= k && k + 1 < |pending|
        ensures MarkerAt(pending + chunk, m, k) <==> MarkerAt(pending, m, k)
      {
        WindowInPrefix(pending, chunk, m, k);
      }
      pending := pending + chunk;
      ghost var all := pending;
      frames := [];
      var next := NextJpeg();
      while next.Some?
        invariant Valid()
        invariant match next
                  case Some(f) =>
                    && Frames(all) == frames + [f] + Frames(pending)
                    && Tail(all) == Tail(pending)
                  case None =>
                    && Frames(all) == frames
                    && pending == Capped(Tail(all))
        decreases next.Some?, |pending|
      {
        frames := frames + [next.value];
        ghost var rest := Frames(pending);
        next := NextJpeg();
        if next.Some? { Regroup(frames, next.value, Frames(pending)); }
      }
    }
  }
}
