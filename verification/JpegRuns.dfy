/**
  Whole runs of the reader of `dshow.rs` over a chunked pipe: for every way of chunking, the images
  handed out are those of the whole stream, exactly as long as unfinished images fit the buffer.
 */
module JpegRuns {
  import opened Numbers
  import opened Options
  import opened Seqs
  import opened JpegSplitter

  /** Frames handed out and bytes held after the reader consumed some chunks. */
  datatype Progress = Progress(out: seq<seq<Byte>>, held: seq<Byte>)

  function Run(chunks: seq<seq<Byte>>): Progress {
    if chunks == [] then Progress([], [])
    else
      var before := Run(chunks[..|chunks| - 1]);
      var s := before.held + chunks[|chunks| - 1];
      Progress(before.out + Frames(s), Capped(Tail(s)))
  }

  /** The reader task over a finite pipe: `Run` is what it does. */
  method ReadPipe(chunks: seq<seq<Byte>>) returns (out: seq<seq<Byte>>)
    ensures out == Run(chunks).out
  {
    var splitter := new Splitter();
    out := [];
    for n := 0 to |chunks|
      invariant splitter.Valid() && fresh(splitter)
      invariant Run(chunks[..n]) == Progress(out, splitter.pending)
    {
      var more := splitter.Ingest(chunks[n]);
      assert chunks[..n + 1][..n] == chunks[..n];
      out := out + more;
    }
    assert chunks[..|chunks|] == chunks;
  }

  /** At no chunk boundary is an unfinished image longer than 8 MiB. */
  ghost predicate FitsBuffer(chunks: seq<seq<Byte>>) {
    |Tail(Concat(chunks))| <= MAX_PENDING && (chunks == [] || FitsBuffer(chunks[..|chunks| - 1]))
  }

  lemma RunOneMore(chunks: seq<seq<Byte>>, t: seq<Byte>)
    ensures Run(chunks + [t]).out == Run(chunks).out + Frames(Run(chunks).held + t)
    ensures Run(chunks + [t]).held == Capped(Tail(Run(chunks).held + t))
    ensures Concat(chunks + [t]) == Concat(chunks) + t
  {
    assert (chunks + [t])[..|chunks|] == chunks;
  }

  /** Refinement: while unfinished images fit the buffer, the chunked run is the whole-stream reading. */
  lemma {:induction false} ChunkedRunIsWholeStream(chunks: seq<seq<Byte>>)
    requires FitsBuffer(chunks)
    ensures Run(chunks) == Progress(Frames(Concat(chunks)), Tail(Concat(chunks)))
  {
    EmptyTail();
    hide Tail, Frames, Concat, Capped;
    if chunks != [] {
      var n := |chunks| - 1;
      ChunkedRunIsWholeStream(chunks[..n]);
      Resume(Concat(chunks[..n]), chunks[n]);
      InitLast(chunks);
      RunOneMore(chunks[..n], chunks[n]);
      CappedFits(Tail(Concat(chunks)));
      hide Run;
    }
  }

  lemma CappedFits(tail: seq<Byte>)
    ensures |tail| <= MAX_PENDING ==> Capped(tail) == tail
  {
  }

  /** Two ways of cutting one stream into chunks give the same images. */
  lemma {:induction false} ChunkingDoesNotMatter(a: seq<seq<Byte>>, b: seq<seq<Byte>>)
    requires Concat(a) == Concat(b)
    requires FitsBuffer(a) && FitsBuffer(b)
    ensures Run(a) == Run(b)
  {
    ChunkedRunIsWholeStream(a);
    ChunkedRunIsWholeStream(b);
  }

  /** With no proviso: at most 8 MiB between reads, and one read on top while draining. */
  lemma {:induction false} BufferIsBounded(chunks: seq<seq<Byte>>, next: seq<Byte>)
    requires |next| <= READ_SIZE
    ensures |Run(chunks).held| <= MAX_PENDING
    ensures |Run(chunks).held + next| <= MAX_PENDING + READ_SIZE
  {
    if chunks != [] {
      var n := |chunks| - 1;
      assert Run(chunks).held == Capped(Tail(Run(chunks[..n]).held + chunks[n]));
    }
  }

  /** Closing an unfinished image makes the reference return it. */
  lemma ClosingEndsTheImage(tail: seq<Byte>)
    requires |tail| >= MIN_FRAME && MarkerAt(tail, SOI, 0)
    requires NextCut(tail) == Unfinished(tail)
    ensures Frames(tail + [PREFIX, EOI]) == [tail + [PREFIX, EOI]]
  {
    var s := tail + [PREFIX, EOI];
    assert Find(tail, SOI, 0) == Some(0);
    forall k | 2 <= k < |s| - 2 ensures !MarkerAt(s, EOI, k) {
      if k + 1 < |tail| {
        FindIsFirst(tail, EOI, 2, k);
        WindowInPrefix(tail, [PREFIX, EOI], EOI, k);
      }
    }
    WindowInPrefix(tail, [PREFIX, EOI], SOI, 0);
    ReadingOfImage(s);
  }

  lemma OverflowIsAtTheEnd(chunks: seq<seq<Byte>>)
    requires chunks != [] && FitsBuffer(chunks[..|chunks| - 1]) && !FitsBuffer(chunks)
    ensures |Tail(Concat(chunks))| > MAX_PENDING
  {
    hide Tail, Concat;
  }

  lemma OverflowEmptiesTheBuffer(chunks: seq<seq<Byte>>)
    requires chunks != [] && FitsBuffer(chunks[..|chunks| - 1]) && !FitsBuffer(chunks)
    ensures Run(chunks) == Progress(Frames(Concat(chunks)), [])
  {
    var n := |chunks| - 1;
    ChunkedRunIsWholeStream(chunks[..n]);
    Resume(Concat(chunks[..n]), chunks[n]);
  }

  /** What a reset costs: an image closed right after its bytes were dropped is lost. */
  lemma {:induction false} ResetLosesTheImage(chunks: seq<seq<Byte>>)
    requires chunks != [] && FitsBuffer(chunks[..|chunks| - 1]) && !FitsBuffer(chunks)
    ensures Run(chunks + [[PREFIX, EOI]]).out + [Tail(Concat(chunks)) + [PREFIX, EOI]]
            == Frames(Concat(chunks) + [PREFIX, EOI])
  {
    hide Tail, Frames, Concat, Run, NextCut, FitsBuffer;
    var s := Concat(chunks);
    calc {
      Frames(s + [PREFIX, EOI]);
      { Resume(s, [PREFIX, EOI]); }
      Frames(s) + Frames(Tail(s) + [PREFIX, EOI]);
      { OverflowIsAtTheEnd(chunks); TailIsUnfinished(s); ClosingEndsTheImage(Tail(s)); }
      Frames(s) + [Tail(s) + [PREFIX, EOI]];
      { OverflowEmptiesTheBuffer(chunks); RunOneMore(chunks, [PREFIX, EOI]); LoneEoi(); }
      Run(chunks + [[PREFIX, EOI]]).out + [Tail(s) + [PREFIX, EOI]];
    }
  }

  lemma LoneEoi()
    ensures Frames([] + [PREFIX, EOI]) == []
  {
    assert !MarkerAt([] + [PREFIX, EOI], SOI, 0);
  }

  /** However the bytes so far are continued, the reader hands out the images of the stream. */
  ghost predicate Faithful(chunks: seq<seq<Byte>>) {
    forall t: seq<Byte> :: Run(chunks + [t]).out == Frames(Concat(chunks) + t)
  }

  /** At every chunk boundary of the run. */
  ghost predicate AlwaysFaithful(chunks: seq<seq<Byte>>) {
    Faithful(chunks) && (chunks == [] || AlwaysFaithful(chunks[..|chunks| - 1]))
  }

  lemma FittingIsFaithful(chunks: seq<seq<Byte>>)
    requires FitsBuffer(chunks)
    ensures Faithful(chunks)
  {
    hide Frames, Tail, Concat, Run, FitsBuffer;
    forall t: seq<Byte> ensures Run(chunks + [t]).out == Frames(Concat(chunks) + t) {
      ChunkedRunIsWholeStream(chunks);
      RunOneMore(chunks, t);
      Resume(Concat(chunks), t);
    }
  }

  /** Exactly when the splitter is faithful: unfinished images stay within 8 MiB at every boundary. */
  lemma {:induction false} FaithfulExactlyWhenImagesFit(chunks: seq<seq<Byte>>)
    ensures AlwaysFaithful(chunks) <==> FitsBuffer(chunks)
  {
    EmptyTail();
    hide Frames, Tail, Concat, Run;
    if chunks != [] { FaithfulExactlyWhenImagesFit(chunks[..|chunks| - 1]); }
    if FitsBuffer(chunks) {
      FittingIsFaithful(chunks);
    } else if chunks != [] && FitsBuffer(chunks[..|chunks| - 1]) {
      ResetLosesTheImage(chunks);
      assert Run(chunks + [[PREFIX, EOI]]).out != Frames(Concat(chunks) + [PREFIX, EOI]);
    }
  }
}
