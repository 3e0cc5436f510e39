/**
  What one run of the migration does to every row and every file, and in which steps: each row that a
  page reaches is dealt with by itself, and between two neighbouring states of the disk there is one
  write of one file, or one update of one row.
 */
module MigrationSteps {
  import opened BlobStore
  import opened Options
  import opened Seqs

  // ---------------------------------------------------------------- rows

  /** Some image is in the table itself. */
  ghost predicate SomethingInline(rows: seq<Row>) {
    exists i, p :: 0 <= i < |rows| && Cell(rows[i], p).Some? && !("@file:" <= Cell(rows[i], p).value)
  }

  lemma InlineExactly(rows: seq<Row>)
    ensures HasInline(rows) <==> SomethingInline(rows)
  {
    if i, p :| 0 <= i < |rows| && InlineCell(Cell(rows[i], p)) {
      assert Cell(rows[i], p).Some? && !("@file:" <= Cell(rows[i], p).value);
    }
    if i, p :| 0 <= i < |rows| && Cell(rows[i], p).Some? && !("@file:" <= Cell(rows[i], p).value) {
      assert InlineCell(Cell(rows[i], p));
    }
  }

  /** The migration comes to row `i`: something is inline, the count succeeds, and so do the queries up to its page. */
  ghost predicate Reached(rows: seq<Row>, counted: bool, broken: Option<nat>, i: nat)
    requires i < |rows|
  {
    && counted && SomethingInline(rows) && First(rows) <= i
    && (broken.Some? ==> i < First(rows) + 200 * broken.value)
  }

  /** `a` and `b` agree up to `k`, where `a` ends or has the smaller character. */
  predicate SmallerAt(a: string, b: string, k: nat) {
    k <= |a| && k < |b| && a[..k] == b[..k] && (k == |a| || a[k] < b[k])
  }

  /** Ids are in dictionary order. */
  lemma {:induction false} LessExactly(a: string, b: string)
    ensures Less(a, b) <==> exists k: nat :: SmallerAt(a, b, k)
  {
    if b == "" {
    } else if a == "" {
      assert SmallerAt(a, b, 0);
    } else {
      LessExactly(a[1..], b[1..]);
      if a[0] < b[0] { assert SmallerAt(a, b, 0); }
      if a[0] == b[0] {
        if k: nat :| SmallerAt(a[1..], b[1..], k) {
          assert a[..k + 1] == [a[0]] + a[1..][..k] && b[..k + 1] == [b[0]] + b[1..][..k];
          assert SmallerAt(a, b, k + 1);
        }
      }
      if k: nat :| SmallerAt(a, b, k) {
        if k > 0 {
          assert a[0] == a[..k][0] && b[0] == b[..k][0];
          assert a[1..][..k - 1] == a[..k][1..] && b[1..][..k - 1] == b[..k][1..];
          assert SmallerAt(a[1..], b[1..], k - 1);
        }
      }
    }
  }

  /** It passes over the rows without an id, and over no others. */
  lemma FirstHasAnId(rows: seq<Row>, i: nat)
    requires SortedIds(rows) && i < |rows|
    ensures First(rows) <= i <==> rows[i].id != ""
  {
    if First(rows) <= i { NoEmptyIds(rows, i); }
  }

  lemma StopIsReach(rows: seq<Row>, counted: bool, broken: Option<nat>, i: nat)
    requires i < |rows|
    ensures Reached(rows, counted, broken, i) <==> First(rows) <= i < Stop(rows, counted, broken)
  {
    InlineExactly(rows);
    hide HasInline, SomethingInline, First;
  }

  /** The cell holds an image that can be decoded and is not in a file yet. */
  predicate Movable(c: Codec, v: Option<string>) {
    v.Some? && v.value != "" && !(PREFIX <= v.value) && c.decode(v.value).Some?
  }

  /** A cell refers to its new file if it could be moved and the write was done; otherwise it is as it was. */
  function CellAfter(c: Codec, id: string, p: Col, v: Option<string>, fate: Fate): Option<string> {
    if Movable(c, v) && fate == Written then Some("@file:" + Rel(id, p)) else v
  }

  /** A row whose update fails is as it was. */
  function RowAfter(c: Codec, r: Row, fate: RowFate): Row {
    if fate.updated
    then Row(r.id, CellAfter(c, r.id, Thumb, r.thumb, fate.thumb), CellAfter(c, r.id, Ctx, r.ctx, fate.ctx))
    else r
  }

  lemma {:induction false} RowsAfter(c: Codec, d: Disk, fates: seq<RowFate>, first: nat, at: nat, i: nat)
    requires first <= at <= |d.rows| == |fates| && i < |d.rows|
    ensures RunEnd(c, d, fates, first, at).rows[i]
            == if first <= i < at then RowAfter(c, d.rows[i], fates[i]) else d.rows[i]
  {
    if at > first {
      RowsAfter(c, d, fates, first, at - 1, i);
      RowsAfter(c, d, fates, first, at - 1, at - 1);
    }
  }

  /** What every row is after the migration. */
  lemma RowsExactly(c: Codec, d: Disk, fates: seq<RowFate>, counted: bool, broken: Option<nat>, i: nat)
    requires |d.rows| == |fates| && i < |d.rows|
    ensures RunEnd(c, d, fates, First(d.rows), Stop(d.rows, counted, broken)).rows[i]
            == if Reached(d.rows, counted, broken, i) then RowAfter(c, d.rows[i], fates[i]) else d.rows[i]
  {
    RowsAfter(c, d, fates, First(d.rows), Stop(d.rows, counted, broken), i);
    StopIsReach(d.rows, counted, broken, i);
    hide RowAfter, Reached, First;
  }

  // ---------------------------------------------------------------- files

  function At(files: Files, f: string): Option<Bytes> { if f in files then Some(files[f]) else None }

  /** A path after one write: the image, what was there, or whatever a failed write left. */
  function PathAfter(before: Option<Bytes>, image: Bytes, fate: Fate): Option<Bytes> {
    match fate
    case Written => Some(image)
    case Refused => before
    case Spoiled(left) => left
  }

  function FateOf(fate: RowFate, p: Col): Fate { if p.Thumb? then fate.thumb else fate.ctx }

  /** Dealing with the row writes `f` for its cell `p`. */
  predicate WritesFor(c: Codec, r: Row, p: Col, f: string) { Movable(c, Cell(r, p)) && f == Rel(r.id, p) }

  predicate RowWrites(c: Codec, r: Row, f: string) { WritesFor(c, r, Thumb, f) || WritesFor(c, r, Ctx, f) }

  function Image(c: Codec, r: Row, p: Col): Bytes
    requires Movable(c, Cell(r, p))
  {
    c.decode(Cell(r, p).value).value
  }

  lemma OneRowsFiles(c: Codec, d: Disk, i: nat, fate: RowFate, f: string)
    requires i < |d.rows|
    ensures var before, after := At(d.files, f), At(RowEnd(c, d, i, fate).files, f);
            && (forall p :: WritesFor(c, d.rows[i], p, f) ==>
                              after == PathAfter(before, Image(c, d.rows[i], p), FateOf(fate, p)))
            && (!RowWrites(c, d.rows[i], f) ==> after == before)
  {
    RelsDiffer(d.rows[i].id, Thumb, d.rows[i].id, Ctx);
    hide Rel;
  }

  lemma OtherRowsFile(c: Codec, d: Disk, i: nat, fate: RowFate, f: string)
    requires i < |d.rows| && !RowWrites(c, d.rows[i], f)
    ensures At(RowEnd(c, d, i, fate).files, f) == At(d.files, f)
  {
    OneRowsFiles(c, d, i, fate, f);
  }

  lemma WritesApart(c: Codec, rows: seq<Row>, i: nat, p: Col, j: nat, f: string)
    requires DistinctIds(rows) && i < |rows| && j < |rows| && i != j && WritesFor(c, rows[i], p, f)
    ensures !RowWrites(c, rows[j], f)
  {
    RelsDiffer(rows[i].id, p, rows[j].id, Thumb);
    RelsDiffer(rows[i].id, p, rows[j].id, Ctx);
    hide Rel, Movable;
  }

  lemma {:induction false} OthersAfter(c: Codec, d: Disk, fates: seq<RowFate>, first: nat, at: nat, f: string)
    requires first <= at <= |d.rows| == |fates|
    requires forall i :: first <= i < at ==> !RowWrites(c, d.rows[i], f)
    ensures At(RunEnd(c, d, fates, first, at).files, f) == At(d.files, f)
  {
    hide RowWrites, At, RowEnd, RowAfter;
    if at > first {
      OthersAfter(c, d, fates, first, at - 1, f);
      RowsAfter(c, d, fates, first, at - 1, at - 1);
      assert !RowWrites(c, d.rows[at - 1], f);
      OtherRowsFile(c, RunEnd(c, d, fates, first, at - 1), at - 1, fates[at - 1], f);
    }
  }

  lemma {:induction false} FilesAfter(c: Codec, d: Disk, fates: seq<RowFate>, first: nat, at: nat, i: nat, p: Col,
                                      f: string)
    requires first <= i < at <= |d.rows| == |fates| && DistinctIds(d.rows) && WritesFor(c, d.rows[i], p, f)
    ensures At(RunEnd(c, d, fates, first, at).files, f)
            == PathAfter(At(d.files, f), Image(c, d.rows[i], p), FateOf(fates[i], p))
  {
    hide RowWrites, RowEnd, At, RowAfter, PathAfter, FateOf, DistinctIds, Movable, Rel;
    RowsAfter(c, d, fates, first, at - 1, at - 1);
    OneRowsFiles(c, RunEnd(c, d, fates, first, at - 1), at - 1, fates[at - 1], f);
    if i == at - 1 {
      forall j | first <= j < i ensures !RowWrites(c, d.rows[j], f) { WritesApart(c, d.rows, i, p, j, f); }
      OthersAfter(c, d, fates, first, i, f);
    } else {
      FilesAfter(c, d, fates, first, at - 1, i, p, f);
      WritesApart(c, d.rows, i, p, at - 1, f);
    }
  }

  /** What the file of every cell is after the migration. */
  lemma FilesExactly(c: Codec, d: Disk, fates: seq<RowFate>, counted: bool, broken: Option<nat>, i: nat, p: Col)
    requires |d.rows| == |fates| && DistinctIds(d.rows) && i < |d.rows|
    requires Reached(d.rows, counted, broken, i) && Movable(c, Cell(d.rows[i], p))
    ensures var f := Rel(d.rows[i].id, p);
            At(RunEnd(c, d, fates, First(d.rows), Stop(d.rows, counted, broken)).files, f)
            == PathAfter(At(d.files, f), Image(c, d.rows[i], p), FateOf(fates[i], p))
  {
    StopIsReach(d.rows, counted, broken, i);
    FilesAfter(c, d, fates, First(d.rows), Stop(d.rows, counted, broken), i, p, Rel(d.rows[i].id, p));
  }

  /** Every other path is as it was. */
  lemma OtherFilesStay(c: Codec, d: Disk, fates: seq<RowFate>, counted: bool, broken: Option<nat>, f: string)
    requires |d.rows| == |fates|
    requires forall i :: 0 <= i < |d.rows| && Reached(d.rows, counted, broken, i) ==> !RowWrites(c, d.rows[i], f)
    ensures At(RunEnd(c, d, fates, First(d.rows), Stop(d.rows, counted, broken)).files, f) == At(d.files, f)
  {
    hide RowWrites, Reached, At;
    var first, stop := First(d.rows), Stop(d.rows, counted, broken);
    forall i | first <= i < stop ensures !RowWrites(c, d.rows[i], f) { StopIsReach(d.rows, counted, broken, i); }
    OthersAfter(c, d, fates, first, stop, f);
  }

  // ---------------------------------------------------------------- steps

  /** Between the two states, at most one file or at most one row differs. */
  ghost predicate OneWrite(d: Disk, e: Disk) {
    || (e.rows == d.rows && exists f :: OneFile(d.files, e.files, f))
    || (e.files == d.files && |e.rows| == |d.rows| && exists i: nat :: OneRow(d.rows, e.rows, i))
  }

  ghost predicate OneFile(a: Files, b: Files, f: string) { forall g :: g != f ==> At(b, g) == At(a, g) }

  ghost predicate OneRow(a: seq<Row>, b: seq<Row>, i: nat)
    requires |a| == |b|
  {
    forall j :: 0 <= j < |a| && j != i ==> b[j] == a[j]
  }

  /** The states lead from one disk to the other, write by write. */
  ghost predicate Leads(d: Disk, states: seq<Disk>, e: Disk)
    decreases |states|
  {
    if states == [] then e == d
    else OneWrite(d, states[0]) && Leads(states[0], states[1..], e)
  }

  lemma {:induction false} LeadsOn(d: Disk, first: seq<Disk>, e: Disk, second: seq<Disk>, f: Disk)
    requires Leads(d, first, e) && Leads(e, second, f)
    ensures Leads(d, first + second, f)
    decreases |first|
  {
    hide OneWrite;
    if first == [] {
      assert first + second == second;
    } else {
      LeadsOn(first[0], first[1..], e, second, f);
      assert (first + second)[1..] == first[1..] + second;
    }
  }

  lemma LeadsNowhere(d: Disk)
    ensures Leads(d, [], d)
  {
  }

  lemma StoreIsOneFile(c: Codec, files: Files, id: string, p: Col, v: Option<string>, fate: Fate)
    ensures OneFile(files, CellFiles(c, files, id, p, v, fate), Rel(id, p))
  {
    hide Rel;
  }

  lemma {:induction false} RowLeads(c: Codec, d: Disk, i: nat, fate: RowFate)
    requires i < |d.rows|
    ensures Leads(d, RowStates(c, d, i, fate), RowEnd(c, d, i, fate))
  {
    var r, a, b, e := d.rows[i], AfterThumb(c, d, i, fate), AfterCtx(c, d, i, fate), RowEnd(c, d, i, fate);
    StoreIsOneFile(c, d.files, r.id, Thumb, r.thumb, fate.thumb);
    StoreIsOneFile(c, a.files, r.id, Ctx, r.ctx, fate.ctx);
    assert OneWrite(d, a) && OneWrite(a, b);
    assert OneRow(b.rows, e.rows, i) && OneWrite(b, e);
    NotTried(c, r, fate);
    assert d.rows[i := r] == d.rows;
    hide OneWrite, CellFiles, CellValue;
    assert Leads(e, [], e) && Leads(b, [e], e) && Leads(a, [b, e], e) && Leads(d, [a, b, e], e);
  }

  /** The states that the migration goes through are those between one write and the next; none is passed over. */
  lemma {:induction false} StatesLead(c: Codec, d: Disk, fates: seq<RowFate>, first: nat, at: nat)
    requires first <= at <= |d.rows| == |fates|
    ensures Leads(d, RunStates(c, d, fates, first, at), RunEnd(c, d, fates, first, at))
  {
    hide RowStates, RowEnd, Leads;
    if at == first {
      LeadsNowhere(d);
    } else {
      StatesLead(c, d, fates, first, at - 1);
      var e := RunEnd(c, d, fates, first, at - 1);
      RowLeads(c, e, at - 1, fates[at - 1]);
      LeadsOn(d, RunStates(c, d, fates, first, at - 1), e, RowStates(c, e, at - 1, fates[at - 1]),
              RowEnd(c, e, at - 1, fates[at - 1]));
    }
  }
}
