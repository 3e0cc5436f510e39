/**
  Display images moved out of the database (`blobstore.rs`): storing and resolving one image, the
  paged migration of face crops under failing writes and crashes, and the sweep of orphaned files.
  Base64 (section 4 of RFC 4648) and the outcome of every disk and database call are parameters.
 */
module BlobStore {
  import opened Options
  import opened Seqs

  type Bytes = seq<nat>
  type Files = map<string, Bytes>

  datatype Codec = Codec(decode: string -> Option<Bytes>, encode: Bytes -> string)

  /** Only canonical base64 decodes, so decoding and encoding undo each other. */
  ghost predicate Canonical(c: Codec) {
    && (forall s :: c.decode(s).Some? ==> c.encode(c.decode(s).value) == s)
    && (forall b :: c.decode(c.encode(b)) == Some(b))
  }

  const PREFIX := "@file:"

  predicate IsRef(v: string) { PREFIX <= v }

  function Resolve(c: Codec, files: Files, v: string): string {
    if !IsRef(v) then v
    else if v[|PREFIX|..] in files then c.encode(files[v[|PREFIX|..]])
    else ""
  }

  // ---------------------------------------------------------------- the table

  datatype Col = Thumb | Ctx

  datatype Row = Row(id: string, thumb: Option<string>, ctx: Option<string>)

  function Cell(r: Row, p: Col): Option<string> { if p.Thumb? then r.thumb else r.ctx }

  function Rel(id: string, p: Col): string {
    "faces/" + id + (if p.Thumb? then "_t" else "_c") + ".jpg"
  }

  function RefTo(id: string, p: Col): string { PREFIX + Rel(id, p) }

  lemma RelsDiffer(id: string, p: Col, other: string, q: Col)
    requires id != other || p != q
    ensures Rel(id, p) != Rel(other, q) && RefTo(id, p) != RefTo(other, q)
  {
    var a, b := Rel(id, p), Rel(other, q);
    assert |a| == |id| + 12 && |b| == |other| + 12;
    assert a[|id| + 7] == (if p.Thumb? then 't' else 'c') && b[|other| + 7] == if q.Thumb? then 't' else 'c';
    assert a[6..6 + |id|] == id && b[6..6 + |other|] == other;
    assert RefTo(id, p)[|PREFIX|..] == a && RefTo(other, q)[|PREFIX|..] == b;
  }

  datatype Disk = Disk(rows: seq<Row>, files: Files)

  /** What the interface shows for a cell. */
  function Meaning(c: Codec, files: Files, v: Option<string>): Option<string> {
    if v.None? then None else Some(Resolve(c, files, v.value))
  }

  /** Every cell of every row still shows the same image. */
  ghost predicate SameMeaning(c: Codec, d: Disk, e: Disk) {
    && |d.rows| == |e.rows|
    && (forall i :: 0 <= i < |d.rows| ==> e.rows[i].id == d.rows[i].id)
    && (forall i, p :: 0 <= i < |d.rows| ==>
                         Meaning(c, e.files, Cell(e.rows[i], p)) == Meaning(c, d.files, Cell(d.rows[i], p)))
  }

  /** The cell holds something that the migration hands to `store`. */
  predicate Tried(v: Option<string>) { v.Some? && v.value != "" && !IsRef(v.value) }

  /** And that can be moved to a file. */
  predicate Offloads(c: Codec, v: Option<string>) { Tried(v) && c.decode(v.value).Some? }

  /** The migration writes a file for the cell; it passes over a row with the empty id. */
  predicate Writes(c: Codec, r: Row, p: Col) { r.id != "" && Offloads(c, Cell(r, p)) }

  /** No cell refers to a file that the migration has yet to write. */
  ghost predicate Unaliased(c: Codec, rows: seq<Row>) {
    forall i, p, j, q :: 0 <= i < |rows| && 0 <= j < |rows| && Writes(c, rows[i], p) ==>
                           Cell(rows[j], q) != Some(RefTo(rows[i].id, p))
  }

  // ---------------------------------------------------------------- storing one image

  /** How a write ends: done, refused before it starts, or failed leaving anything at the path. */
  datatype Fate = Written | Refused | Spoiled(left: Option<Bytes>)

  function Put(files: Files, rel: string, bytes: Bytes, fate: Fate): Files {
    match fate
    case Written => files[rel := bytes]
    case Refused => files
    case Spoiled(left) => if left.Some? then files[rel := left.value] else files - {rel}
  }

  function StoreFiles(c: Codec, files: Files, id: string, p: Col, b64: string, fate: Fate): Files {
    if !Offloads(c, Some(b64)) then files else Put(files, Rel(id, p), c.decode(b64).value, fate)
  }

  function StoreValue(c: Codec, id: string, p: Col, b64: string, fate: Fate): string {
    if Offloads(c, Some(b64)) && fate.Written? then RefTo(id, p) else b64
  }

  /** However the write ends, the value handed back shows the image that was handed in. */
  lemma StoreNeverLoses(c: Codec, files: Files, id: string, p: Col, b64: string, fate: Fate)
    requires Canonical(c) && !IsRef(b64)
    ensures Resolve(c, StoreFiles(c, files, id, p, b64, fate), StoreValue(c, id, p, b64, fate)) == b64
  {
    assert RefTo(id, p)[|PREFIX|..] == Rel(id, p);
  }

  lemma OnlyOwnRef(c: Codec, files: Files, files': Files, rel: string, v: Option<string>)
    requires v != Some(PREFIX + rel) && files - {rel} == files' - {rel}
    ensures Meaning(c, files', v) == Meaning(c, files, v)
  {
    if v.Some? && IsRef(v.value) {
      var r := v.value[|PREFIX|..];
      assert v.value == PREFIX + r;
      assert r in files <==> r in files - {rel};
      assert r in files' <==> r in files' - {rel};
      assert r in files ==> (files - {rel})[r] == files[r] && (files' - {rel})[r] == files'[r];
    }
  }

  ghost predicate WriteIsSafe(c: Codec, files: Files, id: string, p: Col, b64: string, v: Option<string>) {
    forall fate: Fate :: Meaning(c, StoreFiles(c, files, id, p, b64, fate), v) == Meaning(c, files, v)
  }

  /** Storing is harmless to another cell, however the write ends, exactly if that cell does not refer to the path. */
  lemma WriteIsSafeExactly(c: Codec, files: Files, id: string, p: Col, b64: string, v: Option<string>)
    requires Canonical(c) && Offloads(c, Some(b64))
    ensures WriteIsSafe(c, files, id, p, b64, v) <==> v != Some(RefTo(id, p))
  {
    var rel := Rel(id, p);
    if v != Some(RefTo(id, p)) {
      forall fate: Fate ensures Meaning(c, StoreFiles(c, files, id, p, b64, fate), v) == Meaning(c, files, v) {
        OnlyOwnRef(c, files, StoreFiles(c, files, id, p, b64, fate), rel, v);
      }
    } else {
      var a, b: Bytes := [0], [1];
      assert RefTo(id, p)[|PREFIX|..] == rel;
      EncodeIsInjective(c, a, b);
      assert Meaning(c, StoreFiles(c, files, id, p, b64, Spoiled(Some(a))), v) == Some(c.encode(a));
      assert Meaning(c, StoreFiles(c, files, id, p, b64, Spoiled(Some(b))), v) == Some(c.encode(b));
    }
  }

  lemma EncodeIsInjective(c: Codec, a: Bytes, b: Bytes)
    requires Canonical(c) && a != b
    ensures c.encode(a) != c.encode(b)
  {
    assert c.decode(c.encode(a)) == Some(a) && c.decode(c.encode(b)) == Some(b);
  }

  // ---------------------------------------------------------------- the migration

  /** What a cell becomes when nothing fails. */
  function Moved(c: Codec, id: string, p: Col, v: Option<string>): Option<string> {
    if Offloads(c, v) then Some(RefTo(id, p)) else v
  }

  function MovedRow(c: Codec, r: Row): Row {
    if r.id == "" then r else Row(r.id, Moved(c, r.id, Thumb, r.thumb), Moved(c, r.id, Ctx, r.ctx))
  }

  function MovedRows(c: Codec, rows: seq<Row>): (r: seq<Row>)
    ensures |r| == |rows| && forall i :: 0 <= i < |rows| ==> r[i] == MovedRow(c, rows[i])
  {
    seq(|rows|, i requires 0 <= i < |rows| => MovedRow(c, rows[i]))
  }

  ghost predicate DistinctIds(rows: seq<Row>) {
    forall i, j :: 0 <= i < j < |rows| ==> rows[i].id != rows[j].id
  }

  /** How the calls for one row end. */
  datatype RowFate = RowFate(thumb: Fate, ctx: Fate, updated: bool)

  const CLEAN := RowFate(Written, Written, true)

  function CellFiles(c: Codec, files: Files, id: string, p: Col, v: Option<string>, fate: Fate): Files {
    if Tried(v) then StoreFiles(c, files, id, p, v.value, fate) else files
  }

  function CellValue(c: Codec, id: string, p: Col, v: Option<string>, fate: Fate): Option<string> {
    if Tried(v) then Some(StoreValue(c, id, p, v.value, fate)) else v
  }

  /** The disk after row `i` had its thumbnail stored, then its context frame, then its cells updated. */
  function AfterThumb(c: Codec, d: Disk, i: nat, fate: RowFate): Disk
    requires i < |d.rows|
  {
    d.(files := CellFiles(c, d.files, d.rows[i].id, Thumb, d.rows[i].thumb, fate.thumb))
  }

  function AfterCtx(c: Codec, d: Disk, i: nat, fate: RowFate): Disk
    requires i < |d.rows|
  {
    var e := AfterThumb(c, d, i, fate);
    e.(files := CellFiles(c, e.files, d.rows[i].id, Ctx, d.rows[i].ctx, fate.ctx))
  }

  function NewRow(c: Codec, r: Row, fate: RowFate): Row {
    if fate.updated then
      Row(r.id, CellValue(c, r.id, Thumb, r.thumb, fate.thumb), CellValue(c, r.id, Ctx, r.ctx, fate.ctx))
    else r
  }

  function RowEnd(c: Codec, d: Disk, i: nat, fate: RowFate): Disk
    requires i < |d.rows|
  {
    Disk(d.rows[i := NewRow(c, d.rows[i], fate)], AfterCtx(c, d, i, fate).files)
  }

  /** The states the disk goes through: one after every write tried, and one after the update. */
  function RowStates(c: Codec, d: Disk, i: nat, fate: RowFate): seq<Disk>
    requires i < |d.rows|
  {
    var r := d.rows[i];
    (if Tried(r.thumb) then [AfterThumb(c, d, i, fate)] else [])
    + (if Tried(r.ctx) then [AfterCtx(c, d, i, fate)] else [])
    + if Tried(r.thumb) || Tried(r.ctx) then [RowEnd(c, d, i, fate)] else []
  }

  /** The disk after rows `first` up to `at`. */
  function RunEnd(c: Codec, d: Disk, fates: seq<RowFate>, first: nat, at: nat): (e: Disk)
    requires first <= at <= |d.rows| == |fates|
    ensures |e.rows| == |d.rows|
  {
    if at == first then d else RowEnd(c, RunEnd(c, d, fates, first, at - 1), at - 1, fates[at - 1])
  }

  function RunStates(c: Codec, d: Disk, fates: seq<RowFate>, first: nat, at: nat): seq<Disk>
    requires first <= at <= |d.rows| == |fates|
  {
    if at == first then []
    else
      RunStates(c, d, fates, first, at - 1)
      + RowStates(c, RunEnd(c, d, fates, first, at - 1), at - 1, fates[at - 1])
  }

  /** `id > ?` of the query: text order. */
  predicate Less(a: string, b: string) {
    b != "" && (a == "" || a[0] < b[0] || (a[0] == b[0] && Less(a[1..], b[1..])))
  }

  lemma {:induction false} LessIsStrict(a: string, b: string)
    ensures !(Less(a, b) && Less(b, a)) && !Less(a, a)
  {
    if a != "" {
      LessIsStrict(a[1..], a[1..]);
      if b != "" { LessIsStrict(a[1..], b[1..]); }
    }
  }

  ghost predicate SortedIds(rows: seq<Row>) {
    forall i, j :: 0 <= i < j < |rows| ==> Less(rows[i].id, rows[j].id)
  }

  lemma SortedAreDistinct(rows: seq<Row>)
    requires SortedIds(rows)
    ensures DistinctIds(rows)
  {
    forall i, j | 0 <= i < j < |rows| ensures rows[i].id != rows[j].id {
      LessIsStrict(rows[i].id, rows[j].id);
    }
  }

  /** The first row past `last` in id order. */
  function Seek(rows: seq<Row>, last: string, from: nat): (n: nat)
    requires from <= |rows|
    ensures from <= n <= |rows| && (n < |rows| ==> Less(last, rows[n].id))
    ensures forall i :: from <= i < n ==> !Less(last, rows[i].id)
    decreases |rows| - from
  {
    if from == |rows| || Less(last, rows[from].id) then from else Seek(rows, last, from + 1)
  }

  /** Having dealt with row `i`, the query goes on with row `i + 1`. */
  lemma {:induction false} SeekIsNext(rows: seq<Row>, i: nat, from: nat)
    requires SortedIds(rows) && i < |rows| && from <= i + 1
    ensures Seek(rows, rows[i].id, from) == i + 1
    decreases i + 1 - from
  {
    if from <= i {
      LessIsStrict(rows[from].id, rows[i].id);
      SeekIsNext(rows, i, from + 1);
    }
  }

  const PAGE := 200

  class FaceStore {
    var rows: seq<Row>
    var files: Files
    /** Every state of the disk so far: a crash leaves the last of them. */
    ghost var seen: seq<Disk>

    ghost function Value(): Disk
      reads this
    {
      Disk(rows, files)
    }

    constructor (table: seq<Row>, stored: Files)
      ensures rows == table && files == stored && seen == []
    {
      rows, files, seen := table, stored, [];
    }

    /** `store`, for one of the two image columns. */
    method Store(c: Codec, id: string, p: Col, b64: string, fate: Fate) returns (v: string)
      modifies this`files, this`seen
      ensures files == StoreFiles(c, old(files), id, p, b64, fate) && v == StoreValue(c, id, p, b64, fate)
      ensures seen == old(seen) + [Value()]
    {
      v := b64;
      if b64 != "" && !IsRef(b64) {
        var bytes := c.decode(b64);
        if bytes.Some? && !fate.Refused? {
          files := Put(files, Rel(id, p), bytes.value, fate);
          if fate.Written? { v := RefTo(id, p); }
        }
      }
      seen := seen + [Value()];
    }

    /** The row update; it may fail, and then the row stays as it is. */
    method Update(i: nat, thumb: Option<string>, ctx: Option<string>, done: bool)
      requires i < |rows|
      modifies this`rows, this`seen
      ensures rows == if done then old(rows)[i := Row(old(rows)[i].id,
                                                      if thumb.Some? then thumb else old(rows)[i].thumb,
                                                      if ctx.Some? then ctx else old(rows)[i].ctx)]
                      else old(rows)
      ensures seen == old(seen) + [Value()]
    {
      if done {
        var r := rows[i];
        rows := rows[i := Row(r.id, if thumb.Some? then thumb else r.thumb, if ctx.Some? then ctx else r.ctx)];
      }
      seen := seen + [Value()];
    }

    /** One cell of a row: its image goes to a file if it is inline. */
    method Offload(c: Codec, id: string, p: Col, v: Option<string>, fate: Fate) returns (nv: Option<string>)
      modifies this`files, this`seen
      ensures files == CellFiles(c, old(files), id, p, v, fate)
      ensures nv == if Tried(v) then CellValue(c, id, p, v, fate) else None
      ensures seen == old(seen) + if Tried(v) then [Value()] else []
    {
      nv := None;
      if v.Some? && v.value != "" && !IsRef(v.value) {
        var s := Store(c, id, p, v.value, fate);
        nv := Some(s);
      }
    }

    /** One row of a page. */
    method MigrateRow(c: Codec, i: nat, fate: RowFate)
      requires i < |rows|
      modifies this
      ensures Value() == RowEnd(c, old(Value()), i, fate)
      ensures seen == old(seen) + RowStates(c, old(Value()), i, fate)
    {
      ghost var d := Value();
      var r := rows[i];
      hide CellFiles, CellValue, Tried;
      UpdateSame(rows, i);
      var nt := Offload(c, r.id, Thumb, r.thumb, fate.thumb);
      assert Value() == AfterThumb(c, d, i, fate);
      var nc := Offload(c, r.id, Ctx, r.ctx, fate.ctx);
      assert Value() == AfterCtx(c, d, i, fate);
      NotTried(c, r, fate);
      if nt.Some? || nc.Some? { Update(i, nt, nc, fate.updated); }
    }

    /** The rows from `first` up to `at` have been dealt with. */
    ghost predicate Dealt(c: Codec, fates: seq<RowFate>, first: nat, at: nat, origin: Disk)
      reads this
    {
      && first <= at <= |rows| == |fates| == |origin.rows|
      && Value() == RunEnd(c, origin, fates, first, at) && seen == RunStates(c, origin, fates, first, at)
    }

    /** The rows of one page, `at` up to `stop`. */
    method MigratePage(c: Codec, fates: seq<RowFate>, first: nat, at: nat, stop: nat, ghost origin: Disk)
      requires at <= stop <= |rows| && Dealt(c, fates, first, at, origin)
      modifies this
      ensures Dealt(c, fates, first, stop, origin)
    {
      for i := at to stop
        invariant Dealt(c, fates, first, i, origin)
      {
        hide RowEnd, RowStates;
        MigrateRow(c, i, fates[i]);
      }
    }

    /** Pages of rows past the last id dealt with, until a page is empty or its query fails. */
    method MigratePages(c: Codec, fates: seq<RowFate>, broken: Option<nat>)
      requires SortedIds(rows) && |fates| == |rows| && seen == []
      modifies this
      ensures var at := PagesUpTo(old(rows), broken);
              && Value() == RunEnd(c, old(Value()), fates, First(old(rows)), at)
              && seen == RunStates(c, old(Value()), fates, First(old(rows)), at)
    {
      ghost var origin := Value();
      var first, last, query := Seek(rows, "", 0), "", 0;
      var at := first;
      RunStart(c, origin, fates, first);
      hide Seek, Less, SortedIds, RunEnd, RunStates, First;
      while broken != Some(query)
        invariant |rows| == |origin.rows| && first <= at <= |rows| && SortedIds(rows) && at == Seek(rows, last, 0)
        invariant Dealt(c, fates, first, at, origin)
        invariant at == if first + PAGE * query < |rows| then first + PAGE * query else |rows|
        invariant broken.Some? ==> query <= broken.value
        decreases |rows| - at
      {
        var page := Seek(rows, last, 0);
        var stop := if page + PAGE < |rows| then page + PAGE else |rows|;
        if stop == page { break; }
        MigratePage(c, fates, first, page, stop, origin);
        RunStaysSorted(c, origin, fates, first, stop);
        last := rows[stop - 1].id;
        SeekIsNext(rows, stop - 1, 0);
        at, query := stop, query + 1;
      }
    }

    /** `migrate_face_thumbnails`; `done` is the number of rows gone past at its end. */
    method Migrate(c: Codec, fates: seq<RowFate>, counted: bool, broken: Option<nat>) returns (ghost done: nat)
      requires Canonical(c) && SortedIds(rows) && |fates| == |rows|
      modifies this
      ensures done == Stop(old(rows), counted, broken)
      ensures Value() == RunEnd(c, old(Value()), fates, First(old(rows)), done)
      ensures seen == RunStates(c, old(Value()), fates, First(old(rows)), done)
      ensures Unaliased(c, old(rows)) ==> MigrationKeeps(c, old(Value()), fates, counted, broken)
      ensures Progress(c, old(rows), rows, fates, First(old(rows)), done)
      ensures NothingToMove(c, old(rows)) ==> Value() == old(Value())
    {
      ghost var origin := Value();
      seen, done := [], Stop(rows, counted, broken);
      RunStart(c, origin, fates, First(rows));
      RunProgress(c, origin, fates, First(rows), done);
      if Unaliased(c, origin.rows) { RunKeeps(c, origin, fates, First(rows), done); }
      if NothingToMove(c, origin.rows) { NothingMoves(c, origin, fates, First(rows), done); }
      hide HasInline, First, SortedIds, Unaliased, NothingToMove, Canonical, Progress, RunEnd, RunStates;
      if counted && HasInline(rows) { MigratePages(c, fates, broken); }
    }
  }

  /** The first row the migration ever looks at: one with the empty id is passed over. */
  function First(rows: seq<Row>): nat { Seek(rows, "", 0) }

  /** Some cell of the table is neither empty of value nor a reference. */
  predicate HasInline(rows: seq<Row>) {
    exists i, p :: 0 <= i < |rows| && InlineCell(Cell(rows[i], p))
  }

  predicate InlineCell(v: Option<string>) { v.Some? && !IsRef(v.value) }

  ghost predicate NothingToMove(c: Codec, rows: seq<Row>) {
    forall i, p :: 0 <= i < |rows| && rows[i].id != "" ==> !Offloads(c, Cell(rows[i], p))
  }

  /** Rows `first` up to `at` have been dealt with, each once; the others are as they were. */
  ghost predicate Progress(c: Codec, origin: seq<Row>, rows: seq<Row>, fates: seq<RowFate>, first: nat, at: nat) {
    && |rows| == |origin| == |fates|
    && (forall i :: 0 <= i < |rows| ==> rows[i].id == origin[i].id)
    && (forall i :: 0 <= i < |rows| && (i < first || at <= i) ==> rows[i] == origin[i])
    && (forall i :: first <= i < at && i < |rows| && fates[i] == CLEAN ==> rows[i] == MovedRow(c, origin[i]))
  }

  lemma ProgressStart(c: Codec, rows: seq<Row>, fates: seq<RowFate>, first: nat)
    requires |fates| == |rows|
    ensures Progress(c, rows, rows, fates, first, first)
  {
  }

  lemma MovedRowIs(c: Codec, r: Row)
    requires r.id != ""
    ensures MovedRow(c, r) == Row(r.id, Moved(c, r.id, Thumb, r.thumb), Moved(c, r.id, Ctx, r.ctx))
  {
  }

  lemma IdsStaySorted(c: Codec, origin: seq<Row>, rows: seq<Row>, fates: seq<RowFate>, first: nat, at: nat)
    requires Progress(c, origin, rows, fates, first, at) && SortedIds(origin)
    ensures SortedIds(rows) && DistinctIds(rows)
  {
    hide Less, MovedRow;
    SortedAreDistinct(rows);
  }

  /** Past the first row, no id is empty. */
  lemma NoEmptyIds(rows: seq<Row>, i: nat)
    requires SortedIds(rows) && First(rows) <= i < |rows|
    ensures rows[i].id != ""
  {
    var first := First(rows);
    if first < i { assert Less(rows[first].id, rows[i].id); }
  }

  lemma ProgressNext(c: Codec, origin: seq<Row>, rows: seq<Row>, r: Row, fates: seq<RowFate>, first: nat, i: nat)
    requires Progress(c, origin, rows, fates, first, i) && first <= i < |rows| && r.id == origin[i].id
    requires fates[i] == CLEAN ==> r == MovedRow(c, origin[i])
    ensures Progress(c, origin, rows[i := r], fates, first, i + 1)
  {
    hide MovedRow;
  }

  /** The pages end with the rows, or where a query fails. */
  function PagesUpTo(rows: seq<Row>, broken: Option<nat>): (n: nat)
    ensures First(rows) <= n <= |rows|
  {
    if broken.Some? && First(rows) + PAGE * broken.value < |rows| then First(rows) + PAGE * broken.value else |rows|
  }

  /** Where the migration stops: at once if nothing is inline or the count fails. */
  function Stop(rows: seq<Row>, counted: bool, broken: Option<nat>): (n: nat)
    ensures First(rows) <= n <= |rows|
  {
    if counted && HasInline(rows) then PagesUpTo(rows, broken) else First(rows)
  }

  lemma RunStart(c: Codec, d: Disk, fates: seq<RowFate>, first: nat)
    requires first <= |d.rows| == |fates|
    ensures RunEnd(c, d, fates, first, first) == d && RunStates(c, d, fates, first, first) == []
  {
  }

  lemma NotTried(c: Codec, r: Row, fate: RowFate)
    ensures !Tried(r.thumb) ==> CellValue(c, r.id, Thumb, r.thumb, fate.thumb) == r.thumb
    ensures !Tried(r.ctx) ==> CellValue(c, r.id, Ctx, r.ctx, fate.ctx) == r.ctx
    ensures Tried(r.thumb) ==> CellValue(c, r.id, Thumb, r.thumb, fate.thumb).Some?
    ensures Tried(r.ctx) ==> CellValue(c, r.id, Ctx, r.ctx, fate.ctx).Some?
  {
  }

  lemma CleanRow(c: Codec, r: Row)
    requires r.id != ""
    ensures NewRow(c, r, CLEAN) == MovedRow(c, r)
  {
  }

  lemma {:induction false} RunProgress(c: Codec, d: Disk, fates: seq<RowFate>, first: nat, at: nat)
    requires SortedIds(d.rows) && |fates| == |d.rows| && first == First(d.rows) <= at <= |d.rows|
    ensures Progress(c, d.rows, RunEnd(c, d, fates, first, at).rows, fates, first, at)
    decreases at
  {
    hide Seek, Less, SortedIds, AfterCtx, NewRow, MovedRow;
    if at > first {
      var i, before := at - 1, RunEnd(c, d, fates, first, at - 1);
      RunProgress(c, d, fates, first, i);
      NoEmptyIds(d.rows, i);
      assert before.rows[i] == d.rows[i];
      if fates[i] == CLEAN { CleanRow(c, d.rows[i]); }
      NewRowId(c, before.rows[i], fates[i]);
      ProgressNext(c, d.rows, before.rows, NewRow(c, before.rows[i], fates[i]), fates, first, i);
    } else {
      ProgressStart(c, d.rows, fates, first);
    }
  }

  lemma RunStaysSorted(c: Codec, d: Disk, fates: seq<RowFate>, first: nat, at: nat)
    requires SortedIds(d.rows) && |fates| == |d.rows| && first == First(d.rows) <= at <= |d.rows|
    ensures var rows := RunEnd(c, d, fates, first, at).rows; SortedIds(rows) && DistinctIds(rows)
  {
    RunProgress(c, d, fates, first, at);
    IdsStaySorted(c, d.rows, RunEnd(c, d, fates, first, at).rows, fates, first, at);
  }

  lemma NewRowId(c: Codec, r: Row, fate: RowFate)
    ensures NewRow(c, r, fate).id == r.id
  {
  }

  /** A run in which nothing fails leaves nothing to move. */
  lemma CleanRunFinishes(c: Codec, d: Disk, fates: seq<RowFate>)
    requires SortedIds(d.rows) && |fates| == |d.rows| && forall k :: 0 <= k < |fates| ==> fates[k] == CLEAN
    ensures var rows := RunEnd(c, d, fates, First(d.rows), |d.rows|).rows;
            rows == MovedRows(c, d.rows) && NothingToMove(c, rows)
  {
    var rows := RunEnd(c, d, fates, First(d.rows), |d.rows|).rows;
    RunProgress(c, d, fates, First(d.rows), |d.rows|);
    hide RunEnd;
    forall i | 0 <= i < |rows| ensures rows[i] == MovedRow(c, d.rows[i]) {
      if i < First(d.rows) { assert !Less("", d.rows[i].id); }
    }
    hide MovedRow, Seek, Less, Offloads;
    forall i, p | 0 <= i < |rows| && rows[i].id != "" ensures !Offloads(c, Cell(rows[i], p)) {
      MovedHasNoInline(c, d.rows[i], p);
    }
  }

  lemma MovedHasNoInline(c: Codec, r: Row, p: Col)
    requires r.id != ""
    ensures !Offloads(c, Cell(MovedRow(c, r), p))
  {
    MovedRowIs(c, r);
    assert Cell(MovedRow(c, r), p) == Moved(c, r.id, p, Cell(r, p));
  }

  lemma NothingInlineNothingToMove(c: Codec, rows: seq<Row>)
    requires !HasInline(rows)
    ensures NothingToMove(c, rows)
  {
    forall i, p | 0 <= i < |rows| ensures !Offloads(c, Cell(rows[i], p)) {
      assert !InlineCell(Cell(rows[i], p));
    }
  }

  lemma NothingMovesInRow(c: Codec, d: Disk, i: nat, fate: RowFate)
    requires i < |d.rows| && !Offloads(c, d.rows[i].thumb) && !Offloads(c, d.rows[i].ctx)
    ensures RowEnd(c, d, i, fate) == d
  {
    UpdateSame(d.rows, i);
  }

  lemma {:induction false} NothingMoves(c: Codec, d: Disk, fates: seq<RowFate>, first: nat, at: nat)
    requires SortedIds(d.rows) && |fates| == |d.rows| && first == First(d.rows) <= at <= |d.rows|
    requires NothingToMove(c, d.rows)
    ensures RunEnd(c, d, fates, first, at) == d
    decreases at
  {
    if at > first {
      NothingMoves(c, d, fates, first, at - 1);
      NoEmptyIds(d.rows, at - 1);
      hide Offloads, Seek, Less, RowEnd;
      assert !Offloads(c, Cell(d.rows[at - 1], Thumb)) && !Offloads(c, Cell(d.rows[at - 1], Ctx));
      NothingMovesInRow(c, d, at - 1, fates[at - 1]);
    }
  }

  /** After a run without failures, a second run changes neither a row nor a file, whatever fails in it. */
  method MigrateTwice(store: FaceStore, c: Codec, clean: seq<RowFate>, fates: seq<RowFate>,
                      counted: bool, broken: Option<nat>)
    returns (between: seq<Row>, filesBetween: Files)
    requires Canonical(c) && SortedIds(store.rows) && |clean| == |fates| == |store.rows|
    requires forall k :: 0 <= k < |clean| ==> clean[k] == CLEAN
    modifies store
    ensures NothingToMove(c, store.rows)
    ensures store.rows == between && store.files == filesBetween
  {
    ghost var origin := store.Value();
    var done := store.Migrate(c, clean, true, None);
    between, filesBetween := store.rows, store.files;
    if HasInline(origin.rows) {
      CleanRunFinishes(c, origin, clean);
    } else {
      NothingInlineNothingToMove(c, origin.rows);
    }
    RunStaysSorted(c, origin, clean, First(origin.rows), done);
    hide RunEnd, RunStates;
    done := store.Migrate(c, fates, counted, broken);
  }

  // ---------------------------------------------------------------- what the migration keeps

  /** A cell after its image was stored, or not; the file is there if the cell now refers to it. */
  ghost predicate Landed(c: Codec, files: Files, id: string, p: Col, v: Option<string>, nv: Option<string>) {
    nv == v || (Offloads(c, v) && nv == Some(RefTo(id, p)) && HoldsImage(c, files, Rel(id, p), v.value))
  }

  predicate HoldsImage(c: Codec, files: Files, rel: string, b64: string) {
    rel in files && c.decode(b64) == Some(files[rel])
  }

  lemma LandedShowsTheSame(c: Codec, files: Files, id: string, p: Col, v: Option<string>, nv: Option<string>)
    requires Canonical(c) && Landed(c, files, id, p, v, nv)
    ensures Meaning(c, files, nv) == Meaning(c, files, v)
  {
    assert RefTo(id, p)[|PREFIX|..] == Rel(id, p);
  }

  lemma LandedAfterStore(c: Codec, files: Files, id: string, p: Col, v: Option<string>, fate: Fate)
    ensures Landed(c, CellFiles(c, files, id, p, v, fate), id, p, v, CellValue(c, id, p, v, fate))
  {
    hide Rel, RefTo;
  }

  lemma LandedStays(c: Codec, files: Files, id: string, v: Option<string>, nv: Option<string>,
                    ctx: Option<string>, fate: Fate)
    requires Landed(c, files, id, Thumb, v, nv)
    ensures Landed(c, CellFiles(c, files, id, Ctx, ctx, fate), id, Thumb, v, nv)
  {
    RelsDiffer(id, Thumb, id, Ctx);
    hide Rel, RefTo;
  }

  lemma PutTouchesOne(c: Codec, files: Files, id: string, p: Col, v: Option<string>, fate: Fate)
    ensures CellFiles(c, files, id, p, v, fate) - {Rel(id, p)} == files - {Rel(id, p)}
    ensures !Offloads(c, v) ==> CellFiles(c, files, id, p, v, fate) == files
  {
    hide Rel;
  }

  /** Storing a cell changes no cell's meaning. */
  lemma StoreKeeps(c: Codec, d: Disk, i: nat, p: Col, fate: Fate)
    requires i < |d.rows| && Unaliased(c, d.rows) && d.rows[i].id != ""
    ensures SameMeaning(c, d, d.(files := CellFiles(c, d.files, d.rows[i].id, p, Cell(d.rows[i], p), fate)))
  {
    var v := Cell(d.rows[i], p);
    var files := CellFiles(c, d.files, d.rows[i].id, p, v, fate);
    PutTouchesOne(c, d.files, d.rows[i].id, p, v, fate);
    hide CellFiles, Rel, Meaning;
    if Offloads(c, v) {
      hide Offloads;
      forall j, q | 0 <= j < |d.rows|
        ensures Meaning(c, files, Cell(d.rows[j], q)) == Meaning(c, d.files, Cell(d.rows[j], q)) {
        assert Cell(d.rows[j], q) != Some(RefTo(d.rows[i].id, p));
        OnlyOwnRef(c, d.files, files, Rel(d.rows[i].id, p), Cell(d.rows[j], q));
      }
    }
  }

  /** Pointing a row at the files just written changes no cell's meaning and aliases nothing. */
  lemma UpdateKeeps(c: Codec, d: Disk, i: nat, r: Row)
    requires Canonical(c) && i < |d.rows| && r.id == d.rows[i].id && DistinctIds(d.rows) && Unaliased(c, d.rows)
    requires Landed(c, d.files, r.id, Thumb, d.rows[i].thumb, r.thumb)
             && Landed(c, d.files, r.id, Ctx, d.rows[i].ctx, r.ctx)
    ensures SameMeaning(c, d, d.(rows := d.rows[i := r])) && Unaliased(c, d.rows[i := r])
  {
    LandedShowsTheSame(c, d.files, r.id, Thumb, d.rows[i].thumb, r.thumb);
    LandedShowsTheSame(c, d.files, r.id, Ctx, d.rows[i].ctx, r.ctx);
    UpdateAliasesNothing(c, d, i, r);
  }

  lemma UpdateAliasesNothing(c: Codec, d: Disk, i: nat, r: Row)
    requires i < |d.rows| && r.id == d.rows[i].id && DistinctIds(d.rows) && Unaliased(c, d.rows)
    requires Landed(c, d.files, r.id, Thumb, d.rows[i].thumb, r.thumb)
             && Landed(c, d.files, r.id, Ctx, d.rows[i].ctx, r.ctx)
    ensures Unaliased(c, d.rows[i := r])
  {
    hide HoldsImage;
    var rows := d.rows[i := r];
    forall k, p, j, q | 0 <= k < |rows| && 0 <= j < |rows| && Writes(c, rows[k], p)
      ensures Cell(rows[j], q) != Some(RefTo(rows[k].id, p))
    {
      assert Cell(rows[k], p) == Cell(d.rows[k], p);
      assert Cell(d.rows[j], q) != Some(RefTo(d.rows[k].id, p));
      if Cell(rows[j], q) != Cell(d.rows[j], q) {
        assert j == i && Cell(rows[j], q) == Some(RefTo(r.id, q));
        assert k != i || p != q;
        RelsDiffer(rows[k].id, p, r.id, q);
      }
    }
  }

  lemma SameThrough(c: Codec, d: Disk, e: Disk, f: Disk)
    requires SameMeaning(c, d, e) && SameMeaning(c, e, f)
    ensures SameMeaning(c, d, f)
  {
    hide Meaning, Cell;
  }

  ghost predicate AllSame(c: Codec, d: Disk, states: seq<Disk>) {
    forall k :: 0 <= k < |states| ==> SameMeaning(c, d, states[k])
  }

  /** Every state of a row's migration shows what the disk showed before it. */
  lemma RowKeeps(c: Codec, d: Disk, i: nat, fate: RowFate)
    requires Canonical(c) && i < |d.rows| && d.rows[i].id != "" && DistinctIds(d.rows) && Unaliased(c, d.rows)
    ensures SameMeaning(c, d, RowEnd(c, d, i, fate)) && Unaliased(c, RowEnd(c, d, i, fate).rows)
    ensures AllSame(c, d, RowStates(c, d, i, fate))
  {
    var r := d.rows[i];
    var one, two := AfterThumb(c, d, i, fate), AfterCtx(c, d, i, fate);
    StoreKeeps(c, d, i, Thumb, fate.thumb);
    StoreKeeps(c, one, i, Ctx, fate.ctx);
    LandedAfterStore(c, d.files, r.id, Thumb, r.thumb, fate.thumb);
    LandedStays(c, one.files, r.id, r.thumb, CellValue(c, r.id, Thumb, r.thumb, fate.thumb), r.ctx, fate.ctx);
    LandedAfterStore(c, one.files, r.id, Ctx, r.ctx, fate.ctx);
    hide CellFiles, CellValue, Tried, Unaliased, DistinctIds, SameMeaning;
    var r' := NewRow(c, r, fate);
    assert Landed(c, two.files, r.id, Thumb, r.thumb, r'.thumb) && Landed(c, two.files, r.id, Ctx, r.ctx, r'.ctx);
    hide Landed;
    UpdateKeeps(c, two, i, r');
    SameThrough(c, d, one, two);
    SameThrough(c, d, two, RowEnd(c, d, i, fate));
  }

  lemma SameInMore(c: Codec, d: Disk, e: Disk, states: seq<Disk>, more: seq<Disk>)
    requires AllSame(c, d, states) && SameMeaning(c, d, e) && AllSame(c, e, more)
    ensures AllSame(c, d, states + more)
  {
    hide SameMeaning;
    forall k | 0 <= k < |more| ensures SameMeaning(c, d, more[k]) { SameThrough(c, d, e, more[k]); }
  }

  lemma {:induction false} RunKeeps(c: Codec, d: Disk, fates: seq<RowFate>, first: nat, at: nat)
    requires Canonical(c) && SortedIds(d.rows) && |fates| == |d.rows| && first == First(d.rows) <= at <= |d.rows|
    requires Unaliased(c, d.rows)
    ensures SameMeaning(c, d, RunEnd(c, d, fates, first, at)) && Unaliased(c, RunEnd(c, d, fates, first, at).rows)
    ensures AllSame(c, d, RunStates(c, d, fates, first, at))
    decreases at
  {
    if at > first {
      hide Canonical, SortedIds, DistinctIds, First, Unaliased, RowEnd, RowStates, SameMeaning, AllSame, Progress;
      var i, before := at - 1, RunEnd(c, d, fates, first, at - 1);
      RunKeeps(c, d, fates, first, i);
      RunStaysSorted(c, d, fates, first, i);
      RunProgress(c, d, fates, first, i);
      NoEmptyIds(d.rows, i);
      ProgressId(c, d.rows, before.rows, fates, first, i);
      RowKeeps(c, before, i, fates[i]);
      SameInMore(c, d, before, RunStates(c, d, fates, first, i), RowStates(c, before, i, fates[i]));
      SameThrough(c, d, before, RowEnd(c, before, i, fates[i]));
    }
  }

  lemma ProgressId(c: Codec, origin: seq<Row>, rows: seq<Row>, fates: seq<RowFate>, first: nat, i: nat)
    requires Progress(c, origin, rows, fates, first, i) && i < |rows|
    ensures rows[i].id == origin[i].id
  {
  }

  /** The migration shows the same images at its end and in every state on the way, where a crash may leave it. */
  ghost predicate MigrationKeeps(c: Codec, d: Disk, fates: seq<RowFate>, counted: bool, broken: Option<nat>)
    requires |fates| == |d.rows|
  {
    var first, stop := First(d.rows), Stop(d.rows, counted, broken);
    SameMeaning(c, d, RunEnd(c, d, fates, first, stop)) && AllSame(c, d, RunStates(c, d, fates, first, stop))
  }

  ghost predicate AlwaysKeeps(c: Codec, d: Disk) {
    forall fates, counted, broken | |fates| == |d.rows| :: MigrationKeeps(c, d, fates, counted, broken)
  }

  /**
    However its calls end, the migration keeps every image, if and only if no cell refers to a file
    it has yet to write.
   */
  lemma MigrationKeepsExactly(c: Codec, d: Disk)
    requires Canonical(c) && SortedIds(d.rows)
    ensures AlwaysKeeps(c, d) <==> Unaliased(c, d.rows)
  {
    if Unaliased(c, d.rows) {
      forall fates, counted, broken | |fates| == |d.rows| ensures MigrationKeeps(c, d, fates, counted, broken) {
        RunKeeps(c, d, fates, First(d.rows), Stop(d.rows, counted, broken));
      }
    } else {
      var i, p, j, q :| 0 <= i < |d.rows| && 0 <= j < |d.rows| && Writes(c, d.rows[i], p)
                        && Cell(d.rows[j], q) == Some(RefTo(d.rows[i].id, p));
      hide Canonical, SortedIds, Unaliased, Writes;
      OneOfTwoSpoils(c, d, i, p, j, q);
    }
  }

  // ---------------------------------------------------------------- a write that spoils another cell

  const QUIET := RowFate(Refused, Refused, false)

  /** Only the write of column `p` gets anywhere, and leaves `left` at its path. */
  function Spoil(p: Col, left: Bytes): RowFate {
    if p.Thumb? then QUIET.(thumb := Spoiled(Some(left))) else QUIET.(ctx := Spoiled(Some(left)))
  }

  function OnlySpoil(n: nat, i: nat, p: Col, left: Bytes): (fates: seq<RowFate>)
    ensures |fates| == n && forall k :: 0 <= k < n ==> fates[k] == if k == i then Spoil(p, left) else QUIET
  {
    seq(n, k => if k == i then Spoil(p, left) else QUIET)
  }

  lemma QuietRow(c: Codec, d: Disk, i: nat)
    requires i < |d.rows|
    ensures RowEnd(c, d, i, QUIET) == d
  {
    UpdateSame(d.rows, i);
  }

  lemma SpoiledRow(c: Codec, d: Disk, i: nat, p: Col, left: Bytes)
    requires i < |d.rows| && Offloads(c, Cell(d.rows[i], p))
    ensures RowEnd(c, d, i, Spoil(p, left)) == d.(files := d.files[Rel(d.rows[i].id, p) := left])
  {
    UpdateSame(d.rows, i);
    hide Rel;
  }

  lemma {:induction false} SpoiledRun(c: Codec, d: Disk, i: nat, p: Col, left: Bytes, first: nat, at: nat)
    requires first <= i < |d.rows| && first <= at <= |d.rows| && Offloads(c, Cell(d.rows[i], p))
    ensures RunEnd(c, d, OnlySpoil(|d.rows|, i, p, left), first, at)
            == if at <= i then d else d.(files := d.files[Rel(d.rows[i].id, p) := left])
    decreases at
  {
    hide RowEnd, Rel, Offloads, Spoil;
    if at > first {
      SpoiledRun(c, d, i, p, left, first, at - 1);
      if at - 1 == i {
        SpoiledRow(c, d, i, p, left);
      } else {
        QuietRow(c, RunEnd(c, d, OnlySpoil(|d.rows|, i, p, left), first, at - 1), at - 1);
      }
    }
  }

  lemma SpoiledMeaning(c: Codec, d: Disk, i: nat, p: Col, j: nat, q: Col, left: Bytes)
    requires SortedIds(d.rows) && i < |d.rows| && j < |d.rows| && Writes(c, d.rows[i], p)
    requires Cell(d.rows[j], q) == Some(RefTo(d.rows[i].id, p))
    requires MigrationKeeps(c, d, OnlySpoil(|d.rows|, i, p, left), true, None)
    ensures Meaning(c, d.files, Cell(d.rows[j], q)) == Some(c.encode(left))
  {
    assert First(d.rows) <= i;
    assert InlineCell(Cell(d.rows[i], p));
    hide Seek, SortedIds, First, RunEnd, RunStates, OnlySpoil;
    SpoiledRun(c, d, i, p, left, First(d.rows), |d.rows|);
    assert RefTo(d.rows[i].id, p)[|PREFIX|..] == Rel(d.rows[i].id, p);
    hide Rel;
    var e := d.(files := d.files[Rel(d.rows[i].id, p) := left]);
    assert SameMeaning(c, d, e);
    assert Meaning(c, e.files, Cell(e.rows[j], q)) == Meaning(c, d.files, Cell(d.rows[j], q));
  }

  lemma OneOfTwoSpoils(c: Codec, d: Disk, i: nat, p: Col, j: nat, q: Col)
    requires Canonical(c) && SortedIds(d.rows) && i < |d.rows| && j < |d.rows| && Writes(c, d.rows[i], p)
    requires Cell(d.rows[j], q) == Some(RefTo(d.rows[i].id, p))
    ensures !AlwaysKeeps(c, d)
  {
    if AlwaysKeeps(c, d) {
      hide MigrationKeeps, SortedIds, Writes, RefTo, Cell;
      EncodeIsInjective(c, [0], [1]);
      SpoiledMeaning(c, d, i, p, j, q, [0]);
      SpoiledMeaning(c, d, i, p, j, q, [1]);
    }
  }

  /** Rows that only ever refer to their own files, as stored ones do, alias nothing. */
  ghost predicate OwnRefs(rows: seq<Row>) {
    forall i, p :: 0 <= i < |rows| && Cell(rows[i], p).Some? && IsRef(Cell(rows[i], p).value) ==>
                     Cell(rows[i], p) == Some(RefTo(rows[i].id, p))
  }

  lemma OwnRefsAliasNothing(c: Codec, rows: seq<Row>)
    requires DistinctIds(rows) && OwnRefs(rows)
    ensures Unaliased(c, rows)
  {
    forall i, p, j, q | 0 <= i < |rows| && 0 <= j < |rows| && Writes(c, rows[i], p)
      ensures Cell(rows[j], q) != Some(RefTo(rows[i].id, p))
    {
      if i != j || p != q { RelsDiffer(rows[i].id, p, rows[j].id, q); }
      assert IsRef(RefTo(rows[i].id, p));
      hide RefTo;
    }
  }

  // ---------------------------------------------------------------- the sweep

  /** When a file was last written: unknown, or its metadata could not be read at all. */
  datatype Stat = Unreadable | NoTime | Modified(at: real)

  /** A file of the `faces` directory, and whether its removal would succeed. */
  datatype Entry = Entry(name: string, stat: Stat, removable: bool)

  const AGE := 3600.0

  function Path(e: Entry): string { "faces/" + e.name }

  function RefsIn(v: Option<string>): set<string> {
    if v.Some? && IsRef(v.value) then {v.value[|PREFIX|..]} else {}
  }

  function Referenced(rows: seq<Row>): set<string> {
    if rows == [] then {}
    else
      var r := rows[|rows| - 1];
      Referenced(rows[..|rows| - 1]) + RefsIn(r.thumb) + RefsIn(r.ctx)
  }

  lemma {:induction false} ReferencedHolds(rows: seq<Row>, i: nat, p: Col)
    requires i < |rows| && Cell(rows[i], p).Some? && IsRef(Cell(rows[i], p).value)
    ensures Cell(rows[i], p).value[|PREFIX|..] in Referenced(rows)
  {
    if i < |rows| - 1 { ReferencedHolds(rows[..|rows| - 1], i, p); }
  }

  /** The sweep removes this file. */
  predicate Swept(e: Entry, referenced: set<string>, now: real) {
    Path(e) !in referenced && !e.stat.NoTime? && (e.stat.Modified? ==> e.stat.at <= now - AGE) && e.removable
  }

  function Kept(files: Files, entries: seq<Entry>, referenced: set<string>, now: real): Files {
    if entries == [] then files
    else
      var e := entries[|entries| - 1];
      var before := Kept(files, entries[..|entries| - 1], referenced, now);
      if Swept(e, referenced, now) then before - {Path(e)} else before
  }

  /** `sweep_orphans`; nothing is removed when no reference is known, as after a failed query. */
  method Sweep(rows: seq<Row>, queried: bool, files: Files, entries: seq<Entry>, now: real) returns (left: Files)
    ensures left == if queried && Referenced(rows) != {} then Kept(files, entries, Referenced(rows), now) else files
  {
    var referenced: set<string> := {};
    if queried {
      for n := 0 to |rows|
        invariant referenced == Referenced(rows[..n])
      {
        TakeNext(rows, n);
        referenced := referenced + RefsIn(rows[n].thumb) + RefsIn(rows[n].ctx);
      }
      TakeAll(rows);
    }
    left := files;
    if referenced == {} { return; }
    for n := 0 to |entries|
      invariant left == Kept(files, entries[..n], referenced, now)
    {
      TakeNext(entries, n);
      var e := entries[n];
      if Path(e) in referenced { continue; }
      match e.stat {
        case Unreadable =>
        case NoTime => continue;
        case Modified(at) => if at > now - AGE { continue; }
      }
      if e.removable { left := left - {Path(e)}; }
    }
    TakeAll(entries);
  }

  /** A file survives exactly if no entry for it is swept. */
  lemma {:induction false} KeptExactly(files: Files, entries: seq<Entry>, referenced: set<string>,
                                     now: real, rel: string)
    ensures rel in Kept(files, entries, referenced, now) <==>
            rel in files && forall i :: 0 <= i < |entries| && Path(entries[i]) == rel ==>
              !Swept(entries[i], referenced, now)
    ensures rel in Kept(files, entries, referenced, now) ==> Kept(files, entries, referenced, now)[rel] == files[rel]
  {
    if entries != [] {
      KeptExactly(files, entries[..|entries| - 1], referenced, now, rel);
      InitLast(entries);
      hide Swept, Path;
    }
  }

  /** The directory says that the file was written within the last hour. */
  ghost predicate Young(entries: seq<Entry>, rel: string, now: real) {
    forall i :: 0 <= i < |entries| && Path(entries[i]) == rel ==>
      entries[i].stat.Modified? && now - entries[i].stat.at < AGE
  }

  /** No cell of the table changes its meaning, and no file with a time within the hour is removed. */
  lemma {:induction false} SweepKeepsMeaning(c: Codec, rows: seq<Row>, files: Files, entries: seq<Entry>, now: real)
    ensures SameMeaning(c, Disk(rows, files), Disk(rows, Kept(files, entries, Referenced(rows), now)))
    ensures forall rel :: rel in files && Young(entries, rel, now) ==>
              rel in Kept(files, entries, Referenced(rows), now)
  {
    var referenced := Referenced(rows);
    var left := Kept(files, entries, referenced, now);
    forall rel
      ensures rel in left <==>
              rel in files && forall i :: 0 <= i < |entries| && Path(entries[i]) == rel ==>
                !Swept(entries[i], referenced, now)
      ensures rel in left ==> left[rel] == files[rel]
    {
      KeptExactly(files, entries, referenced, now, rel);
    }
    forall i, p | 0 <= i < |rows| ensures Meaning(c, left, Cell(rows[i], p)) == Meaning(c, files, Cell(rows[i], p)) {
      if Cell(rows[i], p).Some? && IsRef(Cell(rows[i], p).value) { ReferencedHolds(rows, i, p); }
    }
  }

  /**
    A file just written whose metadata cannot be read is removed all the same, before the row that
    will refer to it is there: the guard of an hour only looks at times it gets.
   */
  lemma UnreadableYoungFileIsSwept(rows: seq<Row>, files: Files, rel: string, name: string, now: real)
    requires rel == "faces/" + name && rel in files && rel !in Referenced(rows)
    ensures rel !in Kept(files, [Entry(name, Unreadable, true)], Referenced(rows), now)
    ensures rel in Kept(files, [Entry(name, Modified(now), true)], Referenced(rows), now)
    ensures rel in Kept(files, [Entry(name, NoTime, true)], Referenced(rows), now)
  {
    KeptExactly(files, [Entry(name, Unreadable, true)], Referenced(rows), now, rel);
    KeptExactly(files, [Entry(name, Modified(now), true)], Referenced(rows), now, rel);
    KeptExactly(files, [Entry(name, NoTime, true)], Referenced(rows), now, rel);
    hide Kept, Referenced;
    var e := [Entry(name, Unreadable, true)];
    assert Path(e[0]) == rel && Swept(e[0], Referenced(rows), now);
  }

  /** What the sweep removes, exactly: files of the directory that no cell refers to, older than an hour or without
      readable metadata. */
  lemma SweepExactly(rows: seq<Row>, files: Files, entries: seq<Entry>, now: real, rel: string)
    ensures rel in Kept(files, entries, Referenced(rows), now)
            <==> && rel in files
                 && forall i :: 0 <= i < |entries| && "faces/" + entries[i].name == rel ==>
                      || !entries[i].removable || entries[i].stat.NoTime?
                      || (entries[i].stat.Modified? && now - entries[i].stat.at < 3600.0)
                      || exists j, p :: 0 <= j < |rows| && Cell(rows[j], p) == Some("@file:" + rel)
  {
    KeptExactly(files, entries, Referenced(rows), now, rel);
    ReferencedExactly(rows, rel);
    hide Kept, Referenced;
    forall i | 0 <= i < |entries| && Path(entries[i]) == rel
      ensures !Swept(entries[i], Referenced(rows), now)
              <==> || !entries[i].removable || entries[i].stat.NoTime?
                   || (entries[i].stat.Modified? && now - entries[i].stat.at < 3600.0)
                   || rel in Referenced(rows)
    {
    }
  }

  lemma {:induction false} ReferencedExactly(rows: seq<Row>, rel: string)
    ensures rel in Referenced(rows) <==> exists j, p :: 0 <= j < |rows| && Cell(rows[j], p) == Some("@file:" + rel)
  {
    if rows != [] {
      var n := |rows| - 1;
      ReferencedExactly(rows[..n], rel);
      RefsInExactly(rows[n].thumb, rel);
      RefsInExactly(rows[n].ctx, rel);
      hide RefsIn;
      if j, p :| 0 <= j < |rows| && Cell(rows[j], p) == Some("@file:" + rel) {
        if j < n { assert Cell(rows[..n][j], p) == Some("@file:" + rel); }
      }
      if j, p :| 0 <= j < n && Cell(rows[..n][j], p) == Some("@file:" + rel) {
        assert Cell(rows[j], p) == Some("@file:" + rel);
      }
      if rows[n].thumb == Some("@file:" + rel) { assert Cell(rows[n], Thumb) == Some("@file:" + rel); }
      if rows[n].ctx == Some("@file:" + rel) { assert Cell(rows[n], Ctx) == Some("@file:" + rel); }
    }
  }

  lemma RefsInExactly(v: Option<string>, rel: string)
    ensures rel in RefsIn(v) <==> v == Some("@file:" + rel)
  {
    assert ("@file:" + rel)[|PREFIX|..] == rel;
    if v.Some? && IsRef(v.value) { assert v.value == PREFIX + v.value[|PREFIX|..]; }
  }
}
