/** What one whole pass does to the engine, while other connections may commit between any two page
    reads. A source grows from `before` to `after` during the pass. */
module SyncRounds {
  import opened Wrappers
  import opened Index
  import opened LivePools
  import opened SyncEngine
  import opened SyncTables

  /** All message tables, and each file's commit counter. */
  datatype Source = Source(tables: map<TableId, seq<Row>>, version: map<string, int>)

  function RowsOf(src: Source, t: TableId): seq<Row> {
    if t in src.tables then src.tables[t] else []
  }

  ghost predicate SourceOk(src: Source) {
    forall t :: Ascending(RowsOf(src, t))
  }

  /** Commits only append. */
  ghost predicate Grown(before: Source, after: Source) {
    forall t :: RowsOf(before, t) <= RowsOf(after, t)
  }

  predicate Distinct<T(==)>(s: seq<T>) {
    forall i, j :: 0 <= i < j < |s| ==> s[i] != s[j]
  }

  ghost predicate FileSees(before: Source, after: Source, f: FileRound) {
    && Distinct(f.tables)
    && (forall x :: x in f.tables ==>
          PagesGrow(f, x, RowsOf(before, TableId(f.rel, x)), RowsOf(after, TableId(f.rel, x)), 0))
  }

  ghost predicate OneEach(files: seq<FileRound>) {
    forall i, j :: 0 <= i < j < |files| ==> files[i].rel != files[j].rel
  }

  /** Every page read of the pass saw a state of the table between `before` and `after`. */
  ghost predicate Sees(before: Source, after: Source, files: seq<FileRound>) {
    OneEach(files) && forall i :: 0 <= i < |files| ==> FileSees(before, after, files[i])
  }

  /** The watermark is the key of the last row at or below it. */
  ghost predicate MarkFits(store: Store, rows: seq<Row>, t: TableId) {
    MarkOf(store, t) == MarkAt(rows, Position(rows, MarkOf(store, t)))
  }

  ghost predicate MarksFit(store: Store, src: Source) {
    forall t :: MarkFits(store, RowsOf(src, t), t)
  }

  lemma MarkStillFits(store: Store, rows: seq<Row>, more: seq<Row>, t: TableId)
    requires Ascending(more) && rows <= more && MarkFits(store, rows, t)
    ensures MarkFits(store, more, t)
    ensures Position(more, MarkOf(store, t)) == Position(rows, MarkOf(store, t))
    ensures Upto(more, MarkOf(store, t)) == Upto(rows, MarkOf(store, t))
  {
    var n := Position(rows, MarkOf(store, t));
    assert Ascending(rows) && MarkAt(rows, n) == MarkAt(more, n);
    PositionOfMark(rows, n);
    PositionOfMark(more, n);
  }

  /** How many rows of a table lie above its watermark. */
  function Backlog(store: Store, src: Source, t: TableId): nat {
    |Above(RowsOf(src, t), MarkOf(store, t))|
  }

  // ---- reading -------------------------------------------------------------------------

  /** The rows got of a table are the slice that starts at its watermark. */
  ghost predicate NextSlice(store: Store, rows: seq<Row>, t: TableId, got: seq<Row>) {
    var n := Position(rows, MarkOf(store, t));
    n + |got| <= |rows| && got == rows[n..n + |got|]
  }

  /** What draining a list of tables of one file gives, seen from one table. */
  ghost predicate TablePart(store: Store, rel: string, tables: seq<string>, read: FileRead, before: Source, after: Source, t: TableId)
    requires read.FileRead?
  {
    var got := Of(read.rows, t);
    && NextSlice(store, RowsOf(after, t), t, got)
    && (t.rel != rel || t.table !in tables ==> got == [])
    && (t.rel == rel && t.table in tables && before == after ==> |got| == Min(Backlog(store, after, t), ROUND_CAP))
  }

  lemma NothingIsNextSlice(store: Store, rows: seq<Row>, t: TableId)
    ensures NextSlice(store, rows, t, [])
  {
  }

  lemma {:induction false} DrainedTable(
    store: Store, f: FileRound, tables: seq<string>, before: Source, after: Source, t: TableId)
    requires SourceOk(after) && Grown(before, after) && MarksFit(store, before) && FileSees(before, after, f)
    requires Distinct(tables) && forall x :: x in tables ==> x in f.tables
    ensures
      var read := DrainTables(store, f, tables);
      read.FileRead? ==> TablePart(store, f.rel, tables, read, before, after, t)
    decreases |tables|
  {
    if tables == [] {
      NothingIsNextSlice(store, RowsOf(after, t), t);
    } else {
      var rest, id := tables[1..], TableId(f.rel, tables[0]);
      DrainedTable(store, f, rest, before, after, t);
      FirstTable(store, f, tables[0], before, after);
      assert tables[0] !in rest;
      var first, others := DrainTable(f, tables[0], MarkOf(store, id), 0), DrainTables(store, f, rest);
      if first.TableRead? && others.FileRead? {
        AfterRows(id, first, others, t);
      }
    }
  }

  lemma AfterRows(id: TableId, first: TableRead, rest: FileRead, t: TableId)
    requires first.TableRead? && rest.FileRead?
    ensures
      var got := Of(After(Tag(id, first.rows), first.all, rest).rows, t);
      && (t != id ==> got == Of(rest.rows, t))
      && (t == id && Of(rest.rows, t) == [] ==> got == first.rows)
  {
    OfConcat(Tag(id, first.rows), rest.rows, t);
    OfTag(id, first.rows, t);
  }

  /** One table drained from its watermark. */
  lemma FirstTable(store: Store, f: FileRound, x: string, before: Source, after: Source)
    requires SourceOk(after) && Grown(before, after) && MarksFit(store, before) && FileSees(before, after, f)
    requires x in f.tables
    ensures
      var t := TableId(f.rel, x);
      var read := DrainTable(f, x, MarkOf(store, t), 0);
      read.TableRead? ==>
        && NextSlice(store, RowsOf(after, t), t, read.rows)
        && (before == after ==>
              && |read.rows| == Min(Backlog(store, after, t), ROUND_CAP)
              && (read.all <==> Backlog(store, after, t) < ROUND_CAP))
  {
    hide DrainTable, NextSlice, MarkFits, PagesGrow, Ascending, Above, MarkOf, Min;
    FirstTableOf(store, f, x, RowsOf(before, TableId(f.rel, x)), RowsOf(after, TableId(f.rel, x)));
  }

  lemma FirstTableOf(store: Store, f: FileRound, x: string, low: seq<Row>, high: seq<Row>)
    requires Ascending(high) && low <= high && MarkFits(store, low, TableId(f.rel, x)) && PagesGrow(f, x, low, high, 0)
    ensures
      var t := TableId(f.rel, x);
      var read := DrainTable(f, x, MarkOf(store, t), 0);
      read.TableRead? ==>
        && NextSlice(store, high, t, read.rows)
        && (low == high ==>
              && |read.rows| == Min(|Above(high, MarkOf(store, t))|, ROUND_CAP)
              && (read.all <==> |Above(high, MarkOf(store, t))| < ROUND_CAP))
  {
    hide PagesGrow, Ascending, Position, DrainTable, MarkAt, Above, MarkFits, MarkOf;
    var t := TableId(f.rel, x);
    MarkStillFits(store, low, high, t);
    FitsAt(store, high, t);
    ReadsNext(f, x, low, high, Position(high, MarkOf(store, t)));
  }

  /** A table drained from the mark of its first `n` rows. */
  lemma ReadsNext(f: FileRound, x: string, low: seq<Row>, high: seq<Row>, n: nat)
    requires Ascending(high) && low <= high && n <= |low| && PagesGrow(f, x, low, high, 0)
    ensures
      var read := DrainTable(f, x, MarkAt(high, n), 0);
      read.TableRead? ==>
        && n + |read.rows| <= |high| && read.rows == high[n..n + |read.rows|]
        && (low == high ==> |read.rows| == Min(|high| - n, ROUND_CAP) && (read.all <==> |high| - n < ROUND_CAP))
  {
    hide PagesGrow, Ascending, DrainTable, IsSlice, MarkAt;
    DrainReadsSlice(f, x, low, high, n, 0);
    SliceFromMark(DrainTable(f, x, MarkAt(high, n), 0), low, high, n);
  }

  lemma FitsAt(store: Store, rows: seq<Row>, t: TableId)
    requires Ascending(rows) && MarkFits(store, rows, t)
    ensures
      var n := Position(rows, MarkOf(store, t));
      MarkOf(store, t) == MarkAt(rows, n) && |Above(rows, MarkOf(store, t))| == |rows| - n
  {
    PositionOfMark(rows, Position(rows, MarkOf(store, t)));
  }

  lemma SliceFromMark(read: TableRead, low: seq<Row>, high: seq<Row>, n: nat)
    requires IsSlice(read, low, high, n, ROUND_CAP) && n <= |high|
    ensures read.TableRead? ==>
              && n + |read.rows| <= |high| && read.rows == high[n..n + |read.rows|]
              && (low == high ==> |read.rows| == Min(|high| - n, ROUND_CAP) && (read.all <==> |high| - n < ROUND_CAP))
  {
  }

  /** A file that stands still is read to its end exactly when no table's backlog reaches the cap. */
  lemma {:induction false} DrainedAllIffSmall(store: Store, f: FileRound, tables: seq<string>, src: Source)
    requires SourceOk(src) && MarksFit(store, src) && FileSees(src, src, f)
    requires forall x :: x in tables ==> x in f.tables
    ensures
      var read := DrainTables(store, f, tables);
      read.FileRead? ==>
        (read.all <==> forall x :: x in tables ==> Backlog(store, src, TableId(f.rel, x)) < ROUND_CAP)
    decreases |tables|
  {
    if tables != [] {
      DrainedAllIffSmall(store, f, tables[1..], src);
      FirstTable(store, f, tables[0], src, src);
      assert forall x :: x in tables <==> x == tables[0] || x in tables[1..];
    }
  }

  /** Two pools agree on everything that concerns one file. */
  predicate SameEntry(p: PoolState, q: PoolState, rel: string) {
    && (rel in p.keyless <==> rel in q.keyless)
    && (rel in p.dbs <==> rel in q.dbs)
    && (rel in p.dbs ==> p.dbs[rel] == q.dbs[rel])
  }

  lemma ReadFileIsLocal(store: Store, p: PoolState, q: PoolState, f: FileRound, other: string)
    requires SameEntry(p, q, f.rel)
    ensures ReadFile(store, p, f).1 == ReadFile(store, q, f).1
    ensures SameEntry(ReadFile(store, p, f).0, ReadFile(store, q, f).0, f.rel)
    ensures other != f.rel ==> SameEntry(ReadFile(store, p, f).0, p, other)
  {
  }

  ghost predicate Unlisted(rel: string, work: seq<FileRound>) {
    forall i :: 0 <= i < |work| ==> work[i].rel != rel
  }

  /** How a file that was not worked on shows in the batch and in the pool. */
  lemma {:induction false} BatchWithout(store: Store, pool: PoolState, work: seq<FileRound>, rel: string, t: TableId)
    requires Unlisted(rel, work)
    ensures SameEntry(ReadFiles(store, pool, work).0, pool, rel)
    ensures
      var batch := ReadFiles(store, pool, work).1;
      batch.Some? ==> rel !in batch.value.done && (t.rel == rel ==> Of(batch.value.rows, t) == [])
    decreases |work|
  {
    if work != [] {
      var f := work[0];
      var (pool1, read) := ReadFile(store, pool, f);
      assert f.rel != rel;
      assert forall i :: 0 <= i < |work[1..]| ==> work[1..][i] == work[i + 1];
      BatchWithout(store, pool1, work[1..], rel, t);
      ReadFileIsLocal(store, pool, pool, f, rel);
      var (pool2, tail) := ReadFiles(store, pool1, work[1..]);
      if !read.FileFailed? && tail.Some? {
        JoinedRows(f.rel, read, tail.value, t);
        if t.rel == rel {
          OtherFileRows(store, pool, f, t);
        }
      }
    }
  }

  lemma {:induction false} OtherFilesRows(store: Store, f: FileRound, tables: seq<string>, t: TableId)
    requires t.rel != f.rel
    ensures DrainTables(store, f, tables).FileRead? ==> Of(DrainTables(store, f, tables).rows, t) == []
    decreases |tables|
  {
    if tables != [] {
      OtherFilesRows(store, f, tables[1..], t);
      var id := TableId(f.rel, tables[0]);
      var first, others := DrainTable(f, tables[0], MarkOf(store, id), 0), DrainTables(store, f, tables[1..]);
      if first.TableRead? && others.FileRead? {
        OfConcat(Tag(id, first.rows), others.rows, t);
        OfTag(id, first.rows, t);
      }
    }
  }

  /** How a file of the work list shows in the batch and in the pool: as if it were read alone. */
  lemma {:induction false} BatchWith(store: Store, pool: PoolState, work: seq<FileRound>, i: nat, t: TableId)
    requires OneEach(work) && i < |work| && t.rel == work[i].rel
    ensures
      var (pool', batch) := ReadFiles(store, pool, work);
      var (mine, read) := ReadFile(store, pool, work[i]);
      batch.Some? ==>
        && !read.FileFailed?
        && SameEntry(pool', mine, t.rel)
        && (t.rel in batch.value.done <==> read.FileRead? && read.all)
        && Of(batch.value.rows, t) == RowsIn(read, t)
    decreases |work|
  {
    var f, rest := work[0], work[1..];
    var (pool1, read) := ReadFile(store, pool, f);
    var (pool2, tail) := ReadFiles(store, pool1, rest);
    assert forall j :: 0 <= j < |rest| ==> rest[j] == work[j + 1];
    if !read.FileFailed? && tail.Some? {
      JoinedRows(f.rel, read, tail.value, t);
      if i == 0 {
        BatchWithout(store, pool1, rest, t.rel, t);
      } else {
        BatchWith(store, pool1, rest, i - 1, t);
        ReadFileIsLocal(store, pool, pool, f, t.rel);
        ReadFileIsLocal(store, pool1, pool, work[i], t.rel);
        OtherFileRows(store, pool, f, t);
      }
    }
  }

  function RowsIn(read: FileRead, t: TableId): seq<Row> {
    if read.FileRead? then Of(read.rows, t) else []
  }

  lemma JoinedRows(rel: string, read: FileRead, rest: Batch, t: TableId)
    requires !read.FileFailed?
    ensures
      var batch := Joined(rel, read, rest);
      && (Of(rest.rows, t) == [] ==> Of(batch.rows, t) == RowsIn(read, t))
      && (RowsIn(read, t) == [] ==> Of(batch.rows, t) == Of(rest.rows, t))
      && (forall r: string :: r in batch.done <==> (r == rel && read.FileRead? && read.all) || r in rest.done)
  {
    if read.FileRead? {
      OfConcat(read.rows, rest.rows, t);
    }
  }

  lemma OtherFileRows(store: Store, pool: PoolState, f: FileRound, t: TableId)
    requires t.rel != f.rel
    ensures RowsIn(ReadFile(store, pool, f).1, t) == []
  {
    OtherFilesRows(store, f, f.tables, t);
  }

  /** Whatever a batch holds of a table is the slice that starts at its watermark. */
  lemma BatchIsSlice(store: Store, pool: PoolState, work: seq<FileRound>, before: Source, after: Source, t: TableId)
    requires SourceOk(after) && Grown(before, after) && MarksFit(store, before) && Sees(before, after, work)
    ensures
      var batch := ReadFiles(store, pool, work).1;
      batch.Some? ==> NextSlice(store, RowsOf(after, t), t, Of(batch.value.rows, t))
  {
    if Unlisted(t.rel, work) {
      BatchWithout(store, pool, work, t.rel, t);
      NothingIsNextSlice(store, RowsOf(after, t), t);
    } else {
      var i: nat :| i < |work| && work[i].rel == t.rel;
      BatchWith(store, pool, work, i, t);
      DrainedTable(store, work[i], work[i].tables, before, after, t);
      NothingIsNextSlice(store, RowsOf(after, t), t);
    }
  }

  /** Whether or not it succeeds, reading leaves every open connection open, on its old baseline. */
  lemma {:induction false} BaselinesStay(store: Store, pool: PoolState, work: seq<FileRound>, rel: string)
    requires OpenIn(pool, rel)
    ensures
      var after := ReadFiles(store, pool, work).0;
      OpenIn(after, rel) && after.dbs[rel].baseline == pool.dbs[rel].baseline
    decreases |work|
  {
    if work != [] {
      var pool1 := ReadFile(store, pool, work[0]).0;
      assert OpenIn(pool1, rel) && pool1.dbs[rel].baseline == pool.dbs[rel].baseline;
      BaselinesStay(store, pool1, work[1..], rel);
    }
  }

  /** The work list is part of the files, in their order. */
  lemma {:induction false} WorkIsPart(pool: PoolState, stamps: map<string, int>, files: seq<FileRound>)
    requires OneEach(files)
    ensures OneEach(Work(pool, stamps, files))
    ensures forall f :: f in Work(pool, stamps, files) <==> f in files && Changed(pool, stamps, f)
  {
    if files != [] {
      var init, last := files[..|files| - 1], files[|files| - 1];
      WorkIsPart(pool, stamps, init);
      assert files == init + [last];
      forall i | 0 <= i < |Work(pool, stamps, init)| ensures Work(pool, stamps, init)[i].rel != last.rel {
        assert Work(pool, stamps, init)[i] in init;
      }
    }
  }

  lemma WorkSees(e: Engine, files: seq<FileRound>, before: Source, after: Source)
    requires Sees(before, after, files)
    ensures Sees(before, after, Work(e.pool, e.stamps, files))
  {
    WorkIsPart(e.pool, e.stamps, files);
    var work := Work(e.pool, e.stamps, files);
    forall i | 0 <= i < |work| ensures FileSees(before, after, work[i]) {
      assert work[i] in files;
    }
  }

  // ---- the effect of a pass on the tables ---------------------------------------------------

  /** From `e` to `e'` a table moved by one slice: stored once, announced once with its
      revocations, watermark at its end. */
  ghost predicate Moved(e: Engine, e': Engine, rows: seq<Row>, t: TableId) {
    var n, m := Position(rows, MarkOf(e.store, t)), Position(rows, MarkOf(e'.store, t));
    && n <= m
    && MarkFits(e'.store, rows, t)
    && HeldOf(e'.store, t) == HeldOf(e.store, t) + ToRecords(Ordinary(rows[n..m]), e.store.myWxid)
    && Announced(e'.log, t) == Announced(e.log, t) + Incoming(Ordinary(rows[n..m]), e.store.myWxid)
    && Revoked(e'.log, t) == Revoked(e.log, t) + Revocations(rows[n..m])
  }

  lemma SliceMoves(e: Engine, e': Engine, rows: seq<Row>, t: TableId, got: seq<Row>)
    requires Ascending(rows) && MarkFits(e.store, rows, t) && NextSlice(e.store, rows, t, got)
    requires MarkOf(e'.store, t) == if got == [] then MarkOf(e.store, t) else got[|got| - 1].key
    requires HeldOf(e'.store, t) == HeldOf(e.store, t) + ToRecords(Ordinary(got), e.store.myWxid)
    requires Announced(e'.log, t) == Announced(e.log, t) + Incoming(Ordinary(got), e.store.myWxid)
    requires Revoked(e'.log, t) == Revoked(e.log, t) + Revocations(got)
    ensures Moved(e, e', rows, t)
    ensures Position(rows, MarkOf(e'.store, t)) == Position(rows, MarkOf(e.store, t)) + |got|
  {
    hide Ascending, Position, MarkAt, Ordinary, ToRecords, Incoming, Announced, Revocations, Revoked, HeldOf, MarkOf;
    var n := Position(rows, MarkOf(e.store, t));
    MarkAfter(rows, n, got, MarkOf(e.store, t), MarkOf(e'.store, t));
  }

  lemma MarkAfter(rows: seq<Row>, n: nat, got: seq<Row>, mark: Watermark, mark': Watermark)
    requires Ascending(rows) && n + |got| <= |rows| && got == rows[n..n + |got|]
    requires mark == MarkAt(rows, n)
    requires mark' == if got == [] then mark else got[|got| - 1].key
    ensures mark' == MarkAt(rows, n + |got|) && Position(rows, mark') == n + |got|
  {
    assert mark' == MarkAt(rows, n + |got|);
    PositionOfMark(rows, n + |got|);
  }

  lemma StillMoves(e: Engine, e': Engine, rows: seq<Row>, t: TableId)
    requires MarkFits(e.store, rows, t) && e'.store == e.store && e'.log == e.log
    ensures Moved(e, e', rows, t)
  {
    var n := Position(rows, MarkOf(e.store, t));
    assert rows[n..n] == [] && ToRecords([], e.store.myWxid) == [];
  }

  /** The rows a pass applies: none when it is aborted or retired before phase 2. */
  ghost function Applied(e: Engine, r: Round): seq<Tagged> {
    var work := Work(e.pool, e.stamps, r.files);
    var batch := ReadFiles(e.store, e.pool, work).1;
    if e.stopped || work == [] || batch.None? || r.retirement == BeforeApply then [] else batch.value.rows
  }

  lemma PollApplies(e: Engine, r: Round)
    ensures Poll(e, r).wxid == e.wxid && Poll(e, r).store.myWxid == e.store.myWxid
    ensures Applied(e, r) == [] || (Poll(e, r).store, Poll(e, r).log) == (Apply(e, Applied(e, r)).store, Apply(e, Applied(e, r)).log)
    ensures Applied(e, r) == [] ==> Poll(e, r).store == e.store && Poll(e, r).log == e.log
    ensures e.stopped ==> Poll(e, r).stopped
  {
    assert ApplyRows(e.store.held, [], e.store.myWxid) == e.store.held;
    assert e.log + [] + [] == e.log;
    if Applied(e, r) == [] {
      assert Apply(e, []).store == e.store && Apply(e, []).log == e.log;
    }
  }

  /** Prefix safety of one pass. Whatever commits land between its page reads and whatever fails,
      every table moves by the slice that starts at its watermark, and nothing else happens. */
  lemma PollMovesEveryTable(e: Engine, r: Round, before: Source, after: Source, t: TableId)
    requires SourceOk(after) && Grown(before, after) && MarksFit(e.store, before) && Sees(before, after, r.files)
    ensures Moved(e, Poll(e, r), RowsOf(after, t), t)
    ensures
      Position(RowsOf(after, t), MarkOf(Poll(e, r).store, t))
      == Position(RowsOf(after, t), MarkOf(e.store, t)) + |Of(Applied(e, r), t)|
  {
    var rows := RowsOf(after, t);
    MarkStillFits(e.store, RowsOf(before, t), rows, t);
    PollApplies(e, r);
    if Applied(e, r) == [] {
      StillMoves(e, Poll(e, r), rows, t);
    } else {
      WorkSees(e, r.files, before, after);
      BatchIsSlice(e.store, e.pool, Work(e.pool, e.stamps, r.files), before, after, t);
      ApplyOnTable(e, Applied(e, r), t);
      SliceMoves(e, Poll(e, r), rows, t, Of(Applied(e, r), t));
    }
  }

  /** An aborted pass changes neither rows, nor watermarks, nor events, nor any open file's baseline:
      it is one whose reads failed or that was retired before it could apply. */
  lemma AbortedPollChangesNothing(e: Engine, r: Round, rel: string)
    requires
      || e.stopped
      || r.retirement == BeforeApply
      || ReadFiles(e.store, e.pool, Work(e.pool, e.stamps, r.files)).1.None?
    ensures Poll(e, r).store == e.store && Poll(e, r).log == e.log && Poll(e, r).stamps == e.stamps
    ensures OpenIn(e.pool, rel) ==>
              OpenIn(Poll(e, r).pool, rel) && Poll(e, r).pool.dbs[rel].baseline == e.pool.dbs[rel].baseline
  {
    PollApplies(e, r);
    if OpenIn(e.pool, rel) {
      BaselinesStay(e.store, e.pool, Work(e.pool, e.stamps, r.files), rel);
    }
  }
}
